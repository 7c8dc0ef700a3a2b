# WorldMapZoom family tree — a verified Dafny model

WorldMapZoom keeps a family: persons with residence coordinates, linked as parents, children
and spouses. This project models the non-UI core of that program and proves what it promises:

- **`Families`** (`families.dfy`) — the relationship store `FamilyTree`.
  - The store is a class holding the members (a map keyed by id, plus their insertion order) and the distance graph it owns.
  - Parent/child and spouse links are written on both sides, and never twice.
  - Lookups skip dangling ids.
  - Updating a person rebuilds the graph, one node per member.
- **`Distances`** (`distances.dfy`) — the distance `Graph`.
  - The graph is a class with nodes, insertion order and an adjacency map of weighted `Edge`s.
  - A build step links every ordered pair of distinct nodes.
  - There are three pair scans: farthest, closest and average.
- **`TreeView`** (`tree_view.dfy`) — the two layout algorithms of the tree window.
  - The generation assignment picks founders, seeds level 0, runs a bounded relaxation and fills in -1.
  - The grouping of a generation into couples is a breadth-first walk over same-level spouse links.
- **`People`** (`people.dfy`) — the `Person` record, its defaults, `FullName` and `CalculateAge`.
- **`WebHelpers`** (`web_helpers.dfy`) — `EscapeJson` and `GetMimeType` of the map window.
- **`Wrappers`** (`wrappers.dfy`) — `Option`, standing for a nullable result.

A `Person` is a value (`datatype`). The C# program shares one `Person` object between the store's
dictionary and the graph's node dictionary, and it mutates the object's id lists in place. Here the
store and the graph hold the same map (`FamilyTree.Valid` requires `graph.nodes == members`). A
relationship change replaces both maps with the relinked map at once, so the graph sees the new
lists exactly as the shared objects would show them.

The Haversine distance is not computed. The graph and the store are constructed with a distance
function `dist: Metric` on (lat1, lon1, lat2, lon2), and every edge weight and scan uses it.
`double` values are modelled as `real`, and `double.MaxValue` is the exact constant `MaxDouble`.

## Model

| member | source | states |
|---|---|---|
| People.BeforeIsOrder | Person.cs:55 | DateTime's `<` is a strict total order (transitive, irreflexive, total) |
| People.AddYears | Person.cs:55 | `DateTime.AddYears` moves the year and keeps month, time and day; the day changes exactly when 29 February is moved into a year that is not a leap year, and then it becomes the 28th |
| People.AddYearsBack | Person.cs:55 | moving a valid date n years and back returns it exactly when it is not a 29 February sent into a year that is not a leap year |
| People.NewPerson | Person.cs:28-35 | a new person is alive with no death date, and has empty parent, spouse and children lists |
| People.FullName | Person.cs:37-49 | the full name starts with `FirstName` and always contains `" " + FirstLastName`, right after the optional middle name |
| People.FullNameJoinsParts | Person.cs:37-49 | the full name is the first name, the non-blank second name, the first surname and the non-blank second surname, joined by single spaces |
| People.ReferenceDate | Person.cs:53 | the death date when the person is dead and has one; otherwise "now" |
| People.AgeAt | Person.cs:54-56 | the age is the year difference or one less, and it is the number of whole anniversaries passed: not before the `age`-th, before the next |
| People.AgeAtUnique | Person.cs:54-56 | only one number of years satisfies that anniversary condition |
| People.AgeAtNonNegative | Person.cs:54-57 | a reference date not before the birth gives an age of at least 0 |
| People.CalculateAge | Person.cs:51-58 | only `Age` changes, and it becomes the age at the reference date |
| WebHelpers.Replace | MainForm.cs:482-485 | a string without the character is returned unchanged |
| WebHelpers.ReplaceAppend | MainForm.cs:482-485 | one-character replacement distributes over concatenation |
| WebHelpers.EscapeJson | MainForm.cs:481 | empty input is returned unchanged |
| WebHelpers.EscapeChar | MainForm.cs:482-485 | each special character becomes two characters starting with `\`; any other character is kept |
| WebHelpers.EscapeJsonIsPerCharacter | MainForm.cs:482-485 | the four chained replacements, backslash first, escape each input character independently, so an inserted `\` is never doubled again |
| WebHelpers.UnescapeEscapeJson | MainForm.cs:479-486 | decoding the four escapes recovers the original text |
| WebHelpers.UnescapeEscapeEach | MainForm.cs:482-485 | the same round trip for the per-character reference |
| WebHelpers.EscapeJsonShape | MainForm.cs:482-485 | output length is input length plus the number of `\`, `"`, newline and carriage-return characters; the output has no raw newline or carriage return |
| WebHelpers.EscapeEachShape | MainForm.cs:482-485 | the same length and no-raw-line-break facts for the per-character reference |
| WebHelpers.EscapeJsonPlainText | MainForm.cs:482-485 | a text without special characters is returned unchanged |
| WebHelpers.EscapeEachPlain | MainForm.cs:482-485 | the same for the per-character reference |
| WebHelpers.GetMimeType | MainForm.cs:461-477 | `.png`, `.gif` and `.bmp` map to their image types, each exactly for that extension; everything else, `.jpg` and `.jpeg` included, maps to `image/jpeg` |
| Distances.Values | Graph.cs:46 | `nodes.Values.ToList()`: the records of the ordered keys, position by position |
| Distances.FarthestPair | Graph.cs:98-125 | the scan over pairs i < j meets `IsFarthest`: no pair is farther apart; `(null, null, 0)` when no pair is apart by more than 0; otherwise the first pair in scan order at the maximum |
| Distances.ClosestPair | Graph.cs:129-155 | the scan meets `IsClosest`: no pair is closer; `(null, null, double.MaxValue)` when no pair is under that value; otherwise the first pair in scan order at the minimum |
| Distances.AverageDistance | Graph.cs:159-182 | the result is 0 with fewer than two persons; otherwise it is the pair sum divided by the pair count (`AverageOf`) |
| Distances.FarthestUnique | Graph.cs:98-125 | `IsFarthest` determines the result: two results that meet it are equal |
| Distances.ClosestUnique | Graph.cs:129-155 | `IsClosest` determines the result |
| Distances.ClosestFound | Graph.cs:145-150 | with two or more persons whose first pair is under `double.MaxValue`, the closest pair is found (not null) |
| Distances.CountRowsClosedForm | Graph.cs:168-179 | the scan visits n(n-1)/2 pairs |
| Distances.CountRowsPositive | Graph.cs:162-181 | with at least two persons the pair count is positive, so the division happens |
| Distances.RowSumBounds | Graph.cs:170-178 | a row's sum lies between (pairs visited) × lower bound and (pairs visited) × upper bound |
| Distances.SumRowsBounds | Graph.cs:168-179 | the total lies between pair count × lower bound and pair count × upper bound |
| Distances.AverageBetween | Graph.cs:159-182 | the average lies between any lower and upper bound of all pair distances |
| Distances.AggregatesOrdered | WorldMapZoom.Tests/UnitTest1.cs:339-340 | with at least two persons, closest ≤ average ≤ farthest |
| Distances.TwoPersonsDegenerate | WorldMapZoom.Tests/UnitTest1.cs:167-170 | with two persons, farthest, closest and average distance all equal their distance; the pairs coincide unless the two are at distance 0 |
| Distances.EdgeMap | Graph.cs:78-81 | the dictionary built from an edge list has exactly the edge targets as keys |
| Distances.EdgeMapAppend | Graph.cs:78-81 | later edges overwrite earlier ones |
| Distances.EdgeMapDuplicated | Graph.cs:70-84 | an edge list appended to itself (a second build) yields the same dictionary |
| Distances.EdgeMapOfConsistent | Graph.cs:78-81 | when every edge carries the weight its target should have, the dictionary maps each target to that weight |
| Distances.OutEdgesSound | Graph.cs:49-63 | every edge built from a person leads to another listed person and carries their distance |
| Distances.OutEdgesTargets | Graph.cs:49-63 | the edges built from a person reach every listed id except the person's own |
| Distances.OutEdgesCount | Graph.cs:49-63 | over distinct ids, a person gets exactly one edge to each other listed id and none to itself |
| Distances.BuiltRowsShape | Graph.cs:46-65 | after the rows of the first i persons, those persons' lists gained their edges and the others are untouched |
| Distances.Graph.constructor | Graph.cs:17-21 | a new graph has no nodes and no adjacency lists |
| Distances.Graph.GetAllPersons | Graph.cs:91-94 | the nodes in insertion order |
| Distances.Graph.PersonsDistinct | Graph.cs:91-94 | the listed nodes have distinct ids |
| Distances.Graph.GetPerson | Graph.cs:86-89 | the node stored under the id, or null exactly when there is none |
| Distances.Graph.AddNode | Graph.cs:24-31 | a known id changes nothing (idempotent); a new id is stored, is appended to the order, and gets an empty adjacency list |
| Distances.Graph.AddEdge | Graph.cs:34-40 | one edge is appended to `fromId`'s list when `fromId` has a list; otherwise nothing changes |
| Distances.Graph.BuildDistanceGraph | Graph.cs:44-66 | each list gains the edges to every other node in node order; the graph becomes complete; on empty lists each node has exactly one edge to every other node and none to itself |
| Distances.Graph.AddAllEdges | Graph.cs:46-65 | the nested loops produce the row-by-row edge lists `BuiltRows` |
| Distances.Graph.GetDistancesFrom | Graph.cs:70-84 | empty for an unknown id; otherwise the dictionary of its edges, which on a built graph maps every other node to its distance, however many builds appended duplicates |
| Distances.Graph.DistancesOfComplete | Graph.cs:70-84 | on a consistent, complete graph a node's edge dictionary is exactly the distances to all other nodes |
| Distances.Graph.GetFarthestPair | Graph.cs:98-125 | `IsFarthest` over the nodes in insertion order |
| Distances.Graph.GetClosestPair | Graph.cs:129-155 | `IsClosest` over the nodes in insertion order |
| Distances.Graph.GetAverageDistance | Graph.cs:159-182 | `AverageOf` over the nodes in insertion order |
| Families.AddIfAbsent | FamilyTree.cs:50-53 | afterwards the id is listed; the listed ids are the old ones plus it; an id already listed leaves the list as it was; a new id is appended at the end |
| Families.AddIfAbsentCounts | FamilyTree.cs:50-53 | other ids keep their counts; an id listed at most once before is listed exactly once after |
| Families.WithParent | FamilyTree.cs:46-59 | no member appears or goes; nothing changes unless both ids are members; only the two named persons change, and only in their parent and children lists |
| Families.WithSpouse | FamilyTree.cs:61-74 | no member appears or goes; nothing changes unless both ids are members; only the two named persons change, and only in their spouse lists |
| Families.WithParentLists | FamilyTree.cs:46-59 | exactly the parent id is added to the child's parents and the child id to the parent's children |
| Families.WithParentLinks | FamilyTree.cs:46-59 | afterwards the child lists the parent and the parent lists the child |
| Families.WithParentIdempotent | FamilyTree.cs:46-59 | a second identical call is a no-op |
| Families.WithParentKeepsInverse | FamilyTree.cs:46-59 | parent and children lists that are inverse before stay inverse |
| Families.WithParentOnce | FamilyTree.cs:50-57 | with no duplicate before, each new link is listed exactly once |
| Families.WithSpouseLists | FamilyTree.cs:61-74 | exactly each id is added to the other's spouse list |
| Families.WithSpouseLinks | FamilyTree.cs:61-74 | afterwards each lists the other as spouse |
| Families.WithSpouseIdempotent | FamilyTree.cs:61-74 | a second identical call is a no-op |
| Families.WithSpouseSymmetric | FamilyTree.cs:61-74 | the relation does not depend on which person is named first |
| Families.WithSpouseKeepsSymmetry | FamilyTree.cs:61-74 | symmetric spouse lists stay symmetric |
| Families.WithSpouseOnce | FamilyTree.cs:65-72 | with no duplicate before, each is listed exactly once by the other |
| Families.Relinked | FamilyTree.cs:52-71 | changing only id lists keeps the graph's indexing and its edge weights valid |
| Families.Resolve | FamilyTree.cs:91-94 | the lookup is no longer than the id list |
| Families.ResolveMembers | FamilyTree.cs:91-94 | the lookup holds exactly the members named by the ids |
| Families.ResolveKnown | FamilyTree.cs:91-94 | when every id is a member, the lookup has all of them in list order |
| Families.ResolveAppend | FamilyTree.cs:91-94 | the lookup distributes over concatenation, so unknown ids drop out without reordering the rest |
| Families.Roots | FamilyTree.cs:127-129 | exactly the persons with an empty parent list |
| Families.RootsAppend | FamilyTree.cs:127-129 | the filter keeps list order |
| Families.Spouses | FamilyTree.cs:108-117 | empty for an unknown id; otherwise exactly the listed spouses that are members |
| Families.GraphOf | FamilyTree.cs:38-42 | a new graph with one node per member, in member order, with empty adjacency lists |
| Families.FamilyTree.constructor | FamilyTree.cs:12-16 | no members and an empty graph |
| Families.FamilyTree.Clear | FamilyTree.cs:18-22 | no members and a fresh, empty graph |
| Families.FamilyTree.AddPerson | FamilyTree.cs:24-31 | a known id leaves members, order and graph as they were; a new id is stored, appended to the order, and becomes a graph node with an empty edge list |
| Families.FamilyTree.UpdatePerson | FamilyTree.cs:33-44 | an absent id is a no-op; a known id replaces the record at its place and yields a fresh graph of one node per member with no edges |
| Families.FamilyTree.AddParentRelation | FamilyTree.cs:46-59 | the members become `WithParent` of the old members, and the graph nodes follow them |
| Families.FamilyTree.AddSpouseRelation | FamilyTree.cs:61-74 | the members become `WithSpouse` of the old members, and the graph nodes follow them |
| Families.FamilyTree.GetPerson | FamilyTree.cs:76-79 | the member under the id, or null exactly when there is none |
| Families.FamilyTree.GetAllMembers | FamilyTree.cs:81-84 | the members in insertion order |
| Families.FamilyTree.GetChildren | FamilyTree.cs:86-95 | empty for an unknown id; otherwise exactly the listed children that are members |
| Families.FamilyTree.GetParents | FamilyTree.cs:97-106 | empty for an unknown id; otherwise exactly the listed parents that are members |
| Families.FamilyTree.GetSpouses | FamilyTree.cs:108-117 | empty for an unknown id; otherwise exactly the listed spouses that are members |
| Families.FamilyTree.GetRootMembers | FamilyTree.cs:125-130 | exactly the members with an empty parent list |
| Families.FamilyTree.GetGraph | FamilyTree.cs:119-123 | the owned graph, with every member's list extended by the edges to all other members; the graph is complete |
| TreeView.HasSubstring | FamilyTreeForm.cs:125 | `Contains` holds exactly when the pattern occurs at some position |
| TreeView.NamedFounders | FamilyTreeForm.cs:125 | exactly the persons whose id contains `"gen0"` |
| TreeView.EarliestExcept | FamilyTreeForm.cs:126 | the position that sorts first by birth date (ties by list position) among the others, or -1 when there is none |
| TreeView.EarliestTwo | FamilyTreeForm.cs:126 | two persons from the list (fewer when fewer exist) |
| TreeView.EarliestTwoSorted | FamilyTreeForm.cs:126 | they are the first two of the stable sort by birth date |
| TreeView.Founders | FamilyTreeForm.cs:124-126 | parentless members only; exactly those whose id contains `"gen0"` when any does; otherwise the two earliest-born parentless members |
| TreeView.SeedIdsStep | FamilyTreeForm.cs:128-141 | one founder adds its id and its spouse ids to the seeds |
| TreeView.ParentLevel | FamilyTreeForm.cs:149-150 | none exactly when no parent is leveled; otherwise the highest parent level |
| TreeView.LevelSpouses | FamilyTreeForm.cs:135-139 | existing levels are kept; every listed spouse has a level afterwards; new levels are listed spouses at the given value |
| TreeView.SeedFounders | FamilyTreeForm.cs:128-141 | exactly the founders and their spouses get level 0 |
| TreeView.ExtendsKeepsJustified | FamilyTreeForm.cs:147-163 | a level justified by a parent or spouse stays justified when more levels are written |
| TreeView.SeedRelaxed | FamilyTreeForm.cs:128-141 | the seeded map is a valid start |
| TreeView.RelaxedStep | FamilyTreeForm.cs:150-163 | leveling a person at max parent level + 1, and its unleveled spouses equally, keeps every level justified |
| TreeView.WrittenExtends | FamilyTreeForm.cs:147-163 | a level written in the current pass keeps its witness when more levels are written |
| TreeView.WrittenStep | FamilyTreeForm.cs:149-163 | leveling a person at max parent level + 1, with its unleveled spouses, writes only levels above every parent leveled when the pass began |
| TreeView.ByParentsExtends | FamilyTreeForm.cs:147-163 | a member leveled through a parent, with all its spouses leveled, stays so when more levels are written |
| TreeView.ByParentsStep | FamilyTreeForm.cs:149-163 | leveling a person through a parent, then every spouse it lists that has no level, records it as leveled through its parents with all spouses leveled |
| TreeView.PassAssignLed | FamilyTreeForm.cs:149-163 | one parent-plus-spouses step adds its position to the pass's record and keeps every write explained by it |
| TreeView.Pass | FamilyTreeForm.cs:146-165 | a pass never overwrites a level; it reports a change exactly when it levels someone new through its parents; without a change nobody is left to level; it keeps levels justified; each member it levels through a parent has a parent one below and every spouse it lists has a level afterwards; every level it writes is such a member's or a spouse's it lists, at the same level, above every parent leveled when the pass began |
| TreeView.MemberIdsBound | FamilyTreeForm.cs:143-166 | there are no more member ids than members |
| TreeView.LeveledGrows | FamilyTreeForm.cs:144-154 | a pass that reports a change levels one more member |
| TreeView.LeveledBound | FamilyTreeForm.cs:143-166 | at most every member is leveled |
| TreeView.RelaxWritten | FamilyTreeForm.cs:143-166 | a pass's record joined to the earlier passes' explains every level above the seeds |
| TreeView.Relax | FamilyTreeForm.cs:143-166 | at most 20 passes stopping after an unchanged one; seeds kept, levels justified; with fewer than 20 members it stops at a fixed point; every non-seed level belongs to a member leveled through a parent, or to a spouse it lists at the same level, and every spouse such a member lists has a level |
| TreeView.FillUnreached | FamilyTreeForm.cs:168-172 | every member gets a level; the new levels are members' and are -1 |
| TreeView.CalculateGenerations | FamilyTreeForm.cs:116-175 | empty without members; every member has a level ≥ -1; level 0 exactly for founders and their spouses; each level ≥ 1 has a parent one below, or a spouse at the same level who has a parent one below; -1 only for members, whose parents are also unleveled when the relaxation converged; every level ≥ 1 belongs to a member leveled through a parent one below, or to a spouse that member lists at the same level; no spouse listed by such a member is left at -1 |
| TreeView.GenerationsFacts | FamilyTreeForm.cs:143-172 | the three phases together give those promises |
| TreeView.GenerationsByParents | FamilyTreeForm.cs:143-172 | the relaxation's record of members leveled through parents carries over the -1 fill: those members are above 0, their spouses are not -1, and every level above 0 is theirs or their spouses' |
| TreeView.Enqueued | FamilyTreeForm.cs:227-228 | exactly the spouses not processed and at the given generation |
| TreeView.EnqueuedLinks | FamilyTreeForm.cs:227-229 | each queued spouse is a member the current person lists; every such unprocessed spouse at the level is queued |
| TreeView.SearchStart | FamilyTreeForm.cs:215-217 | the queue holding the root starts the search |
| TreeView.SearchSkip | FamilyTreeForm.cs:221-222 | discarding a processed person keeps the search state |
| TreeView.SearchVisit | FamilyTreeForm.cs:224-229 | taking an unprocessed person and queueing its spouses keeps the search state |
| TreeView.SearchProgress | FamilyTreeForm.cs:224 | processing a new reachable id shrinks what is left |
| TreeView.SearchDone | FamilyTreeForm.cs:219-231 | an empty queue gives BuildFamilyGroup's promises |
| TreeView.BuildFamilyGroup | FamilyTreeForm.cs:213-232 | `processed` gains exactly the group's ids; no one is returned twice or was processed before; all are at the root's generation; empty when the root was processed, otherwise the root first; each later person is a spouse of an earlier one; the group's same-generation spouses all end up processed |

## Left out

- Haversine trigonometry (DistanceCalculator.cs) is a given function `dist`, not computed. Lemmas that need a bound on it state that bound in their `requires`; the concrete distances of the tests are not modelled.
- Floating point: `double` is `real`, so rounding in the sum, the average and the comparisons is not modelled.
- Distances.AverageDistance: the pair count is an unbounded `int`. The source's 32-bit `int count` (Graph.cs:165) would wrap above 2^31 - 1 pairs, that is, with more than 65,536 persons; the model does not capture that.
- `Person` is a value, not an object. The store and the graph hold one shared map instead of shared objects. `CalculateAge` returns the updated record instead of assigning `Age`.
- `new Person()` draws a fresh GUID; `NewPerson` takes the id as a parameter. `DateTime.Now` is the parameter `now`.
- `null` strings and lists are modelled as empty ones. This is equivalent for `IsNullOrWhiteSpace`, `FullName`, `EscapeJson` and the founders' `ParentIds == null` test.
- `FamilyTree.RemovePerson` is not part of this model: it is not defined in FamilyTree.cs.
- Console output in CalculateGenerationsFixed, and all layout, painting, photo, WebView and form code, are not modelled. The same goes for DataLoader.cs (file I/O and JSON parsing).
- The form's `_generations` field is the result of `CalculateGenerations`. The caller's `processed` HashSet is passed to `BuildFamilyGroup` and returned updated.
- TreeView.BuildFamilyGroup: its contract fixes the root first, and that each later person is a spouse of an earlier one. It does not state the exact breadth-first order of the queue (FamilyTreeForm.cs:219-229), in which the layout places the group.
- TreeView.BuildFamilyGroup: requires the root to have a generation and the member map to be keyed by id. The source looks up `_generations[current.Id]` unguarded, and its only caller passes a leveled member.
- TreeView.SeedFounders: the founder loop's unconditional `_generations[founder.Id] = 0` is modelled as written. It can only overwrite a 0 written for an earlier founder's spouse.
- TreeView.Pass: the exact value written, the highest parent level at that moment plus 1, is computed with `ParentLevel` but not restated in the contract. The contract bounds it from both sides: above every parent leveled when the pass began, and exactly one above some leveled parent (itself or through a spouse).
- TreeView.Relax: its contract states that every level is justified by a leveled parent one level lower, or by a same-level spouse who has one, and that every spouse of a member leveled through its parents has a level. A spouse that already had a level keeps it, as in the source, so the contract does not say that every such spouse shares the member's level; it says which levels were written that way. The per-pass bound above is not carried across passes, because the final map does not record which pass wrote a level. Termination at a fixed point is proved only for fewer than 20 members, which is what the 20-pass bound guarantees.
- TreeView.CalculateGenerations: it does not pin each level to the highest parent level plus 1 over the final map. It states the justification and the spouse leveling that `Relax` gives, and the seeds and the -1 fill. The members leveled through their parents are a ghost result (`led`, their positions in the member list), not a field of the form.
- Families.Resolve: its own contract is only the length bound. Membership, order and the all-known case are stated by `ResolveMembers`, `ResolveAppend` and `ResolveKnown`.
- Families.FamilyTree.UpdatePerson: the rebuild loop is the helper method `GraphOf`. The postcondition states the rebuilt graph's nodes and order through `Valid`.
- The two-person case: with two persons at distance 0, the farthest scan returns `(null, null, 0)` while the closest scan returns the pair. `TwoPersonsDegenerate` states this case; the distances still agree.
- The three scans over `GetAllPersons()` are module-level methods (`FarthestPair`, `ClosestPair`, `AverageDistance`) that the `Graph` methods call. The build loops are the `Graph` method `AddAllEdges`.
