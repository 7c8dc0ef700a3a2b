/** The family relationship store (FamilyTree.cs): members keyed by id in insertion order,
    parent/child and spouse links written on both sides, lookups that skip dangling ids,
    and the distance graph kept over the members. */
module Families {
  import opened Wrappers
  import opened People
  import opened Distances

  // ---------------------------------------------------------------------------------------
  // Relationship lists.

  /** `if (!list.Contains(x)) list.Add(x)`. */
  function AddIfAbsent(s: seq<string>, x: string): (r: seq<string>)
    ensures x in r
    ensures forall y :: y in r <==> y in s || y == x
    ensures x in s ==> r == s
    ensures x !in s ==> r == s + [x]
  {
    if x in s then s else s + [x]
  }

  /** An id listed at most once before is listed exactly once after, and the counts of
      the other ids do not move. */
  lemma AddIfAbsentCounts(s: seq<string>, x: string)
    ensures forall y :: y != x ==> multiset(AddIfAbsent(s, x))[y] == multiset(s)[y]
    ensures multiset(s)[x] <= 1 ==> multiset(AddIfAbsent(s, x))[x] == 1
  {
  }

  /** `q` is `p` with, at most, other relationship lists. */
  predicate SameButLinks(p: Person, q: Person)
  {
    q == p.(parentIds := q.parentIds, spouseIds := q.spouseIds, childrenIds := q.childrenIds)
  }

  /** `p` with `parentId` added to its parent list when missing. */
  function AddParentId(p: Person, parentId: string): (q: Person)
    ensures SameButLinks(p, q) && q.spouseIds == p.spouseIds && q.childrenIds == p.childrenIds
    ensures q.parentIds == AddIfAbsent(p.parentIds, parentId)
  {
    p.(parentIds := AddIfAbsent(p.parentIds, parentId))
  }

  /** `p` with `childId` added to its children list when missing. */
  function AddChildId(p: Person, childId: string): (q: Person)
    ensures SameButLinks(p, q) && q.spouseIds == p.spouseIds && q.parentIds == p.parentIds
    ensures q.childrenIds == AddIfAbsent(p.childrenIds, childId)
  {
    p.(childrenIds := AddIfAbsent(p.childrenIds, childId))
  }

  /** `p` with `spouseId` added to its spouse list when missing. */
  function AddSpouseId(p: Person, spouseId: string): (q: Person)
    ensures SameButLinks(p, q) && q.parentIds == p.parentIds && q.childrenIds == p.childrenIds
    ensures q.spouseIds == AddIfAbsent(p.spouseIds, spouseId)
  {
    p.(spouseIds := AddIfAbsent(p.spouseIds, spouseId))
  }

  /** The members after AddParentRelation(childId, parentId): the parent id is added to the
      child's ParentIds and then the child id to the parent's ChildrenIds, each only when
      missing; nothing happens unless both are members. */
  function WithParent(m: map<string, Person>, childId: string, parentId: string): (r: map<string, Person>)
    ensures r.Keys == m.Keys
    ensures childId !in m || parentId !in m ==> r == m
    ensures forall k :: k in m ==> SameButLinks(m[k], r[k]) && r[k].spouseIds == m[k].spouseIds
    ensures forall k :: k in m && k != childId && k != parentId ==> r[k] == m[k]
  {
    if childId in m && parentId in m then
      var m1 := m[childId := AddParentId(m[childId], parentId)];
      m1[parentId := AddChildId(m1[parentId], childId)]
    else
      m
  }

  /** The members after AddSpouseRelation(id1, id2): each id is added to the other's SpouseIds
      when missing; nothing happens unless both are members. */
  function WithSpouse(m: map<string, Person>, id1: string, id2: string): (r: map<string, Person>)
    ensures r.Keys == m.Keys
    ensures id1 !in m || id2 !in m ==> r == m
    ensures forall k :: k in m ==>
              SameButLinks(m[k], r[k]) && r[k].parentIds == m[k].parentIds && r[k].childrenIds == m[k].childrenIds
    ensures forall k :: k in m && k != id1 && k != id2 ==> r[k] == m[k]
  {
    if id1 in m && id2 in m then
      var m1 := m[id1 := AddSpouseId(m[id1], id2)];
      m1[id2 := AddSpouseId(m1[id2], id1)]
    else
      m
  }

  /** Among members, `b` lists `a` as a parent exactly when `a` lists `b` as a child. */
  ghost predicate ParentsInverse(m: map<string, Person>)
  {
    forall a, b :: a in m && b in m ==> (b in m[a].parentIds <==> a in m[b].childrenIds)
  }

  /** Among members, spouse links go both ways. */
  ghost predicate SpousesSymmetric(m: map<string, Person>)
  {
    forall a, b :: a in m && b in m ==> (b in m[a].spouseIds <==> a in m[b].spouseIds)
  }

  /** Which ids each member's relationship lists hold once AddParentRelation has run. */
  lemma WithParentLists(m: map<string, Person>, childId: string, parentId: string, k: string, x: string)
    requires childId in m && parentId in m && k in m
    ensures x in WithParent(m, childId, parentId)[k].parentIds <==>
              x in m[k].parentIds || (k == childId && x == parentId)
    ensures x in WithParent(m, childId, parentId)[k].childrenIds <==>
              x in m[k].childrenIds || (k == parentId && x == childId)
  {
  }

  /** Afterwards the child lists the parent and the parent lists the child. */
  lemma WithParentLinks(m: map<string, Person>, childId: string, parentId: string)
    requires childId in m && parentId in m
    ensures parentId in WithParent(m, childId, parentId)[childId].parentIds
    ensures childId in WithParent(m, childId, parentId)[parentId].childrenIds
  {
    WithParentLists(m, childId, parentId, childId, parentId);
    WithParentLists(m, childId, parentId, parentId, childId);
  }

  /** A second identical AddParentRelation changes nothing. */
  lemma WithParentIdempotent(m: map<string, Person>, childId: string, parentId: string)
    ensures WithParent(WithParent(m, childId, parentId), childId, parentId) == WithParent(m, childId, parentId)
  {
    if childId in m && parentId in m {
      WithParentLinks(m, childId, parentId);
      var r := WithParent(m, childId, parentId);
      var m1 := r[childId := AddParentId(r[childId], parentId)];
      assert m1 == r;
    }
  }

  /** AddParentRelation keeps the parent and child lists inverse to each other. */
  lemma WithParentKeepsInverse(m: map<string, Person>, childId: string, parentId: string)
    requires ParentsInverse(m)
    ensures ParentsInverse(WithParent(m, childId, parentId))
  {
    if childId in m && parentId in m {
      var r := WithParent(m, childId, parentId);
      forall a, b | a in r && b in r
        ensures b in r[a].parentIds <==> a in r[b].childrenIds
      {
        WithParentLists(m, childId, parentId, a, b);
        WithParentLists(m, childId, parentId, b, a);
      }
    }
  }

  /** With no duplicate before, each new link is listed exactly once. */
  lemma WithParentOnce(m: map<string, Person>, childId: string, parentId: string)
    requires childId in m && parentId in m
    requires multiset(m[childId].parentIds)[parentId] <= 1 && multiset(m[parentId].childrenIds)[childId] <= 1
    ensures multiset(WithParent(m, childId, parentId)[childId].parentIds)[parentId] == 1
    ensures multiset(WithParent(m, childId, parentId)[parentId].childrenIds)[childId] == 1
  {
  }

  /** Which ids each member's spouse list holds once AddSpouseRelation has run. */
  lemma WithSpouseLists(m: map<string, Person>, id1: string, id2: string, k: string, x: string)
    requires id1 in m && id2 in m && k in m
    ensures x in WithSpouse(m, id1, id2)[k].spouseIds <==>
              x in m[k].spouseIds || (k == id1 && x == id2) || (k == id2 && x == id1)
  {
  }

  /** Afterwards each of the two lists the other as a spouse. */
  lemma WithSpouseLinks(m: map<string, Person>, id1: string, id2: string)
    requires id1 in m && id2 in m
    ensures id2 in WithSpouse(m, id1, id2)[id1].spouseIds && id1 in WithSpouse(m, id1, id2)[id2].spouseIds
  {
    WithSpouseLists(m, id1, id2, id1, id2);
    WithSpouseLists(m, id1, id2, id2, id1);
  }

  /** A second identical AddSpouseRelation changes nothing. */
  lemma WithSpouseIdempotent(m: map<string, Person>, id1: string, id2: string)
    ensures WithSpouse(WithSpouse(m, id1, id2), id1, id2) == WithSpouse(m, id1, id2)
  {
    if id1 in m && id2 in m {
      WithSpouseLinks(m, id1, id2);
      var r := WithSpouse(m, id1, id2);
      var m1 := r[id1 := AddSpouseId(r[id1], id2)];
      assert m1 == r;
    }
  }

  /** The relation is the same whichever person is named first. */
  lemma WithSpouseSymmetric(m: map<string, Person>, id1: string, id2: string, k: string, x: string)
    requires k in m
    ensures x in WithSpouse(m, id1, id2)[k].spouseIds <==> x in WithSpouse(m, id2, id1)[k].spouseIds
  {
    if id1 in m && id2 in m {
      WithSpouseLists(m, id1, id2, k, x);
      WithSpouseLists(m, id2, id1, k, x);
    }
  }

  /** AddSpouseRelation keeps spouse links symmetric. */
  lemma WithSpouseKeepsSymmetry(m: map<string, Person>, id1: string, id2: string)
    requires SpousesSymmetric(m)
    ensures SpousesSymmetric(WithSpouse(m, id1, id2))
  {
    if id1 in m && id2 in m {
      var r := WithSpouse(m, id1, id2);
      forall a, b | a in r && b in r
        ensures b in r[a].spouseIds <==> a in r[b].spouseIds
      {
        WithSpouseLists(m, id1, id2, a, b);
        WithSpouseLists(m, id1, id2, b, a);
      }
    }
  }

  /** With no duplicate before, each of the two is listed exactly once by the other. */
  lemma WithSpouseOnce(m: map<string, Person>, id1: string, id2: string)
    requires id1 in m && id2 in m
    requires multiset(m[id1].spouseIds)[id2] <= 1 && multiset(m[id2].spouseIds)[id1] <= 1
    ensures multiset(WithSpouse(m, id1, id2)[id1].spouseIds)[id2] == 1
    ensures multiset(WithSpouse(m, id1, id2)[id2].spouseIds)[id1] == 1
  {
    if id1 != id2 {
      assert WithSpouse(m, id1, id2)[id1].spouseIds == AddIfAbsent(m[id1].spouseIds, id2);
    }
  }

  /** Relinking persons moves nobody and renames nobody, so every node keeps its id and
      every edge weight stays what it was. */
  lemma Relinked(dist: Metric, m: map<string, Person>, r: map<string, Person>, adj: map<string, seq<Edge>>)
    requires r.Keys == m.Keys && forall k :: k in m ==> SameButLinks(m[k], r[k])
    ensures forall order :: Indexed(m, order, adj) ==> Indexed(r, order, adj)
    ensures Consistent(dist, m, adj) ==> Consistent(dist, r, adj)
  {
    if Consistent(dist, m, adj) {
      forall k, e | k in adj && e in adj[k]
        ensures k in r && e.toId in r && e.toId != k && e.weight == Dist(dist, r[k], r[e.toId])
      {
        assert Dist(dist, r[k], r[e.toId]) == Dist(dist, m[k], m[e.toId]);
      }
    }
  }

  // ---------------------------------------------------------------------------------------
  // Lookups.

  /** `ids.Where(id => members.ContainsKey(id)).Select(id => members[id])`. */
  function Resolve(ids: seq<string>, m: map<string, Person>): (r: seq<Person>)
    ensures |r| <= |ids|
  {
    if |ids| == 0 then []
    else
      var init, last := ids[..|ids| - 1], ids[|ids| - 1];
      Resolve(init, m) + (if last in m then [m[last]] else [])
  }

  /** The lookup holds exactly the members named by the ids. */
  lemma {:induction false} ResolveMembers(ids: seq<string>, m: map<string, Person>)
    ensures forall x :: x in Resolve(ids, m) <==> exists id :: id in ids && id in m && m[id] == x
  {
    if |ids| > 0 {
      var init, last := ids[..|ids| - 1], ids[|ids| - 1];
      ResolveMembers(init, m);
      assert ids == init + [last];
      forall x ensures x in Resolve(ids, m) <==> exists id :: id in ids && id in m && m[id] == x {
        if x in Resolve(ids, m) && x !in Resolve(init, m) {
          assert last in ids && last in m && m[last] == x;
        }
        if exists id :: id in ids && id in m && m[id] == x {
          var id :| id in ids && id in m && m[id] == x;
          if id != last {
            assert id in init;
          }
        }
      }
    }
  }

  /** When every id is known, the lookup keeps every id and the list order. */
  lemma {:induction false} ResolveKnown(ids: seq<string>, m: map<string, Person>)
    requires forall id :: id in ids ==> id in m
    ensures Resolve(ids, m) == Values(ids, m)
  {
    if |ids| > 0 {
      var init := ids[..|ids| - 1];
      ResolveKnown(init, m);
    }
  }

  /** Ids that are not members are dropped without disturbing the others. */
  lemma {:induction false} ResolveAppend(a: seq<string>, b: seq<string>, m: map<string, Person>)
    ensures Resolve(a + b, m) == Resolve(a, m) + Resolve(b, m)
    decreases |b|
  {
    if |b| == 0 {
      assert a + b == a;
    } else {
      assert (a + b)[..|a + b| - 1] == a + b[..|b| - 1];
      ResolveAppend(a, b[..|b| - 1], m);
    }
  }

  /** `Where(p => p.ParentIds.Count == 0)`. */
  function Roots(ps: seq<Person>): (r: seq<Person>)
    ensures |r| <= |ps|
    ensures forall x :: x in r <==> x in ps && x.parentIds == []
  {
    if |ps| == 0 then []
    else
      var init, last := ps[..|ps| - 1], ps[|ps| - 1];
      assert forall x :: x in ps <==> x in init || x == last;
      Roots(init) + (if last.parentIds == [] then [last] else [])
  }

  /** The filter keeps list order: it distributes over concatenation. */
  lemma {:induction false} RootsAppend(a: seq<Person>, b: seq<Person>)
    ensures Roots(a + b) == Roots(a) + Roots(b)
    decreases |b|
  {
    if |b| == 0 {
      assert a + b == a;
    } else {
      assert (a + b)[..|a + b| - 1] == a + b[..|b| - 1];
      RootsAppend(a, b[..|b| - 1]);
    }
  }

  /** GetSpouses over a member map: the listed spouses that are members, in list order;
      empty for an unknown id. */
  function Spouses(m: map<string, Person>, id: string): (r: seq<Person>)
    ensures id !in m ==> r == []
    ensures id in m ==> forall x :: x in r <==> exists s :: s in m[id].spouseIds && s in m && m[s] == x
  {
    if id !in m then []
    else
      ResolveMembers(m[id].spouseIds, m);
      Resolve(m[id].spouseIds, m)
  }

  /** An id that occurs once is not among the ids before it. */
  lemma PrefixFresh(s: seq<string>, i: nat)
    requires NoDuplicates(s) && i < |s|
    ensures s[i] !in s[..i]
  {
    NoDuplicatesDistinct(s);
    assert forall j :: 0 <= j < i ==> s[..i][j] == s[j];
  }

  /** A new graph holding one node, with no edges, per listed member, added in list order. */
  method GraphOf(dist: Metric, order: seq<string>, members: map<string, Person>) returns (g: Graph)
    requires NoDuplicates(order) && forall k :: k in members <==> k in order
    requires forall k :: k in members ==> members[k].id == k
    ensures fresh(g) && g.dist == dist && g.Valid() && g.EdgesConsistent()
    ensures g.order == order && g.nodes == members
    ensures forall k :: k in g.adjacency ==> g.adjacency[k] == []
  {
    g := new Graph(dist);
    var i := 0;
    while i < |order|
      invariant 0 <= i <= |order| && fresh(g) && g.dist == dist
      invariant Filled(g, order, members, i)
    {
      AddMemberNode(g, order, members, i);
      i := i + 1;
    }
    WholeSlice(order);
    SameMaps(g.nodes, members);
    NoEdgesConsistent(dist, g.nodes, g.adjacency);
  }

  /** `g` holds, without edges, the listed members before position `i`. */
  ghost predicate Filled(g: Graph, order: seq<string>, members: map<string, Person>, i: nat)
    reads g
  {
    && i <= |order|
    && g.Valid()
    && g.order == order[..i]
    && (forall k :: k in g.nodes ==> k in members && g.nodes[k] == members[k])
    && (forall k :: k in g.adjacency ==> g.adjacency[k] == [])
  }

  /** One step of the rebuild: the member at position `i` becomes a node. */
  method AddMemberNode(g: Graph, order: seq<string>, members: map<string, Person>, i: nat)
    requires NoDuplicates(order) && forall k :: k in members <==> k in order
    requires forall k :: k in members ==> members[k].id == k
    requires i < |order| && Filled(g, order, members, i)
    modifies g
    ensures Filled(g, order, members, i + 1)
  {
    PrefixFresh(order, i);
    SliceStep(order, i);
    g.AddNode(members[order[i]]);
  }

  lemma SameMaps(a: map<string, Person>, b: map<string, Person>)
    requires forall k :: k in a <==> k in b
    requires forall k :: k in a ==> a[k] == b[k]
    ensures a == b
  {
  }

  lemma WholeSlice(s: seq<string>)
    ensures s[..|s|] == s
  {
  }

  lemma SliceStep(s: seq<string>, i: nat)
    requires i < |s|
    ensures s[..i + 1] == s[..i] + [s[i]]
    ensures forall k :: k in s[..i + 1] <==> k in s[..i] || k == s[i]
  {
    assert s[..i + 1] == s[..i] + [s[i]];
  }

  /** A graph without edges has no inconsistent edge. */
  lemma NoEdgesConsistent(dist: Metric, nodes: map<string, Person>, adj: map<string, seq<Edge>>)
    requires forall k :: k in adj ==> adj[k] == []
    ensures Consistent(dist, nodes, adj)
  {
  }

  // ---------------------------------------------------------------------------------------

  class FamilyTree {
    /** The distance the graph weighs its edges with. */
    const dist: Metric
    var members: map<string, Person>
    /** Insertion order of `members`. */
    var order: seq<string>
    var graph: Graph

    /** The graph holds the same person objects as the store, in the same order, and its
        edges are weighted with the distance between their ends. */
    ghost predicate Valid()
      reads this, graph
    {
      && graph.dist == dist
      && graph.Valid()
      && graph.nodes == members
      && graph.order == order
      && graph.EdgesConsistent()
    }

    constructor (dist: Metric)
      ensures Valid() && this.dist == dist && fresh(graph)
      ensures members == map[] && order == [] && graph.adjacency == map[]
    {
      this.dist := dist;
      members := map[];
      order := [];
      graph := new Graph(dist);
    }

    /** Clear: no members and a fresh, empty graph. */
    method Clear()
      modifies this
      ensures Valid() && fresh(graph)
      ensures members == map[] && order == [] && graph.adjacency == map[]
    {
      members := map[];
      order := [];
      graph := new Graph(dist);
    }

    /** AddPerson: a new id is stored and becomes a graph node with no edges; a known id
        changes nothing. */
    method AddPerson(person: Person)
      requires Valid()
      modifies this, graph
      ensures Valid() && graph == old(graph)
      ensures old(person.id in members) ==>
                members == old(members) && order == old(order) && graph.adjacency == old(graph.adjacency)
      ensures old(person.id !in members) ==>
                && members == old(members)[person.id := person]
                && order == old(order) + [person.id]
                && graph.adjacency == old(graph.adjacency)[person.id := []]
    {
      if person.id !in members {
        members := members[person.id := person];
        order := order + [person.id];
        graph.AddNode(person);
      }
    }

    /** UpdatePerson: for a known id, replaces the record (keeping its place in the order)
        and builds a new graph holding one node, with no edges, per member. */
    method UpdatePerson(person: Person)
      requires Valid()
      modifies this
      ensures Valid() && order == old(order)
      ensures old(person.id !in members) ==> members == old(members) && graph == old(graph)
      ensures old(person.id in members) ==>
                && members == old(members)[person.id := person]
                && fresh(graph)
                && forall k :: k in graph.adjacency ==> graph.adjacency[k] == []
    {
      if person.id in members {
        members := members[person.id := person];
        graph := GraphOf(dist, order, members);
      }
    }

    /** AddParentRelation: the lists of the two members change as WithParent says; the graph
        holds the same objects, so it sees the new lists. */
    method AddParentRelation(childId: string, parentId: string)
      requires Valid()
      modifies this`members, graph`nodes
      ensures Valid()
      ensures members == WithParent(old(members), childId, parentId)
    {
      var r := WithParent(members, childId, parentId);
      Relinked(dist, members, r, graph.adjacency);
      members := r;
      graph.nodes := r;
    }

    /** AddSpouseRelation: the spouse lists of the two members change as WithSpouse says. */
    method AddSpouseRelation(personId1: string, personId2: string)
      requires Valid()
      modifies this`members, graph`nodes
      ensures Valid()
      ensures members == WithSpouse(old(members), personId1, personId2)
    {
      var r := WithSpouse(members, personId1, personId2);
      Relinked(dist, members, r, graph.adjacency);
      members := r;
      graph.nodes := r;
    }

    /** GetPerson: the member stored under `id`, or null. */
    function GetPerson(id: string): (r: Option<Person>)
      reads this
      ensures r.Some? <==> id in members
      ensures r.Some? ==> r.value == members[id]
    {
      if id in members then Some(members[id]) else None
    }

    /** GetAllMembers: the members in insertion order. */
    function GetAllMembers(): (ps: seq<Person>)
      reads this, graph
      requires Valid()
      ensures |ps| == |order| && forall i :: 0 <= i < |ps| ==> ps[i] == members[order[i]]
    {
      Values(order, members)
    }

    /** GetChildren: the listed children that are members, in list order; empty for an
        unknown id. */
    function GetChildren(personId: string): (r: seq<Person>)
      reads this
      ensures personId !in members ==> r == []
      ensures personId in members ==>
                forall x :: x in r <==> exists c :: c in members[personId].childrenIds && c in members && members[c] == x
    {
      if personId !in members then []
      else
        ResolveMembers(members[personId].childrenIds, members);
        Resolve(members[personId].childrenIds, members)
    }

    /** GetParents: the listed parents that are members, in list order. */
    function GetParents(personId: string): (r: seq<Person>)
      reads this
      ensures personId !in members ==> r == []
      ensures personId in members ==>
                forall x :: x in r <==> exists c :: c in members[personId].parentIds && c in members && members[c] == x
    {
      if personId !in members then []
      else
        ResolveMembers(members[personId].parentIds, members);
        Resolve(members[personId].parentIds, members)
    }

    /** GetSpouses: the listed spouses that are members, in list order. */
    function GetSpouses(personId: string): (r: seq<Person>)
      reads this
      ensures personId !in members ==> r == []
      ensures personId in members ==>
                forall x :: x in r <==> exists c :: c in members[personId].spouseIds && c in members && members[c] == x
    {
      Spouses(members, personId)
    }

    /** GetRootMembers: exactly the members with no parent id, in insertion order. */
    function GetRootMembers(): (r: seq<Person>)
      reads this, graph
      requires Valid()
      ensures forall x :: x in r <==> x in members.Values && x.parentIds == []
    {
      var all := GetAllMembers();
      assert forall x :: x in all <==> x in members.Values by {
        forall x | x in members.Values ensures x in all {
          var k :| k in members && members[k] == x;
          var i :| 0 <= i < |order| && order[i] == k;
          assert all[i] == x;
        }
      }
      Roots(all)
    }

    /** GetGraph: builds the distance edges (appending to any built before) and hands out
        the graph, now complete: every member has an edge to every other member. */
    method GetGraph() returns (g: Graph)
      requires Valid()
      modifies graph`adjacency
      ensures g == graph && Valid() && g.Complete()
      ensures forall k :: k in g.adjacency ==>
                g.adjacency[k] == old(g.adjacency)[k] + OutEdges(dist, g.GetAllPersons(), members[k])
    {
      graph.BuildDistanceGraph();
      g := graph;
    }
  }
}
