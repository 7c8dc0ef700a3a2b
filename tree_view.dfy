/** The tree view's layout logic (FamilyTreeForm.cs): the generation of each person, found
    from a few founders by a bounded relaxation over parent links, and the grouping of a
    generation into couples along spouse links. */
module TreeView {
  import opened Wrappers
  import opened People
  import opened Distances
  import opened Families

  /** The form's `_generations` dictionary: a level per id. */
  type Levels = map<string, int>

  // ---------------------------------------------------------------------------------------
  // Founders.

  /** `t` occurs in `s` at position `i`. */
  predicate OccursAt(s: string, t: string, i: int)
  {
    0 <= i <= |s| - |t| && s[i..i + |t|] == t
  }

  lemma OccursAtTail(s: string, t: string)
    requires |s| > 0
    ensures forall i :: i >= 0 ==> (OccursAt(s[1..], t, i) <==> OccursAt(s, t, i + 1))
  {
    forall i | i >= 0 ensures OccursAt(s[1..], t, i) <==> OccursAt(s, t, i + 1) {
      if 0 <= i <= |s| - 1 - |t| {
        assert s[1..][i..i + |t|] == s[i + 1..i + 1 + |t|];
      }
    }
  }

  /** `s.Contains(t)` (ordinal): `t` occurs in `s` at some position. */
  function HasSubstring(s: string, t: string): (r: bool)
    ensures r <==> exists i :: OccursAt(s, t, i)
    decreases |s|
  {
    if |s| < |t| then false
    else if s[..|t|] == t then assert OccursAt(s, t, 0); true
    else
      var r := HasSubstring(s[1..], t);
      OccursAtTail(s, t);
      assert forall i :: OccursAt(s, t, i) && i != 0 ==> OccursAt(s[1..], t, i - 1);
      r
  }

  /** `Where(p => p.Id.Contains("gen0"))`. */
  function NamedFounders(ps: seq<Person>): (r: seq<Person>)
    ensures |r| <= |ps|
    ensures forall x :: x in r <==> x in ps && HasSubstring(x.id, "gen0")
  {
    if |ps| == 0 then []
    else
      var init, last := ps[..|ps| - 1], ps[|ps| - 1];
      assert forall x :: x in ps <==> x in init || x == last;
      NamedFounders(init) + (if HasSubstring(last.id, "gen0") then [last] else [])
  }

  /** Position i comes before position j when the list is stably sorted by birth date:
      born earlier, or born at the same instant and listed earlier. */
  predicate SortsBefore(ps: seq<Person>, i: int, j: int)
    requires 0 <= i < |ps| && 0 <= j < |ps|
  {
    Before(ps[i].birthDate, ps[j].birthDate) || (ps[i].birthDate == ps[j].birthDate && i < j)
  }

  /** Among positions below `n` other than `x`, the one that sorts before all the others;
      -1 when there is none. */
  function EarliestExcept(ps: seq<Person>, x: int, n: nat): (r: int)
    requires n <= |ps|
    ensures r == -1 <==> n == 0 || (n == 1 && x == 0)
    ensures r != -1 ==> 0 <= r < n && r != x
    ensures r != -1 ==> forall j :: 0 <= j < n && j != x && j != r ==> SortsBefore(ps, r, j)
  {
    if n == 0 then -1
    else
      var k := EarliestExcept(ps, x, n - 1);
      BeforeIsOrder();
      if n - 1 == x || (k != -1 && !Before(ps[n - 1].birthDate, ps[k].birthDate)) then k
      else
        if k == -1 then n - 1
        else
          EarliestStep(ps, x, n - 1, k);
          n - 1
  }

  /** A person born strictly before the earliest so far sorts before everybody. */
  lemma EarliestStep(ps: seq<Person>, x: int, m: nat, k: nat)
    requires m < |ps| && k < m && k != x && Before(ps[m].birthDate, ps[k].birthDate)
    requires forall j :: 0 <= j < m && j != x && j != k ==> SortsBefore(ps, k, j)
    ensures forall j :: 0 <= j < m && j != x ==> SortsBefore(ps, m, j)
  {
    BeforeIsOrder();
    forall j | 0 <= j < m && j != x && j != k
      ensures Before(ps[m].birthDate, ps[j].birthDate)
    {
      assert SortsBefore(ps, k, j);
      if ps[k].birthDate != ps[j].birthDate {
        assert Before(ps[k].birthDate, ps[j].birthDate);
      }
    }
  }

  /** `OrderBy(p => p.BirthDate).Take(2)`: the first two persons of the stable sort. */
  function EarliestTwo(ps: seq<Person>): (r: seq<Person>)
    ensures |r| == if |ps| < 2 then |ps| else 2
    ensures forall x :: x in r ==> x in ps
  {
    var first := EarliestExcept(ps, -1, |ps|);
    if first == -1 then []
    else
      var second := EarliestExcept(ps, first, |ps|);
      if second == -1 then [ps[first]] else [ps[first], ps[second]]
  }

  /** The sort order is strict and total on positions, so the two chosen are the first two
      of the stably sorted list: the first sorts before everybody, the second before
      everybody except the first. */
  lemma EarliestTwoSorted(ps: seq<Person>)
    requires |ps| >= 2
    ensures exists a, b :: 0 <= a < |ps| && 0 <= b < |ps| && a != b && EarliestTwo(ps) == [ps[a], ps[b]]
                        && (forall j :: 0 <= j < |ps| && j != a ==> SortsBefore(ps, a, j))
                        && (forall j :: 0 <= j < |ps| && j != a && j != b ==> SortsBefore(ps, b, j))
                        && SortsBefore(ps, a, b)
  {
    var a := EarliestExcept(ps, -1, |ps|);
    var b := EarliestExcept(ps, a, |ps|);
    assert a != -1 && b != -1;
  }

  /** The founders of CalculateGenerationsFixed: the parentless members whose id contains
      "gen0" when there is one, otherwise the two earliest-born parentless members. */
  function Founders(all: seq<Person>): (r: seq<Person>)
    ensures forall x :: x in r ==> x in all && x.parentIds == []
    ensures (exists x :: x in all && x.parentIds == [] && HasSubstring(x.id, "gen0")) ==>
              forall x :: x in r <==> x in all && x.parentIds == [] && HasSubstring(x.id, "gen0")
    ensures (forall x :: x in all && x.parentIds == [] ==> !HasSubstring(x.id, "gen0")) ==>
              r == EarliestTwo(Roots(all))
  {
    var potential := Roots(all);
    var named := NamedFounders(potential);
    if |named| > 0 then
      assert named[0] in named;
      named
    else
      assert forall x :: x !in named;
      EarliestTwo(potential)
  }

  /** The ids seeded with level 0: every founder and every id a founder lists as a spouse. */
  ghost function SeedIds(fs: seq<Person>): set<string>
  {
    (set f | f in fs :: f.id) + (set f, s | f in fs && s in f.spouseIds :: s)
  }

  lemma SeedIdsStep(fs: seq<Person>, f: Person)
    ensures SeedIds(fs + [f]) == SeedIds(fs) + {f.id} + (set s | s in f.spouseIds)
  {
    assert forall g :: g in fs + [f] <==> g in fs || g == f;
  }

  // ---------------------------------------------------------------------------------------
  // Levels.

  /** Every level of `a` is still in `b`, unchanged. */
  ghost predicate Extends(a: Levels, b: Levels)
  {
    forall k :: k in a ==> k in b && b[k] == a[k]
  }

  lemma ExtendsTrans(a: Levels, b: Levels, c: Levels)
    requires Extends(a, b) && Extends(b, c)
    ensures Extends(a, c)
  {
  }

  /** `parentIds.Where(pid => gens.ContainsKey(pid)).Select(pid => gens[pid])` and its Max():
      None when no parent is leveled. */
  function ParentLevel(g: Levels, pids: seq<string>): (r: Option<int>)
    ensures r.None? <==> forall pid :: pid in pids ==> pid !in g
    ensures r.Some? ==> exists pid :: pid in pids && pid in g && g[pid] == r.value
    ensures r.Some? ==> forall pid :: pid in pids && pid in g ==> g[pid] <= r.value
  {
    if |pids| == 0 then None
    else
      var init, last := pids[..|pids| - 1], pids[|pids| - 1];
      assert forall pid :: pid in pids <==> pid in init || pid == last;
      var r := ParentLevel(g, init);
      if last !in g then r
      else if r.None? || r.value < g[last] then Some(g[last])
      else r
  }

  /** The spouse loop: each listed id not yet leveled gets `v`, checked afresh for each id
      as the lazy `Where` does. */
  method LevelSpouses(g0: Levels, sids: seq<string>, v: int) returns (g: Levels)
    ensures Extends(g0, g)
    ensures forall s :: s in sids ==> s in g
    ensures forall k :: k in g && k !in g0 ==> k in sids && g[k] == v
  {
    g := g0;
    var j := 0;
    while j < |sids|
      invariant 0 <= j <= |sids|
      invariant Extends(g0, g)
      invariant forall s :: s in sids[..j] ==> s in g
      invariant forall k :: k in g && k !in g0 ==> k in sids && g[k] == v
    {
      if sids[j] !in g {
        g := g[sids[j] := v];
      }
      assert sids[..j + 1] == sids[..j] + [sids[j]];
      j := j + 1;
    }
    assert sids[..j] == sids;
  }

  /** The founder loop: each founder gets 0, then its spouses not yet leveled get 0. */
  method SeedFounders(founders: seq<Person>) returns (g: Levels)
    ensures g.Keys == SeedIds(founders)
    ensures forall k :: k in g ==> g[k] == 0
  {
    g := map[];
    var i := 0;
    while i < |founders|
      invariant 0 <= i <= |founders|
      invariant g.Keys == SeedIds(founders[..i])
      invariant forall k :: k in g ==> g[k] == 0
    {
      var f := founders[i];
      g := LevelSpouses(g[f.id := 0], f.spouseIds, 0);
      SeedIdsStep(founders[..i], f);
      assert founders[..i + 1] == founders[..i] + [f];
      i := i + 1;
    }
    assert founders[..i] == founders;
  }

  /** `k` has a level of at least 1 because a member with id `k` has a parent one level up. */
  ghost predicate ChildOfLeveled(all: seq<Person>, g: Levels, k: string)
    requires k in g
  {
    exists i, pid :: 0 <= i < |all| && all[i].id == k && pid in all[i].parentIds && pid in g && g[pid] == g[k] - 1
  }

  /** `k` has its level because a member leveled through a parent lists `k` as a spouse with
      the same level. */
  ghost predicate SpouseOfLeveled(all: seq<Person>, g: Levels, k: string)
    requires k in g
  {
    exists i :: 0 <= i < |all| && k in all[i].spouseIds && all[i].id in g && g[all[i].id] == g[k]
                && ChildOfLeveled(all, g, all[i].id)
  }

  /** The levels the relaxation can write: seeds at 0, everyone else at least 1 with a
      leveled parent one level up, or with a spouse at the same level who has one. */
  ghost predicate Relaxed(all: seq<Person>, seeds: set<string>, g: Levels)
  {
    && (forall k :: k in seeds ==> k in g && g[k] == 0)
    && (forall k :: k in g ==> g[k] >= 0)
    && (forall k :: k in g && k !in seeds ==>
          g[k] >= 1 && (ChildOfLeveled(all, g, k) || SpouseOfLeveled(all, g, k)))
  }

  /** A level justified in `g` stays justified in any extension. */
  lemma ExtendsKeepsJustified(all: seq<Person>, g: Levels, g': Levels, k: string)
    requires Extends(g, g') && k in g
    ensures ChildOfLeveled(all, g, k) ==> ChildOfLeveled(all, g', k)
    ensures SpouseOfLeveled(all, g, k) ==> SpouseOfLeveled(all, g', k)
  {
    if ChildOfLeveled(all, g, k) {
      var i, pid :| 0 <= i < |all| && all[i].id == k && pid in all[i].parentIds && pid in g && g[pid] == g[k] - 1;
      assert pid in g' && g'[pid] == g'[k] - 1;
    }
    if SpouseOfLeveled(all, g, k) {
      var i :| 0 <= i < |all| && k in all[i].spouseIds && all[i].id in g && g[all[i].id] == g[k]
               && ChildOfLeveled(all, g, all[i].id);
      var i', pid :| 0 <= i' < |all| && all[i'].id == all[i].id && pid in all[i'].parentIds && pid in g
                     && g[pid] == g[all[i].id] - 1;
      assert pid in g' && g'[pid] == g'[all[i].id] - 1;
      assert all[i].id in g' && g'[all[i].id] == g'[k];
    }
  }

  /** The seed map is a relaxation state. */
  lemma SeedRelaxed(all: seq<Person>, seeds: set<string>, g: Levels)
    requires g.Keys == seeds && forall k :: k in g ==> g[k] == 0
    ensures Relaxed(all, seeds, g)
  {
  }

  /** Leveling member `all[i]` at one above its highest leveled parent, then its unleveled
      spouses at the same level, keeps a relaxation state. */
  lemma RelaxedStep(all: seq<Person>, seeds: set<string>, g: Levels, i: nat, v: int, g': Levels)
    requires Relaxed(all, seeds, g) && i < |all| && all[i].id !in g
    requires ParentLevel(g, all[i].parentIds) == Some(v)
    requires Extends(g[all[i].id := v + 1], g')
    requires forall k :: k in g' && k !in g && k != all[i].id ==> k in all[i].spouseIds && g'[k] == v + 1
    ensures Relaxed(all, seeds, g')
  {
    var id := all[i].id;
    var pid :| pid in all[i].parentIds && pid in g && g[pid] == v;
    assert Extends(g, g');
    forall k | k in g' && k !in seeds
      ensures g'[k] >= 1 && (ChildOfLeveled(all, g', k) || SpouseOfLeveled(all, g', k))
    {
      if k in g {
        ExtendsKeepsJustified(all, g, g', k);
      } else if k == id {
        assert pid in g' && g'[pid] == g'[k] - 1;
      } else {
        assert pid in g' && g'[pid] == g'[id] - 1;
        assert ChildOfLeveled(all, g', id);
        assert id in g' && g'[id] == g'[k];
      }
    }
  }

  /** The member is left alone by a pass over `g`: already leveled, parentless, or with no
      leveled parent. */
  predicate Settled(p: Person, g: Levels)
  {
    p.id in g || |p.parentIds| == 0 || ParentLevel(g, p.parentIds).None?
  }

  /** A pass over `g` would assign nothing. */
  ghost predicate Stable(all: seq<Person>, g: Levels)
  {
    forall i :: 0 <= i < |all| ==> Settled(all[i], g)
  }

  /** Every parent of `p` that has a level in `g0` is below `v`. */
  ghost predicate AboveParents(p: Person, g0: Levels, v: int)
  {
    forall pid :: pid in p.parentIds && pid in g0 ==> g0[pid] < v
  }

  /** The member at position `m` has a level through a parent one level up, and every spouse
      it lists has a level. */
  ghost predicate LedByParent(all: seq<Person>, g: Levels, m: nat)
  {
    m < |all| && all[m].id in g && ChildOfLeveled(all, g, all[m].id) && forall s :: s in all[m].spouseIds ==> s in g
  }

  /** The members at positions `led` were leveled through their parents. */
  ghost predicate ByParents(all: seq<Person>, led: set<nat>, g: Levels)
  {
    forall m {:trigger LedByParent(all, g, m)} :: m in led ==> LedByParent(all, g, m)
  }

  /** Members leveled through their parents stay so when more levels are written. */
  lemma ByParentsExtends(all: seq<Person>, led: set<nat>, g: Levels, g': Levels)
    requires Extends(g, g') && ByParents(all, led, g)
    ensures ByParents(all, led, g')
  {
    forall m | m in led
      ensures LedByParent(all, g', m)
    {
      assert LedByParent(all, g, m);
      ExtendsKeepsJustified(all, g, g', all[m].id);
    }
  }

  /** `k`'s level was written for the member at a position in `led`: `k` is that member, or a
      spouse it lists, at its level. */
  ghost predicate WrittenBy(all: seq<Person>, led: set<nat>, g: Levels, k: string)
    requires k in g
  {
    exists i :: i in led && 0 <= i < |all| && all[i].id in g && (all[i].id == k || k in all[i].spouseIds)
                && g[all[i].id] == g[k]
  }

  /** `k` was leveled by a pass from `g0` to `g`: the member at a position in `led`, which the
      pass leveled above every parent leveled when it began, is `k` itself or lists `k` as a
      spouse at the same level. */
  ghost predicate WrittenInPass(all: seq<Person>, g0: Levels, led: set<nat>, g: Levels, k: string)
    requires k in g
  {
    exists i :: i in led && 0 <= i < |all| && all[i].id in g && all[i].id !in g0
                && (all[i].id == k || k in all[i].spouseIds) && g[all[i].id] == g[k] && AboveParents(all[i], g0, g[k])
  }

  /** A pass's writes stay explained when more levels are written. */
  lemma WrittenExtends(all: seq<Person>, g0: Levels, led: set<nat>, led': set<nat>, g: Levels, g': Levels)
    requires Extends(g, g') && led <= led'
    requires forall k {:trigger WrittenInPass(all, g0, led, g, k)} :: k in g && k !in g0 ==> WrittenInPass(all, g0, led, g, k)
    ensures forall k {:trigger WrittenInPass(all, g0, led', g', k)} :: k in g && k !in g0 ==> WrittenInPass(all, g0, led', g', k)
  {
    forall k | k in g && k !in g0
      ensures WrittenInPass(all, g0, led', g', k)
    {
      assert WrittenInPass(all, g0, led, g, k);
      var i :| i in led && 0 <= i < |all| && all[i].id in g && all[i].id !in g0
               && (all[i].id == k || k in all[i].spouseIds) && g[all[i].id] == g[k] && AboveParents(all[i], g0, g[k]);
      assert all[i].id in g' && g'[all[i].id] == g'[k];
    }
  }

  /** The level written for `all[i]` and its spouses is one above the highest leveled parent,
      so above every parent leveled when the pass began. */
  lemma WrittenStep(all: seq<Person>, g0: Levels, led: set<nat>, g: Levels, i: nat, v: int, g': Levels)
    requires Extends(g0, g) && i < |all| && all[i].id !in g
    requires forall k {:trigger WrittenInPass(all, g0, led, g, k)} :: k in g && k !in g0 ==> WrittenInPass(all, g0, led, g, k)
    requires ParentLevel(g, all[i].parentIds) == Some(v)
    requires Extends(g[all[i].id := v + 1], g')
    requires forall k :: k in g' && k !in g[all[i].id := v + 1] ==> k in all[i].spouseIds && g'[k] == v + 1
    ensures forall k {:trigger WrittenInPass(all, g0, led + {i}, g', k)} :: k in g' && k !in g0 ==>
              WrittenInPass(all, g0, led + {i}, g', k)
  {
    var id := all[i].id;
    assert Extends(g, g');
    WrittenExtends(all, g0, led, led + {i}, g, g');
    assert AboveParents(all[i], g0, v + 1);
    forall k | k in g' && k !in g && k !in g0
      ensures WrittenInPass(all, g0, led + {i}, g', k)
    {
      assert i in led + {i} && id in g' && g'[id] == g'[k] && id !in g0;
    }
  }

  /** Leveling `all[i]` through a parent at `v`, with every spouse it lists leveled, adds `i`
      to the members leveled through their parents. */
  lemma ByParentsStep(all: seq<Person>, led: set<nat>, g: Levels, i: nat, v: int, g': Levels)
    requires ByParents(all, led, g) && i < |all| && all[i].id !in g
    requires ParentLevel(g, all[i].parentIds) == Some(v)
    requires Extends(g[all[i].id := v + 1], g')
    requires forall s :: s in all[i].spouseIds ==> s in g'
    ensures ByParents(all, led + {i}, g')
  {
    assert Extends(g, g');
    ByParentsExtends(all, led, g, g');
    var pid :| pid in all[i].parentIds && pid in g && g[pid] == v;
    assert pid in g' && g'[pid] == g'[all[i].id] - 1;
    assert LedByParent(all, g', i);
  }

  /** After the first `i` members of a pass that started from `g0`. */
  ghost predicate PassState(all: seq<Person>, seeds: set<string>, g0: Levels, g: Levels, changed: bool, i: nat)
  {
    && i <= |all|
    && Extends(g0, g)
    && (!changed ==> g == g0 && forall m :: 0 <= m < i ==> Settled(all[m], g0))
    && (changed ==> exists m :: 0 <= m < |all| && all[m].id !in g0 && all[m].id in g)
    && (Relaxed(all, seeds, g0) ==> Relaxed(all, seeds, g))
  }

  /** After the first `i` members of a pass that started from `g0`, the positions `led` it
      leveled through their parents, and what each of them wrote. */
  ghost predicate PassLed(all: seq<Person>, g0: Levels, g: Levels, changed: bool, i: nat, led: set<nat>)
  {
    && i <= |all|
    && (changed <==> led != {})
    && (forall m :: m in led ==> m < i && all[m].id !in g0)
    && ByParents(all, led, g)
    && (forall k {:trigger WrittenInPass(all, g0, led, g, k)} :: k in g && k !in g0 ==> WrittenInPass(all, g0, led, g, k))
  }

  lemma PassSkip(all: seq<Person>, seeds: set<string>, g0: Levels, g: Levels, changed: bool, i: nat)
    requires PassState(all, seeds, g0, g, changed, i) && i < |all| && Settled(all[i], g)
    ensures PassState(all, seeds, g0, g, changed, i + 1)
  {
  }

  lemma PassAssign(all: seq<Person>, seeds: set<string>, g0: Levels, g: Levels, changed: bool, i: nat,
                   v: int, g': Levels)
    requires PassState(all, seeds, g0, g, changed, i) && i < |all| && all[i].id !in g
    requires ParentLevel(g, all[i].parentIds) == Some(v)
    requires Extends(g[all[i].id := v + 1], g')
    requires forall k :: k in g' && k !in g[all[i].id := v + 1] ==> k in all[i].spouseIds && g'[k] == v + 1
    ensures PassState(all, seeds, g0, g', true, i + 1)
  {
    assert Extends(g, g');
    ExtendsTrans(g0, g, g');
    assert all[i].id !in g0 && all[i].id in g';
    if Relaxed(all, seeds, g0) {
      RelaxedStep(all, seeds, g, i, v, g');
    }
  }

  lemma PassAssignLed(all: seq<Person>, g0: Levels, g: Levels, changed: bool, i: nat, led: set<nat>,
                      v: int, g': Levels)
    requires PassLed(all, g0, g, changed, i, led) && Extends(g0, g) && i < |all| && all[i].id !in g
    requires ParentLevel(g, all[i].parentIds) == Some(v)
    requires Extends(g[all[i].id := v + 1], g')
    requires forall s :: s in all[i].spouseIds ==> s in g'
    requires forall k :: k in g' && k !in g[all[i].id := v + 1] ==> k in all[i].spouseIds && g'[k] == v + 1
    ensures PassLed(all, g0, g', true, i + 1, led + {i})
  {
    assert all[i].id !in g0;
    ByParentsStep(all, led, g, i, v, g');
    WrittenStep(all, g0, led, g, i, v, g');
  }

  /** One pass of the relaxation loop over the members, in order. */
  method Pass(all: seq<Person>, g0: Levels, ghost seeds: set<string>)
    returns (g: Levels, changed: bool, ghost led: set<nat>)
    ensures Extends(g0, g)
    ensures !changed ==> g == g0 && Stable(all, g0)
    ensures changed ==> exists m :: 0 <= m < |all| && all[m].id !in g0 && all[m].id in g
    ensures changed <==> led != {}
    ensures Relaxed(all, seeds, g0) ==> Relaxed(all, seeds, g)
    ensures forall m :: m in led ==> m < |all| && all[m].id !in g0
    ensures ByParents(all, led, g)
    ensures forall k {:trigger WrittenInPass(all, g0, led, g, k)} :: k in g && k !in g0 ==> WrittenInPass(all, g0, led, g, k)
  {
    g := g0;
    changed := false;
    led := {};
    var i := 0;
    while i < |all|
      invariant PassState(all, seeds, g0, g, changed, i)
      invariant PassLed(all, g0, g, changed, i, led)
    {
      var person := all[i];
      var level := if person.id !in g && |person.parentIds| > 0 then ParentLevel(g, person.parentIds) else None;
      if level.Some? {
        var g' := LevelSpouses(g[person.id := level.value + 1], person.spouseIds, level.value + 1);
        PassAssign(all, seeds, g0, g, changed, i, level.value, g');
        PassAssignLed(all, g0, g, changed, i, led, level.value, g');
        g := g';
        changed := true;
        led := led + {i};
      } else {
        PassSkip(all, seeds, g0, g, changed, i);
      }
      i := i + 1;
    }
  }

  /** The members' ids. */
  ghost function MemberIds(all: seq<Person>): set<string>
  {
    set p | p in all :: p.id
  }

  /** The members that have a level. */
  ghost function Leveled(all: seq<Person>, g: Levels): set<string>
  {
    MemberIds(all) * g.Keys
  }

  lemma {:induction false} MemberIdsBound(all: seq<Person>)
    ensures |MemberIds(all)| <= |all|
  {
    if |all| > 0 {
      var init := all[..|all| - 1];
      MemberIdsBound(init);
      assert forall p :: p in all <==> p in init || p == all[|all| - 1];
      assert MemberIds(all) == MemberIds(init) + {all[|all| - 1].id};
    }
  }

  lemma SubsetCard(a: set<string>, b: set<string>)
    requires a <= b
    ensures |a| <= |b| && |b - a| == |b| - |a|
  {
    assert b == a + (b - a);
  }

  /** A pass that levels a new member strictly enlarges the leveled set. */
  lemma LeveledGrows(all: seq<Person>, g: Levels, g': Levels, m: nat)
    requires Extends(g, g') && m < |all| && all[m].id !in g && all[m].id in g'
    ensures |Leveled(all, g)| < |Leveled(all, g')|
  {
    var a, b := Leveled(all, g), Leveled(all, g');
    var x := all[m].id;
    assert a <= b && x in b - a;
    SubsetCard(a, b);
    SubsetCard({x}, b - a);
  }

  /** At most every member is leveled. */
  lemma LeveledBound(all: seq<Person>, g: Levels)
    ensures |Leveled(all, g)| <= |all|
  {
    SubsetCard(Leveled(all, g), MemberIds(all));
    MemberIdsBound(all);
  }

  /** The bounded relaxation: at most 20 passes, stopping after one that assigns nothing.
      Each pass that assigns levels a new member, so with fewer than 20 members it always
      stops at a fixed point. */
  method Relax(all: seq<Person>, seed: Levels, ghost seeds: set<string>)
    returns (g: Levels, ghost converged: bool, ghost led: set<nat>)
    requires Relaxed(all, seeds, seed)
    ensures Extends(seed, g) && Relaxed(all, seeds, g)
    ensures converged ==> Stable(all, g)
    ensures |all| < 20 ==> converged
    ensures forall m :: m in led ==> m < |all| && all[m].id !in seed
    ensures ByParents(all, led, g)
    ensures forall k {:trigger WrittenBy(all, led, g, k)} :: k in g && k !in seed ==> WrittenBy(all, led, g, k)
  {
    g := seed;
    led := {};
    var changed := true;
    var iter := 0;
    while iter < 20 && changed
      invariant 0 <= iter <= 20
      invariant Extends(seed, g) && Relaxed(all, seeds, g)
      invariant !changed ==> Stable(all, g)
      invariant (if changed then iter else iter - 1) <= |Leveled(all, g)| - |Leveled(all, seed)|
      invariant forall m :: m in led ==> m < |all| && all[m].id !in seed
      invariant ByParents(all, led, g)
      invariant forall k {:trigger WrittenBy(all, led, g, k)} :: k in g && k !in seed ==> WrittenBy(all, led, g, k)
    {
      var g';
      ghost var led';
      g', changed, led' := Pass(all, g, seeds);
      if changed {
        var m :| 0 <= m < |all| && all[m].id !in g && all[m].id in g';
        LeveledGrows(all, g, g', m);
      }
      RelaxWritten(all, seed, led, g, led', g');
      ExtendsTrans(seed, g, g');
      g := g';
      led := led + led';
      iter := iter + 1;
    }
    converged := !changed;
    LeveledBound(all, g);
  }

  /** One pass's writes, added to those of the passes before it, keep every level above the
      seeds written for a member leveled through its parents. */
  lemma RelaxWritten(all: seq<Person>, seed: Levels, led: set<nat>, g: Levels, led': set<nat>, g': Levels)
    requires Extends(seed, g) && Extends(g, g')
    requires forall m :: m in led ==> m < |all| && all[m].id !in seed
    requires forall m :: m in led' ==> m < |all| && all[m].id !in g
    requires ByParents(all, led, g) && ByParents(all, led', g')
    requires forall k {:trigger WrittenBy(all, led, g, k)} :: k in g && k !in seed ==> WrittenBy(all, led, g, k)
    requires forall k {:trigger WrittenInPass(all, g, led', g', k)} :: k in g' && k !in g ==> WrittenInPass(all, g, led', g', k)
    ensures forall m :: m in led + led' ==> m < |all| && all[m].id !in seed
    ensures ByParents(all, led + led', g')
    ensures forall k {:trigger WrittenBy(all, led + led', g', k)} :: k in g' && k !in seed ==> WrittenBy(all, led + led', g', k)
  {
    ByParentsExtends(all, led, g, g');
    forall k | k in g' && k !in seed
      ensures WrittenBy(all, led + led', g', k)
    {
      if k in g {
        assert WrittenBy(all, led, g, k);
        var i :| i in led && 0 <= i < |all| && all[i].id in g && (all[i].id == k || k in all[i].spouseIds)
                 && g[all[i].id] == g[k];
        assert i in led + led' && all[i].id in g' && g'[all[i].id] == g'[k];
      } else {
        assert WrittenInPass(all, g, led', g', k);
        var i :| i in led' && 0 <= i < |all| && all[i].id in g' && all[i].id !in g
                 && (all[i].id == k || k in all[i].spouseIds) && g'[all[i].id] == g'[k] && AboveParents(all[i], g, g'[k]);
        assert i in led + led';
      }
    }
  }

  /** The last loop: every member still without a level gets -1. */
  method FillUnreached(all: seq<Person>, g0: Levels) returns (g: Levels)
    ensures Extends(g0, g)
    ensures forall i :: 0 <= i < |all| ==> all[i].id in g
    ensures forall k :: k in g && k !in g0 ==> g[k] == -1 && k in MemberIds(all)
  {
    g := g0;
    var i := 0;
    while i < |all|
      invariant 0 <= i <= |all|
      invariant Extends(g0, g)
      invariant forall m :: 0 <= m < i ==> all[m].id in g
      invariant forall k :: k in g && k !in g0 ==> g[k] == -1 && k in MemberIds(all)
    {
      if all[i].id !in g {
        g := g[all[i].id := -1];
      }
      i := i + 1;
    }
  }

  /** CalculateGenerationsFixed over GetAllMembers(). */
  method CalculateGenerations(all: seq<Person>) returns (gens: Levels, ghost converged: bool, ghost led: set<nat>)
    ensures |all| == 0 ==> gens == map[]
    ensures forall i :: 0 <= i < |all| ==> all[i].id in gens
    ensures forall k :: k in gens ==> gens[k] >= -1
    ensures forall k :: k in SeedIds(Founders(all)) ==> k in gens
    ensures forall k :: k in gens ==> (gens[k] == 0 <==> k in SeedIds(Founders(all)))
    ensures forall k :: k in gens && gens[k] >= 1 ==> ChildOfLeveled(all, gens, k) || SpouseOfLeveled(all, gens, k)
    ensures forall k :: k in gens && gens[k] == -1 ==> k in MemberIds(all)
    ensures converged ==>
              forall i, pid :: 0 <= i < |all| && gens[all[i].id] == -1 && pid in all[i].parentIds ==>
                pid !in gens || gens[pid] == -1
    ensures |all| < 20 ==> converged
    ensures forall m :: m in led ==> m < |all| && all[m].id in gens && gens[all[m].id] >= 1 && ChildOfLeveled(all, gens, all[m].id)
    ensures forall m, j :: m in led && 0 <= j < |all[m].spouseIds| ==>
              all[m].spouseIds[j] in gens && gens[all[m].spouseIds[j]] >= 0
    ensures forall k {:trigger WrittenBy(all, led, gens, k)} :: k in gens && gens[k] >= 1 ==> WrittenBy(all, led, gens, k)
  {
    if |all| == 0 {
      return map[], true, {};
    }
    var founders := Founders(all);
    var seed := SeedFounders(founders);
    ghost var seeds := SeedIds(founders);
    SeedRelaxed(all, seeds, seed);
    var g;
    g, converged, led := Relax(all, seed, seeds);
    gens := FillUnreached(all, g);
    GenerationsFacts(all, seeds, g, gens, converged);
    GenerationsByParents(all, seeds, g, gens, led);
  }

  /** What the three phases give together. */
  lemma GenerationsFacts(all: seq<Person>, seeds: set<string>, g: Levels, gens: Levels, converged: bool)
    requires Relaxed(all, seeds, g) && (converged ==> Stable(all, g))
    requires Extends(g, gens) && forall k :: k in gens && k !in g ==> gens[k] == -1 && k in MemberIds(all)
    ensures forall k :: k in gens ==> gens[k] >= -1
    ensures forall k :: k in seeds ==> k in gens
    ensures forall k :: k in gens ==> (gens[k] == 0 <==> k in seeds)
    ensures forall k :: k in gens && gens[k] >= 1 ==> ChildOfLeveled(all, gens, k) || SpouseOfLeveled(all, gens, k)
    ensures forall k :: k in gens && gens[k] == -1 ==> k in MemberIds(all)
    ensures converged ==>
              forall i, pid :: 0 <= i < |all| && all[i].id in gens && gens[all[i].id] == -1 && pid in all[i].parentIds ==>
                pid !in gens || gens[pid] == -1
  {
    forall k | k in gens && gens[k] >= 1
      ensures ChildOfLeveled(all, gens, k) || SpouseOfLeveled(all, gens, k)
    {
      ExtendsKeepsJustified(all, g, gens, k);
    }
    if converged {
      forall i, pid | 0 <= i < |all| && all[i].id in gens && gens[all[i].id] == -1 && pid in all[i].parentIds
        ensures pid !in gens || gens[pid] == -1
      {
        assert Settled(all[i], g);
      }
    }
  }

  /** What the relaxation's record of members leveled through their parents gives over the
      final map: such a member is above level 0 with a parent one below, every spouse it lists
      has a level of its own (so none is -1), and every level above 0 is such a member's or a
      spouse's it lists, at the same level. */
  lemma GenerationsByParents(all: seq<Person>, seeds: set<string>, g: Levels, gens: Levels, led: set<nat>)
    requires Relaxed(all, seeds, g)
    requires Extends(g, gens) && forall k :: k in gens && k !in g ==> gens[k] == -1
    requires forall m :: m in led ==> m < |all| && all[m].id !in seeds
    requires ByParents(all, led, g)
    requires forall k {:trigger WrittenBy(all, led, g, k)} :: k in g && k !in seeds ==> WrittenBy(all, led, g, k)
    ensures forall m :: m in led ==> m < |all| && all[m].id in gens && gens[all[m].id] >= 1 && ChildOfLeveled(all, gens, all[m].id)
    ensures forall m, j :: m in led && 0 <= j < |all[m].spouseIds| ==>
              all[m].spouseIds[j] in gens && gens[all[m].spouseIds[j]] >= 0
    ensures forall k {:trigger WrittenBy(all, led, gens, k)} :: k in gens && gens[k] >= 1 ==> WrittenBy(all, led, gens, k)
  {
    ByParentsExtends(all, led, g, gens);
    forall m | m in led
      ensures all[m].id in gens && gens[all[m].id] >= 1 && ChildOfLeveled(all, gens, all[m].id)
      ensures forall j :: 0 <= j < |all[m].spouseIds| ==> all[m].spouseIds[j] in gens && gens[all[m].spouseIds[j]] >= 0
    {
      assert LedByParent(all, g, m) && LedByParent(all, gens, m);
    }
    forall k | k in gens && gens[k] >= 1
      ensures WrittenBy(all, led, gens, k)
    {
      assert k in g && k !in seeds;
      assert WrittenBy(all, led, g, k);
      var i :| i in led && 0 <= i < |all| && all[i].id in g && (all[i].id == k || k in all[i].spouseIds)
               && g[all[i].id] == g[k];
      assert all[i].id in gens && gens[all[i].id] == gens[k];
    }
  }

  // ---------------------------------------------------------------------------------------
  // Family groups.

  /** The spouses the queue step enqueues: not processed and at level `level`. */
  function Enqueued(spouses: seq<Person>, gens: Levels, processed: set<string>, level: int): (r: seq<Person>)
    ensures forall x :: x in r <==> x in spouses && x.id !in processed && x.id in gens && gens[x.id] == level
  {
    if |spouses| == 0 then []
    else
      var init, last := spouses[..|spouses| - 1], spouses[|spouses| - 1];
      assert forall x :: x in spouses <==> x in init || x == last;
      Enqueued(init, gens, processed, level)
        + (if last.id !in processed && last.id in gens && gens[last.id] == level then [last] else [])
  }

  /** The ids of a group. */
  ghost function GroupIds(group: seq<Person>): set<string>
  {
    set x | x in group :: x.id
  }

  /** `b` is a member that the stored record of `a` lists as a spouse. */
  predicate SpouseLink(members: map<string, Person>, a: Person, b: Person)
  {
    a.id in members && b.id in members && b.id in members[a.id].spouseIds && members[b.id] == b
  }

  /** What the queue step appends for `c`: exactly its linked spouses that are unprocessed and
      at its level. */
  lemma EnqueuedLinks(members: map<string, Person>, gens: Levels, processed: set<string>, c: Person, next: seq<Person>)
    requires forall k :: k in members ==> members[k].id == k
    requires c.id in gens && next == Enqueued(Spouses(members, c.id), gens, processed, gens[c.id])
    ensures forall q :: q in next ==> SpouseLink(members, c, q) && q.id !in processed && q.id in gens && gens[q.id] == gens[c.id]
    ensures forall sid :: (c.id in members && sid in members[c.id].spouseIds && sid in members && sid !in processed
                           && sid in gens && gens[sid] == gens[c.id]) ==> members[sid] in next
  {
    forall q | q in next
      ensures SpouseLink(members, c, q)
    {
      var sid :| sid in members[c.id].spouseIds && sid in members && members[sid] == q;
    }
  }

  /** Everyone queued is the root or a member record, at the root's level. */
  ghost predicate QueueAtLevel(members: map<string, Person>, gens: Levels, root: Person, level: int, queue: seq<Person>)
  {
    forall q :: q in queue ==> q.id in gens && gens[q.id] == level && (q == root || (q.id in members && members[q.id] == q))
  }

  /** The group holds distinct new persons at the level, and `processed` gained their ids. */
  ghost predicate GroupAtLevel(gens: Levels, level: int, processed0: set<string>, processed: set<string>, group: seq<Person>)
  {
    && processed == processed0 + GroupIds(group)
    && DistinctIds(group)
    && (forall x :: x in group ==> x.id !in processed0 && x.id in gens && gens[x.id] == level)
  }

  /** The root comes first, unless it was processed before the search. */
  ghost predicate RootFirst(root: Person, processed0: set<string>, group: seq<Person>, queue: seq<Person>)
  {
    && (group == [] ==> queue == [root] || (root.id in processed0 && queue == []))
    && (group != [] ==> group[0] == root && root.id !in processed0)
  }

  /** Everyone queued after the root is a spouse of someone grouped. */
  ghost predicate QueueLinked(members: map<string, Person>, group: seq<Person>, queue: seq<Person>)
  {
    group != [] ==> forall q :: q in queue ==> exists j :: 0 <= j < |group| && SpouseLink(members, group[j], q)
  }

  /** Everyone grouped after the root is a spouse of someone grouped before. */
  ghost predicate GroupLinked(members: map<string, Person>, group: seq<Person>)
  {
    forall i :: 1 <= i < |group| ==> LinkedBefore(members, group, i)
  }

  /** `group[i]` is a spouse of someone grouped before it. */
  ghost predicate LinkedBefore(members: map<string, Person>, group: seq<Person>, i: int)
    requires 0 <= i < |group|
  {
    exists j :: 0 <= j < i && SpouseLink(members, group[j], group[i])
  }

  ghost predicate Linked(members: map<string, Person>, group: seq<Person>, queue: seq<Person>)
  {
    QueueLinked(members, group, queue) && GroupLinked(members, group)
  }

  /** Every spouse at the level of someone grouped is processed or still queued. */
  ghost predicate Closed(members: map<string, Person>, gens: Levels, level: int, processed: set<string>,
                         group: seq<Person>, queue: seq<Person>)
  {
    forall j, sid :: 0 <= j < |group| && group[j].id in members && sid in members[group[j].id].spouseIds
                     && sid in members && sid in gens && gens[sid] == level ==>
      sid in processed || members[sid] in queue
  }

  /** The loop state of the group search from `root` at level `level`. */
  ghost predicate Searching(members: map<string, Person>, gens: Levels, root: Person, level: int,
                            processed0: set<string>, processed: set<string>, group: seq<Person>, queue: seq<Person>)
  {
    && QueueAtLevel(members, gens, root, level, queue)
    && GroupAtLevel(gens, level, processed0, processed, group)
    && RootFirst(root, processed0, group, queue)
    && Linked(members, group, queue)
    && Closed(members, gens, level, processed, group, queue)
  }

  lemma SearchStart(members: map<string, Person>, gens: Levels, root: Person, processed0: set<string>)
    requires root.id in gens
    ensures Searching(members, gens, root, gens[root.id], processed0, processed0, [], [root])
  {
    assert GroupIds([]) == {};
  }

  /** Dequeuing someone already processed. */
  lemma SearchSkip(members: map<string, Person>, gens: Levels, root: Person, level: int,
                   processed0: set<string>, processed: set<string>, group: seq<Person>, queue: seq<Person>)
    requires forall k :: k in members ==> members[k].id == k
    requires Searching(members, gens, root, level, processed0, processed, group, queue)
    requires |queue| > 0 && queue[0].id in processed
    ensures Searching(members, gens, root, level, processed0, processed, group, queue[1..])
  {
    assert forall q :: q in queue[1..] ==> q in queue;
    if group == [] {
      assert root.id in processed0;
    }
    ClosedSkip(members, gens, level, processed, group, queue);
  }

  lemma ClosedSkip(members: map<string, Person>, gens: Levels, level: int, processed: set<string>,
                   group: seq<Person>, queue: seq<Person>)
    requires Closed(members, gens, level, processed, group, queue)
    requires forall k :: k in members ==> members[k].id == k
    requires |queue| > 0 && queue[0].id in processed
    ensures Closed(members, gens, level, processed, group, queue[1..])
  {
    assert forall q :: q in queue ==> q == queue[0] || q in queue[1..];
  }

  /** Dequeuing `queue[0]` unprocessed: it joins the group and its spouses `next` join the queue. */
  lemma SearchVisit(members: map<string, Person>, gens: Levels, root: Person, level: int,
                    processed0: set<string>, processed: set<string>, group: seq<Person>, queue: seq<Person>,
                    next: seq<Person>)
    requires forall k :: k in members ==> members[k].id == k
    requires Searching(members, gens, root, level, processed0, processed, group, queue)
    requires |queue| > 0 && queue[0].id !in processed
    requires next == Enqueued(Spouses(members, queue[0].id), gens, processed + {queue[0].id}, gens[queue[0].id])
    ensures Searching(members, gens, root, level, processed0, processed + {queue[0].id}, group + [queue[0]], queue[1..] + next)
  {
    var c := queue[0];
    EnqueuedLinks(members, gens, processed + {c.id}, c, next);
    QueueVisit(members, gens, root, level, queue, next);
    GroupVisit(gens, level, processed0, processed, group, c);
    if group == [] {
      assert c == root;
    }
    LinkedVisit(members, group, queue, next);
    ClosedVisit(members, gens, level, processed, group, queue, next);
  }

  lemma QueueVisit(members: map<string, Person>, gens: Levels, root: Person, level: int,
                   queue: seq<Person>, next: seq<Person>)
    requires QueueAtLevel(members, gens, root, level, queue) && |queue| > 0
    requires forall q :: q in next ==> SpouseLink(members, queue[0], q) && q.id in gens && gens[q.id] == gens[queue[0].id]
    ensures QueueAtLevel(members, gens, root, level, queue[1..] + next)
  {
    assert forall q :: q in queue[1..] + next ==> q in queue || q in next;
  }

  lemma GroupVisit(gens: Levels, level: int, processed0: set<string>, processed: set<string>, group: seq<Person>, c: Person)
    requires GroupAtLevel(gens, level, processed0, processed, group)
    requires c.id !in processed && c.id in gens && gens[c.id] == level
    ensures GroupAtLevel(gens, level, processed0, processed + {c.id}, group + [c])
  {
    var group' := group + [c];
    assert forall x :: x in group' <==> x in group || x == c;
    assert GroupIds(group') == GroupIds(group) + {c.id};
    forall i, j | 0 <= i < j < |group'| ensures group'[i].id != group'[j].id {
      if j == |group| {
        assert group[i] in group;
      }
    }
  }

  lemma LinkedVisit(members: map<string, Person>, group: seq<Person>, queue: seq<Person>, next: seq<Person>)
    requires Linked(members, group, queue) && |queue| > 0 && (group == [] ==> |queue| == 1)
    requires forall q :: q in next ==> SpouseLink(members, queue[0], q)
    ensures Linked(members, group + [queue[0]], queue[1..] + next)
  {
    LinkedQueueVisit(members, group, queue, next);
    LinkedGroupVisit(members, group, queue);
  }

  lemma LinkedQueueVisit(members: map<string, Person>, group: seq<Person>, queue: seq<Person>, next: seq<Person>)
    requires QueueLinked(members, group, queue)
    requires |queue| > 0 && (group == [] ==> |queue| == 1)
    requires forall q :: q in next ==> SpouseLink(members, queue[0], q)
    ensures QueueLinked(members, group + [queue[0]], queue[1..] + next)
  {
    var group' := group + [queue[0]];
    forall q | q in queue[1..] + next
      ensures exists j :: 0 <= j < |group'| && SpouseLink(members, group'[j], q)
    {
      if q in next {
        assert SpouseLink(members, group'[|group|], q);
      } else {
        assert q in queue[1..];
        assert q in queue && group != [];
        var j :| 0 <= j < |group| && SpouseLink(members, group[j], q);
        assert group'[j] == group[j];
      }
    }
  }

  lemma LinkedGroupVisit(members: map<string, Person>, group: seq<Person>, queue: seq<Person>)
    requires QueueLinked(members, group, queue) && GroupLinked(members, group)
    requires |queue| > 0
    ensures GroupLinked(members, group + [queue[0]])
  {
    var c := queue[0];
    var group' := group + [c];
    forall i | 1 <= i < |group'|
      ensures LinkedBefore(members, group', i)
    {
      if i < |group| {
        assert LinkedBefore(members, group, i);
        var j :| 0 <= j < i && SpouseLink(members, group[j], group[i]);
        assert group'[j] == group[j] && group'[i] == group[i];
      } else {
        assert c in queue && group'[i] == c;
        var j :| 0 <= j < |group| && SpouseLink(members, group[j], c);
        assert group'[j] == group[j];
      }
    }
  }

  lemma ClosedVisit(members: map<string, Person>, gens: Levels, level: int, processed: set<string>,
                    group: seq<Person>, queue: seq<Person>, next: seq<Person>)
    requires forall k :: k in members ==> members[k].id == k
    requires Closed(members, gens, level, processed, group, queue) && |queue| > 0
    requires queue[0].id in gens && gens[queue[0].id] == level
    requires forall sid :: (queue[0].id in members && sid in members[queue[0].id].spouseIds && sid in members
                            && sid !in processed + {queue[0].id} && sid in gens && gens[sid] == level) ==> members[sid] in next
    ensures Closed(members, gens, level, processed + {queue[0].id}, group + [queue[0]], queue[1..] + next)
  {
    var c := queue[0];
    var group', queue' := group + [c], queue[1..] + next;
    assert forall q :: q in queue ==> q == c || q in queue';
    assert forall q :: q in next ==> q in queue';
    forall j | 0 <= j < |group|
      ensures group'[j] == group[j]
    {
    }
  }

  /** The ids a search can ever process: the root's and the members'. */
  ghost function Reachable(members: map<string, Person>, root: Person): set<string>
  {
    members.Keys + {root.id}
  }

  lemma SearchProgress(u: set<string>, processed: set<string>, id: string)
    requires id in u && id !in processed
    ensures |u - (processed + {id})| < |u - processed|
  {
    var a, b := u - (processed + {id}), u - processed;
    assert b == a + {id};
  }

  /** BuildFamilyGroupIterative(root, processed): the persons taken, in order, from a queue
      seeded with the root that enqueues each taken person's unprocessed spouses of the same
      generation; `processed` is returned with the group's ids added. */
  method BuildFamilyGroup(members: map<string, Person>, gens: Levels, root: Person, processed0: set<string>)
    returns (group: seq<Person>, processed: set<string>)
    requires root.id in gens
    requires forall k :: k in members ==> members[k].id == k
    ensures processed == processed0 + GroupIds(group)
    ensures DistinctIds(group)
    ensures forall x :: x in group ==> x.id !in processed0 && x.id in gens && gens[x.id] == gens[root.id]
    ensures root.id in processed0 ==> group == []
    ensures root.id !in processed0 ==> |group| > 0 && group[0] == root
    ensures forall i :: 1 <= i < |group| ==> exists j :: 0 <= j < i && SpouseLink(members, group[j], group[i])
    ensures forall x, sid :: (x in group && x.id in members && sid in members[x.id].spouseIds && sid in members
                              && sid in gens && gens[sid] == gens[root.id]) ==> sid in processed
  {
    ghost var level := gens[root.id];
    group := [];
    processed := processed0;
    var queue := [root];
    SearchStart(members, gens, root, processed0);
    while |queue| > 0
      invariant Searching(members, gens, root, level, processed0, processed, group, queue)
      decreases |Reachable(members, root) - processed|, |queue|
    {
      processed, group, queue := SearchStep(members, gens, root, level, processed0, processed, group, queue);
    }
    SearchDone(members, gens, root, level, processed0, processed, group);
  }

  /** One turn of the search loop: dequeue, and either skip or take and enqueue spouses. */
  method SearchStep(members: map<string, Person>, gens: Levels, root: Person, ghost level: int,
                    ghost processed0: set<string>, processed: set<string>, group: seq<Person>, queue: seq<Person>)
    returns (processed': set<string>, group': seq<Person>, queue': seq<Person>)
    requires forall k :: k in members ==> members[k].id == k
    requires Searching(members, gens, root, level, processed0, processed, group, queue) && |queue| > 0
    ensures Searching(members, gens, root, level, processed0, processed', group', queue')
    ensures |Reachable(members, root) - processed'| < |Reachable(members, root) - processed|
            || (processed' == processed && |queue'| < |queue|)
  {
    var current := queue[0];
    if current.id in processed {
      SearchSkip(members, gens, root, level, processed0, processed, group, queue);
      processed', group', queue' := processed, group, queue[1..];
    } else {
      var next := Enqueued(Spouses(members, current.id), gens, processed + {current.id}, gens[current.id]);
      SearchVisit(members, gens, root, level, processed0, processed, group, queue, next);
      SearchProgress(Reachable(members, root), processed, current.id);
      processed', group', queue' := processed + {current.id}, group + [current], queue[1..] + next;
    }
  }

  /** When the queue runs dry the search state gives BuildFamilyGroup's promises. */
  lemma SearchDone(members: map<string, Person>, gens: Levels, root: Person, level: int,
                   processed0: set<string>, processed: set<string>, group: seq<Person>)
    requires Searching(members, gens, root, level, processed0, processed, group, [])
    ensures processed == processed0 + GroupIds(group)
    ensures DistinctIds(group)
    ensures forall x :: x in group ==> x.id !in processed0 && x.id in gens && gens[x.id] == level
    ensures root.id in processed0 ==> group == []
    ensures root.id !in processed0 ==> |group| > 0 && group[0] == root
    ensures forall i :: 1 <= i < |group| ==> exists j :: 0 <= j < i && SpouseLink(members, group[j], group[i])
    ensures forall x, sid :: (x in group && x.id in members && sid in members[x.id].spouseIds && sid in members
                              && sid in gens && gens[sid] == level) ==> sid in processed
  {
    forall i | 1 <= i < |group|
      ensures exists j :: 0 <= j < i && SpouseLink(members, group[j], group[i])
    {
      assert LinkedBefore(members, group, i);
    }
    forall x, sid | x in group && x.id in members && sid in members[x.id].spouseIds && sid in members
                    && sid in gens && gens[sid] == level
      ensures sid in processed
    {
      var j :| 0 <= j < |group| && group[j] == x;
    }
  }
}
