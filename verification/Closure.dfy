/** internal/review/service.go, phase 1: the bidirectional breadth-first closure of a root artifact. */
module Closure {
  import opened Base
  import opened Model
  import opened Lists
  import opened Tables
  import opened Memory
  import opened Graph
  import Text

  /** An edge filed under the artifact that declares it, with the upstream it resolves to. */
  datatype OwnedEdge = OwnedEdge(target: Artifact, edge: DependencyEdge)

  type Ownership = map<int, seq<OwnedEdge>>

  /** order, queue, visited and paths of the walk; a path lists artifact ids. */
  datatype Frontier = Frontier(order: seq<Artifact>, queue: seq<Artifact>, visited: set<int>, paths: map<int, seq<int>>)
  {
    function Found(): seq<Artifact> {
      order + queue
    }
  }

  // ---- invariant of the walk ----

  ghost predicate Nodes(s: State, found: seq<Artifact>) {
    && (forall i :: 0 <= i < |found| ==> IsNode(s, found[i]))
    && (forall i, j :: 0 <= i < j < |found| ==> found[i].id != found[j].id)
  }

  ghost predicate Layered(found: seq<Artifact>, paths: map<int, seq<int>>) {
    && (forall i :: 0 <= i < |found| ==> found[i].id in paths)
    && (forall i, j :: 0 <= i < j < |found| ==> |paths[found[i].id]| <= |paths[found[j].id]|)
  }

  ghost predicate PathsLead(s: State, root: Artifact, paths: map<int, seq<int>>) {
    forall id :: id in paths ==> WalkFromTo(s, paths[id], root.id, id)
  }

  /** What holds of the walk at every point. */
  ghost predicate WalkOk(s: State, root: Artifact, f: Frontier) {
    var found := f.Found();
    && Nodes(s, found)
    && f.visited == (set a <- found :: a.id) == f.paths.Keys
    && found != [] && found[0] == root && f.paths[root.id] == [root.id]
    && PathsLead(s, root, f.paths)
    && Layered(found, f.paths)
  }

  /** Nothing found so far is further than one layer beyond cur. */
  ghost predicate Within(f: Frontier, cur: int)
    requires cur in f.paths
  {
    forall id :: id in f.paths ==> |f.paths[id]| <= |f.paths[cur]| + 1
  }

  /** Every step from n leads to something found, at most one layer further. */
  ghost predicate Expanded(s: State, f: Frontier, n: int) {
    n in f.paths && forall m :: Hop(s, n, m) ==> m in f.paths && |f.paths[m]| <= |f.paths[n]| + 1
  }

  ghost predicate OrderExpanded(s: State, f: Frontier, k: nat)
    requires k <= |f.order|
  {
    forall i :: 0 <= i < k ==> Expanded(s, f, f.order[i].id)
  }

  /** The walk only ever adds. */
  ghost predicate Grows(f: Frontier, f': Frontier) {
    && f.order == f'.order && f.visited <= f'.visited
    && forall id :: id in f.paths ==> id in f'.paths && f'.paths[id] == f.paths[id]
  }

  lemma ExpandedStays(s: State, f: Frontier, f': Frontier, n: int)
    requires Expanded(s, f, n) && Grows(f, f')
    ensures Expanded(s, f', n)
  {
  }

  function Discover(f: Frontier, cur: int, a: Artifact): Frontier
    requires cur in f.paths
  {
    f.(queue := f.queue + [a], visited := f.visited + {a.id}, paths := f.paths[a.id := f.paths[cur] + [a.id]])
  }

  lemma LongerWalk(s: State, p: seq<int>, a: int, b: int, c: int)
    requires WalkFromTo(s, p, a, b) && Hop(s, b, c)
    ensures WalkFromTo(s, p + [c], a, c)
  {
    var q := p + [c];
    forall i | 0 <= i < |q| - 1 ensures Hop(s, q[i], q[i + 1]) {
      if i < |p| - 1 {
        assert Hop(s, p[i], p[i + 1]);
      }
    }
  }

  lemma FoundSnoc(f: Frontier, cur: int, a: Artifact)
    requires cur in f.paths
    ensures Discover(f, cur, a).Found() == f.Found() + [a]
  {
  }

  lemma NodesSnoc(s: State, found: seq<Artifact>, a: Artifact)
    requires Nodes(s, found) && IsNode(s, a) && a.id !in set b <- found :: b.id
    ensures Nodes(s, found + [a])
  {
    hide IsNode;
    assert forall i :: 0 <= i < |found| ==> found[i] in found;
  }

  lemma LayeredSnoc(found: seq<Artifact>, paths: map<int, seq<int>>, a: Artifact, p: seq<int>)
    requires Layered(found, paths) && a.id !in paths
    requires forall id :: id in paths ==> |paths[id]| <= |p|
    ensures Layered(found + [a], paths[a.id := p])
  {
    assert forall i :: 0 <= i < |found| ==> found[i].id != a.id;
  }

  lemma PathsSnoc(s: State, root: Artifact, paths: map<int, seq<int>>, cur: int, id: int)
    requires PathsLead(s, root, paths) && cur in paths && Hop(s, cur, id)
    ensures PathsLead(s, root, paths[id := paths[cur] + [id]])
  {
    hide Hop, Walk;
    LongerWalk(s, paths[cur], root.id, cur, id);
  }

  /** Visiting a new artifact one hop from the current one keeps the invariant. */
  lemma DiscoverKeeps(s: State, root: Artifact, f: Frontier, cur: int, a: Artifact)
    requires WalkOk(s, root, f) && cur in f.paths && Within(f, cur)
    requires IsNode(s, a) && a.id !in f.visited && Hop(s, cur, a.id)
    ensures WalkOk(s, root, Discover(f, cur, a)) && Grows(f, Discover(f, cur, a)) && Within(Discover(f, cur, a), cur)
  {
    hide Hop, IsNode, PathsLead, Layered, Nodes;
    FoundSnoc(f, cur, a);
    NodesSnoc(s, f.Found(), a);
    LayeredSnoc(f.Found(), f.paths, a, f.paths[cur] + [a.id]);
    PathsSnoc(s, root, f.paths, cur, a.id);
    assert root in f.Found();
  }

  // ---- ownership ----

  function EdgesOwned(owned: Ownership, n: int): seq<OwnedEdge> {
    if n in owned then owned[n] else []
  }

  ghost predicate OwnsSoundly(s: State, owned: Ownership) {
    forall n, oe :: n in owned && oe in owned[n] ==>
      Links(s, oe.edge, n, oe.target.id) && IsNode(s, oe.target) && Filable(s, oe.edge)
  }

  ghost predicate Owns(owned: Ownership, n: int, e: DependencyEdge) {
    exists oe :: oe in EdgesOwned(owned, n) && oe.edge == e
  }

  /** Every kept edge of n that resolves is owned. */
  ghost predicate OwnsKept(s: State, owned: Ownership, n: int) {
    forall e, t :: Kept(s, e) && Links(s, e, n, t) ==> Owns(owned, n, e)
  }

  /** The lowest edge from each artifact that pins t is owned by that artifact. */
  ghost predicate OwnsPins(s: State, owned: Ownership, t: int) {
    forall e, n :: LowestPin(s, e) && Links(s, e, n, t) ==> Owns(owned, n, e)
  }

  ghost predicate OrderOwns(s: State, f: Frontier, owned: Ownership, k: nat)
    requires k <= |f.order|
  {
    forall i :: 0 <= i < k ==> OwnsKept(s, owned, f.order[i].id) && OwnsPins(s, owned, f.order[i].id)
  }

  /** Every owned edge points at something found. */
  ghost predicate TargetsFound(owned: Ownership, f: Frontier) {
    forall n, oe :: n in owned && oe in owned[n] ==> oe.target.id in f.visited
  }

  ghost predicate OwnedGrows(owned: Ownership, owned': Ownership) {
    forall n :: n in owned ==> n in owned' && owned[n] <= owned'[n]
  }

  lemma OwnsKeptStays(s: State, owned: Ownership, owned': Ownership, n: int)
    requires OwnsKept(s, owned, n) && OwnedGrows(owned, owned')
    ensures OwnsKept(s, owned', n)
  {
    hide Kept, Links;
    forall e | Owns(owned, n, e) ensures Owns(owned', n, e) {
      var oe :| oe in EdgesOwned(owned, n) && oe.edge == e;
      assert oe in EdgesOwned(owned', n);
    }
  }

  lemma OwnsPinsStays(s: State, owned: Ownership, owned': Ownership, t: int)
    requires OwnsPins(s, owned, t) && OwnedGrows(owned, owned')
    ensures OwnsPins(s, owned', t)
  {
    hide LowestPin, Links;
    forall n, e | Owns(owned, n, e) ensures Owns(owned', n, e) {
      var oe :| oe in EdgesOwned(owned, n) && oe.edge == e;
      assert oe in EdgesOwned(owned', n);
    }
  }

  function File(owned: Ownership, n: int, oe: OwnedEdge): Ownership {
    owned[n := EdgesOwned(owned, n) + [oe]]
  }

  /** addOwnedEdge: files an edge that resolves, and ignores one that does not. */
  method AddOwnedEdge(st: MemoryStore, owned: Ownership, n: int, e: DependencyEdge) returns (r: Ownership)
    requires st.Valid() && OwnsSoundly(st.View(), owned)
    requires e in st.View().deps && e.artifactId == n && Filable(st.View(), e)
    ensures OwnsSoundly(st.View(), r) && OwnedGrows(owned, r)
    ensures r == match Resolve(st.View(), e)
                 case Some(t) => File(owned, n, OwnedEdge(t, e))
                 case None => owned
  {
    var up := st.GetArtifact(e.depName, e.depSha);
    if up.None? {
      return owned;
    }
    StoredIsNode(st.View(), up.value);
    r := owned[n := EdgesOwned(owned, n) + [OwnedEdge(up.value, e)]];
  }

  // ---- upstream edges ----

  ghost predicate ListsEdgesOf(s: State, list: seq<DependencyEdge>, n: int) {
    Sorted(EdgeLess, list) && forall e :: e in list <==> e in s.deps && e.artifactId == n
  }

  ghost predicate FirstWithKey(list: seq<DependencyEdge>, i: nat)
    requires i < |list|
  {
    forall j :: 0 <= j < i ==> DedupKey(list[j]) != DedupKey(list[i])
  }

  /** In the sorted list an edge passes the dedup exactly when it is kept. */
  lemma FirstIffKept(s: State, list: seq<DependencyEdge>, n: int, i: nat)
    requires WellFormed(s) && ListsEdgesOf(s, list, n) && i < |list|
    ensures FirstWithKey(list, i) ==> Kept(s, list[i])
  {
    hide DedupKey;
    if FirstWithKey(list, i) {
      forall x <- s.deps | x.artifactId == n && DedupKey(x) == DedupKey(list[i])
        ensures !EdgeLess(x, list[i])
      {
        var j :| 0 <= j < |list| && list[j] == x;
        EdgeOrdering();
        assert j >= i;
      }
    }
  }

  lemma KeptIsFirst(s: State, list: seq<DependencyEdge>, n: int, e: DependencyEdge) returns (i: nat)
    requires WellFormed(s) && ListsEdgesOf(s, list, n) && Kept(s, e) && e.artifactId == n
    ensures i < |list| && list[i] == e && FirstWithKey(list, i)
  {
    hide DedupKey, EdgeLess;
    var j :| 0 <= j < |list| && list[j] == e;
    i := FirstIndex(list, j);
    var x := list[i];
    assert x in list && x in s.deps;
    EdgeOrdering();
    assert !EdgeLess(e, x) by {
      assert i < j ==> !EdgeLess(list[j], list[i]);
    }
    assert !EdgeLess(x, e);
    SameKeySamePlace(x, e);
    EdgeIsUnique(s, x, e);
  }

  lemma SameKeySamePlace(x: DependencyEdge, e: DependencyEdge)
    requires DedupKey(x) == DedupKey(e) && !EdgeLess(x, e) && !EdgeLess(e, x) && x.artifactId == e.artifactId
    ensures SameEdge(x, e)
  {
    Text.LessTotal(x.depName, e.depName);
    Text.LessTotal(x.depSha, e.depSha);
    KeySplits(x, e);
  }

  lemma {:induction false} FirstIndex(list: seq<DependencyEdge>, j: nat) returns (i: nat)
    requires j < |list|
    ensures i <= j && DedupKey(list[i]) == DedupKey(list[j]) && FirstWithKey(list, i)
    decreases j
  {
    hide DedupKey;
    if FirstWithKey(list, j) {
      i := j;
    } else {
      var k :| 0 <= k < j && DedupKey(list[k]) == DedupKey(list[j]);
      i := FirstIndex(list, k);
    }
  }

  /** An edge that resolves is owned; one that does not has nothing to own. */
  ghost predicate Handled(s: State, owned: Ownership, n: int, e: DependencyEdge) {
    Resolve(s, e).Some? ==> Owns(owned, n, e)
  }

  /** Only kept edges of n are new. */
  ghost predicate AddsOnlyKept(s: State, owned: Ownership, r: Ownership, n: int) {
    && (forall m :: m != n ==> EdgesOwned(r, m) == EdgesOwned(owned, m))
    && (forall oe <- EdgesOwned(r, n) :: oe in EdgesOwned(owned, n) || Kept(s, oe.edge))
  }

  ghost predicate FirstsHandled(s: State, owned: Ownership, n: int, list: seq<DependencyEdge>, k: nat)
    requires k <= |list|
  {
    forall j :: 0 <= j < k && FirstWithKey(list, j) ==> Handled(s, owned, n, list[j])
  }

  lemma HandledStays(s: State, owned: Ownership, r: Ownership, n: int, list: seq<DependencyEdge>, k: nat)
    requires k <= |list| && FirstsHandled(s, owned, n, list, k) && OwnedGrows(owned, r)
    ensures FirstsHandled(s, r, n, list, k)
  {
    hide Resolve, FirstWithKey;
    forall e | Owns(owned, n, e) ensures Owns(r, n, e) {
      var oe :| oe in EdgesOwned(owned, n) && oe.edge == e;
      assert oe in EdgesOwned(r, n);
    }
  }

  lemma FirstsAreAllKept(s: State, owned: Ownership, n: int, list: seq<DependencyEdge>)
    requires WellFormed(s) && ListsEdgesOf(s, list, n) && FirstsHandled(s, owned, n, list, |list|)
    ensures OwnsKept(s, owned, n)
  {
    hide FirstWithKey, Kept, ListsEdgesOf, Owns;
    forall e, t | Kept(s, e) && Links(s, e, n, t) ensures Owns(owned, n, e) {
      var i := KeptIsFirst(s, list, n, e);
      assert Handled(s, owned, n, list[i]);
    }
  }

  lemma FileHandles(s: State, owned: Ownership, n: int, e: DependencyEdge, r: Ownership)
    requires r == match Resolve(s, e) case Some(t) => File(owned, n, OwnedEdge(t, e)) case None => owned
    requires Kept(s, e)
    ensures Handled(s, r, n, e) && AddsOnlyKept(s, owned, r, n)
  {
    hide Resolve, Kept;
    if Resolve(s, e).Some? {
      var oe := OwnedEdge(Resolve(s, e).value, e);
      assert EdgesOwned(r, n) == EdgesOwned(owned, n) + [oe];
      assert oe in EdgesOwned(r, n);
    }
  }

  lemma AddsOnlyKeptTwice(s: State, owned: Ownership, mid: Ownership, r: Ownership, n: int)
    requires AddsOnlyKept(s, owned, mid, n) && AddsOnlyKept(s, mid, r, n)
    ensures AddsOnlyKept(s, owned, r, n)
  {
  }

  ghost function KeysOf(list: seq<DependencyEdge>, k: nat): set<string>
    requires k <= |list|
  {
    set j | 0 <= j < k :: DedupKey(list[j])
  }

  lemma NothingAdded(s: State, owned: Ownership, n: int)
    ensures AddsOnlyKept(s, owned, owned, n) && OwnedGrows(owned, owned)
  {
  }

  lemma KeysOfSnoc(list: seq<DependencyEdge>, i: nat)
    requires i < |list|
    ensures KeysOf(list, i + 1) == KeysOf(list, i) + {DedupKey(list[i])}
    ensures FirstWithKey(list, i) <==> DedupKey(list[i]) !in KeysOf(list, i)
  {
    hide DedupKey;
  }

  lemma NoneHandled(s: State, owned: Ownership, n: int, list: seq<DependencyEdge>)
    ensures FirstsHandled(s, owned, n, list, 0) && KeysOf(list, 0) == {}
  {
  }

  lemma SkipHandled(s: State, owned: Ownership, n: int, list: seq<DependencyEdge>, k: nat)
    requires k < |list| && FirstsHandled(s, owned, n, list, k) && !FirstWithKey(list, k)
    ensures FirstsHandled(s, owned, n, list, k + 1)
  {
    hide Handled, FirstWithKey;
  }

  method ListUpstream(st: MemoryStore, n: int) returns (list: seq<DependencyEdge>)
    ensures ListsEdgesOf(st.View(), list, n)
  {
    list := st.ListDependencyEdges(n);
    InMultiset(list, Filter(DeclaredBy(n), st.dependencies));
  }

  /** Files the edges an artifact declares, one per dedup key. */
  method OwnUpstream(st: MemoryStore, cur: Artifact, owned: Ownership) returns (r: Ownership)
    requires st.Valid() && OwnsSoundly(st.View(), owned)
    ensures OwnsSoundly(st.View(), r) && OwnedGrows(owned, r)
    ensures OwnsKept(st.View(), r, cur.id) && AddsOnlyKept(st.View(), owned, r, cur.id)
  {
    hide ListsEdgesOf, Kept, OwnsSoundly, WellFormed, Resolve, Owns, OwnsKept, FirstsHandled, AddsOnlyKept, OwnedGrows;
    hide FirstWithKey, DedupKey, KeysOf;
    ghost var s := st.View();
    var list := ListUpstream(st, cur.id);
    NoneHandled(s, owned, cur.id, list);
    NothingAdded(s, owned, cur.id);
    var dedup: set<string> := {};
    r := owned;
    for i := 0 to |list|
      invariant OwnsSoundly(s, r) && OwnedGrows(owned, r) && AddsOnlyKept(s, owned, r, cur.id)
      invariant dedup == KeysOf(list, i)
      invariant FirstsHandled(s, r, cur.id, list, i)
    {
      var key := DedupKey(list[i]);
      KeysOfSnoc(list, i);
      if key in dedup {
        SkipHandled(s, r, cur.id, list, i);
        continue;
      }
      dedup := dedup + {key};
      r := OwnOne(st, cur, owned, r, list, i);
    }
    FirstsAreAllKept(s, r, cur.id, list);
  }

  method OwnOne(st: MemoryStore, cur: Artifact, ghost owned: Ownership, before: Ownership, list: seq<DependencyEdge>,
                i: nat)
    returns (r: Ownership)
    requires st.Valid() && OwnsSoundly(st.View(), before) && OwnedGrows(owned, before)
    requires AddsOnlyKept(st.View(), owned, before, cur.id)
    requires ListsEdgesOf(st.View(), list, cur.id) && i < |list| && FirstWithKey(list, i)
    requires FirstsHandled(st.View(), before, cur.id, list, i)
    ensures OwnsSoundly(st.View(), r) && OwnedGrows(owned, r) && AddsOnlyKept(st.View(), owned, r, cur.id)
    ensures FirstsHandled(st.View(), r, cur.id, list, i + 1)
  {
    hide Kept, OwnsSoundly, WellFormed, Resolve, Owns, FirstWithKey, FirstsHandled, AddsOnlyKept, OwnedGrows, Handled;
    ghost var s := st.View();
    assert list[i] in list;
    FirstIffKept(s, list, cur.id, i);
    r := AddOwnedEdge(st, before, cur.id, list[i]);
    FileHandles(s, before, cur.id, list[i], r);
    AddsOnlyKeptTwice(s, owned, before, r, cur.id);
    OwnedGrowsTwice(owned, before, r);
    HandledStays(s, before, r, cur.id, list, i);
    HandledSnoc(s, r, cur.id, list, i);
  }

  lemma HandledSnoc(s: State, owned: Ownership, n: int, list: seq<DependencyEdge>, k: nat)
    requires k < |list| && FirstsHandled(s, owned, n, list, k) && Handled(s, owned, n, list[k])
    ensures FirstsHandled(s, owned, n, list, k + 1)
  {
    hide Handled, FirstWithKey;
  }

  // ---- visiting ----

  /** Everything owned by n is found or one hop away. */
  ghost predicate TargetsNear(s: State, f: Frontier, owned: Ownership, n: int) {
    forall oe <- EdgesOwned(owned, n) :: IsNode(s, oe.target) && (oe.target.id in f.visited || Hop(s, n, oe.target.id))
  }

  /** Visits the upstreams of the current artifact that are new. */
  method VisitTargets(ghost s: State, ghost root: Artifact, cur: Artifact, owned: Ownership, f: Frontier)
    returns (r: Frontier)
    requires WalkOk(s, root, f) && cur.id in f.paths && Within(f, cur.id) && TargetsNear(s, f, owned, cur.id)
    ensures WalkOk(s, root, r) && Grows(f, r) && Within(r, cur.id)
    ensures forall oe <- EdgesOwned(owned, cur.id) :: oe.target.id in r.visited
  {
    hide Hop, IsNode, WalkOk;
    r := f;
    var list := EdgesOwned(owned, cur.id);
    for i := 0 to |list|
      invariant WalkOk(s, root, r) && Grows(f, r) && Within(r, cur.id)
      invariant forall j :: 0 <= j < i ==> list[j].target.id in r.visited
    {
      var target := list[i].target;
      assert list[i] in list;
      if target.id !in r.visited {
        ghost var before := r;
        r := VisitNew(s, root, cur.id, target, r);
        GrowsTwice(f, before, r);
      }
    }
  }

  ghost predicate ListsEdgesTo(s: State, list: seq<DependencyEdge>, a: Artifact) {
    Sorted(IdLess, list) && forall e :: e in list <==> e in s.deps && e.depName == a.name && e.depSha == a.sha256
  }

  /** No earlier edge in the list is declared by the same artifact. */
  ghost predicate FirstOfArtifact(list: seq<DependencyEdge>, i: nat)
    requires i < |list|
  {
    forall j :: 0 <= j < i ==> list[j].artifactId != list[i].artifactId
  }

  /** In the list sorted by number, the first edge of an artifact is its lowest. */
  lemma FirstIsLowest(s: State, list: seq<DependencyEdge>, a: Artifact, i: nat)
    requires ListsEdgesTo(s, list, a) && i < |list| && FirstOfArtifact(list, i)
    ensures LowestPin(s, list[i])
  {
    var e := list[i];
    assert e in list;
    forall x <- s.deps | x.artifactId == e.artifactId && x.depName == e.depName && x.depSha == e.depSha
      ensures e.id <= x.id
    {
      assert x in list;
      var j :| 0 <= j < |list| && list[j] == x;
      assert j > i ==> !IdLess(list[j], list[i]);
    }
  }

  lemma LowestIsFirst(s: State, list: seq<DependencyEdge>, a: Artifact, e: DependencyEdge) returns (i: nat)
    requires WellFormed(s) && ListsEdgesTo(s, list, a) && LowestPin(s, e) && e.depName == a.name && e.depSha == a.sha256
    ensures i < |list| && list[i] == e && FirstOfArtifact(list, i)
  {
    assert e in list;
    var k :| 0 <= k < |list| && list[k] == e;
    i := FirstOccurrence(list, e, k);
    forall j | 0 <= j < i ensures list[j].artifactId != list[i].artifactId {
      assert list[j] in list && list[j] != e;
      assert !IdLess(list[i], list[j]);
      if list[j].artifactId == e.artifactId {
        SameNumber(s, list[j], e);
      }
    }
  }

  lemma SameNumber(s: State, a: DependencyEdge, b: DependencyEdge)
    requires WellFormed(s) && a in s.deps && b in s.deps && a.id == b.id
    ensures a == b
  {
  }

  lemma {:induction false} FirstOccurrence(list: seq<DependencyEdge>, e: DependencyEdge, k: nat) returns (i: nat)
    requires k < |list| && list[k] == e
    ensures i <= k && list[i] == e && e !in list[..i]
    decreases k
  {
    if e in list[..k] {
      var j :| 0 <= j < k && list[j] == e;
      i := FirstOccurrence(list, e, j);
    } else {
      i := k;
    }
  }

  ghost function DeclarersIn(list: seq<DependencyEdge>, k: nat): set<int>
    requires k <= |list|
  {
    set j | 0 <= j < k :: list[j].artifactId
  }

  lemma DeclarersSnoc(list: seq<DependencyEdge>, i: nat)
    requires i < |list|
    ensures DeclarersIn(list, i + 1) == DeclarersIn(list, i) + {list[i].artifactId}
    ensures FirstOfArtifact(list, i) <==> list[i].artifactId !in DeclarersIn(list, i)
  {
  }

  ghost predicate FirstsOwned(list: seq<DependencyEdge>, owned: Ownership, k: nat)
    requires k <= |list|
  {
    forall j :: 0 <= j < k && FirstOfArtifact(list, j) ==> Owns(owned, list[j].artifactId, list[j])
  }

  lemma FirstsOwnedSnoc(list: seq<DependencyEdge>, owned: Ownership, r: Ownership, k: nat)
    requires k < |list| && FirstsOwned(list, owned, k) && OwnedGrows(owned, r)
    requires FirstOfArtifact(list, k) ==> Owns(r, list[k].artifactId, list[k])
    ensures FirstsOwned(list, r, k + 1)
  {
    hide FirstOfArtifact;
    forall n, e | Owns(owned, n, e) ensures Owns(r, n, e) {
      var oe :| oe in EdgesOwned(owned, n) && oe.edge == e;
      assert oe in EdgesOwned(r, n);
    }
  }

  lemma FirstsArePins(s: State, list: seq<DependencyEdge>, owned: Ownership, cur: Artifact)
    requires WellFormed(s) && IsNode(s, cur) && ListsEdgesTo(s, list, cur) && FirstsOwned(list, owned, |list|)
    ensures OwnsPins(s, owned, cur.id)
  {
    hide FirstOfArtifact, LowestPin, ListsEdgesTo, Owns, WellFormed, IsNode;
    forall e, n | LowestPin(s, e) && Links(s, e, n, cur.id) ensures Owns(owned, n, e) {
      LinksToNode(s, e, n, cur);
      var i := LowestIsFirst(s, list, cur, e);
    }
  }

  lemma FiledIsOwned(owned: Ownership, n: int, oe: OwnedEdge)
    ensures Owns(File(owned, n, oe), n, oe.edge)
  {
    assert oe in EdgesOwned(File(owned, n, oe), n);
  }

  /** The artifact that declares an edge to cur, and what filing that edge amounts to. */
  lemma Dependent(s: State, list: seq<DependencyEdge>, cur: Artifact, e: DependencyEdge)
    requires WellFormed(s) && IsNode(s, cur) && ListsEdgesTo(s, list, cur) && e in list
    ensures 1 <= e.artifactId <= |s.artifacts| && s.artifacts[e.artifactId - 1].id == e.artifactId
    ensures IsNode(s, s.artifacts[e.artifactId - 1]) && Hop(s, cur.id, e.artifactId)
    ensures e in s.deps && Resolve(s, e) == Some(cur)
  {
    LinksToNode(s, e, e.artifactId, cur);
    assert DownHop(s, cur.id, e.artifactId);
  }

  lemma DependentsListed(s: State, list: seq<DependencyEdge>, cur: Artifact, m: int) returns (i: nat)
    requires WellFormed(s) && IsNode(s, cur) && ListsEdgesTo(s, list, cur) && DownHop(s, cur.id, m)
    ensures i < |list| && list[i].artifactId == m
  {
    var e :| Links(s, e, m, cur.id);
    LinksToNode(s, e, m, cur);
    i :| i < |list| && list[i] == e;
  }

  lemma FileTarget(owned: Ownership, f: Frontier, n: int, oe: OwnedEdge)
    requires TargetsFound(owned, f) && oe.target.id in f.visited
    ensures TargetsFound(File(owned, n, oe), f)
  {
  }

  lemma TargetsStayFound(owned: Ownership, f: Frontier, f': Frontier)
    requires TargetsFound(owned, f) && f.visited <= f'.visited
    ensures TargetsFound(owned, f')
  {
  }

  /** Visits whatever pins the current artifact, filing one edge for each such dependent. */
  method VisitDependents(st: MemoryStore, ghost root: Artifact, cur: Artifact, owned: Ownership, f: Frontier)
    returns (r: Ownership, g: Frontier)
    requires st.Valid() && IsNode(st.View(), cur) && OwnsSoundly(st.View(), owned) && TargetsFound(owned, f)
    requires WalkOk(st.View(), root, f) && cur.id in f.paths && Within(f, cur.id)
    ensures OwnsSoundly(st.View(), r) && OwnedGrows(owned, r) && TargetsFound(r, g)
    ensures WalkOk(st.View(), root, g) && Grows(f, g) && Within(g, cur.id)
    ensures forall m :: DownHop(st.View(), cur.id, m) ==> m in g.visited
    ensures OwnsPins(st.View(), r, cur.id)
  {
    hide ListsEdgesTo, WellFormed, Hop, DownHop, IsNode, WalkOk, OwnsSoundly, TargetsFound;
    hide FirstOfArtifact, FirstsOwned, OwnsPins, DeclarersIn, OwnedGrows, Owns;
    ghost var s := st.View();
    var list := ListDownstream(st, cur);
    var seen: set<int> := {};
    r, g := owned, f;
    NoneOwned(list, owned);
    for i := 0 to |list|
      invariant OwnsSoundly(s, r) && OwnedGrows(owned, r) && TargetsFound(r, g)
      invariant WalkOk(s, root, g) && Grows(f, g) && Within(g, cur.id)
      invariant seen == DeclarersIn(list, i) <= g.visited
      invariant FirstsOwned(list, r, i)
    {
      var e := list[i];
      DeclarersSnoc(list, i);
      ghost var before := r;
      if e.artifactId in seen {
        GrowsItself(r);
        FirstsOwnedSnoc(list, before, r, i);
        continue;
      }
      seen := seen + {e.artifactId};
      r, g := VisitDependent(st, root, cur, r, g, list, i);
      FirstsOwnedSnoc(list, before, r, i);
      OwnedGrowsTwice(owned, before, r);
    }
    FirstsArePins(s, list, r, cur);
    forall m | DownHop(s, cur.id, m) ensures m in g.visited {
      var i := DependentsListed(s, list, cur, m);
      Listed(list, i);
    }
  }

  lemma NoneOwned(list: seq<DependencyEdge>, owned: Ownership)
    ensures FirstsOwned(list, owned, 0) && DeclarersIn(list, 0) == {} && OwnedGrows(owned, owned)
  {
  }

  lemma GrowsItself(owned: Ownership)
    ensures OwnedGrows(owned, owned)
  {
  }

  lemma Listed(list: seq<DependencyEdge>, i: nat)
    requires i < |list|
    ensures list[i].artifactId in DeclarersIn(list, |list|)
  {
  }

  method ListDownstream(st: MemoryStore, cur: Artifact) returns (list: seq<DependencyEdge>)
    ensures ListsEdgesTo(st.View(), list, cur)
  {
    list := st.ListDependentEdges(cur.name, cur.sha256);
    InMultiset(list, Filter(PointsAt(cur.name, cur.sha256), st.dependencies));
  }

  lemma CurFound(s: State, root: Artifact, f: Frontier, cur: Artifact)
    requires WalkOk(s, root, f) && cur.id in f.paths
    ensures cur.id in f.visited
  {
  }

  method VisitNew(ghost s: State, ghost root: Artifact, cur: int, a: Artifact, f: Frontier) returns (g: Frontier)
    requires WalkOk(s, root, f) && cur in f.paths && Within(f, cur) && IsNode(s, a) && Hop(s, cur, a.id)
    ensures WalkOk(s, root, g) && Grows(f, g) && Within(g, cur) && a.id in g.visited
  {
    hide Hop, IsNode, Nodes, PathsLead, Layered;
    g := f;
    if a.id !in g.visited {
      DiscoverKeeps(s, root, g, cur, a);
      g := Discover(g, cur, a);
    }
  }

  /** The artifact that declares the i-th edge; referential integrity rules out that there is none. */
  method DependentAt(st: MemoryStore, ghost cur: Artifact, list: seq<DependencyEdge>, i: nat) returns (down: Artifact)
    requires st.Valid() && IsNode(st.View(), cur) && ListsEdgesTo(st.View(), list, cur) && i < |list|
    ensures down.id == list[i].artifactId && IsNode(st.View(), down) && Hop(st.View(), cur.id, down.id)
    ensures list[i] in st.View().deps && Resolve(st.View(), list[i]) == Some(cur)
  {
    assert list[i] in list;
    Dependent(st.View(), list, cur, list[i]);
    hide ListsEdgesTo, Tidy, WellFormed, Hop, Resolve;
    var found := st.GetArtifactById(list[i].artifactId);
    if found.None? {
      assert false;
    }
    down := found.value;
  }

  method VisitDependent(st: MemoryStore, ghost root: Artifact, cur: Artifact, owned: Ownership, f: Frontier,
                        list: seq<DependencyEdge>, i: nat)
    returns (r: Ownership, g: Frontier)
    requires st.Valid() && IsNode(st.View(), cur) && OwnsSoundly(st.View(), owned) && TargetsFound(owned, f)
    requires WalkOk(st.View(), root, f) && cur.id in f.paths && Within(f, cur.id)
    requires ListsEdgesTo(st.View(), list, cur) && i < |list| && FirstOfArtifact(list, i)
    ensures OwnsSoundly(st.View(), r) && OwnedGrows(owned, r) && TargetsFound(r, g)
    ensures WalkOk(st.View(), root, g) && Grows(f, g) && Within(g, cur.id) && list[i].artifactId in g.visited
    ensures Owns(r, list[i].artifactId, list[i])
  {
    hide Owns, LowestPin, ListsEdgesTo, Tidy, WellFormed, Hop, IsNode, OwnsSoundly, Resolve, FirstOfArtifact, Kept;
    hide Nodes, PathsLead, Layered, WalkOk, TargetsFound, File;
    ghost var s := st.View();
    CurFound(s, root, f, cur);
    FirstIsLowest(s, list, cur, i);
    FiledIsOwned(owned, list[i].artifactId, OwnedEdge(cur, list[i]));
    var down := DependentAt(st, cur, list, i);
    r := AddOwnedEdge(st, owned, down.id, list[i]);
    FileTarget(owned, f, list[i].artifactId, OwnedEdge(cur, list[i]));
    g := VisitNew(s, root, cur.id, down, f);
    TargetsStayFound(r, f, g);
  }

  // ---- the whole walk ----

  /** Every walk from the root ends at something found, and no walk is shorter than the recorded path. */
  ghost predicate Shortest(s: State, root: int, paths: map<int, seq<int>>) {
    forall p: seq<int> :: Walk(s, p) && p[0] == root ==> p[|p| - 1] in paths && |paths[p[|p| - 1]]| <= |p|
  }

  /** The closure of the root: what was found, by which shortest paths, and which edges were filed. */
  ghost predicate IsClosure(s: State, root: Artifact, order: seq<Artifact>, paths: map<int, seq<int>>,
                            owned: Ownership) {
    && Nodes(s, order) && order != [] && order[0] == root
    && paths.Keys == (set a <- order :: a.id)
    && PathsLead(s, root, paths) && Layered(order, paths) && Shortest(s, root.id, paths)
    && OwnsSoundly(s, owned)
    && (forall a <- order :: OwnsKept(s, owned, a.id) && OwnsPins(s, owned, a.id))
    && (forall n, oe :: n in owned && oe in owned[n] ==> oe.target.id in paths)
  }

  /** The closure lists exactly the artifacts that hops lead to. */
  lemma ClosureIsReached(s: State, root: Artifact, order: seq<Artifact>, paths: map<int, seq<int>>, owned: Ownership)
    requires IsClosure(s, root, order, paths, owned)
    ensures paths.Keys == Reached(s, root.id)
  {
    hide Hop, Layered, OwnsSoundly, OwnsKept, OwnsPins;
    forall id <- paths.Keys ensures id in Reached(s, root.id) {
      var i :| 0 <= i < |order| && order[i].id == id;
      assert IsNode(s, order[i]);
      assert WalkFromTo(s, paths[id], root.id, id);
    }
    forall id <- Reached(s, root.id) ensures id in paths.Keys {
      var p :| WalkFromTo(s, p, root.id, id);
    }
  }

  lemma OwnedIsFiled(s: State, root: Artifact, order: seq<Artifact>, paths: map<int, seq<int>>, owned: Ownership,
                     n: int, e: DependencyEdge)
    requires IsClosure(s, root, order, paths, owned) && n in paths && Owns(owned, n, e)
    ensures e in FiledEdges(s, paths.Keys) && e.artifactId == n
  {
    hide Hop, Layered, OwnsKept, OwnsPins, Shortest, PathsLead, Kept, LowestPin, Nodes;
    var oe :| oe in EdgesOwned(owned, n) && oe.edge == e;
    assert oe in owned[n];
  }

  lemma FiledIsOwnedBy(s: State, root: Artifact, order: seq<Artifact>, paths: map<int, seq<int>>, owned: Ownership,
                       e: DependencyEdge)
    requires IsClosure(s, root, order, paths, owned) && e in FiledEdges(s, paths.Keys)
    ensures Owns(owned, e.artifactId, e)
  {
    hide Hop, Layered, Shortest, PathsLead, Kept, LowestPin, Nodes, OwnsSoundly;
    var n, t := e.artifactId, Resolve(s, e).value.id;
    assert Links(s, e, n, t);
    var a :| a in order && a.id == n;
    var b :| b in order && b.id == t;
    assert OwnsKept(s, owned, a.id) && OwnsPins(s, owned, b.id);
  }

  /** ownedBy as a set: an edge is owned exactly when the two dedups let it through and its ends are reached. */
  lemma OwnershipExact(s: State, root: Artifact, order: seq<Artifact>, paths: map<int, seq<int>>, owned: Ownership,
                       n: int, e: DependencyEdge)
    requires IsClosure(s, root, order, paths, owned) && n in paths
    ensures Owns(owned, n, e) <==> e in FiledEdges(s, Reached(s, root.id)) && e.artifactId == n
  {
    hide IsClosure, FiledEdges, Owns, Reached;
    ClosureIsReached(s, root, order, paths, owned);
    if Owns(owned, n, e) {
      OwnedIsFiled(s, root, order, paths, owned, n, e);
    }
    if e in FiledEdges(s, paths.Keys) && e.artifactId == n {
      FiledIsOwnedBy(s, root, order, paths, owned, e);
    }
  }

  /** Every resolvable edge of every artifact reached.  */
  ghost predicate OwnsEverything(s: State, reached: set<int>, owned: Ownership) {
    forall n, e, t :: n in reached && Links(s, e, n, t) ==> Owns(owned, n, e)
  }

  /** Nothing is lost to the two dedups exactly when nothing is hidden from them. */
  lemma OwnsEverythingIff(s: State, root: Artifact, order: seq<Artifact>, paths: map<int, seq<int>>, owned: Ownership)
    requires IsClosure(s, root, order, paths, owned)
    ensures OwnsEverything(s, paths.Keys, owned) <==> NothingHidden(s, Reached(s, root.id))
  {
    ClosureIsReached(s, root, order, paths, owned);
    hide IsClosure, Owns, Reached, Filable;
    forall n, e | n in paths
      ensures Owns(owned, n, e) <==> e in FiledEdges(s, Reached(s, root.id)) && e.artifactId == n
    {
      OwnershipExact(s, root, order, paths, owned, n, e);
    }
    if OwnsEverything(s, paths.Keys, owned) {
      forall e <- s.deps | e.artifactId in paths.Keys && Resolve(s, e).Some?
        ensures Filable(s, e) && Resolve(s, e).value.id in paths.Keys
      {
        assert Links(s, e, e.artifactId, Resolve(s, e).value.id);
        assert Owns(owned, e.artifactId, e);
      }
    }
  }

  lemma {:induction false} WalkIsShort(s: State, root: int, f: Frontier, p: seq<int>)
    requires root in f.paths && |f.paths[root]| == 1 && f.queue == []
    requires f.paths.Keys == (set a <- f.order :: a.id) && OrderExpanded(s, f, |f.order|)
    requires Walk(s, p) && p[0] == root
    ensures p[|p| - 1] in f.paths && |f.paths[p[|p| - 1]]| <= |p|
    decreases |p|
  {
    hide Hop;
    if |p| > 1 {
      var q := p[..|p| - 1];
      var n := q[|q| - 1];
      assert Walk(s, q) by {
        forall i | 0 <= i < |q| - 1 ensures Hop(s, q[i], q[i + 1]) {
          assert Hop(s, p[i], p[i + 1]);
        }
      }
      WalkIsShort(s, root, f, q);
      var i :| 0 <= i < |f.order| && f.order[i].id == n;
      assert Expanded(s, f, f.order[i].id);
      assert Hop(s, p[|p| - 2], p[|p| - 1]);
    }
  }

  /** One layer bounds everything found while its members are expanded. */
  ghost predicate LayerBound(f: Frontier, root: int) {
    if f.order == [] then f.paths == map[root := [root]]
    else f.order[|f.order| - 1].id in f.paths && Within(f, f.order[|f.order| - 1].id)
  }

  /** What holds between two turns of the main loop. */
  ghost predicate Between(s: State, root: Artifact, f: Frontier, owned: Ownership) {
    && WalkOk(s, root, f) && LayerBound(f, root.id) && OrderExpanded(s, f, |f.order|)
    && OwnsSoundly(s, owned) && OrderOwns(s, f, owned, |f.order|) && TargetsFound(owned, f)
  }

  function Dequeue(f: Frontier): Frontier
    requires f.queue != []
  {
    f.(order := f.order + [f.queue[0]], queue := f.queue[1..])
  }

  lemma DequeueKeeps(s: State, root: Artifact, f: Frontier)
    requires f.queue != [] && WalkOk(s, root, f) && LayerBound(f, root.id)
    ensures WalkOk(s, root, Dequeue(f)) && IsNode(s, f.queue[0])
    ensures f.queue[0].id in f.paths && Within(Dequeue(f), f.queue[0].id)
  {
    hide IsNode, PathsLead;
    var g := Dequeue(f);
    assert g.Found() == f.Found();
    var k := |f.order|;
    assert f.Found()[k] == f.queue[0];
    assert f.queue[0] in f.Found();
    if k > 0 {
      assert f.Found()[k - 1] == f.order[k - 1];
      assert |f.paths[f.order[k - 1].id]| <= |f.paths[f.queue[0].id]|;
    }
  }

  lemma Start(s: State, root: Artifact)
    requires IsNode(s, root)
    ensures Between(s, root, Frontier([], [root], {root.id}, map[root.id := [root.id]]), map[])
  {
    var f := Frontier([], [root], {root.id}, map[root.id := [root.id]]);
    assert f.Found() == [root];
    assert WalkFromTo(s, [root.id], root.id, root.id);
  }

  lemma TurnKeeps(s: State, root: Artifact, f: Frontier, owned: Ownership, cur: Artifact, g: Frontier, r: Ownership)
    requires f.queue != [] && Between(s, root, f, owned) && cur == f.queue[0]
    requires WalkOk(s, root, g) && cur.id in g.paths && Within(g, cur.id) && Grows(Dequeue(f), g)
    requires forall m :: Hop(s, cur.id, m) ==> m in g.visited
    requires OwnsSoundly(s, r) && OwnedGrows(owned, r) && OwnsKept(s, r, cur.id) && TargetsFound(r, g)
    requires OwnsPins(s, r, cur.id)
    ensures Between(s, root, g, r)
  {
    hide Hop, OwnsKept, OwnsPins, OwnedGrows, OwnsSoundly, TargetsFound, Nodes, PathsLead, Layered, IsNode;
    var k := |f.order|;
    assert g.order == f.order + [cur];
    assert Expanded(s, g, cur.id);
    forall i | 0 <= i < k + 1
      ensures Expanded(s, g, g.order[i].id) && OwnsKept(s, r, g.order[i].id) && OwnsPins(s, r, g.order[i].id)
    {
      if i < k {
        assert Expanded(s, f, f.order[i].id) && OwnsKept(s, owned, f.order[i].id) && OwnsPins(s, owned, f.order[i].id);
        assert Grows(f.(order := g.order), g);
        ExpandedStays(s, f.(order := g.order), g, f.order[i].id);
        OwnsKeptStays(s, owned, r, f.order[i].id);
        OwnsPinsStays(s, owned, r, f.order[i].id);
      }
    }
  }

  /** The upstreams filed for the current artifact are found already or one hop away. */
  lemma UpstreamNear(s: State, f: Frontier, owned: Ownership, r: Ownership, n: int)
    requires TargetsFound(owned, f) && OwnsSoundly(s, r) && AddsOnlyKept(s, owned, r, n)
    ensures TargetsNear(s, f, r, n)
  {
    hide Kept, Links, IsNode;
    forall oe <- EdgesOwned(r, n)
      ensures IsNode(s, oe.target) && (oe.target.id in f.visited || Hop(s, n, oe.target.id))
    {
      assert Links(s, oe.edge, n, oe.target.id);
      if oe !in EdgesOwned(owned, n) {
        assert Kept(s, oe.edge);
        assert UpHop(s, n, oe.target.id);
      }
    }
  }

  lemma UpstreamFound(s: State, f: Frontier, g: Frontier, owned: Ownership, r: Ownership, n: int)
    requires TargetsFound(owned, f) && AddsOnlyKept(s, owned, r, n) && f.visited <= g.visited
    requires forall oe <- EdgesOwned(r, n) :: oe.target.id in g.visited
    ensures TargetsFound(r, g)
  {
    hide Kept;
    forall m, oe | m in r && oe in r[m] ensures oe.target.id in g.visited {
      if m != n {
        assert EdgesOwned(r, m) == EdgesOwned(owned, m);
        assert oe in owned[m];
      } else {
        assert oe in EdgesOwned(r, n);
      }
    }
  }

  lemma KeptUpstreamFound(s: State, g: Frontier, owned: Ownership, n: int)
    requires OwnsKept(s, owned, n) && TargetsFound(owned, g) && OwnsSoundly(s, owned)
    ensures forall m :: UpHop(s, n, m) ==> m in g.visited
  {
    hide Kept;
    forall m | UpHop(s, n, m) ensures m in g.visited {
      var e :| Kept(s, e) && Links(s, e, n, m);
      assert Owns(owned, n, e);
      var oe :| oe in EdgesOwned(owned, n) && oe.edge == e;
      assert Links(s, oe.edge, n, oe.target.id);
    }
  }

  /** One turn of the main loop. */
  method Expand(st: MemoryStore, ghost root: Artifact, owned: Ownership, f: Frontier)
    returns (r: Ownership, g: Frontier)
    requires st.Valid() && f.queue != [] && Between(st.View(), root, f, owned)
    ensures Between(st.View(), root, g, r) && g.order == f.order + [f.queue[0]] && f.visited <= g.visited
    ensures g.visited == f.visited ==> |g.queue| < |f.queue|
  {
    ghost var s := st.View();
    var cur := f.queue[0];
    var f1 := f.(order := f.order + [cur], queue := f.queue[1..]);
    DequeueKeeps(s, root, f);
    hide WalkOk, Between, WellFormed, IsNode, OwnsSoundly, OwnedGrows, OwnsKept, OwnsPins, AddsOnlyKept, TargetsNear;
    hide Hop;
    assert TargetsFound(owned, f1) && OwnsSoundly(s, owned) by {
      BetweenOwns(s, root, f, owned);
    }
    var up := OwnUpstream(st, cur, owned);
    UpstreamNear(s, f1, owned, up, cur.id);
    var f2 := VisitTargets(s, root, cur, up, f1);
    UpstreamFound(s, f1, f2, owned, up, cur.id);
    r, g := VisitDependents(st, root, cur, up, f2);
    AllHopsFound(s, g, up, r, cur.id);
    GrowsTwice(f1, f2, g);
    OwnedGrowsTwice(owned, up, r);
    OwnsKeptStays(s, up, r, cur.id);
    TurnKeeps(s, root, f, owned, cur, g, r);
    QueueShrinks(s, root, f, g);
  }

  lemma BetweenOwns(s: State, root: Artifact, f: Frontier, owned: Ownership)
    requires Between(s, root, f, owned)
    ensures TargetsFound(owned, f) && OwnsSoundly(s, owned)
  {
  }

  lemma AllHopsFound(s: State, g: Frontier, up: Ownership, r: Ownership, n: int)
    requires OwnsKept(s, up, n) && OwnedGrows(up, r) && OwnsSoundly(s, r) && TargetsFound(r, g)
    requires forall m :: DownHop(s, n, m) ==> m in g.visited
    ensures forall m :: Hop(s, n, m) ==> m in g.visited
  {
    hide OwnsKept, OwnedGrows, OwnsSoundly, TargetsFound, UpHop, DownHop;
    OwnsKeptStays(s, up, r, n);
    KeptUpstreamFound(s, g, r, n);
  }

  lemma GrowsTwice(a: Frontier, b: Frontier, c: Frontier)
    requires Grows(a, b) && Grows(b, c)
    ensures Grows(a, c)
  {
  }

  lemma OwnedGrowsTwice(a: Ownership, b: Ownership, c: Ownership)
    requires OwnedGrows(a, b) && OwnedGrows(b, c)
    ensures OwnedGrows(a, c)
  {
  }

  /** When nothing new is found the queue has lost its head. */
  lemma QueueShrinks(s: State, root: Artifact, f: Frontier, g: Frontier)
    requires f.queue != [] && WalkOk(s, root, f) && WalkOk(s, root, g) && Grows(Dequeue(f), g)
    ensures g.visited == f.visited ==> |g.queue| < |f.queue|
  {
    hide IsNode, PathsLead, Layered;
    if g.visited == f.visited {
      SameIdsSameLength(s, f.Found(), g.Found());
    }
  }

  lemma SameIdsSameLength(s: State, xs: seq<Artifact>, ys: seq<Artifact>)
    requires Nodes(s, xs) && Nodes(s, ys) && (set a <- xs :: a.id) == (set a <- ys :: a.id)
    ensures |xs| == |ys|
  {
    IdsCount(s, xs);
    IdsCount(s, ys);
  }

  lemma {:induction false} IdsCount(s: State, xs: seq<Artifact>)
    requires Nodes(s, xs)
    ensures |set a <- xs :: a.id| == |xs|
  {
    hide IsNode;
    if xs != [] {
      var n := |xs| - 1;
      IdsCount(s, xs[..n]);
      var ids := set a <- xs[..n] :: a.id;
      assert xs[n].id !in ids by {
        assert forall a <- xs[..n] :: a.id != xs[n].id;
      }
      assert (set a <- xs :: a.id) == ids + {xs[n].id} by {
        assert xs == xs[..n] + [xs[n]];
      }
    }
  }

  ghost function AllIds(s: State): set<int> {
    set a <- s.artifacts :: a.id
  }

  lemma FoundAreIds(s: State, root: Artifact, f: Frontier, owned: Ownership)
    requires Between(s, root, f, owned)
    ensures f.visited <= AllIds(s)
  {
    forall id <- f.visited ensures id in AllIds(s) {
      var i :| 0 <= i < |f.Found()| && f.Found()[i].id == id;
      assert IsNode(s, f.Found()[i]);
      assert f.Found()[i] in s.artifacts;
    }
  }

  lemma FinishShortest(s: State, root: Artifact, f: Frontier, owned: Ownership)
    requires Between(s, root, f, owned) && f.queue == []
    ensures Shortest(s, root.id, f.paths)
  {
    hide IsNode, Hop, OwnsSoundly, OwnsKept, OwnsPins, Layered, PathsLead, Nodes;
    assert f.Found() == f.order;
    assert root in f.order;
    forall p: seq<int> | Walk(s, p) && p[0] == root.id
      ensures p[|p| - 1] in f.paths && |f.paths[p[|p| - 1]]| <= |p|
    {
      WalkIsShort(s, root.id, f, p);
    }
  }

  lemma Finish(s: State, root: Artifact, f: Frontier, owned: Ownership)
    requires Between(s, root, f, owned) && f.queue == []
    ensures IsClosure(s, root, f.order, f.paths, owned)
  {
    hide IsNode, OwnsKept, OwnsPins, OwnsSoundly, Layered, PathsLead, Nodes, Shortest, Expanded;
    FinishShortest(s, root, f, owned);
    assert f.Found() == f.order;
  }

  /** Phase 1 of Review. */
  method BuildClosure(st: MemoryStore, root: Artifact)
    returns (order: seq<Artifact>, paths: map<int, seq<int>>, owned: Ownership)
    requires st.Valid() && IsNode(st.View(), root)
    ensures IsClosure(st.View(), root, order, paths, owned)
  {
    hide Between, IsClosure, IsNode, WellFormed;
    ghost var s := st.View();
    Start(s, root);
    var f := Frontier([], [root], {root.id}, map[root.id := [root.id]]);
    owned := map[];
    while |f.queue| > 0
      invariant Between(s, root, f, owned)
      decreases AllIds(s) - f.visited, |f.queue|
    {
      var r, g := Expand(st, root, owned, f);
      FoundAreIds(s, root, g, r);
      assert g.visited != f.visited ==> exists id :: id in AllIds(s) - f.visited && id !in AllIds(s) - g.visited by {
        if g.visited != f.visited {
          var id :| id in g.visited && id !in f.visited;
        }
      }
      owned, f := r, g;
    }
    Finish(s, root, f, owned);
    order, paths := f.order, f.paths;
  }
}
