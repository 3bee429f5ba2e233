/** The dependency graph over stored artifacts that a historical review walks. */
module Graph {
  import opened Base
  import opened Model
  import opened Tables
  import Text

  ghost predicate IsNode(s: State, a: Artifact) {
    1 <= a.id <= |s.artifacts| && s.artifacts[a.id - 1] == a
  }

  /** The artifact an edge pins, when it is registered. */
  function Resolve(s: State, e: DependencyEdge): Option<Artifact> {
    FindArtifact(s.artifacts, e.depName, e.depSha)
  }

  /** A stored edge declared by artifact n that pins artifact t. */
  ghost predicate Links(s: State, e: DependencyEdge, n: int, t: int) {
    e in s.deps && e.artifactId == n && Resolve(s, e).Some? && Resolve(s, e).value.id == t
  }

  // ---- the dedup key of the upstream walk ----

  function Sprint(n: int): string {
    if n < 0 then "-" + Text.Decimal(-n) else Text.Decimal(n)
  }

  lemma SprintClean(n: int)
    ensures '#' !in Sprint(n) && '@' !in Sprint(n)
  {
  }

  lemma SprintSign(n: int)
    ensures Sprint(n) != "" && (n < 0 <==> Sprint(n)[0] == '-')
    ensures n < 0 ==> Sprint(n)[1..] == Text.Decimal(-n)
  {
    assert Sprint(n)[0] in Sprint(n);
  }

  lemma SprintInjective(m: int, n: int)
    requires Sprint(m) == Sprint(n)
    ensures m == n
  {
    SprintSign(m);
    SprintSign(n);
    if m < 0 {
      Text.DecimalInjective(-m, -n);
    } else {
      Text.DecimalInjective(m, n);
    }
  }

  function DedupKey(e: DependencyEdge): string {
    e.depName + "@" + e.depSha + "#" + Sprint(e.attestationId)
  }

  /** A key fixes the text before its last '#' and the attestation. */
  lemma KeySplits(a: DependencyEdge, b: DependencyEdge)
    requires DedupKey(a) == DedupKey(b)
    ensures a.depName + "@" + a.depSha == b.depName + "@" + b.depSha && a.attestationId == b.attestationId
  {
    SprintClean(a.attestationId);
    SprintClean(b.attestationId);
    Text.SplitLast(a.depName + "@" + a.depSha, Sprint(a.attestationId),
                   b.depName + "@" + b.depSha, Sprint(b.attestationId), '#');
    SprintInjective(a.attestationId, b.attestationId);
  }

  /** Without '@' in the digests, a key names one dependency of one attestation. */
  lemma KeyInjective(a: DependencyEdge, b: DependencyEdge)
    requires DedupKey(a) == DedupKey(b) && '@' !in a.depSha && '@' !in b.depSha
    ensures a.depName == b.depName && a.depSha == b.depSha && a.attestationId == b.attestationId
  {
    KeySplits(a, b);
    Text.SplitLast(a.depName, a.depSha, b.depName, b.depSha, '@');
  }

  /** No edge of the same artifact with the same key sorts before this one. */
  ghost predicate Kept(s: State, e: DependencyEdge) {
    e in s.deps && forall x <- s.deps :: x.artifactId == e.artifactId && DedupKey(x) == DedupKey(e) ==> !EdgeLess(x, e)
  }

  /** The lowest-numbered edge from its artifact to its upstream. */
  ghost predicate LowestPin(s: State, e: DependencyEdge) {
    e in s.deps &&
    forall x <- s.deps ::
      x.artifactId == e.artifactId && x.depName == e.depName && x.depSha == e.depSha ==> e.id <= x.id
  }

  /** What the dedup of the upstream list or the seen-set of the dependents lets through. */
  ghost predicate Filable(s: State, e: DependencyEdge) {
    Kept(s, e) || LowestPin(s, e)
  }

  /** Every edge that resolves survives the dedup. */
  ghost predicate AllKept(s: State) {
    forall e <- s.deps :: Resolve(s, e).Some? ==> Kept(s, e)
  }

  lemma NoAtMeansAllKept(s: State)
    requires forall e <- s.deps :: '@' !in e.depSha
    ensures AllKept(s)
  {
    forall e, x | e in s.deps && x in s.deps && x.artifactId == e.artifactId && DedupKey(x) == DedupKey(e)
      ensures !EdgeLess(x, e)
    {
      KeyInjective(x, e);
      Text.LessIrreflexive(e.depName);
      Text.LessIrreflexive(e.depSha);
    }
  }

  // ---- steps of the walk ----

  ghost predicate UpHop(s: State, n: int, t: int) {
    exists e :: Kept(s, e) && Links(s, e, n, t)
  }

  ghost predicate DownHop(s: State, n: int, m: int) {
    exists e :: Links(s, e, m, n)
  }

  /** One step of the bidirectional walk: to a kept upstream, or to anything that pins the artifact. */
  ghost predicate Hop(s: State, n: int, m: int) {
    UpHop(s, n, m) || DownHop(s, n, m)
  }

  ghost predicate Walk(s: State, p: seq<int>) {
    p != [] && forall i, j :: 0 <= i < j < |p| && j == i + 1 ==> Hop(s, p[i], p[j])
  }

  ghost predicate WalkFromTo(s: State, p: seq<int>, a: int, b: int) {
    Walk(s, p) && p[0] == a && p[|p| - 1] == b
  }

  ghost predicate Reaches(s: State, a: int, b: int) {
    exists p :: WalkFromTo(s, p, a, b)
  }

  /** The ids of the artifacts the walk from an artifact reaches. */
  ghost function Reached(s: State, a: int): set<int> {
    set n | 1 <= n <= |s.artifacts| && Reaches(s, a, n)
  }

  ghost function AllEdges(s: State): set<DependencyEdge> {
    set e <- s.deps
  }

  /** The edges between reached artifacts that the walk files. */
  ghost function FiledEdges(s: State, reached: set<int>): set<DependencyEdge> {
    set e <- s.deps |
      Filable(s, e) && e.artifactId in reached && Resolve(s, e).Some? && Resolve(s, e).value.id in reached
  }

  /** Every resolvable edge declared by a reached artifact is filed. */
  ghost predicate NothingHidden(s: State, reached: set<int>) {
    forall e <- s.deps :: e.artifactId in reached && Resolve(s, e).Some? ==>
      Filable(s, e) && Resolve(s, e).value.id in reached
  }

  lemma ReachesTransitive(s: State, a: int, b: int, c: int)
    requires Reaches(s, a, b) && Reaches(s, b, c)
    ensures Reaches(s, a, c)
  {
    hide Hop;
    var p :| WalkFromTo(s, p, a, b);
    var q :| WalkFromTo(s, q, b, c);
    var r := p + q[1..];
    forall i | 0 <= i < |r| - 1 ensures Hop(s, r[i], r[i + 1]) {
      if i < |p| - 1 {
        assert Hop(s, p[i], p[i + 1]);
      } else {
        var j := i - (|p| - 1);
        assert r[i] == q[j] && r[i + 1] == q[j + 1];
        assert Hop(s, q[j], q[j + 1]);
      }
    }
    assert WalkFromTo(s, r, a, c);
  }

  // ---- dependency edges in either direction ----

  ghost predicate Pins(s: State, n: int, t: int) {
    exists e :: Links(s, e, n, t)
  }

  ghost predicate Adjacent(s: State, n: int, m: int) {
    Pins(s, n, m) || Pins(s, m, n)
  }

  ghost predicate Chain(s: State, p: seq<int>) {
    p != [] && forall i, j :: 0 <= i < j < |p| && j == i + 1 ==> Adjacent(s, p[i], p[j])
  }

  ghost predicate ChainFromTo(s: State, p: seq<int>, a: int, b: int) {
    Chain(s, p) && p[0] == a && p[|p| - 1] == b
  }

  /** The two artifacts lie in one weakly connected component. */
  ghost predicate Connected(s: State, a: int, b: int) {
    exists p :: ChainFromTo(s, p, a, b)
  }

  lemma HopIsAdjacent(s: State, n: int, m: int)
    ensures Hop(s, n, m) ==> Adjacent(s, n, m)
    ensures AllKept(s) && Adjacent(s, n, m) ==> Hop(s, n, m)
  {
    if UpHop(s, n, m) {
      var e :| Kept(s, e) && Links(s, e, n, m);
      assert Pins(s, n, m);
    }
    if DownHop(s, n, m) {
      assert Pins(s, m, n);
    }
    if AllKept(s) && Pins(s, n, m) {
      var e :| Links(s, e, n, m);
      assert Kept(s, e) && UpHop(s, n, m);
    }
    if Pins(s, m, n) {
      assert DownHop(s, n, m);
    }
  }

  lemma WalkIsChain(s: State, p: seq<int>)
    ensures Walk(s, p) ==> Chain(s, p)
    ensures AllKept(s) && Chain(s, p) ==> Walk(s, p)
  {
    forall i | 0 <= i < |p| - 1
      ensures Hop(s, p[i], p[i + 1]) ==> Adjacent(s, p[i], p[i + 1])
      ensures AllKept(s) && Adjacent(s, p[i], p[i + 1]) ==> Hop(s, p[i], p[i + 1])
    {
      HopIsAdjacent(s, p[i], p[i + 1]);
    }
  }

  /** The walk never leaves the component, and covers it when every resolvable edge is kept. */
  lemma ReachesIsConnected(s: State, a: int, b: int)
    ensures Reaches(s, a, b) ==> Connected(s, a, b)
    ensures AllKept(s) && Connected(s, a, b) ==> Reaches(s, a, b)
  {
    if Reaches(s, a, b) {
      var p :| WalkFromTo(s, p, a, b);
      WalkIsChain(s, p);
      assert ChainFromTo(s, p, a, b);
    }
    if AllKept(s) && Connected(s, a, b) {
      var p :| ChainFromTo(s, p, a, b);
      WalkIsChain(s, p);
      assert WalkFromTo(s, p, a, b);
    }
  }

  // ---- connectedness is an equivalence ----

  function Reversed(p: seq<int>): (r: seq<int>)
    ensures |r| == |p|
    ensures forall i :: 0 <= i < |p| ==> r[i] == p[|p| - 1 - i]
  {
    seq(|p|, i requires 0 <= i < |p| => p[|p| - 1 - i])
  }

  lemma ConnectedSymmetric(s: State, a: int, b: int)
    requires Connected(s, a, b)
    ensures Connected(s, b, a)
  {
    var p :| ChainFromTo(s, p, a, b);
    var r := Reversed(p);
    forall i | 0 <= i < |r| - 1 ensures Adjacent(s, r[i], r[i + 1]) {
      var j := |p| - 2 - i;
      assert Adjacent(s, p[j], p[j + 1]);
    }
    assert ChainFromTo(s, r, b, a);
  }

  lemma ConnectedTransitive(s: State, a: int, b: int, c: int)
    requires Connected(s, a, b) && Connected(s, b, c)
    ensures Connected(s, a, c)
  {
    var p :| ChainFromTo(s, p, a, b);
    var q :| ChainFromTo(s, q, b, c);
    var r := p + q[1..];
    forall i | 0 <= i < |r| - 1 ensures Adjacent(s, r[i], r[i + 1]) {
      if i < |p| - 1 {
        assert Adjacent(s, p[i], p[i + 1]);
      } else {
        var j := i - (|p| - 1);
        assert r[i] == q[j] && r[i + 1] == q[j + 1];
        assert Adjacent(s, q[j], q[j + 1]);
      }
    }
    assert ChainFromTo(s, r, a, c);
  }

  /** The ids of the artifacts in one component. */
  ghost function Component(s: State, a: int): set<int> {
    set n | 1 <= n <= |s.artifacts| && Connected(s, a, n)
  }

  lemma OneComponent(s: State, a: int, b: int)
    requires Connected(s, a, b)
    ensures Component(s, a) == Component(s, b)
  {
    forall n | Connected(s, a, n) ensures Connected(s, b, n) {
      ConnectedSymmetric(s, a, b);
      ConnectedTransitive(s, b, a, n);
    }
    forall n | Connected(s, b, n) ensures Connected(s, a, n) {
      ConnectedTransitive(s, a, b, n);
    }
  }

  // ---- facts of a well-formed store ----

  lemma StoredIsNode(s: State, a: Artifact)
    requires WellFormed(s) && a in s.artifacts
    ensures IsNode(s, a)
  {
  }

  /** Edges that link to a node are the stored edges that name it. */
  lemma LinksToNode(s: State, e: DependencyEdge, n: int, t: Artifact)
    requires WellFormed(s) && IsNode(s, t)
    ensures Links(s, e, n, t.id) <==> e in s.deps && e.artifactId == n && e.depName == t.name && e.depSha == t.sha256
    ensures e.depName == t.name && e.depSha == t.sha256 ==> Resolve(s, e) == Some(t)
  {
    if e.depName == t.name && e.depSha == t.sha256 {
      assert t in s.artifacts;
      FindExact(s, t);
    }
    if Resolve(s, e).Some? {
      StoredIsNode(s, Resolve(s, e).value);
    }
  }

  lemma EdgeIsUnique(s: State, a: DependencyEdge, b: DependencyEdge)
    requires WellFormed(s) && a in s.deps && b in s.deps && SameEdge(a, b)
    ensures a == b
  {
    var i :| 0 <= i < |s.deps| && s.deps[i] == a;
    var j :| 0 <= j < |s.deps| && s.deps[j] == b;
    assert i == j;
  }
}
