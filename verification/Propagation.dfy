/** internal/review/service.go, phase 3: contamination spreads from upstream to declarer along trusted edges. */
module Propagation {
  import opened Base
  import opened Model
  import opened Tables
  import opened Graph
  import opened Closure
  import opened Reclassify

  type Reviews = map<int, seq<AttReview>>

  // ---- which edges carry contamination ----

  /** The edge was declared by a valid, root-anchored attestation of its artifact. */
  ghost predicate TrustedEdge(fd: Findings, e: DependencyEdge) {
    exists a <- fd(e.artifactId) :: a.storedId == e.attestationId && a.signatureValid && a.rootAnchored
  }

  /** A resolvable, trusted edge in scope leads from n to its upstream t. */
  ghost predicate Spreads(fd: Findings, s: State, scope: set<DependencyEdge>, n: int, t: int) {
    exists e <- scope :: Links(s, e, n, t) && TrustedEdge(fd, e)
  }

  ghost predicate OwnAffected(fd: Findings, n: int) {
    OwnClass(fd, n) == Affected
  }

  /** A directed path of spreading edges to an artifact affected by its own evidence. */
  ghost predicate TaintPath(fd: Findings, s: State, scope: set<DependencyEdge>, p: seq<int>) {
    && p != []
    && (forall i, j :: 0 <= i < j < |p| && j == i + 1 ==> Spreads(fd, s, scope, p[i], p[j]))
    && OwnAffected(fd, p[|p| - 1])
  }

  /** Some taint path, possibly of the artifact alone, starts here. */
  ghost predicate Contaminated(fd: Findings, s: State, scope: set<DependencyEdge>, n: int) {
    exists p :: TaintPath(fd, s, scope, p) && p[0] == n
  }

  /** Contains what is affected by its own evidence, and whatever has a spreading edge into it. */
  ghost predicate ClosedUnderSpread(fd: Findings, s: State, scope: set<DependencyEdge>, x: iset<int>) {
    && (forall n :: OwnAffected(fd, n) ==> n in x)
    && (forall n, t :: Spreads(fd, s, scope, n, t) && t in x ==> n in x)
  }

  lemma SpreadContaminates(fd: Findings, s: State, scope: set<DependencyEdge>, n: int, t: int)
    requires Spreads(fd, s, scope, n, t) && Contaminated(fd, s, scope, t)
    ensures Contaminated(fd, s, scope, n)
  {
    hide Spreads, OwnAffected;
    var p :| TaintPath(fd, s, scope, p) && p[0] == t;
    var q := [n] + p;
    forall i | 0 <= i < |q| - 1 ensures Spreads(fd, s, scope, q[i], q[i + 1]) {
      if i > 0 {
        assert Spreads(fd, s, scope, p[i - 1], p[i]);
      }
    }
    assert TaintPath(fd, s, scope, q) && q[0] == n;
  }

  lemma OwnContaminates(fd: Findings, s: State, scope: set<DependencyEdge>, n: int)
    requires OwnAffected(fd, n)
    ensures Contaminated(fd, s, scope, n)
  {
    assert TaintPath(fd, s, scope, [n]) && [n][0] == n;
  }

  lemma {:induction false} PathInClosed(fd: Findings, s: State, scope: set<DependencyEdge>, x: iset<int>, p: seq<int>)
    requires ClosedUnderSpread(fd, s, scope, x) && TaintPath(fd, s, scope, p)
    ensures p[0] in x
    decreases |p|
  {
    hide Spreads, OwnAffected;
    if |p| > 1 {
      var q := p[1..];
      forall i | 0 <= i < |q| - 1 ensures Spreads(fd, s, scope, q[i], q[i + 1]) {
        assert Spreads(fd, s, scope, p[i + 1], p[i + 2]);
      }
      PathInClosed(fd, s, scope, x, q);
      assert Spreads(fd, s, scope, p[0], p[1]);
    }
  }

  /** Being contaminated is the least fixpoint of spreading. */
  lemma ContaminatedIsLeast(fd: Findings, s: State, scope: set<DependencyEdge>, x: iset<int>)
    ensures ClosedUnderSpread(fd, s, scope, iset n | Contaminated(fd, s, scope, n))
    ensures ClosedUnderSpread(fd, s, scope, x) ==> forall n :: Contaminated(fd, s, scope, n) ==> n in x
  {
    hide Spreads, OwnAffected;
    forall n | OwnAffected(fd, n) ensures Contaminated(fd, s, scope, n) {
      OwnContaminates(fd, s, scope, n);
    }
    forall n, t | Spreads(fd, s, scope, n, t) && Contaminated(fd, s, scope, t) ensures Contaminated(fd, s, scope, n) {
      SpreadContaminates(fd, s, scope, n, t);
    }
    if ClosedUnderSpread(fd, s, scope, x) {
      forall n | Contaminated(fd, s, scope, n) ensures n in x {
        var p :| TaintPath(fd, s, scope, p) && p[0] == n;
        PathInClosed(fd, s, scope, x, p);
      }
    }
  }

  // ---- the state of the fixpoint ----

  /** The upstream an inherited contamination is blamed on, per artifact. */
  type Blame = map<int, Artifact>

  /** A filed edge of n that is trusted and leads to t. */
  ghost predicate FiledSpread(fd: Findings, owned: Ownership, n: int, t: Artifact) {
    exists oe <- EdgesOwned(owned, n) :: oe.target == t && TrustedEdge(fd, oe.edge)
  }

  /** history lists the affected artifacts in the order they became so. */
  ghost predicate HistoryOf(history: seq<int>, affected: set<int>) {
    && (forall i, j :: 0 <= i < j < |history| ==> history[i] != history[j])
    && (forall n :: n in affected <==> n in history)
  }

  /** The blamed upstream was affected earlier, by a filed trusted edge. */
  ghost predicate BlamedEarlier(fd: Findings, owned: Ownership, history: seq<int>, blame: Blame, i: nat)
    requires i < |history|
  {
    var n := history[i];
    if n in blame then
      FiledSpread(fd, owned, n, blame[n]) && exists j :: 0 <= j < i && history[j] == blame[n].id
    else OwnAffected(fd, n)
  }

  ghost predicate BlameOk(fd: Findings, owned: Ownership, history: seq<int>, blame: Blame) {
    && (forall i :: 0 <= i < |history| ==> BlamedEarlier(fd, owned, history, blame, i))
    && (forall n :: n in blame ==> n in history && !OwnAffected(fd, n))
  }

  ghost function IdsOf(order: seq<Artifact>): set<int> {
    set a <- order :: a.id
  }

  ghost function OwnAffectedIn(fd: Findings, order: seq<Artifact>): set<int> {
    set a <- order | OwnAffected(fd, a.id) :: a.id
  }

  ghost predicate FixOk(fd: Findings, owned: Ownership, order: seq<Artifact>,
                        affected: set<int>, blame: Blame, history: seq<int>) {
    && HistoryOf(history, affected) && BlameOk(fd, owned, history, blame)
    && OwnAffectedIn(fd, order) <= affected <= IdsOf(order)
  }

  /** Recording n after its upstream keeps the history and the blame in order. */
  lemma InfectKeeps(fd: Findings, owned: Ownership, order: seq<Artifact>,
                    affected: set<int>, blame: Blame, history: seq<int>, a: Artifact, t: Artifact)
    requires FixOk(fd, owned, order, affected, blame, history)
    requires a in order && a.id !in affected && t.id in affected && FiledSpread(fd, owned, a.id, t)
    ensures FixOk(fd, owned, order, affected + {a.id}, blame[a.id := t], history + [a.id])
  {
    hide FiledSpread, OwnAffected;
    var history', blame' := history + [a.id], blame[a.id := t];
    forall i | 0 <= i < |history'| ensures BlamedEarlier(fd, owned, history', blame', i) {
      if i < |history| {
        assert BlamedEarlier(fd, owned, history, blame, i);
        assert history[i] in history;
        if history[i] in blame {
          var j :| 0 <= j < i && history[j] == blame[history[i]].id;
          assert history'[j] == history[j];
        }
      } else {
        var j :| 0 <= j < |history| && history[j] == t.id;
        assert history'[j] == t.id;
      }
    }
    assert !OwnAffected(fd, a.id) by {
      assert OwnAffected(fd, a.id) ==> a.id in OwnAffectedIn(fd, order);
    }
  }

  // ---- no circular blame ----

  /** Following the recorded upstreams. */
  ghost predicate BlameChain(blame: Blame, p: seq<int>) {
    && p != []
    && (forall i, j :: 0 <= i < j < |p| && j == i + 1 ==> p[i] in blame && blame[p[i]].id == p[j])
    && p[|p| - 1] !in blame
  }

  /** Every filed edge is in scope. */
  ghost predicate OwnedWithin(owned: Ownership, scope: set<DependencyEdge>) {
    forall n, oe :: n in owned && oe in owned[n] ==> oe.edge in scope
  }

  /** From any affected artifact the recorded upstreams lead to one affected by its own evidence. */
  lemma {:induction false} BlameEnds(fd: Findings, s: State, scope: set<DependencyEdge>, owned: Ownership,
                                     history: seq<int>, blame: Blame, i: nat)
    returns (p: seq<int>)
    requires i < |history| && BlameOk(fd, owned, history, blame)
    requires OwnsSoundly(s, owned) && OwnedWithin(owned, scope)
    ensures BlameChain(blame, p) && p[0] == history[i] && TaintPath(fd, s, scope, p)
    decreases i
  {
    hide OwnAffected, TrustedEdge, Links, IsNode;
    var n := history[i];
    assert BlamedEarlier(fd, owned, history, blame, i);
    if n !in blame {
      p := [n];
    } else {
      var j :| 0 <= j < i && history[j] == blame[n].id;
      var q := BlameEnds(fd, s, scope, owned, history, blame, j);
      p := [n] + q;
      FiledSpreads(fd, s, scope, owned, n, blame[n]);
      PrependTaint(fd, s, scope, n, q);
      PrependBlame(blame, n, q);
    }
  }

  lemma FiledSpreads(fd: Findings, s: State, scope: set<DependencyEdge>, owned: Ownership, n: int, t: Artifact)
    requires FiledSpread(fd, owned, n, t) && OwnsSoundly(s, owned) && OwnedWithin(owned, scope)
    ensures Spreads(fd, s, scope, n, t.id)
  {
    hide TrustedEdge, IsNode;
    var oe :| oe in EdgesOwned(owned, n) && oe.target == t && TrustedEdge(fd, oe.edge);
    assert Links(s, oe.edge, n, t.id);
  }

  lemma PrependTaint(fd: Findings, s: State, scope: set<DependencyEdge>, n: int, q: seq<int>)
    requires TaintPath(fd, s, scope, q) && Spreads(fd, s, scope, n, q[0])
    ensures TaintPath(fd, s, scope, [n] + q)
  {
    hide Spreads, OwnAffected;
    var p := [n] + q;
    forall i | 0 <= i < |p| - 1 ensures Spreads(fd, s, scope, p[i], p[i + 1]) {
      if i > 0 {
        assert Spreads(fd, s, scope, q[i - 1], q[i]);
      }
    }
  }

  lemma PrependBlame(blame: Blame, n: int, q: seq<int>)
    requires BlameChain(blame, q) && n in blame && blame[n].id == q[0]
    ensures BlameChain(blame, [n] + q)
  {
    var p := [n] + q;
    forall i | 0 <= i < |p| - 1 ensures p[i] in blame && blame[p[i]].id == p[i + 1] {
      if i > 0 {
        var a, b := q[i - 1], q[i];
        assert a in blame && blame[a].id == b;
      }
    }
  }

  // ---- the code ----

  /** edgeTrusted. */
  method EdgeTrusted(n: int, e: DependencyEdge, reviews: Reviews, ghost fd: Findings) returns (ok: bool)
    requires n in reviews && reviews[n] == fd(n) && e.artifactId == n
    ensures ok <==> TrustedEdge(fd, e)
  {
    for i := 0 to |reviews[n]|
      invariant forall k :: 0 <= k < i ==>
                  !(reviews[n][k].storedId == e.attestationId && reviews[n][k].signatureValid
                    && reviews[n][k].rootAnchored)
    {
      var a := reviews[n][i];
      if a.storedId == e.attestationId && a.signatureValid && a.rootAnchored {
        assert a in reviews[n];
        return true;
      }
    }
    return false;
  }

  ghost predicate ReviewsReady(fd: Findings, order: seq<Artifact>, reviews: Reviews) {
    forall a <- order :: a.id in reviews && reviews[a.id] == fd(a.id)
  }

  /** The innermost loop: the first filed edge that is trusted and leads to something affected. */
  method FindTaint(n: int, edges: seq<OwnedEdge>, affected: set<int>, reviews: Reviews, ghost fd: Findings)
    returns (hit: Option<Artifact>)
    requires n in reviews && reviews[n] == fd(n)
    requires forall oe <- edges :: oe.edge.artifactId == n
    ensures hit.Some? ==> hit.value.id in affected &&
                          exists oe <- edges :: oe.target == hit.value && TrustedEdge(fd, oe.edge)
    ensures hit.None? ==> forall oe <- edges :: TrustedEdge(fd, oe.edge) ==> oe.target.id !in affected
  {
    hide TrustedEdge;
    for i := 0 to |edges|
      invariant forall k :: 0 <= k < i ==> TrustedEdge(fd, edges[k].edge) ==> edges[k].target.id !in affected
    {
      var oe := edges[i];
      assert oe in edges;
      if oe.target.id !in affected {
        continue;
      }
      var trusted := EdgeTrusted(n, oe.edge, reviews, fd);
      if trusted {
        return Some(oe.target);
      }
    }
    return None;
  }

  /** Every artifact before k that is not affected has nothing to inherit. */
  ghost predicate QuietUpTo(fd: Findings, owned: Ownership, order: seq<Artifact>, affected: set<int>, k: nat)
    requires k <= |order|
  {
    forall i, t :: 0 <= i < k && order[i].id !in affected && FiledSpread(fd, owned, order[i].id, t) ==>
      t.id !in affected
  }

  /** One turn of the pass: the artifact is affected already, inherits now, or has nothing to inherit. */
  method PassOne(a: Artifact, owned: Ownership, affected: set<int>, reviews: Reviews, ghost fd: Findings,
                 ghost s: State)
    returns (hit: Option<Artifact>)
    requires a.id in reviews && reviews[a.id] == fd(a.id) && OwnsSoundly(s, owned)
    ensures hit.Some? ==> hit.value.id in affected && FiledSpread(fd, owned, a.id, hit.value)
    ensures hit.None? ==> forall t :: FiledSpread(fd, owned, a.id, t) ==> t.id !in affected
  {
    hide TrustedEdge, IsNode;
    var edges := EdgesOwned(owned, a.id);
    assert forall oe <- edges :: oe.edge.artifactId == a.id by {
      forall oe <- edges ensures oe.edge.artifactId == a.id {
        assert Links(s, oe.edge, a.id, oe.target.id);
      }
    }
    hit := FindTaint(a.id, edges, affected, reviews, fd);
  }

  /** One pass over the order; contamination found earlier in the pass counts at once. */
  method Pass(order: seq<Artifact>, owned: Ownership, affected0: set<int>, blame0: Blame, reviews: Reviews,
              ghost fd: Findings, ghost s: State, ghost history0: seq<int>)
    returns (affected: set<int>, blame: Blame, changed: bool, ghost history: seq<int>)
    requires OwnsSoundly(s, owned) && ReviewsReady(fd, order, reviews)
    requires FixOk(fd, owned, order, affected0, blame0, history0)
    ensures FixOk(fd, owned, order, affected, blame, history) && affected0 <= affected
    ensures changed <==> affected != affected0
    ensures !changed ==> QuietUpTo(fd, owned, order, affected, |order|)
  {
    hide FixOk, FiledSpread, OwnsSoundly;
    affected, blame, changed, history := affected0, blame0, false, history0;
    for i := 0 to |order|
      invariant FixOk(fd, owned, order, affected, blame, history) && affected0 <= affected
      invariant changed <==> affected != affected0
      invariant !changed ==> QuietUpTo(fd, owned, order, affected, i)
    {
      var a := order[i];
      assert a in order;
      if a.id in affected {
        continue;
      }
      var hit := PassOne(a, owned, affected, reviews, fd, s);
      if hit.Some? {
        InfectKeeps(fd, owned, order, affected, blame, history, a, hit.value);
        affected, blame, changed := affected + {a.id}, blame[a.id := hit.value], true;
        history := history + [a.id];
      }
    }
  }

  /** The initial marking: whatever is affected by its own evidence. */
  method Seed(order: seq<Artifact>, owned: Ownership, ownClass: map<int, Class>, ghost fd: Findings)
    returns (affected: set<int>, ghost history: seq<int>)
    requires forall i, j :: 0 <= i < j < |order| ==> order[i].id != order[j].id
    requires forall a <- order :: a.id in ownClass && ownClass[a.id] == OwnClass(fd, a.id)
    ensures affected == OwnAffectedIn(fd, order) && FixOk(fd, owned, order, affected, map[], history)
  {
    hide OwnClass;
    affected, history := {}, [];
    for i := 0 to |order|
      invariant affected == OwnAffectedIn(fd, order[..i]) && HistoryOf(history, affected)
      invariant forall n <- history :: OwnAffected(fd, n)
    {
      assert order[..i + 1] == order[..i] + [order[i]];
      assert order[i] in order;
      if ownClass[order[i].id] == Affected {
        assert order[i].id !in affected by {
          assert forall a <- order[..i] :: a.id != order[i].id;
        }
        affected, history := affected + {order[i].id}, history + [order[i].id];
      }
    }
    assert order[..|order|] == order;
    assert BlameOk(fd, owned, history, map[]) by {
      forall i | 0 <= i < |history| ensures BlamedEarlier(fd, owned, history, map[], i) {
        assert history[i] in history;
      }
    }
  }

  /** Phase 3 of Review: passes until nothing changes, at most one more than there are artifacts to turn. */
  method Propagate(order: seq<Artifact>, owned: Ownership, ownClass: map<int, Class>, reviews: Reviews,
                   ghost fd: Findings, ghost s: State)
    returns (affected: set<int>, blame: Blame, ghost history: seq<int>, ghost passes: nat)
    requires forall i, j :: 0 <= i < j < |order| ==> order[i].id != order[j].id
    requires OwnsSoundly(s, owned) && ReviewsReady(fd, order, reviews)
    requires forall a <- order :: a.id in ownClass && ownClass[a.id] == OwnClass(fd, a.id)
    ensures FixOk(fd, owned, order, affected, blame, history)
    ensures QuietUpTo(fd, owned, order, affected, |order|)
    ensures passes <= |affected| - |OwnAffectedIn(fd, order)| + 1
    ensures |affected| <= |IdsOf(order)|
  {
    hide OwnsSoundly, OwnClass, ReviewsReady, QuietUpTo, HistoryOf, BlameOk, OwnAffectedIn;
    ghost var seeds := OwnAffectedIn(fd, order);
    affected, history := Seed(order, owned, ownClass, fd);
    blame := map[];
    passes := 0;
    var changed := true;
    while changed
      invariant FixOk(fd, owned, order, affected, blame, history) && seeds <= affected
      invariant changed ==> passes <= |affected| - |seeds|
      invariant !changed ==> passes <= |affected| - |seeds| + 1
      invariant !changed ==> QuietUpTo(fd, owned, order, affected, |order|)
      decreases IdsOf(order) - affected, changed
    {
      ghost var before := affected;
      affected, blame, changed, history := Pass(order, owned, affected, blame, reviews, fd, s, history);
      passes := passes + 1;
      SubsetSmaller(before, affected);
    }
    SubsetSmaller(affected, IdsOf(order));
  }

  lemma SubsetSmaller(a: set<int>, b: set<int>)
    requires a <= b
    ensures |a| <= |b| && (a != b ==> |a| < |b|)
  {
    assert b == a + (b - a) && a !! (b - a);
    assert |b| == |a| + |b - a|;
    assert |b - a| == 0 ==> a == b by {
      if |b - a| == 0 {
        assert b - a == {};
      }
    }
  }

  // ---- what the fixpoint computes ----

  lemma NodeInOrder(s: State, order: seq<Artifact>, b: Artifact)
    requires Nodes(s, order) && b in order
    ensures IsNode(s, b)
  {
  }

  lemma SameNode(s: State, a: Artifact, b: Artifact)
    requires IsNode(s, a) && IsNode(s, b) && a.id == b.id
    ensures a == b
  {
  }

  /** Spreading along the edges the walk files is spreading along the edges it filed. */
  lemma SpreadIsFiled(fd: Findings, s: State, root: Artifact, order: seq<Artifact>, paths: map<int, seq<int>>,
                      owned: Ownership, a: Artifact, t: int)
    requires IsClosure(s, root, order, paths, owned) && a in order
    requires Spreads(fd, s, FiledEdges(s, paths.Keys), a.id, t)
    ensures exists b :: b in order && b.id == t && FiledSpread(fd, owned, a.id, b)
  {
    hide TrustedEdge, Shortest, PathsLead, Layered, Nodes, IsNode, OwnsKept, OwnsPins, Kept, LowestPin;
    var scope := FiledEdges(s, paths.Keys);
    var e :| e in scope && Links(s, e, a.id, t) && TrustedEdge(fd, e);
    FiledIsOwnedBy(s, root, order, paths, owned, e);
    var oe :| oe in EdgesOwned(owned, a.id) && oe.edge == e;
    assert oe in owned[a.id] && oe.target.id in paths;
    assert Links(s, oe.edge, a.id, oe.target.id);
    var b :| b in order && b.id == t;
    assert IsNode(s, b) && IsNode(s, oe.target) by {
      NodeInOrder(s, order, b);
    }
    SameNode(s, b, oe.target);
  }

  lemma OwnedIsWithin(s: State, root: Artifact, order: seq<Artifact>, paths: map<int, seq<int>>, owned: Ownership)
    requires IsClosure(s, root, order, paths, owned)
    ensures OwnsSoundly(s, owned) && OwnedWithin(owned, FiledEdges(s, paths.Keys))
  {
    hide Layered, OwnsKept, OwnsPins, Filable, Nodes, Walk, UpHop, IsNode;
    forall n, oe | n in owned && oe in owned[n] ensures oe.edge in FiledEdges(s, paths.Keys) {
      var t := oe.target.id;
      assert Links(s, oe.edge, n, t);
      assert DownHop(s, t, n);
      LongerWalk(s, paths[t], root.id, t, n);
      assert (paths[t] + [n])[|paths[t]|] == n;
    }
  }

  lemma {:induction false} PathIsAffected(fd: Findings, s: State, root: Artifact, order: seq<Artifact>,
                                          paths: map<int, seq<int>>, owned: Ownership, affected: set<int>, p: seq<int>)
    requires IsClosure(s, root, order, paths, owned)
    requires OwnAffectedIn(fd, order) <= affected && QuietUpTo(fd, owned, order, affected, |order|)
    requires TaintPath(fd, s, FiledEdges(s, paths.Keys), p) && p[0] in IdsOf(order)
    ensures p[0] in affected
    decreases |p|
  {
    hide Spreads, OwnAffected, IsClosure, FiledSpread, FiledEdges;
    var scope := FiledEdges(s, paths.Keys);
    var a :| a in order && a.id == p[0];
    if |p| > 1 {
      var q := p[1..];
      forall i | 0 <= i < |q| - 1 ensures Spreads(fd, s, scope, q[i], q[i + 1]) {
        assert Spreads(fd, s, scope, p[i + 1], p[i + 2]);
      }
      assert Spreads(fd, s, scope, p[0], p[1]);
      SpreadIsFiled(fd, s, root, order, paths, owned, a, p[1]);
      var b :| b in order && b.id == p[1] && FiledSpread(fd, owned, a.id, b);
      PathIsAffected(fd, s, root, order, paths, owned, affected, q);
      var i :| 0 <= i < |order| && order[i] == a;
    }
  }

  /** The fixpoint marks exactly what is contaminated along the edges the walk files. */
  lemma AffectedIsContaminated(fd: Findings, s: State, root: Artifact, order: seq<Artifact>, paths: map<int, seq<int>>,
                               owned: Ownership, affected: set<int>, blame: Blame, history: seq<int>, n: int)
    requires IsClosure(s, root, order, paths, owned) && n in IdsOf(order)
    requires FixOk(fd, owned, order, affected, blame, history)
    requires QuietUpTo(fd, owned, order, affected, |order|)
    ensures n in affected <==> Contaminated(fd, s, FiledEdges(s, paths.Keys), n)
  {
    OwnedIsWithin(s, root, order, paths, owned);
    hide IsClosure, Spreads, OwnAffected, FiledSpread, FiledEdges, QuietUpTo, OwnAffectedIn, OwnsSoundly, OwnedWithin;
    var scope := FiledEdges(s, paths.Keys);
    if n in affected {
      var i :| 0 <= i < |history| && history[i] == n;
      var p := BlameEnds(fd, s, scope, owned, history, blame, i);
    }
    if Contaminated(fd, s, scope, n) {
      var p :| TaintPath(fd, s, scope, p) && p[0] == n;
      PathIsAffected(fd, s, root, order, paths, owned, affected, p);
    }
  }
}
