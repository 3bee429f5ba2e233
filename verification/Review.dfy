/** internal/review/service.go: Review as a whole, and what its report means. */
module Review {
  import opened Base
  import opened Model
  import opened Lists
  import opened Tables
  import opened Memory
  import opened Graph
  import opened Closure
  import opened Reclassify
  import opened Propagation
  import Text
  import Keys

  /** An entry of a report; inheritedFrom is the upstream its reason names, when the class was inherited. */
  datatype ArtifactReview = ArtifactReview(
    id: int, name: string, sha256: string, cls: Class, referenceTime: Option<Time>,
    recordId: int, attestations: seq<AttReview>, reachedVia: seq<string>, inheritedFrom: Option<Artifact>)

  datatype Report = Report(generatedAt: Time, feedVersion: int, cutoff: Time, realTimeValid: bool,
                           artifacts: seq<ArtifactReview>)

  // ---- what a report says ----

  /** Contaminated along the edges in scope means affected; any other artifact keeps the class of its own evidence. */
  ghost function ReviewClass(fd: Findings, s: State, scope: set<DependencyEdge>, n: int): Class {
    if Contaminated(fd, s, scope, n) then Affected else OwnClass(fd, n)
  }

  function NamesOf(s: State, p: seq<int>): seq<string> {
    Map((id: int) => if 1 <= id <= |s.artifacts| then s.artifacts[id - 1].name else "", p)
  }

  /** The edges a review of the root takes into account. */
  ghost function ScopeOf(s: State, root: int): set<DependencyEdge> {
    FiledEdges(s, Reached(s, root))
  }

  /** The names along a shortest walk from the root. */
  ghost predicate ShortestVia(s: State, root: int, n: int, via: seq<string>) {
    && (exists p :: WalkFromTo(s, p, root, n) && via == NamesOf(s, p))
    && (forall q :: WalkFromTo(s, q, root, n) ==> |via| <= |q|)
  }

  /** What an entry says about its artifact, whatever edges are taken into account. */
  ghost predicate EntryFacts(fd: Findings, s: State, scope: set<DependencyEdge>, ar: ArtifactReview) {
    && 1 <= ar.id <= |s.artifacts|
    && ar.name == s.artifacts[ar.id - 1].name && ar.sha256 == s.artifacts[ar.id - 1].sha256
    && ar.attestations == fd(ar.id)
    && ar.cls == ReviewClass(fd, s, scope, ar.id)
    && (if ar.cls == Insufficient then ar.referenceTime == None else IsReference(ar.attestations, ar.referenceTime))
  }

  ghost predicate EntryOk(fd: Findings, s: State, root: int, ar: ArtifactReview) {
    EntryFacts(fd, s, ScopeOf(s, root), ar) && ShortestVia(s, root, ar.id, ar.reachedVia)
  }

  ghost function ReportedIds(arts: seq<ArtifactReview>): set<int> {
    set ar <- arts :: ar.id
  }

  predicate ReportLess(a: ArtifactReview, b: ArtifactReview) {
    if |a.reachedVia| != |b.reachedVia| then |a.reachedVia| < |b.reachedVia| else Text.Less(a.name, b.name)
  }

  /** One correct entry for each artifact the root's walk reaches, ordered by distance and name. */
  ghost predicate IsReport(fd: Findings, s: State, root: int, arts: seq<ArtifactReview>) {
    && (forall ar <- arts :: EntryOk(fd, s, root, ar))
    && ReportedIds(arts) == Reached(s, root) && |arts| == |Reached(s, root)|
    && Sorted(ReportLess, arts)
  }

  // ---- the record written for an entry ----

  predicate AnyValid(atts: seq<AttReview>) {
    exists a <- atts :: a.signatureValid
  }

  function DecisionFor(c: Class): Decision {
    match c
    case Unaffected => Allow
    case Affected => Deny
    case Insufficient => NeedsReview
  }

  ghost function RecordFor(ar: ArtifactReview, now: Time): Verification {
    Verification(0, 0, DecisionFor(ar.cls), AnyValid(ar.attestations), AnyValid(ar.attestations), ar.cls != Affected,
                 true, now, "review", Some(ar.cls), ar.referenceTime)
  }

  ghost predicate RecordMatches(s: State, ar: ArtifactReview, now: Time) {
    && 1 <= ar.recordId <= |s.verifs|
    && s.verifs[ar.recordId - 1] == RecordFor(ar, now).(id := ar.recordId, artifactId := ar.id)
  }

  /** Everything but the verdict tables is as before, and the verdict tables only grew. */
  ghost predicate OnlyVerdictsAppended(s: State, s': State) {
    && Extends(s, s')
    && s'.artifacts == s.artifacts && s'.attestations == s.attestations
    && s'.evidence == s.evidence && s'.deps == s.deps
  }

  /** One new review record for each entry, under a fresh id, and no other record. */
  ghost predicate OneRecordEach(s: State, s': State, arts: seq<ArtifactReview>, now: Time) {
    && OnlyVerdictsAppended(s, s') && |s'.verifs| == |s.verifs| + |arts|
    && (forall ar <- arts :: ar.recordId > |s.verifs| && RecordMatches(s', ar, now))
    && (forall v <- s'.verifs[|s.verifs|..] :: exists ar <- arts :: ar.recordId == v.id)
  }

  // ---- entries as the code builds them ----

  /** The entry built for one artifact of the order. */
  ghost predicate Summarized(fd: Findings, s: State, a: Artifact, paths: map<int, seq<int>>, affected: set<int>,
                             ar: ArtifactReview)
    requires a.id in paths
  {
    && ar.id == a.id && ar.name == a.name && ar.sha256 == a.sha256
    && ar.attestations == fd(a.id)
    && ar.cls == (if a.id in affected then Affected
                  else if OwnClass(fd, a.id) == Insufficient then Insufficient else Unaffected)
    && (if ar.cls == Insufficient then ar.referenceTime == None else IsReference(ar.attestations, ar.referenceTime))
    && ar.reachedVia == NamesOf(s, paths[a.id])
  }

  ghost predicate AllSummarized(fd: Findings, s: State, order: seq<Artifact>, paths: map<int, seq<int>>,
                                affected: set<int>,
                                arts: seq<ArtifactReview>)
  {
    && |arts| <= |order|
    && forall i :: 0 <= i < |arts| ==> order[i].id in paths && Summarized(fd, s, order[i], paths, affected, arts[i])
  }

  /** The i-th entry has the i-th new record. */
  ghost predicate Appended(s: State, s': State, arts: seq<ArtifactReview>, now: Time) {
    && OnlyVerdictsAppended(s, s') && |s'.verifs| == |s.verifs| + |arts|
    && forall i :: 0 <= i < |arts| ==> arts[i].recordId == |s.verifs| + 1 + i && RecordMatches(s', arts[i], now)
  }

  lemma SaveAppends(s: State, s1: State, s2: State, artifactId: int, v: Verification)
    requires OnlyVerdictsAppended(s, s1) && WellFormed(s1) && s2 == SaveVerification(s1, artifactId, v, [])
    ensures OnlyVerdictsAppended(s, s2)
  {
    assert forall id :: id in s1.verdicts ==> 1 <= id <= |s1.verifs|;
  }

  lemma RecordSaved(s1: State, s2: State, ar: ArtifactReview, now: Time)
    requires s2 == SaveVerification(s1, ar.id, RecordFor(ar, now), []) && ar.recordId == |s1.verifs| + 1
    ensures RecordMatches(s2, ar, now)
  {
    hide AnyValid, DecisionFor;
    assert RecordFor(ar, now).reviewKind == "review" != "";
  }

  lemma RecordStays(s1: State, s2: State, ar: ArtifactReview, now: Time)
    requires RecordMatches(s1, ar, now) && s1.verifs <= s2.verifs
    ensures RecordMatches(s2, ar, now)
  {
    hide RecordFor;
  }

  lemma AppendedSnoc(s: State, s1: State, s2: State, arts: seq<ArtifactReview>, ar: ArtifactReview, now: Time)
    requires Appended(s, s1, arts, now) && WellFormed(s1)
    requires s2 == SaveVerification(s1, ar.id, RecordFor(ar, now), []) && ar.recordId == |s1.verifs| + 1
    ensures Appended(s, s2, arts + [ar], now)
  {
    SaveAppends(s, s1, s2, ar.id, RecordFor(ar, now));
    RecordSaved(s1, s2, ar, now);
    hide WellFormed, RecordFor, OnlyVerdictsAppended, RecordMatches;
    forall i | 0 <= i < |arts| ensures RecordMatches(s2, arts[i], now) {
      RecordStays(s1, s2, arts[i], now);
    }
  }

  lemma AppendedIsOneEach(s: State, s': State, arts: seq<ArtifactReview>, sorted: seq<ArtifactReview>, now: Time)
    requires Appended(s, s', arts, now) && multiset(sorted) == multiset(arts)
    ensures OneRecordEach(s, s', sorted, now)
  {
    hide OnlyVerdictsAppended, RecordFor;
    InMultiset(sorted, arts);
    forall ar <- sorted ensures ar.recordId > |s.verifs| && RecordMatches(s', ar, now) {
      var i :| 0 <= i < |arts| && arts[i] == ar;
    }
    var added := s'.verifs[|s.verifs|..];
    forall v <- added ensures exists ar <- sorted :: ar.recordId == v.id {
      var i :| 0 <= i < |added| && added[i] == v;
      assert RecordMatches(s', arts[i], now);
      assert arts[i] in sorted;
    }
  }

  // ---- from built entries to a report ----

  lemma ReportOrdering()
    ensures Ordering(ReportLess)
  {
    Keys.TextOrdering();
  }

  /** A class taken from the fixpoint is the review class when the fixpoint is contamination. */
  lemma ClassFromAffected(fd: Findings, s: State, scope: set<DependencyEdge>, n: int)
    ensures OwnClass(fd, n) == Affected ==> Contaminated(fd, s, scope, n)
    ensures ReviewClass(fd, s, scope, n) == if Contaminated(fd, s, scope, n) then Affected
                                             else if OwnClass(fd, n) == Insufficient then Insufficient else Unaffected
  {
    hide OwnClass;
    if OwnAffected(fd, n) {
      OwnContaminates(fd, s, scope, n);
    }
  }

  lemma PathIsShortestVia(s: State, root: Artifact, order: seq<Artifact>, paths: map<int, seq<int>>, owned: Ownership,
                          n: int)
    requires IsClosure(s, root, order, paths, owned) && n in paths
    ensures ShortestVia(s, root.id, n, NamesOf(s, paths[n]))
  {
    hide Nodes, Layered, OwnsSoundly, OwnsKept, OwnsPins, Hop;
    assert WalkFromTo(s, paths[n], root.id, n);
    forall q | WalkFromTo(s, q, root.id, n) ensures |paths[n]| <= |q| {
      assert Walk(s, q);
    }
  }

  /** The artifacts reached are listed once each. */
  lemma OrderIsReached(s: State, root: Artifact, order: seq<Artifact>, paths: map<int, seq<int>>, owned: Ownership)
    requires IsClosure(s, root, order, paths, owned)
    ensures IdsOf(order) == Reached(s, root.id) == paths.Keys && |IdsOf(order)| == |order|
  {
    ClosureIsReached(s, root, order, paths, owned);
    hide Layered, OwnsSoundly, OwnsKept, OwnsPins, Reached, PathsLead, Shortest;
    IdsCount(s, order);
  }

  /** A correctly built entry is a correct entry. */
  lemma SummarizedOk(fd: Findings, s: State, root: Artifact, order: seq<Artifact>, paths: map<int, seq<int>>,
                     owned: Ownership,
                     affected: set<int>, blame: Blame, history: seq<int>, a: Artifact, ar: ArtifactReview)
    requires IsClosure(s, root, order, paths, owned)
    requires FixOk(fd, owned, order, affected, blame, history) && QuietUpTo(fd, owned, order, affected, |order|)
    requires a in order && a.id in paths && Summarized(fd, s, a, paths, affected, ar)
    ensures EntryOk(fd, s, root.id, ar)
  {
    hide FixOk, QuietUpTo, Contaminated, OwnClass, ShortestVia, ReviewClass, FiledEdges, Reached, IsReference;
    assert IsNode(s, a) by {
      NodeInOrder(s, order, a);
    }
    hide IsClosure;
    OrderIsReached(s, root, order, paths, owned);
    AffectedIsContaminated(fd, s, root, order, paths, owned, affected, blame, history, a.id);
    ClassFromAffected(fd, s, FiledEdges(s, paths.Keys), a.id);
    PathIsShortestVia(s, root, order, paths, owned, a.id);
  }

  lemma EntriesMakeReport(fd: Findings, s: State, root: Artifact, order: seq<Artifact>, paths: map<int, seq<int>>,
                          owned: Ownership, affected: set<int>, blame: Blame, history: seq<int>,
                          arts: seq<ArtifactReview>, sorted: seq<ArtifactReview>)
    requires IsClosure(s, root, order, paths, owned)
    requires FixOk(fd, owned, order, affected, blame, history) && QuietUpTo(fd, owned, order, affected, |order|)
    requires |arts| == |order| && AllSummarized(fd, s, order, paths, affected, arts)
    requires Sorted(ReportLess, sorted) && multiset(sorted) == multiset(arts)
    ensures IsReport(fd, s, root.id, sorted)
  {
    hide IsClosure, FixOk, QuietUpTo, Summarized, EntryOk, Reached;
    InMultiset(sorted, arts);
    forall ar <- sorted ensures EntryOk(fd, s, root.id, ar) {
      var i :| 0 <= i < |arts| && arts[i] == ar;
      SummarizedOk(fd, s, root, order, paths, owned, affected, blame, history, order[i], ar);
    }
    EntriesCoverOrder(fd, s, order, paths, affected, arts, sorted);
    OrderIsReached(s, root, order, paths, owned);
  }

  lemma EntriesCoverOrder(fd: Findings, s: State, order: seq<Artifact>, paths: map<int, seq<int>>, affected: set<int>,
                          arts: seq<ArtifactReview>, sorted: seq<ArtifactReview>)
    requires |arts| == |order| && AllSummarized(fd, s, order, paths, affected, arts)
    requires multiset(sorted) == multiset(arts)
    ensures ReportedIds(sorted) == IdsOf(order) && |sorted| == |order|
  {
    hide OwnClass, NamesOf, IsReference;
    InMultiset(sorted, arts);
    forall id ensures id in ReportedIds(sorted) <==> id in IdsOf(order) {
      if id in IdsOf(order) {
        var i :| 0 <= i < |order| && order[i].id == id;
        assert Summarized(fd, s, order[i], paths, affected, arts[i]);
        assert arts[i] in sorted;
      }
      if id in ReportedIds(sorted) {
        var ar :| ar in sorted && ar.id == id;
        var i :| 0 <= i < |arts| && arts[i] == ar;
        assert Summarized(fd, s, order[i], paths, affected, arts[i]);
        assert order[i] in order;
      }
    }
  }

  lemma NothingAppended(s: State, now: Time)
    ensures Appended(s, s, [], now)
  {
  }

  lemma SummarizedId(fd: Findings, s: State, a: Artifact, paths: map<int, seq<int>>, affected: set<int>,
                     ar: ArtifactReview)
    requires a.id in paths && Summarized(fd, s, a, paths, affected, ar)
    ensures ar.id == a.id
  {
  }

  lemma SummarizedWithRecord(fd: Findings, s: State, a: Artifact, paths: map<int, seq<int>>, affected: set<int>,
                             blame: Blame, ar: ArtifactReview, recordId: int)
    requires a.id in paths && Summarized(fd, s, a, paths, affected, ar) && NamesBlame(fd, affected, blame, ar)
    ensures Summarized(fd, s, a, paths, affected, ar.(recordId := recordId))
    ensures NamesBlame(fd, affected, blame, ar.(recordId := recordId))
    ensures forall now :: RecordFor(ar.(recordId := recordId), now) == RecordFor(ar, now)
  {
    hide OwnClass, NamesOf, IsReference;
  }

  lemma ClosureFacts(s: State, root: Artifact, order: seq<Artifact>, paths: map<int, seq<int>>, owned: Ownership)
    requires IsClosure(s, root, order, paths, owned)
    ensures forall i, j :: 0 <= i < j < |order| ==> order[i].id != order[j].id
    ensures OwnsSoundly(s, owned)
    ensures forall a <- order :: HasArtifact(s, a.id) && a.id in paths
    ensures root in order && root.id in IdsOf(order)
  {
    hide PathsLead, Layered, Shortest, OwnsKept;
    forall a <- order ensures HasArtifact(s, a.id) && a.id in paths {
      NodeInOrder(s, order, a);
      assert a.id in paths.Keys;
    }
  }

  // ---- the upstreams named ----

  /** The upstream an entry names is the one the fixpoint blamed, unless the artifact is affected by itself. */
  ghost predicate NamesBlame(fd: Findings, affected: set<int>, blame: Blame, ar: ArtifactReview) {
    ar.inheritedFrom ==
      if ar.id in affected && !OwnAffected(fd, ar.id) && ar.id in blame then Some(blame[ar.id]) else None
  }

  ghost predicate AllNameBlame(fd: Findings, affected: set<int>, blame: Blame, arts: seq<ArtifactReview>) {
    forall ar <- arts :: NamesBlame(fd, affected, blame, ar)
  }

  /** The entry of n names t as the upstream it inherits from. */
  ghost predicate Inherits(arts: seq<ArtifactReview>, n: int, t: int) {
    exists ar <- arts :: ar.id == n && ar.inheritedFrom.Some? && ar.inheritedFrom.value.id == t
  }

  /** Following the upstreams the entries name, along trusted edges, to an artifact affected by its own evidence. */
  ghost predicate Trail(fd: Findings, s: State, scope: set<DependencyEdge>, arts: seq<ArtifactReview>, p: seq<int>) {
    && TaintPath(fd, s, scope, p)
    && forall i, j :: 0 <= i < j < |p| && j == i + 1 ==> Inherits(arts, p[i], p[j])
  }

  /** An upstream is named exactly for a class that is inherited, by an edge that carries contamination, and what is
      named never goes in circles. */
  ghost predicate Explains(fd: Findings, s: State, root: int, arts: seq<ArtifactReview>) {
    && (forall ar <- arts :: ar.inheritedFrom.Some? <==> ar.cls == Affected && !OwnAffected(fd, ar.id))
    && (forall ar <- arts :: ar.inheritedFrom.Some? ==>
          Spreads(fd, s, ScopeOf(s, root), ar.id, ar.inheritedFrom.value.id))
    && (forall ar <- arts :: ar.cls == Affected ==>
          exists p :: Trail(fd, s, ScopeOf(s, root), arts, p) && p[0] == ar.id)
  }

  lemma BlamedIsNamed(fd: Findings, s: State, order: seq<Artifact>, paths: map<int, seq<int>>, owned: Ownership,
                      affected: set<int>, blame: Blame, history: seq<int>, arts: seq<ArtifactReview>, n: int)
    requires FixOk(fd, owned, order, affected, blame, history) && n in blame
    requires |arts| == |order| && AllSummarized(fd, s, order, paths, affected, arts)
    requires AllNameBlame(fd, affected, blame, arts)
    ensures Inherits(arts, n, blame[n].id)
  {
    hide OwnAffected, NamesOf, IsReference, BlamedEarlier;
    assert n in IdsOf(order);
    var i :| 0 <= i < |order| && order[i].id == n;
    assert Summarized(fd, s, order[i], paths, affected, arts[i]);
    assert arts[i] in arts && NamesBlame(fd, affected, blame, arts[i]);
  }

  lemma NamedIffInherited(fd: Findings, s: State, order: seq<Artifact>, paths: map<int, seq<int>>, owned: Ownership,
                          affected: set<int>, blame: Blame, history: seq<int>, a: Artifact, ar: ArtifactReview)
    requires FixOk(fd, owned, order, affected, blame, history) && a in order && a.id in paths
    requires Summarized(fd, s, a, paths, affected, ar) && NamesBlame(fd, affected, blame, ar)
    ensures ar.inheritedFrom.Some? <==> ar.cls == Affected && !OwnAffected(fd, ar.id)
    ensures ar.cls == Affected ==> ar.id in history
  {
    hide FiledSpread, NamesOf, IsReference, Own;
    if a.id in affected {
      var i :| 0 <= i < |history| && history[i] == a.id;
      assert BlamedEarlier(fd, owned, history, blame, i);
    }
  }

  lemma NamedSpreads(fd: Findings, s: State, root: Artifact, order: seq<Artifact>, paths: map<int, seq<int>>,
                     owned: Ownership, affected: set<int>, blame: Blame, history: seq<int>, ar: ArtifactReview)
    requires IsClosure(s, root, order, paths, owned) && FixOk(fd, owned, order, affected, blame, history)
    requires NamesBlame(fd, affected, blame, ar)
    ensures ar.inheritedFrom.Some? ==> Spreads(fd, s, ScopeOf(s, root.id), ar.id, ar.inheritedFrom.value.id)
  {
    if ar.inheritedFrom.Some? {
      OrderIsReached(s, root, order, paths, owned);
      OwnedIsWithin(s, root, order, paths, owned);
      hide IsClosure, OwnsSoundly, OwnedWithin, FiledSpread, Spreads, OwnAffected, Reached;
      var i :| 0 <= i < |history| && history[i] == ar.id;
      assert BlamedEarlier(fd, owned, history, blame, i);
      FiledSpreads(fd, s, ScopeOf(s, root.id), owned, ar.id, ar.inheritedFrom.value);
    }
  }

  lemma TrailFrom(fd: Findings, s: State, root: Artifact, order: seq<Artifact>, paths: map<int, seq<int>>,
                  owned: Ownership, affected: set<int>, blame: Blame, history: seq<int>, arts: seq<ArtifactReview>,
                  n: int)
    requires IsClosure(s, root, order, paths, owned) && FixOk(fd, owned, order, affected, blame, history)
    requires |arts| == |order| && AllSummarized(fd, s, order, paths, affected, arts)
    requires AllNameBlame(fd, affected, blame, arts) && n in history
    ensures exists p :: Trail(fd, s, ScopeOf(s, root.id), arts, p) && p[0] == n
  {
    OrderIsReached(s, root, order, paths, owned);
    OwnedIsWithin(s, root, order, paths, owned);
    var i :| 0 <= i < |history| && history[i] == n;
    hide IsClosure, TaintPath, OwnsSoundly, OwnedWithin, AllSummarized, AllNameBlame, Inherits, HistoryOf, Reached;
    var p := BlameEnds(fd, s, ScopeOf(s, root.id), owned, history, blame, i);
    forall k | 0 <= k < |p| - 1 ensures Inherits(arts, p[k], p[k + 1]) {
      var a, b := p[k], p[k + 1];
      assert a in blame && blame[a].id == b;
      BlamedIsNamed(fd, s, order, paths, owned, affected, blame, history, arts, a);
    }
    assert Trail(fd, s, ScopeOf(s, root.id), arts, p);
  }

  lemma EntriesExplain(fd: Findings, s: State, root: Artifact, order: seq<Artifact>, paths: map<int, seq<int>>,
                       owned: Ownership, affected: set<int>, blame: Blame, history: seq<int>, arts: seq<ArtifactReview>,
                       sorted: seq<ArtifactReview>)
    requires IsClosure(s, root, order, paths, owned) && FixOk(fd, owned, order, affected, blame, history)
    requires |arts| == |order| && AllSummarized(fd, s, order, paths, affected, arts)
    requires AllNameBlame(fd, affected, blame, arts) && multiset(sorted) == multiset(arts)
    ensures Explains(fd, s, root.id, sorted)
  {
    hide IsClosure, FixOk, Summarized, NamesBlame, OwnAffected, Spreads, ScopeOf;
    InMultiset(sorted, arts);
    forall ar <- sorted
      ensures ar.inheritedFrom.Some? <==> ar.cls == Affected && !OwnAffected(fd, ar.id)
      ensures ar.inheritedFrom.Some? ==> Spreads(fd, s, ScopeOf(s, root.id), ar.id, ar.inheritedFrom.value.id)
      ensures ar.cls == Affected ==> exists p :: Trail(fd, s, ScopeOf(s, root.id), sorted, p) && p[0] == ar.id
    {
      var i :| 0 <= i < |arts| && arts[i] == ar;
      NamedIffInherited(fd, s, order, paths, owned, affected, blame, history, order[i], ar);
      NamedSpreads(fd, s, root, order, paths, owned, affected, blame, history, ar);
      if ar.cls == Affected {
        TrailFrom(fd, s, root, order, paths, owned, affected, blame, history, arts, ar.id);
        var p :| Trail(fd, s, ScopeOf(s, root.id), arts, p) && p[0] == ar.id;
        SameTrail(fd, s, ScopeOf(s, root.id), arts, sorted, p);
      }
    }
  }

  lemma SameTrail(fd: Findings, s: State, scope: set<DependencyEdge>, arts: seq<ArtifactReview>,
                  arts': seq<ArtifactReview>, p: seq<int>)
    requires Trail(fd, s, scope, arts, p) && forall ar <- arts :: ar in arts'
    ensures Trail(fd, s, scope, arts', p)
  {
    hide TaintPath;
    forall i | 0 <= i < |p| - 1 ensures Inherits(arts', p[i], p[i + 1]) {
      assert Inherits(arts, p[i], p[i + 1]);
    }
  }

  // ---- when the report tells everything ----

  /** The names along a shortest chain of dependency edges, taken in either direction. */
  ghost predicate ShortestChainVia(s: State, root: int, n: int, via: seq<string>) {
    && (exists p :: ChainFromTo(s, p, root, n) && via == NamesOf(s, p))
    && (forall q :: ChainFromTo(s, q, root, n) ==> |via| <= |q|)
  }

  /** The whole component, classified along every edge of the store. */
  ghost predicate TellsAll(fd: Findings, s: State, root: int, arts: seq<ArtifactReview>) {
    && ReportedIds(arts) == Component(s, root) && |arts| == |Component(s, root)|
    && (forall ar <- arts :: EntryFacts(fd, s, AllEdges(s), ar))
  }

  ghost predicate ShowsShortestChains(s: State, root: int, arts: seq<ArtifactReview>) {
    forall ar <- arts :: ShortestChainVia(s, root, ar.id, ar.reachedVia)
  }

  lemma PathInWiderScope(fd: Findings, s: State, scope: set<DependencyEdge>, wider: set<DependencyEdge>, p: seq<int>)
    requires TaintPath(fd, s, scope, p) && scope <= wider
    ensures TaintPath(fd, s, wider, p)
  {
    hide Links, TrustedEdge, OwnAffected;
    forall i | 0 <= i < |p| - 1 ensures Spreads(fd, s, wider, p[i], p[i + 1]) {
      assert Spreads(fd, s, scope, p[i], p[i + 1]);
    }
  }

  lemma ScopeGrows(fd: Findings, s: State, scope: set<DependencyEdge>, wider: set<DependencyEdge>, n: int)
    requires Contaminated(fd, s, scope, n) && scope <= wider
    ensures Contaminated(fd, s, wider, n)
  {
    hide Spreads, OwnAffected;
    var p :| TaintPath(fd, s, scope, p) && p[0] == n;
    PathInWiderScope(fd, s, scope, wider, p);
  }

  /** Where nothing is hidden, a spreading edge from a reached artifact is filed and leads to a reached one. */
  lemma SpreadStaysInside(fd: Findings, s: State, reached: set<int>, n: int, t: int)
    requires NothingHidden(s, reached) && n in reached && Spreads(fd, s, AllEdges(s), n, t)
    ensures Spreads(fd, s, FiledEdges(s, reached), n, t) && t in reached
  {
    hide TrustedEdge, Filable;
    var e :| e in AllEdges(s) && Links(s, e, n, t) && TrustedEdge(fd, e);
    assert e in FiledEdges(s, reached);
  }

  lemma FiledAreEdges(s: State, reached: set<int>)
    ensures FiledEdges(s, reached) <= AllEdges(s)
  {
  }

  /** No resolvable edge leads from a reached artifact to one not reached. */
  ghost predicate NoneLeaves(s: State, reached: set<int>) {
    forall n, t :: n in reached && Pins(s, n, t) ==> t in reached
  }

  lemma {:induction false} ChainStaysInside(s: State, root: int, p: seq<int>)
    requires WellFormed(s) && NoneLeaves(s, Reached(s, root)) && Chain(s, p) && p[0] in Reached(s, root)
    ensures p[|p| - 1] in Reached(s, root)
    decreases |p|
  {
    hide WellFormed, Reached, Pins;
    if |p| > 1 {
      var n, m := p[0], p[1];
      assert Adjacent(s, n, m);
      if !Pins(s, n, m) {
        DependentIsReached(s, root, n, m);
      }
      var q := p[1..];
      assert Chain(s, q) by {
        forall i | 0 <= i < |q| - 1 ensures Adjacent(s, q[i], q[i + 1]) {
          assert Adjacent(s, p[i + 1], p[i + 2]);
        }
      }
      ChainStaysInside(s, root, q);
    }
  }

  lemma DependentIsReached(s: State, root: int, n: int, m: int)
    requires WellFormed(s) && n in Reached(s, root) && Pins(s, m, n)
    ensures m in Reached(s, root)
  {
    hide Walk, UpHop;
    var e :| Links(s, e, m, n);
    assert e in s.deps && HasArtifact(s, e.artifactId);
    assert DownHop(s, n, m);
    var p :| WalkFromTo(s, p, root, n);
    LongerWalk(s, p, root, n, m);
  }

  /** The walk covers the root's component exactly when no edge it drops would have led further. */
  lemma CoversComponentIff(s: State, root: int)
    requires WellFormed(s) && 1 <= root <= |s.artifacts|
    ensures Reached(s, root) <= Component(s, root)
    ensures Reached(s, root) == Component(s, root) <==> NoneLeaves(s, Reached(s, root))
  {
    hide WellFormed, Reaches, Connected, Pins, Chain;
    forall n <- Reached(s, root) ensures n in Component(s, root) {
      ReachesIsConnected(s, root, n);
    }
    if NoneLeaves(s, Reached(s, root)) {
      ReachesItself(s, root);
      forall n <- Component(s, root) ensures n in Reached(s, root) {
        var p := ChainOf(s, root, n);
        ChainStaysInside(s, root, p);
      }
    }
    if Reached(s, root) == Component(s, root) {
      forall n, t | n in Reached(s, root) && Pins(s, n, t) ensures t in Component(s, root) {
        PinInComponent(s, root, n, t);
      }
    }
  }

  lemma ReachesItself(s: State, root: int)
    ensures Reaches(s, root, root)
  {
    assert WalkFromTo(s, [root], root, root);
  }

  lemma ChainOf(s: State, a: int, b: int) returns (p: seq<int>)
    requires Connected(s, a, b)
    ensures Chain(s, p) && p[0] == a && p[|p| - 1] == b
  {
    p :| ChainFromTo(s, p, a, b);
  }

  lemma PinInComponent(s: State, root: int, n: int, t: int)
    requires WellFormed(s) && n in Component(s, root) && Pins(s, n, t)
    ensures t in Component(s, root)
  {
    var e :| Links(s, e, n, t);
    StoredIsNode(s, Resolve(s, e).value);
    hide WellFormed, Links;
    assert Adjacent(s, n, t);
    assert ChainFromTo(s, [n, t], n, t);
    ConnectedTransitive(s, root, n, t);
  }

  lemma HidesNothingLeavesNothing(s: State, reached: set<int>)
    requires NothingHidden(s, reached)
    ensures NoneLeaves(s, reached)
  {
    hide Filable;
  }

  /** No edge left out brings a reached artifact a contamination that the filed edges do not bring it. */
  ghost predicate NoContaminationDropped(fd: Findings, s: State, root: int) {
    forall n, t ::
      n in Reached(s, root) && Spreads(fd, s, AllEdges(s), n, t) && Contaminated(fd, s, ScopeOf(s, root), t) ==>
        Contaminated(fd, s, ScopeOf(s, root), n)
  }

  lemma SpreadPins(fd: Findings, s: State, scope: set<DependencyEdge>, n: int, t: int)
    requires Spreads(fd, s, scope, n, t)
    ensures Pins(s, n, t)
  {
    hide TrustedEdge;
  }

  /** Where no edge leaves and no contamination is dropped, any taint path is matched along the filed edges. */
  lemma {:induction false} PathIsMatched(fd: Findings, s: State, root: int, p: seq<int>)
    requires NoneLeaves(s, Reached(s, root)) && NoContaminationDropped(fd, s, root)
    requires TaintPath(fd, s, AllEdges(s), p) && p[0] in Reached(s, root)
    ensures Contaminated(fd, s, ScopeOf(s, root), p[0])
    decreases |p|
  {
    hide Spreads, OwnAffected, Contaminated, Reached, Pins, AllEdges, ScopeOf;
    if |p| == 1 {
      OwnContaminates(fd, s, ScopeOf(s, root), p[0]);
    } else {
      assert Spreads(fd, s, AllEdges(s), p[0], p[1]);
      SpreadPins(fd, s, AllEdges(s), p[0], p[1]);
      var q := p[1..];
      forall i | 0 <= i < |q| - 1 ensures Spreads(fd, s, AllEdges(s), q[i], q[i + 1]) {
        assert Spreads(fd, s, AllEdges(s), p[i + 1], p[i + 2]);
      }
      PathIsMatched(fd, s, root, q);
    }
  }

  /** The contamination along the filed edges is that along all edges, for everything reached. */
  ghost predicate SameContamination(fd: Findings, s: State, root: int) {
    forall n <- Reached(s, root) :: Contaminated(fd, s, ScopeOf(s, root), n) <==> Contaminated(fd, s, AllEdges(s), n)
  }

  lemma SameContaminationIff(fd: Findings, s: State, root: int)
    requires NoneLeaves(s, Reached(s, root))
    ensures SameContamination(fd, s, root) <==> NoContaminationDropped(fd, s, root)
  {
    FiledAreEdges(s, Reached(s, root));
    hide Spreads, OwnAffected, Reached, Pins, AllEdges, FiledEdges;
    forall n | Contaminated(fd, s, ScopeOf(s, root), n) ensures Contaminated(fd, s, AllEdges(s), n) {
      ScopeGrows(fd, s, ScopeOf(s, root), AllEdges(s), n);
    }
    if NoContaminationDropped(fd, s, root) {
      forall n <- Reached(s, root) | Contaminated(fd, s, AllEdges(s), n)
        ensures Contaminated(fd, s, ScopeOf(s, root), n)
      {
        var p :| TaintPath(fd, s, AllEdges(s), p) && p[0] == n;
        PathIsMatched(fd, s, root, p);
      }
    }
    hide TaintPath;
    if SameContamination(fd, s, root) {
      forall n, t |
        n in Reached(s, root) && Spreads(fd, s, AllEdges(s), n, t) && Contaminated(fd, s, ScopeOf(s, root), t)
        ensures Contaminated(fd, s, ScopeOf(s, root), n)
      {
        SpreadContaminates(fd, s, AllEdges(s), n, t);
      }
    }
  }

  lemma SameFactsIff(fd: Findings, s: State, root: int, ar: ArtifactReview)
    requires EntryFacts(fd, s, ScopeOf(s, root), ar)
    ensures EntryFacts(fd, s, AllEdges(s), ar) <==>
            (Contaminated(fd, s, ScopeOf(s, root), ar.id) <==> Contaminated(fd, s, AllEdges(s), ar.id))
  {
    hide Contaminated, OwnClass, IsReference, ScopeOf, AllEdges;
    ClassFromAffected(fd, s, ScopeOf(s, root), ar.id);
    ClassFromAffected(fd, s, AllEdges(s), ar.id);
  }

  lemma FactsTellContamination(fd: Findings, s: State, root: int, arts: seq<ArtifactReview>)
    requires IsReport(fd, s, root, arts)
    ensures (forall ar <- arts :: EntryFacts(fd, s, AllEdges(s), ar)) <==> SameContamination(fd, s, root)
  {
    hide EntryFacts, Contaminated, ScopeOf, AllEdges, Reached, ShortestVia;
    forall ar <- arts
      ensures ar.id in Reached(s, root)
      ensures EntryFacts(fd, s, AllEdges(s), ar) <==>
              (Contaminated(fd, s, ScopeOf(s, root), ar.id) <==> Contaminated(fd, s, AllEdges(s), ar.id))
    {
      assert EntryOk(fd, s, root, ar) && ar.id in ReportedIds(arts);
      SameFactsIff(fd, s, root, ar);
    }
    forall n <- Reached(s, root) ensures exists ar <- arts :: ar.id == n {
      assert n in ReportedIds(arts);
    }
  }

  /** A report is the whole component with the classes of the whole store exactly when no edge leaves what was
      reached and no edge left out brings a contamination the filed ones do not. */
  lemma TellsAllIff(fd: Findings, s: State, root: int, arts: seq<ArtifactReview>)
    requires WellFormed(s) && 1 <= root <= |s.artifacts| && IsReport(fd, s, root, arts)
    ensures TellsAll(fd, s, root, arts) <==> NoneLeaves(s, Reached(s, root)) && NoContaminationDropped(fd, s, root)
  {
    hide WellFormed, NoneLeaves, NoContaminationDropped, EntryFacts, SameContamination, Reached, Component;
    CoversComponentIff(s, root);
    FactsTellContamination(fd, s, root, arts);
    if NoneLeaves(s, Reached(s, root)) {
      SameContaminationIff(fd, s, root);
    }
  }

  lemma HidesNothingDropsNothing(fd: Findings, s: State, root: int)
    requires NothingHidden(s, Reached(s, root))
    ensures NoContaminationDropped(fd, s, root)
  {
    hide Spreads, Contaminated, NothingHidden, Reached, FiledEdges, AllEdges;
    forall n, t |
      n in Reached(s, root) && Spreads(fd, s, AllEdges(s), n, t) && Contaminated(fd, s, ScopeOf(s, root), t)
      ensures Contaminated(fd, s, ScopeOf(s, root), n)
    {
      SpreadStaysInside(fd, s, Reached(s, root), n, t);
      SpreadContaminates(fd, s, ScopeOf(s, root), n, t);
    }
  }

  /** Where nothing is hidden, the classes are those of the whole store. */
  lemma ScopeSuffices(fd: Findings, s: State, root: int, n: int)
    requires NothingHidden(s, Reached(s, root)) && n in Reached(s, root)
    ensures ReviewClass(fd, s, ScopeOf(s, root), n) == ReviewClass(fd, s, AllEdges(s), n)
  {
    hide Contaminated, OwnClass, NothingHidden, NoneLeaves, NoContaminationDropped, Reached, FiledEdges, AllEdges;
    HidesNothingLeavesNothing(s, Reached(s, root));
    HidesNothingDropsNothing(fd, s, root);
    SameContaminationIff(fd, s, root);
  }

  /** In particular where the two dedups drop nothing. */
  lemma ReportTellsAll(fd: Findings, s: State, root: int, arts: seq<ArtifactReview>)
    requires WellFormed(s) && 1 <= root <= |s.artifacts|
    requires IsReport(fd, s, root, arts) && NothingHidden(s, Reached(s, root))
    ensures TellsAll(fd, s, root, arts)
  {
    hide WellFormed, NothingHidden, NoneLeaves, NoContaminationDropped, TellsAll, IsReport, Reached;
    HidesNothingLeavesNothing(s, Reached(s, root));
    HidesNothingDropsNothing(fd, s, root);
    TellsAllIff(fd, s, root, arts);
  }

  lemma AllKeptHidesNothing(s: State, root: int)
    requires WellFormed(s) && AllKept(s)
    ensures NothingHidden(s, Reached(s, root))
  {
    hide WellFormed, Kept, LowestPin, Walk, DownHop;
    forall e <- s.deps | e.artifactId in Reached(s, root) && Resolve(s, e).Some?
      ensures Filable(s, e) && Resolve(s, e).value.id in Reached(s, root)
    {
      var n, t := e.artifactId, Resolve(s, e).value;
      StoredIsNode(s, t);
      assert Kept(s, e) && Links(s, e, n, t.id);
      assert UpHop(s, n, t.id);
      var p :| WalkFromTo(s, p, root, n);
      LongerWalk(s, p, root, n, t.id);
    }
  }

  lemma WalksAreChains(s: State, root: int, n: int, via: seq<string>)
    requires AllKept(s) && ShortestVia(s, root, n, via)
    ensures ShortestChainVia(s, root, n, via)
  {
    hide AllKept, Hop, Adjacent;
    var p :| WalkFromTo(s, p, root, n) && via == NamesOf(s, p);
    WalkIsChain(s, p);
    assert ChainFromTo(s, p, root, n);
    forall q | ChainFromTo(s, q, root, n) ensures |via| <= |q| {
      WalkIsChain(s, q);
      assert WalkFromTo(s, q, root, n);
    }
  }

  /** When every resolvable edge survives the upstream dedup, in particular without '@' in the digests,
      the report tells all, and by shortest chains. */
  lemma KeptReportTellsAll(fd: Findings, s: State, root: int, arts: seq<ArtifactReview>)
    requires WellFormed(s) && 1 <= root <= |s.artifacts| && AllKept(s) && IsReport(fd, s, root, arts)
    ensures TellsAll(fd, s, root, arts) && ShowsShortestChains(s, root, arts)
  {
    hide WellFormed, AllKept, NothingHidden, ReviewClass, IsReference, ShortestVia, ShortestChainVia, TellsAll;
    hide FiledEdges, AllEdges, Reached;
    AllKeptHidesNothing(s, root);
    ReportTellsAll(fd, s, root, arts);
    forall ar <- arts ensures ShortestChainVia(s, root, ar.id, ar.reachedVia) {
      assert EntryOk(fd, s, root, ar);
      WalksAreChains(s, root, ar.id, ar.reachedVia);
    }
  }

  // ---- when the paths shown are shortest chains ----

  /** Across every dependency edge between reported artifacts the paths shown grow by at most one step. */
  ghost predicate PathsGrowByOne(s: State, arts: seq<ArtifactReview>) {
    forall a <- arts, b <- arts :: Adjacent(s, a.id, b.id) ==> |b.reachedVia| <= |a.reachedVia| + 1
  }

  /** A chain from the root ends at a reported artifact, and is no shorter than the path shown for it. */
  lemma {:induction false} ChainIsNoShorter(fd: Findings, s: State, root: int, arts: seq<ArtifactReview>, p: seq<int>)
    requires WellFormed(s) && IsReport(fd, s, root, arts) && NoneLeaves(s, Reached(s, root)) && PathsGrowByOne(s, arts)
    requires 1 <= root <= |s.artifacts| && Chain(s, p) && p[0] == root
    ensures exists b <- arts :: b.id == p[|p| - 1] && |b.reachedVia| <= |p|
    decreases |p|
  {
    hide WellFormed, Reached, Adjacent, EntryFacts, NoneLeaves, Walk;
    if |p| == 1 {
      RootIsReported(fd, s, root, arts);
    } else {
      var q := p[..|p| - 1];
      forall i | 0 <= i < |q| - 1 ensures Adjacent(s, q[i], q[i + 1]) {
        assert Adjacent(s, p[i], p[i + 1]);
      }
      ChainIsNoShorter(fd, s, root, arts, q);
      ReachesItself(s, root);
      assert root in Reached(s, root) by {
        RootIsReported(fd, s, root, arts);
      }
      ChainStaysInside(s, root, p);
      assert p[|p| - 1] in ReportedIds(arts);
      assert Adjacent(s, p[|p| - 2], p[|p| - 1]);
    }
  }

  lemma RootIsReported(fd: Findings, s: State, root: int, arts: seq<ArtifactReview>)
    requires IsReport(fd, s, root, arts) && 1 <= root <= |s.artifacts|
    ensures root in Reached(s, root) && exists b <- arts :: b.id == root && |b.reachedVia| <= 1
  {
    hide EntryFacts;
    ReachesItself(s, root);
    assert root in ReportedIds(arts);
    var b :| b in arts && b.id == root;
    assert EntryOk(fd, s, root, b) && WalkFromTo(s, [root], root, root);
  }

  lemma OneMoreLink(s: State, p: seq<int>, a: int, b: int, c: int)
    requires ChainFromTo(s, p, a, b) && Adjacent(s, b, c)
    ensures ChainFromTo(s, p + [c], a, c)
  {
    hide Adjacent;
    var q := p + [c];
    forall i | 0 <= i < |q| - 1 ensures Adjacent(s, q[i], q[i + 1]) {
      if i < |p| - 1 {
        assert Adjacent(s, p[i], p[i + 1]);
      }
    }
  }

  /** Where no edge leaves what was reached, the paths shown are shortest chains exactly when they grow by at most one
      step across every edge, dropped ones included. */
  lemma ShortestChainsIff(fd: Findings, s: State, root: int, arts: seq<ArtifactReview>)
    requires WellFormed(s) && 1 <= root <= |s.artifacts|
    requires IsReport(fd, s, root, arts) && NoneLeaves(s, Reached(s, root))
    ensures ShowsShortestChains(s, root, arts) <==> PathsGrowByOne(s, arts)
  {
    hide WellFormed, NoneLeaves, Reached, Adjacent, EntryFacts, ReportLess;
    if ShowsShortestChains(s, root, arts) {
      forall a <- arts, b <- arts | Adjacent(s, a.id, b.id) ensures |b.reachedVia| <= |a.reachedVia| + 1 {
        var p :| ChainFromTo(s, p, root, a.id) && a.reachedVia == NamesOf(s, p);
        OneMoreLink(s, p, root, a.id, b.id);
      }
    }
    if PathsGrowByOne(s, arts) {
      forall ar <- arts ensures ShortestChainVia(s, root, ar.id, ar.reachedVia) {
        assert EntryOk(fd, s, root, ar);
        ShownIsShortest(fd, s, root, arts, ar);
      }
    }
  }

  lemma ShownIsShortest(fd: Findings, s: State, root: int, arts: seq<ArtifactReview>, ar: ArtifactReview)
    requires WellFormed(s) && 1 <= root <= |s.artifacts| && NoneLeaves(s, Reached(s, root)) && PathsGrowByOne(s, arts)
    requires IsReport(fd, s, root, arts) && ar in arts
    ensures ShortestChainVia(s, root, ar.id, ar.reachedVia)
  {
    assert EntryOk(fd, s, root, ar);
    hide WellFormed, NoneLeaves, Reached, Hop, Adjacent, EntryFacts, PathsGrowByOne;
    var p :| WalkFromTo(s, p, root, ar.id) && ar.reachedVia == NamesOf(s, p);
    WalkIsChain(s, p);
    assert ChainFromTo(s, p, root, ar.id);
    forall q | ChainFromTo(s, q, root, ar.id) ensures |ar.reachedVia| <= |q| {
      ChainIsNoShorter(fd, s, root, arts, q);
      var b :| b in arts && b.id == ar.id && |b.reachedVia| <= |q|;
      SameDistance(fd, s, root, ar, b);
    }
  }

  lemma SameDistance(fd: Findings, s: State, root: int, a: ArtifactReview, b: ArtifactReview)
    requires EntryOk(fd, s, root, a) && EntryOk(fd, s, root, b) && a.id == b.id
    ensures |a.reachedVia| == |b.reachedVia|
  {
    hide EntryFacts, Hop;
  }
}
