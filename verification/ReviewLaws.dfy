/** What a historical review means across roots and over repeated runs, and when it tells all. */
module ReviewLaws {
  import opened Model
  import opened Lists
  import opened Tables
  import opened Graph
  import opened Closure
  import opened Reclassify
  import opened Propagation
  import opened Review

  // ---- nothing a review writes is read by a review ----

  ghost predicate SameEvidence(s: State, s': State) {
    SameGraph(s, s') && s.attestations == s'.attestations && s.evidence == s'.evidence
  }

  ghost predicate SameGraph(s: State, s': State) {
    s.artifacts == s'.artifacts && s.deps == s'.deps
  }

  ghost predicate SameFound(fd: Findings, fd': Findings) {
    forall n :: fd(n) == fd'(n)
  }

  /** Over the same evidence everything concluded about attestations is the same. */
  lemma SameReviews(cfg: Config, s: State, s': State)
    requires SameEvidence(s, s')
    ensures SameFound(FindingsOf(cfg, s), FindingsOf(cfg, s'))
  {
    forall rec ensures ReviewAttestation(cfg, s, rec) == ReviewAttestation(cfg, s', rec) {
      assert forall sha :: TrustedTimes(cfg, s, sha) == TrustedTimes(cfg, s', sha);
    }
    hide ReviewAttestation;
    forall n ensures ReviewsOf(cfg, s, n) == ReviewsOf(cfg, s', n) {
    }
  }

  lemma SameAdjacent(s: State, s': State, n: int, m: int)
    requires SameGraph(s, s') && Adjacent(s, n, m)
    ensures Adjacent(s', n, m)
  {
    if Pins(s, n, m) {
      var e :| Links(s, e, n, m);
      assert Links(s', e, n, m);
    } else {
      var e :| Links(s, e, m, n);
      assert Links(s', e, m, n);
    }
  }

  lemma SameConnected(s: State, s': State, a: int, b: int)
    requires SameGraph(s, s') && Connected(s, a, b)
    ensures Connected(s', a, b)
  {
    hide Adjacent;
    var p :| ChainFromTo(s, p, a, b);
    forall i | 0 <= i < |p| - 1 ensures Adjacent(s', p[i], p[i + 1]) {
      SameAdjacent(s, s', p[i], p[i + 1]);
    }
    assert ChainFromTo(s', p, a, b);
  }

  lemma SameComponent(s: State, s': State, a: int)
    requires SameGraph(s, s')
    ensures Component(s, a) == Component(s', a)
  {
    hide Connected;
    forall n ensures Connected(s, a, n) <==> Connected(s', a, n) {
      if Connected(s, a, n) {
        SameConnected(s, s', a, n);
      }
      if Connected(s', a, n) {
        SameConnected(s', s, a, n);
      }
    }
  }

  lemma SameSpreads(fd: Findings, fd': Findings, s: State, s': State, scope: set<DependencyEdge>, n: int, t: int)
    requires SameGraph(s, s') && SameFound(fd, fd') && Spreads(fd, s, scope, n, t)
    ensures Spreads(fd', s', scope, n, t)
  {
    var e :| e in scope && Links(s, e, n, t) && TrustedEdge(fd, e);
    assert fd(e.artifactId) == fd'(e.artifactId);
    assert Links(s', e, n, t) && TrustedEdge(fd', e);
  }

  lemma SameContaminated(fd: Findings, fd': Findings, s: State, s': State, scope: set<DependencyEdge>, n: int)
    requires SameGraph(s, s') && SameFound(fd, fd') && Contaminated(fd, s, scope, n)
    ensures Contaminated(fd', s', scope, n)
  {
    hide Spreads, Own;
    var p :| TaintPath(fd, s, scope, p) && p[0] == n;
    forall i | 0 <= i < |p| - 1 ensures Spreads(fd', s', scope, p[i], p[i + 1]) {
      SameSpreads(fd, fd', s, s', scope, p[i], p[i + 1]);
    }
    assert fd(p[|p| - 1]) == fd'(p[|p| - 1]);
    assert TaintPath(fd', s', scope, p);
  }

  lemma SameClass(fd: Findings, fd': Findings, s: State, s': State, scope: set<DependencyEdge>, n: int)
    requires SameGraph(s, s') && SameFound(fd, fd')
    ensures ReviewClass(fd, s, scope, n) == ReviewClass(fd', s', scope, n)
  {
    hide Contaminated, Own;
    assert fd(n) == fd'(n);
    if Contaminated(fd, s, scope, n) {
      SameContaminated(fd, fd', s, s', scope, n);
    }
    if Contaminated(fd', s', scope, n) {
      SameContaminated(fd', fd, s', s, scope, n);
    }
  }

  lemma SameHop(s: State, s': State, n: int, m: int)
    requires SameGraph(s, s') && Hop(s, n, m)
    ensures Hop(s', n, m)
  {
    if UpHop(s, n, m) {
      var e :| Kept(s, e) && Links(s, e, n, m);
      assert Kept(s', e) && Links(s', e, n, m);
    } else {
      var e :| Links(s, e, m, n);
      assert Links(s', e, m, n);
    }
  }

  lemma SameWalk(s: State, s': State, p: seq<int>, a: int, b: int)
    requires SameGraph(s, s') && WalkFromTo(s, p, a, b)
    ensures WalkFromTo(s', p, a, b)
  {
    hide Hop;
    forall i | 0 <= i < |p| - 1 ensures Hop(s', p[i], p[i + 1]) {
      SameHop(s, s', p[i], p[i + 1]);
    }
  }

  lemma SameReach(s: State, s': State, a: int)
    requires SameGraph(s, s')
    ensures Reached(s, a) == Reached(s', a)
  {
    hide Walk;
    forall n ensures Reaches(s, a, n) <==> Reaches(s', a, n) {
      if p :| WalkFromTo(s, p, a, n) {
        SameWalk(s, s', p, a, n);
      }
      if p :| WalkFromTo(s', p, a, n) {
        SameWalk(s', s, p, a, n);
      }
    }
  }

  lemma SameScope(s: State, s': State, root: int)
    requires SameGraph(s, s')
    ensures ScopeOf(s, root) == ScopeOf(s', root)
  {
    hide Reached;
    SameReach(s, s', root);
    assert forall e :: Kept(s, e) == Kept(s', e) && LowestPin(s, e) == LowestPin(s', e);
  }

  // ---- root independence and repeatability ----

  /** The two reports cover the same artifacts and agree on each of them. */
  ghost predicate SameFindings(arts: seq<ArtifactReview>, arts': seq<ArtifactReview>) {
    && ReportedIds(arts) == ReportedIds(arts') && |arts| == |arts'|
    && (forall a <- arts, b <- arts' :: a.id == b.id ==> SameFinding(a, b))
  }

  ghost predicate SameFinding(a: ArtifactReview, b: ArtifactReview) {
    a.cls == b.cls && a.attestations == b.attestations && a.name == b.name && a.sha256 == b.sha256
  }

  lemma FactsAgree(fd: Findings, fd': Findings, s: State, s': State, scope: set<DependencyEdge>, a: ArtifactReview,
                   b: ArtifactReview)
    requires SameGraph(s, s') && SameFound(fd, fd')
    requires a.id == b.id && EntryFacts(fd, s, scope, a) && EntryFacts(fd', s', scope, b)
    ensures SameFinding(a, b)
  {
    hide ReviewClass, IsReference;
    SameClass(fd, fd', s, s', scope, a.id);
    assert fd(a.id) == fd'(a.id);
  }

  /** Reviews that tell all find the same from any artifact of a component, now or after further reviews. */
  lemma RootIndependence(fd: Findings, fd': Findings, s: State, s': State, root: int, root': int,
                         arts: seq<ArtifactReview>, arts': seq<ArtifactReview>)
    requires TellsAll(fd, s, root, arts) && TellsAll(fd', s', root', arts')
    requires SameGraph(s, s') && SameFound(fd, fd') && Connected(s, root, root')
    ensures SameFindings(arts, arts')
  {
    hide Connected, Component, EntryFacts, SameFinding;
    OneComponent(s, root, root');
    SameComponent(s, s', root');
    forall a <- arts, b <- arts' | a.id == b.id ensures SameFinding(a, b) {
      FactsAgree(fd, fd', s, s', AllEdges(s), a, b);
    }
  }

  /** When every resolvable edge is kept, in particular without '@' in the digests, reviewing from any artifact of a
      component finds the same. */
  lemma KeptRootIndependence(fd: Findings, fd': Findings, s: State, s': State, root: int, root': int,
                             arts: seq<ArtifactReview>, arts': seq<ArtifactReview>)
    requires WellFormed(s) && WellFormed(s') && AllKept(s) && SameGraph(s, s') && SameFound(fd, fd')
    requires 1 <= root <= |s.artifacts| && 1 <= root' <= |s.artifacts| && Connected(s, root, root')
    requires IsReport(fd, s, root, arts) && IsReport(fd', s', root', arts')
    ensures SameFindings(arts, arts')
  {
    assert AllKept(s') by {
      assert forall e :: Kept(s, e) == Kept(s', e);
    }
    hide *;
    KeptReportTellsAll(fd, s, root, arts);
    assert |s.artifacts| == |s'.artifacts| by {
      SameArtifacts(s, s');
    }
    KeptReportTellsAll(fd', s', root', arts');
    RootIndependence(fd, fd', s, s', root, root', arts, arts');
  }

  lemma SameArtifacts(s: State, s': State)
    requires SameGraph(s, s')
    ensures s.artifacts == s'.artifacts
  {
  }

  lemma SameReachIff(s: State, a: int, b: int)
    requires 1 <= a <= |s.artifacts| && 1 <= b <= |s.artifacts|
    ensures Reached(s, a) == Reached(s, b) <==> b in Reached(s, a) && a in Reached(s, b)
  {
    ReachesItself(s, a);
    ReachesItself(s, b);
    hide Reaches;
    if Reaches(s, a, b) && Reaches(s, b, a) {
      forall n ensures Reaches(s, a, n) <==> Reaches(s, b, n) {
        if Reaches(s, a, n) {
          ReachesTransitive(s, b, a, n);
        }
        if Reaches(s, b, n) {
          ReachesTransitive(s, a, b, n);
        }
      }
    }
  }

  /** Whatever the dedups drop, two reviews over one store find the same exactly when each reports the other's root. */
  lemma RootsAgreeIff(fd: Findings, s: State, root: int, root': int, arts: seq<ArtifactReview>,
                      arts': seq<ArtifactReview>)
    requires 1 <= root <= |s.artifacts| && 1 <= root' <= |s.artifacts|
    requires IsReport(fd, s, root, arts) && IsReport(fd, s, root', arts')
    ensures SameFindings(arts, arts') <==> root' in ReportedIds(arts) && root in ReportedIds(arts')
  {
    hide Reached, EntryFacts, SameFinding, FiledEdges, ShortestVia;
    SameReachIff(s, root, root');
    if Reached(s, root) == Reached(s, root') {
      forall a <- arts, b <- arts' | a.id == b.id ensures SameFinding(a, b) {
        assert EntryOk(fd, s, root, a) && EntryOk(fd, s, root', b);
        FactsAgree(fd, fd, s, s, ScopeOf(s, root), a, b);
      }
    }
  }

  /** The store a review leaves gives every later review the same findings. */
  lemma ReviewChangesNoFinding(cfg: Config, s: State, s': State, arts: seq<ArtifactReview>, now: Time)
    requires OneRecordEach(s, s', arts, now)
    ensures SameGraph(s, s') && SameFound(FindingsOf(cfg, s), FindingsOf(cfg, s'))
  {
    hide FindingsOf, Extends, RecordMatches;
    SameReviews(cfg, s, s');
  }

  /** Two reports of one root over the same graph and findings agree, whatever the dedups drop. */
  lemma ReviewIsRepeatable(fd: Findings, fd': Findings, s: State, s': State, root: int, arts: seq<ArtifactReview>,
                           arts': seq<ArtifactReview>)
    requires IsReport(fd, s, root, arts) && IsReport(fd', s', root, arts')
    requires SameGraph(s, s') && SameFound(fd, fd')
    ensures SameFindings(arts, arts')
  {
    hide Reached, EntryFacts, SameFinding, ScopeOf, ShortestVia;
    SameReach(s, s', root);
    SameScope(s, s', root);
    forall a <- arts, b <- arts' | a.id == b.id ensures SameFinding(a, b) {
      assert EntryOk(fd, s, root, a) && EntryOk(fd', s', root, b);
      FactsAgree(fd, fd', s, s', ScopeOf(s, root), a, b);
    }
  }

  /** So reviewing twice in a row finds the same twice. */
  lemma SecondReviewAgrees(cfg: Config, s: State, s': State, root: int, arts: seq<ArtifactReview>,
                           arts': seq<ArtifactReview>, now: Time)
    requires IsReport(FindingsOf(cfg, s), s, root, arts) && OneRecordEach(s, s', arts, now)
    requires IsReport(FindingsOf(cfg, s'), s', root, arts')
    ensures SameFindings(arts, arts')
  {
    hide *;
    ReviewChangesNoFinding(cfg, s, s', arts, now);
    ReviewIsRepeatable(FindingsOf(cfg, s), FindingsOf(cfg, s'), s, s', root, arts, arts');
  }

  /** Reported classes are the least fixpoint of spreading along the edges in scope. */
  lemma ClassIsLeastFixpoint(fd: Findings, s: State, scope: set<DependencyEdge>, ar: ArtifactReview, x: iset<int>)
    requires EntryFacts(fd, s, scope, ar) && ClosedUnderSpread(fd, s, scope, x)
    ensures ar.cls == Affected ==> ar.id in x
    ensures ar.cls == Affected <==> Contaminated(fd, s, scope, ar.id)
    ensures ar.cls != Affected ==> ar.cls == OwnClass(fd, ar.id)
  {
    hide OwnClass, Contaminated, ClosedUnderSpread, IsReference;
    ClassFromAffected(fd, s, scope, ar.id);
    ContaminatedIsLeast(fd, s, scope, x);
  }

  /** Whatever the dedups drop, nothing outside the component is reported and nothing is called affected wrongly. */
  lemma ReportIsSound(fd: Findings, s: State, root: int, arts: seq<ArtifactReview>, ar: ArtifactReview)
    requires WellFormed(s) && 1 <= root <= |s.artifacts| && IsReport(fd, s, root, arts) && ar in arts
    ensures ar.id in Component(s, root)
    ensures ar.cls == Affected ==> Contaminated(fd, s, AllEdges(s), ar.id)
    ensures ar.cls != Affected ==> ar.cls == OwnClass(fd, ar.id)
  {
    hide WellFormed, OwnClass, Contaminated, IsReference, ShortestVia, Component, Reached, FiledEdges, AllEdges;
    CoversComponentIff(s, root);
    assert EntryOk(fd, s, root, ar) && ar.id in ReportedIds(arts);
    FiledAreEdges(s, Reached(s, root));
    if ar.cls == Affected && Contaminated(fd, s, ScopeOf(s, root), ar.id) {
      ScopeGrows(fd, s, ScopeOf(s, root), AllEdges(s), ar.id);
    }
    ClassFromAffected(fd, s, ScopeOf(s, root), ar.id);
  }

  // ---- the final sort ----

  function ViaLength(): ArtifactReview -> int {
    (ar: ArtifactReview) => |ar.reachedVia|
  }

  /** Entries built layer by layer are rearranged by the final sort only inside their layer. */
  lemma SortStaysInLayers(arts: seq<ArtifactReview>, i: nat)
    requires forall j, k :: 0 <= j < k < |arts| ==> |arts[j].reachedVia| <= |arts[k].reachedVia|
    requires i < |arts|
    ensures |StableSort(ReportLess, arts)[i].reachedVia| == |arts[i].reachedVia|
  {
    var sorted := StableSort(ReportLess, arts);
    ReportOrdering();
    StableSortSorted(ReportLess, arts);
    StableSortContents(ReportLess, arts);
    MapPermutation(ViaLength(), sorted, arts);
    forall j, k | 0 <= j < k < |sorted| ensures !IntLess(|sorted[k].reachedVia|, |sorted[j].reachedVia|) {
      assert !ReportLess(sorted[k], sorted[j]);
    }
    SortedIntsUnique(Map(ViaLength(), sorted), Map(ViaLength(), arts));
    assert Map(ViaLength(), sorted)[i] == Map(ViaLength(), arts)[i];
  }

  /** The entries are built in order of distance, so the final sort moves them only inside a layer. */
  lemma BuiltInLayers(fd: Findings, s: State, root: Artifact, order: seq<Artifact>, paths: map<int, seq<int>>,
                      owned: Ownership, affected: set<int>, arts: seq<ArtifactReview>, i: nat)
    requires IsClosure(s, root, order, paths, owned) && AllSummarized(fd, s, order, paths, affected, arts)
    requires i < |arts|
    ensures |StableSort(ReportLess, arts)[i].reachedVia| == |arts[i].reachedVia|
  {
    forall j, k | 0 <= j < k < |arts| ensures |arts[j].reachedVia| <= |arts[k].reachedVia| {
      assert Summarized(fd, s, order[j], paths, affected, arts[j]);
      assert Summarized(fd, s, order[k], paths, affected, arts[k]);
    }
    hide IsClosure, AllSummarized;
    SortStaysInLayers(arts, i);
  }
}
