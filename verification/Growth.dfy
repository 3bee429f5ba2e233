/** As the tables grow while the evidence stands still, what a review reached and concluded is reached and concluded
    again. */
module Growth {
  import opened Model
  import opened Tables
  import opened Graph
  import opened Reclassify
  import opened Propagation
  import opened Review

  // ---- findings ----

  lemma ReviewsPersist(cfg: Config, s: State, s': State, n: int, a: AttReview)
    requires Extends(s, s') && s.evidence == s'.evidence && a in ReviewsOf(cfg, s, n)
    ensures a in ReviewsOf(cfg, s', n)
  {
    var recs, recs' := AttestationsOf(s, n), AttestationsOf(s', n);
    var i :| 0 <= i < |recs| && a == ReviewAttestation(cfg, s, recs[i]);
    assert recs[i] in recs && recs[i] in s.attestations && recs[i] in s'.attestations && recs[i] in recs';
    var j :| 0 <= j < |recs'| && recs'[j] == recs[i];
    assert ReviewsOf(cfg, s', n)[j] == a;
  }

  /** What was concluded about an attestation is concluded again. */
  ghost predicate FindingsGrow(fd: Findings, fd': Findings) {
    forall n, a :: a in fd(n) ==> a in fd'(n)
  }

  lemma GrowthKeepsFindings(cfg: Config, s: State, s': State)
    requires Extends(s, s') && s.evidence == s'.evidence
    ensures FindingsGrow(FindingsOf(cfg, s), FindingsOf(cfg, s'))
  {
    hide ReviewsOf, Extends;
    forall n, a | a in FindingsOf(cfg, s)(n) ensures a in FindingsOf(cfg, s')(n) {
      ReviewsPersist(cfg, s, s', n, a);
    }
  }

  // ---- the walk ----

  /** The tables only grew, and an attestation with an edge on file got no further edge. */
  ghost predicate Grown(s: State, s': State) {
    && WellFormed(s') && Extends(s, s')
    && forall e <- s.deps, x <- s'.deps :: x.attestationId == e.attestationId ==> x in s.deps
  }

  lemma LinkPersists(s: State, s': State, e: DependencyEdge, n: int, t: int)
    requires WellFormed(s') && Extends(s, s') && Links(s, e, n, t)
    ensures Links(s', e, n, t) && Resolve(s', e) == Resolve(s, e)
  {
    var a := Resolve(s, e).value;
    assert a in s'.artifacts;
    FindExact(s', a);
  }

  /** Only an edge of the same attestation can displace one in the dedup, and there is no new one. */
  lemma KeptPersists(s: State, s': State, e: DependencyEdge)
    requires Grown(s, s') && Kept(s, e)
    ensures Kept(s', e)
  {
    hide WellFormed, DedupKey, EdgeLess;
    forall x <- s'.deps | x.artifactId == e.artifactId && DedupKey(x) == DedupKey(e) ensures !EdgeLess(x, e) {
      KeySplits(x, e);
    }
  }

  /** New edges have higher numbers. */
  lemma LowestPersists(s: State, s': State, e: DependencyEdge)
    requires Grown(s, s') && LowestPin(s, e)
    ensures LowestPin(s', e)
  {
    var i :| 0 <= i < |s.deps| && s.deps[i] == e;
    assert s'.deps[i] == e && e.id == i + 1;
    forall x <- s'.deps | x.artifactId == e.artifactId && x.depName == e.depName && x.depSha == e.depSha
      ensures e.id <= x.id
    {
      var j :| 0 <= j < |s'.deps| && s'.deps[j] == x;
      if j < |s.deps| {
        assert s.deps[j] == x;
      }
    }
  }

  lemma HopPersists(s: State, s': State, n: int, m: int)
    requires Grown(s, s') && Hop(s, n, m)
    ensures Hop(s', n, m)
  {
    hide WellFormed, Extends, Kept, Links;
    if UpHop(s, n, m) {
      var e :| Kept(s, e) && Links(s, e, n, m);
      KeptPersists(s, s', e);
      LinkPersists(s, s', e, n, m);
    } else {
      var e :| Links(s, e, m, n);
      LinkPersists(s, s', e, m, n);
    }
  }

  lemma WalkPersists(s: State, s': State, p: seq<int>)
    requires Grown(s, s') && Walk(s, p)
    ensures Walk(s', p)
  {
    hide Grown, Hop;
    forall i | 0 <= i < |p| - 1 ensures Hop(s', p[i], p[i + 1]) {
      HopPersists(s, s', p[i], p[i + 1]);
    }
  }

  lemma ReachedPersists(s: State, s': State, root: int)
    requires Grown(s, s')
    ensures Reached(s, root) <= Reached(s', root)
  {
    hide WellFormed, Walk;
    forall n <- Reached(s, root) ensures n in Reached(s', root) {
      var p :| WalkFromTo(s, p, root, n);
      WalkPersists(s, s', p);
      assert WalkFromTo(s', p, root, n);
    }
  }

  /** Every edge a review took into account is taken into account again. */
  lemma ScopePersists(s: State, s': State, root: int)
    requires Grown(s, s')
    ensures ScopeOf(s, root) <= ScopeOf(s', root)
  {
    ReachedPersists(s, s', root);
    hide Kept, LowestPin, Reached;
    forall e <- ScopeOf(s, root) ensures e in ScopeOf(s', root) {
      assert Links(s, e, e.artifactId, Resolve(s, e).value.id);
      LinkPersists(s, s', e, e.artifactId, Resolve(s, e).value.id);
      if Kept(s, e) {
        KeptPersists(s, s', e);
      } else {
        LowestPersists(s, s', e);
      }
    }
  }

  // ---- contamination ----

  lemma SpreadPersists(fd: Findings, fd': Findings, s: State, s': State, scope: set<DependencyEdge>,
                       scope': set<DependencyEdge>, n: int, t: int)
    requires WellFormed(s') && Extends(s, s') && FindingsGrow(fd, fd') && scope <= scope'
    requires Spreads(fd, s, scope, n, t)
    ensures Spreads(fd', s', scope', n, t)
  {
    hide Links, WellFormed, Extends;
    var e :| e in scope && Links(s, e, n, t) && TrustedEdge(fd, e);
    LinkPersists(s, s', e, n, t);
    var a :| a in fd(e.artifactId) && a.storedId == e.attestationId && a.signatureValid && a.rootAnchored;
    assert a in fd'(e.artifactId);
    assert TrustedEdge(fd', e);
  }

  lemma OwnPersists(fd: Findings, fd': Findings, n: int)
    requires FindingsGrow(fd, fd') && OwnAffected(fd, n)
    ensures OwnAffected(fd', n)
  {
    var a :| a in fd(n) && a.signatureValid && a.cls == Affected;
    assert a in fd'(n);
  }

  /** Growth of the tables and of the edges in scope that repeats every finding never lifts a contamination. */
  lemma ContaminationPersists(fd: Findings, fd': Findings, s: State, s': State, scope: set<DependencyEdge>,
                              scope': set<DependencyEdge>, n: int)
    requires WellFormed(s') && Extends(s, s') && FindingsGrow(fd, fd') && scope <= scope'
    requires Contaminated(fd, s, scope, n)
    ensures Contaminated(fd', s', scope', n)
  {
    hide Spreads, OwnAffected, WellFormed, Extends, FindingsGrow;
    var p :| TaintPath(fd, s, scope, p) && p[0] == n;
    forall i | 0 <= i < |p| - 1 ensures Spreads(fd', s', scope', p[i], p[i + 1]) {
      SpreadPersists(fd, fd', s, s', scope, scope', p[i], p[i + 1]);
    }
    OwnPersists(fd, fd', p[|p| - 1]);
    assert TaintPath(fd', s', scope', p);
  }

  /** What one report calls affected, every later report of the same root calls affected. */
  lemma ReportPersists(fd: Findings, fd': Findings, s: State, s': State, root: int, arts: seq<ArtifactReview>,
                       arts': seq<ArtifactReview>, a: ArtifactReview)
    requires Grown(s, s') && FindingsGrow(fd, fd')
    requires IsReport(fd, s, root, arts) && IsReport(fd', s', root, arts') && a in arts
    ensures exists b <- arts' :: b.id == a.id && (a.cls == Affected ==> b.cls == Affected)
  {
    ReachedPersists(s, s', root);
    ScopePersists(s, s', root);
    hide Contaminated, FindingsGrow, WellFormed, Extends, OwnClass, IsReference, ScopeOf, Reached, ShortestVia;
    assert EntryOk(fd, s, root, a) && a.id in ReportedIds(arts) && a.id in ReportedIds(arts');
    var b :| b in arts' && b.id == a.id;
    assert EntryOk(fd', s', root, b);
    if a.cls == Affected {
      ClassFromAffected(fd, s, ScopeOf(s, root), a.id);
      ContaminationPersists(fd, fd', s, s', ScopeOf(s, root), ScopeOf(s', root), a.id);
    }
  }
}
