/** What reviews find stays found over whole runs: affected artifacts, cleared attestations, the gate's approvals. */
module Persistence {
  import opened Model
  import opened Tables
  import opened Check
  import opened Decision
  import opened Steps
  import opened Runs
  import opened Graph
  import opened Revoke
  import opened Reclassify
  import opened Propagation
  import opened Review
  import opened Growth

  // ---- the gate and the review agree ----

  /** Evidence the gate let through is found valid and unaffected by a review with the same revocation list, whatever
      time evidence is on file; what fully passed is anchored too. */
  lemma LetThroughIsUnaffected(cfg: Config, inputs: seq<Input>, name: string, actual: string, now: Time, x: Input,
                               s: State, rec: AttestationRecord)
    requires FeedNamesKeys(cfg) && x in inputs && rec.envelopeJson == x.envelopeJson
    ensures var ar := ReviewAttestation(cfg, s, rec);
            Decide(Checked(cfg, inputs, name, actual, now)) != Deny ==>
              && ar.signatureValid && !ar.keyRevoked && ar.cls == Unaffected
              && (CheckOne(cfg, x, name, actual, now).FullyPassed() ==> ar.rootAnchored)
  {
    hide Decide, Checked, Digest.Matches, Digest.ForeignClaim, Digest.VerifyDigest, TrustedTimes, Earliest;
    UniversalVeto(cfg, inputs, name, actual, now, x);
  }

  // ---- how far ingestion can move a class ----

  lemma TimesGrow(cfg: Config, s: State, s': State, sha: string)
    requires s.evidence <= s'.evidence
    ensures ToSet(TrustedTimes(cfg, s, sha)) <= ToSet(TrustedTimes(cfg, s', sha))
  {
    hide TrustedTimes;
    forall t <- ToSet(TrustedTimes(cfg, s, sha)) ensures t in ToSet(TrustedTimes(cfg, s', sha)) {
      TrustedTimesExact(cfg, s, sha, t);
      TrustedTimesExact(cfg, s', sha, t);
    }
  }

  /** Through any interleaving at all, a stored attestation's own class moves only forward. */
  lemma ClassMovesForward(cfg: Config, sys: System, events: seq<Event>, rec: AttestationRecord)
    requires Inv(cfg, sys)
    ensures Rank(ReviewAttestation(cfg, sys.store, rec).cls)
              <= Rank(ReviewAttestation(cfg, Run(cfg, sys, events).store, rec).cls)
  {
    hide TrustedTimes, Earliest, ClassOf, Run, Inv;
    RunKeeps(cfg, sys, events);
    var s, s' := sys.store, Run(cfg, sys, events).store;
    var sha := cfg.lib.envelopeSha(rec.envelopeJson);
    TimesGrow(cfg, s, s', sha);
    var env := cfg.lib.parseEnvelope(rec.envelopeJson);
    if env.Some? {
      var sig := cfg.lib.verifyEnvelope(env.value, cfg.root.pubById);
      MoreEvidenceMovesForward(cfg.rev, sig.keyId, TrustedTimes(cfg, s, sha), TrustedTimes(cfg, s', sha));
    }
  }

  // ---- what is affected stays affected ----

  /** Through any interleaving of checks and reviews without ingestion, every finding is made again. */
  lemma FindingsPersist(cfg: Config, sys: System, events: seq<Event>)
    requires Inv(cfg, sys) && forall e <- events :: !e.Ingest?
    ensures FindingsGrow(FindingsOf(cfg, sys.store), FindingsOf(cfg, Run(cfg, sys, events).store))
  {
    hide FindingsOf, FindingsGrow, Run, ProcOk, WellFormed, Extends, IndexOk;
    RunKeeps(cfg, sys, events);
    RunKeepsEvidence(cfg, sys, events);
    GrowthKeepsFindings(cfg, sys.store, Run(cfg, sys, events).store);
  }

  /** The artifact is contaminated along the edges of the store, by what a review finds now. */
  ghost predicate Tainted(cfg: Config, s: State, n: int) {
    Contaminated(FindingsOf(cfg, s), s, AllEdges(s), n)
  }

  /** And so contaminated stays contaminated. */
  lemma AffectedPersists(cfg: Config, sys: System, events: seq<Event>, n: int)
    requires Inv(cfg, sys) && forall e <- events :: !e.Ingest?
    ensures Tainted(cfg, sys.store, n) ==> Tainted(cfg, Run(cfg, sys, events).store, n)
  {
    hide FindingsOf, FindingsGrow, Contaminated, Run, ProcOk, IndexOk, WellFormed;
    RunKeeps(cfg, sys, events);
    FindingsPersist(cfg, sys, events);
    var s, s' := sys.store, Run(cfg, sys, events).store;
    if Tainted(cfg, s, n) {
      ContaminationPersists(FindingsOf(cfg, s), FindingsOf(cfg, s'), s, s', AllEdges(s), AllEdges(s'), n);
    }
  }

  /** The edges of an attestation come into the table together, so one with an edge on file gets no further edge. */
  lemma RunGrows(cfg: Config, sys: System, events: seq<Event>)
    requires Inv(cfg, sys)
    ensures Grown(sys.store, Run(cfg, sys, events).store)
  {
    RunKeeps(cfg, sys, events);
    var s, s' := sys.store, Run(cfg, sys, events).store;
    hide Run, ProcOk, WellFormed;
    forall e <- s.deps, x <- s'.deps | x.attestationId == e.attestationId ensures x in s.deps {
      EdgesArriveTogether(cfg, s, s', e, x);
    }
  }

  lemma EdgesArriveTogether(cfg: Config, s: State, s': State, e: DependencyEdge, x: DependencyEdge)
    requires WellFormed(s) && WellFormed(s') && Extends(s, s') && WholeFilings(cfg, s)
    requires e in s.deps && x in s'.deps && x.attestationId == e.attestationId && DerivedFrom(cfg, s', x)
    ensures x in s.deps
  {
    assert HasAttestation(s, e.artifactId, e.attestationId);
    var rec := s.attestations[e.attestationId - 1];
    assert rec in s.attestations && rec in s'.attestations && rec.id == e.attestationId;
    var rec' :| rec' in s'.attestations && Declared(Derived(cfg, rec'), x);
    EdgesForOwn(rec'.artifactId, rec'.id, DeclaredDependencies(cfg, rec'.envelopeJson));
    assert rec'.id == x.attestationId;
    hide Derived, WellFormed;
    SameAttestation(s', rec, rec');
    var y :| y in Derived(cfg, rec) && SameEdge(y, x);
    assert Indexed(cfg, s, rec);
    var z :| z in s.deps && SameEdge(z, y);
    EdgeIsUnique(s', z, x);
  }

  /** A review's verdict of affected is repeated by every later review of the same root, through any interleaving of
      checks and reviews without ingestion, whatever the dedups drop. */
  lemma ReportedAffectedPersists(cfg: Config, sys: System, events: seq<Event>, root: int, arts: seq<ArtifactReview>,
                                 arts': seq<ArtifactReview>, a: ArtifactReview)
    requires Inv(cfg, sys) && forall e <- events :: !e.Ingest?
    requires IsReport(FindingsOf(cfg, sys.store), sys.store, root, arts) && a in arts
    requires var s' := Run(cfg, sys, events).store; IsReport(FindingsOf(cfg, s'), s', root, arts')
    ensures exists b <- arts' :: b.id == a.id && (a.cls == Affected ==> b.cls == Affected)
  {
    hide *;
    RunGrows(cfg, sys, events);
    FindingsPersist(cfg, sys, events);
    var s, s' := sys.store, Run(cfg, sys, events).store;
    ReportPersists(FindingsOf(cfg, s), FindingsOf(cfg, s'), s, s', root, arts, arts', a);
  }
}
