/** A store in which the dedup key of the upstream walk hides a contaminated upstream. */
module Collision {
  import opened Base
  import opened Model
  import opened Lists
  import opened Tables
  import opened Graph
  import opened Closure
  import opened Reclassify
  import opened Propagation
  import opened Review
  import opened Revoke
  import opened Stamps
  import Check
  import Digest
  import RunLaws
  import Runs
  import Steps
  import Trust

  // Attestation 1 of artifact 1 declares two upstreams whose keys are the same text; only the second is registered.
  const DOWN_SHA := "ffffffffffffffffffffffffffffffffffffffffffffffffffffffffffffffff"
  const UP_SHA := "cccccccccccccccccccccccccccccccccccccccccccccccccccccccccccccccc"
  const DOWN := Artifact(1, "n", DOWN_SHA, 0, 1)
  const UP := Artifact(2, "a@b", UP_SHA, 0, 1)
  const FIRST := DependencyEdge(1, 1, 1, "a", "b@" + UP_SHA)
  const SECOND := DependencyEdge(2, 1, 1, "a@b", UP_SHA)
  const REC_DOWN := AttestationRecord(1, 1, "good", "good", 1, "unknown")
  const REC_UP := AttestationRecord(2, 2, "leaked", "leaked", 1, "unknown")
  const STAMP := TimeEvidence(EVIDENCE_TYPE, "leaked", "late", "tsa", "sig")

  // ---- how the store comes about ----

  function StatementIn(payload: string): Statement {
    var target := if payload == "good" then DOWN else UP;
    Statement([Subject(target.name, map[Digest.SHA256 := target.sha256])], SLSA_TYPE, payload)
  }

  function ProvenanceIn(body: string): Provenance {
    Provenance("i", None, if body != "good" then [] else
      [Resource(FIRST.depName, map[Digest.SHA256 := FIRST.depSha]),
       Resource(SECOND.depName, map[Digest.SHA256 := SECOND.depSha])])
  }

  /** Envelopes are named after their key; "good" is anchored, "leaked" was revoked before the stamp. */
  function Setting(): Config {
    Config(Library(x => true,
                   x => if x == "good" || x == "leaked" then Some(Envelope(IN_TOTO_TYPE, x, ["sig"])) else None,
                   x => x,
                   (e: Envelope, keys: map<string, string>) =>
                     if e.payload in keys then Valid(e.payload, Some(StatementIn(e.payload))) else Invalid(""),
                   x => Some(ProvenanceIn(x)), x => Some(7), x => Some(x), x => x, (k, ev) => true),
           RootView(map["good" := TrustedKey("good", "i", "good")], map["good" := "good", "leaked" := "leaked"],
                    map["tsa" := "tsa"]),
           Some(RevList(1, map["leaked" := Revocation("leaked", 5, 6, "leaked")], ["leaked"])),
           (inp, now) => Some(false))
  }

  function CheckOf(a: Artifact, envelope: string): Steps.Request {
    Steps.Request(a.name, a.sha256, 0, [Check.Input("", envelope)], 1)
  }

  ghost function AfterCheck(s: State, req: Steps.Request): State {
    Steps.VerifyEffect(s, req, Steps.ChecksOf(Setting(), req)).0
  }

  /** A store with two artifacts, an envelope of each, the two edges the first envelope declares, and time evidence
      about the leaked key's envelope; whatever records of decisions it holds. */
  ghost predicate HidesUpstream(s: State) {
    && WellFormed(s) && s.artifacts == [DOWN, UP] && s.attestations == [REC_DOWN, REC_UP]
    && s.evidence == [EvidenceRecord(1, "leaked", "tsa", 7, STAMP)] && s.deps == [FIRST, SECOND]
  }

  ghost function Found(s: State): Findings {
    FindingsOf(Setting(), s)
  }

  lemma FilterTwo<T(!new)>(p: T -> bool, x: T, y: T)
    ensures Filter(p, [x]) == if p(x) then [x] else []
    ensures Filter(p, [x, y]) == (if p(x) then [x] else []) + if p(y) then [y] else []
  {
    assert [x][..0] == [] && [x, y][..1] == [x];
  }

  /** What is concluded about the one envelope of a check. */
  ghost function Concluded(a: Artifact, envelope: string): Check.PerResult {
    Steps.ChecksOf(Setting(), CheckOf(a, envelope))[0]
  }

  /** The tables that a check of one envelope about a new artifact leaves. */
  lemma OneChecked(s: State, a: Artifact, envelope: string)
    requires FindArtifact(s.artifacts, a.name, a.sha256).None?
    requires a.id == |s.artifacts| + 1 && a.sizeBytes == 0 && a.firstSeen == 1
    ensures var s', att := AfterCheck(s, CheckOf(a, envelope)), |s.attestations| + 1;
            var check := Concluded(a, envelope);
            && s'.artifacts == s.artifacts + [a]
            && s'.attestations ==
                 s.attestations + [AttestationRecord(att, a.id, envelope, check.acceptedKeyId, 1, check.sourceRef)]
            && s'.evidence == s.evidence
            && s'.deps == AddEdges(s.deps, Check.EdgesFor(a.id, att, check.dependencies))
  {
    var req := CheckOf(a, envelope);
    var checks := Steps.ChecksOf(Setting(), req);
    hide Steps.ChecksOf, Setting, Check.EdgesFor, AddEdges, Steps.GateRecord, Steps.Verdicts, FindArtifact;
    var (s1, id) := EnsureArtifact(s, Steps.ArtifactFor(req));
    assert Steps.StoreAll(s1, id, req, checks, 0) == (s1, []);
    Steps.StoreAllNext(s1, id, req, checks, 0);
    Steps.EffectParts(s, req, checks);
  }

  lemma CheckedDown()
    ensures var check := Concluded(DOWN, "good");
            && check.acceptedKeyId == "good" && check.sourceRef == "unknown"
            && check.dependencies == ProvenanceIn("good").dependencies
  {
    PinnedByDown();
    hide Digest.VerifyDigest, Filter;
  }

  lemma PinnedByDown()
    ensures var deps := ProvenanceIn("good").dependencies; Filter(Check.Pinned(), deps) == deps
  {
    var deps := ProvenanceIn("good").dependencies;
    assert Digest.SHA256 in deps[0].digest && Digest.SHA256 in deps[1].digest;
    assert deps == [deps[0], deps[1]];
    FilterTwo(Check.Pinned(), deps[0], deps[1]);
    hide Filter;
  }

  lemma CheckedUp()
    ensures var check := Concluded(UP, "leaked");
            check.acceptedKeyId == "leaked" && check.sourceRef == "unknown" && check.dependencies == []
  {
    hide Digest.VerifyDigest;
  }

  lemma EdgesOfDown()
    ensures AddEdges([], Check.EdgesFor(1, 1, ProvenanceIn("good").dependencies)) == [FIRST, SECOND]
  {
    var deps := ProvenanceIn("good").dependencies;
    var e0, e1 := FIRST.(id := 0), SECOND.(id := 0);
    assert deps[..2] == deps && deps[..1] == [deps[0]] && deps[..1][..0] == [];
    assert Check.DepSha(deps[0].digest) == FIRST.depSha && Check.DepSha(deps[1].digest) == SECOND.depSha;
    hide Check.DepSha;
    assert Check.EdgesFor(1, 1, deps[..1]) == [e0];
    assert Check.EdgesFor(1, 1, deps) == [e0, e1];
    assert [e0, e1][..1] == [e0] && [e0][..0] == [];
    assert AddEdges([], [e0]) == [FIRST];
    assert !SameEdge(FIRST, e1);
    assert !Declared([FIRST], e1);
  }

  lemma TablesAfterFirst()
    ensures var s := AfterCheck(EMPTY, CheckOf(DOWN, "good"));
            s.artifacts == [DOWN] && s.attestations == [REC_DOWN] && s.evidence == [] && s.deps == [FIRST, SECOND]
  {
    hide AfterCheck, Check.EdgesFor, Concluded, CheckOf, AddEdges, ProvenanceIn;
    OneChecked(EMPTY, DOWN, "good");
    CheckedDown();
    EdgesOfDown();
  }

  lemma TablesAfterSecond(s: State)
    requires s.artifacts == [DOWN] && s.attestations == [REC_DOWN]
    ensures var s' := AfterCheck(s, CheckOf(UP, "leaked"));
            && s'.artifacts == [DOWN, UP] && s'.attestations == [REC_DOWN, REC_UP]
            && s'.evidence == s.evidence && s'.deps == s.deps
  {
    hide AfterCheck, Concluded, CheckOf, ProvenanceIn;
    assert DOWN.name != UP.name && FindArtifact(s.artifacts, UP.name, UP.sha256).None?;
    OneChecked(s, UP, "leaked");
    CheckedUp();
    assert AddEdges(s.deps, Check.EdgesFor(2, 2, [])) == s.deps;
  }

  lemma StampVerifies()
    ensures VerifiedTime(Setting().lib, Setting().root, STAMP, "leaked") == Some(7)
    ensures ProbeTime(Setting().lib.parseTime, STAMP) == 7
  {
  }

  lemma TablesAfterIngestion(s: State)
    requires s.evidence == []
    ensures var s' := Steps.Ingested(Setting(), s, "leaked", STAMP);
            && s'.artifacts == s.artifacts && s'.attestations == s.attestations && s'.deps == s.deps
            && s'.evidence == [EvidenceRecord(1, "leaked", "tsa", 7, STAMP)]
  {
    StampVerifies();
    hide Setting, VerifiedTime, ProbeTime;
  }

  /** Both artifacts are checked for download and the time evidence comes in: so such a store comes about. */
  lemma StoreIsReached() returns (events: seq<Runs.Event>)
    ensures HidesUpstream(Runs.Run(Setting(), Runs.INITIAL, events).store)
  {
    hide Setting, Steps.VerifyEffect, Steps.ChecksOf, Steps.Ingested, Runs.Run, RunLaws.Alone, WellFormed;
    hide Runs.ProcOk, Runs.IndexOk, Extends;
    var cfg, down, up := Setting(), CheckOf(DOWN, "good"), CheckOf(UP, "leaked");
    var n := RunLaws.SequentialIsASchedule(cfg, Runs.INITIAL, down);
    var first := RunLaws.Alone(0, down, n);
    var sys := Runs.Run(cfg, Runs.INITIAL, first);
    var m := RunLaws.SequentialIsASchedule(cfg, sys, up);
    var second, last := RunLaws.Alone(1, up, m), Runs.Ingest("leaked", STAMP);
    RunLaws.RunAppend(cfg, Runs.INITIAL, first, second);
    RunLaws.RunAppend(cfg, Runs.INITIAL, first + second, [last]);
    events := first + second + [last];
    RunsOne(cfg, Runs.Run(cfg, Runs.INITIAL, first + second), last);
    TablesAfterFirst();
    TablesAfterSecond(sys.store);
    TablesAfterIngestion(Runs.Run(cfg, Runs.INITIAL, first + second).store);
    Runs.InitialOk(cfg);
    Runs.RunKeeps(cfg, Runs.INITIAL, events);
  }

  lemma RunsOne(cfg: Config, sys: Runs.System, e: Runs.Event)
    ensures Runs.Run(cfg, sys, [e]) == Runs.Step(cfg, sys, e)
  {
    hide Runs.Step;
    assert [e][..0] == [];
  }

  lemma KeysCollide()
    ensures DedupKey(FIRST) == DedupKey(SECOND) && EdgeLess(FIRST, SECOND)
  {
    assert "a" + "@" + ("b@" + UP_SHA) == "a@b" + "@" + UP_SHA;
  }

  lemma OnlySecondResolves(s: State)
    requires HidesUpstream(s)
    ensures Resolve(s, FIRST) == None && Resolve(s, SECOND) == Some(UP)
  {
    assert UP in s.artifacts;
    FindExact(s, UP);
    assert DOWN.name != FIRST.depName && UP.name != FIRST.depName;
  }

  lemma SecondIsNotKept(s: State)
    requires HidesUpstream(s)
    ensures !Kept(s, SECOND)
  {
    hide EdgeLess, DedupKey, WellFormed;
    KeysCollide();
    assert FIRST in [FIRST, SECOND];
  }

  /** The only resolvable edge is not kept, so no step leads away from artifact 1. */
  lemma NoStep(s: State, m: int)
    requires HidesUpstream(s)
    ensures !Hop(s, 1, m)
  {
    hide Kept, WellFormed, Resolve;
    OnlySecondResolves(s);
    SecondIsNotKept(s);
    assert forall e <- s.deps :: e == FIRST || e == SECOND;
  }

  lemma LateVerified()
    ensures Verified(Setting().lib, Setting().root, [STAMP], "leaked") == [Stamp(7, STAMP)]
  {
    StampVerifies();
    hide VerifiedTime, Setting;
    assert [STAMP][..0] == [];
  }

  lemma LateTime(s: State)
    requires HidesUpstream(s)
    ensures TrustedTimes(Setting(), s, "leaked") == [7] && Earliest([7]) == Some(7)
  {
    var rec := EvidenceRecord(1, "leaked", "tsa", 7, STAMP);
    FilterTwo(StampsOf("leaked"), rec, rec);
    LateVerified();
    hide Verified, Setting, Filter;
    assert Map(Evidence(), [rec]) == [STAMP];
    assert Map(StampTime(), [Stamp(7, STAMP)]) == [7];
    assert [7][..0] == [];
  }

  lemma OneReview(cfg: Config, s: State, id: int, rec: AttestationRecord)
    requires AttestationsOf(s, id) == [rec]
    ensures FindingsOf(cfg, s)(id) == [ReviewAttestation(cfg, s, rec)]
  {
    hide ReviewAttestation;
  }

  lemma UpRecord(s: State)
    requires HidesUpstream(s)
    ensures var ar := ReviewAttestation(Setting(), s, REC_UP); ar.signatureValid && ar.cls == Affected
  {
    hide TrustedTimes, Earliest;
    LateTime(s);
  }

  lemma UpReview(s: State)
    requires HidesUpstream(s)
    ensures OwnAffected(Found(s), 2)
  {
    hide Setting, FindingsOf, ReviewAttestation;
    FilterTwo(AttestedFor(2), REC_DOWN, REC_UP);
    UpRecord(s);
    OneReview(Setting(), s, 2, REC_UP);
    var ar := ReviewAttestation(Setting(), s, REC_UP);
    assert ar in [ar];
  }

  lemma DownRecord(s: State)
    requires HidesUpstream(s)
    ensures var ar := ReviewAttestation(Setting(), s, REC_DOWN);
            ar.signatureValid && ar.rootAnchored && ar.cls == Unaffected && ar.storedId == 1
  {
    hide TrustedTimes, Earliest;
  }

  lemma DownFound(s: State)
    requires HidesUpstream(s)
    ensures Found(s)(1) == [ReviewAttestation(Setting(), s, REC_DOWN)]
  {
    hide ReviewAttestation, Setting;
    FilterTwo(AttestedFor(1), REC_DOWN, REC_UP);
    OneReview(Setting(), s, 1, REC_DOWN);
  }

  lemma DownReview(s: State)
    requires HidesUpstream(s)
    ensures !OwnAffected(Found(s), 1)
    ensures TrustedEdge(Found(s), SECOND)
  {
    hide Setting, Found, ReviewAttestation;
    DownRecord(s);
    DownFound(s);
    var ar := ReviewAttestation(Setting(), s, REC_DOWN);
    assert ar in [ar];
  }

  lemma SecondLinks(s: State)
    requires HidesUpstream(s)
    ensures Links(s, SECOND, 1, 2) && Connected(s, 1, 2)
  {
    OnlySecondResolves(s);
    assert SECOND in [FIRST, SECOND];
    assert Links(s, SECOND, 1, 2);
    assert Adjacent(s, 1, 2);
    assert ChainFromTo(s, [1, 2], 1, 2);
  }

  lemma DownIsContaminated(s: State)
    requires HidesUpstream(s)
    ensures Contaminated(Found(s), s, AllEdges(s), 1)
  {
    UpReview(s);
    DownReview(s);
    SecondLinks(s);
    assert SECOND in AllEdges(s) by {
      assert SECOND in [FIRST, SECOND];
    }
    hide OwnAffected, TrustedEdge, Found, Links, AllEdges;
    assert Spreads(Found(s), s, AllEdges(s), 1, 2);
    OwnContaminates(Found(s), s, AllEdges(s), 2);
    SpreadContaminates(Found(s), s, AllEdges(s), 1, 2);
  }

  lemma FirstHop(s: State, p: seq<int>)
    requires Walk(s, p)
    ensures |p| > 1 ==> Hop(s, p[0], p[1])
  {
    hide Hop;
  }

  lemma StaysAtRoot(s: State)
    requires HidesUpstream(s)
    ensures Reached(s, 1) == {1}
  {
    ReachesItself(s, 1);
    forall m ensures !Hop(s, 1, m) {
      NoStep(s, m);
    }
    hide Hop;
    forall n <- Reached(s, 1) ensures n == 1 {
      var p :| WalkFromTo(s, p, 1, n);
      FirstHop(s, p);
    }
  }

  lemma NothingFiled(s: State)
    requires HidesUpstream(s)
    ensures FiledEdges(s, {1}) == {}
  {
    OnlySecondResolves(s);
    hide Filable;
    assert forall e <- s.deps :: e == FIRST || e == SECOND;
  }

  lemma NothingSpreads(fd: Findings, s: State, n: int)
    ensures Contaminated(fd, s, {}, n) ==> OwnAffected(fd, n)
  {
    hide OwnAffected;
    if p :| TaintPath(fd, s, {}, p) && p[0] == n {
      assert |p| > 1 ==> Spreads(fd, s, {}, p[0], p[1]);
    }
  }

  /** Every key index entry is a fingerprint, every statement parses, and the revocation list names its keys. */
  lemma SettingIsLegitimate()
    ensures Trust.Indexed(Setting().lib, Setting().root)
    ensures Digest.Parseable(StatementIn("good")) && Digest.Parseable(StatementIn("leaked"))
    ensures "" !in Setting().rev.value.events
  {
    assert forall s <- StatementIn("good").subject :: Digest.SHA256 in s.digest;
    assert forall s <- StatementIn("leaked").subject :: Digest.SHA256 in s.digest;
  }

  /** In such a store artifact 1 pins a contaminated upstream by a trusted edge, yet a review of it reports neither. */
  lemma ReviewMissesHiddenUpstream(s: State, arts: seq<ArtifactReview>)
    requires HidesUpstream(s) && IsReport(Found(s), s, 1, arts)
    ensures Contaminated(Found(s), s, AllEdges(s), 1) && Connected(s, 1, 2)
    ensures ReportedIds(arts) == {1} && forall ar <- arts :: ar.cls != Affected
  {
    hide HidesUpstream, OwnAffected, TrustedEdge, Found, Contaminated, Connected, FiledEdges, Reached, ShortestVia;
    hide OwnClass;
    DownIsContaminated(s);
    SecondLinks(s);
    DownReview(s);
    StaysAtRoot(s);
    NothingFiled(s);
    NothingSpreads(Found(s), s, 1);
    forall ar <- arts ensures ar.cls != Affected {
      assert EntryOk(Found(s), s, 1, ar);
      assert ar.id in ReportedIds(arts);
      ClassFromAffected(Found(s), s, {}, ar.id);
      assert ar.cls == Affected ==> Contaminated(Found(s), s, {}, ar.id);
    }
  }
}
