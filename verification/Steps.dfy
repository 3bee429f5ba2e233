/** What one download check does to the store, step by step, and what those steps keep. */
module Steps {
  import opened Base
  import opened Model
  import opened Lists
  import opened Tables
  import opened Check
  import opened Decision
  import Stamps

  /** A verification request; the file's digest and size are inputs. */
  datatype Request = Request(name: string, actual: string, size: int, inputs: seq<Input>, now: Time)

  function ArtifactFor(req: Request): Artifact {
    Artifact(0, req.name, req.actual, req.size, req.now)
  }

  function RecordFor(artifactId: int, input: Input, pr: PerResult, now: Time): AttestationRecord {
    AttestationRecord(0, artifactId, input.envelopeJson, pr.acceptedKeyId, now, pr.sourceRef)
  }

  /** One turn of the evidence loop: the envelope is kept whatever its conclusion, then its edges. */
  ghost function StoreOne(s: State, artifactId: int, input: Input, pr: PerResult, now: Time): State {
    var id := |s.attestations| + 1;
    AddDependencyEdges(AddAttestation(s, RecordFor(artifactId, input, pr, now)),
                       EdgesFor(artifactId, id, pr.dependencies))
  }

  /** The evidence loop after k turns, given what is concluded about each input. */
  ghost function StoreAll(s: State, artifactId: int, req: Request, checks: seq<PerResult>, k: nat): (State,
                          seq<PerResult>)
    requires k <= |checks| == |req.inputs|
  {
    if k == 0 then (s, [])
    else
      var (s1, results) := StoreAll(s, artifactId, req, checks, k - 1);
      (StoreOne(s1, artifactId, req.inputs[k - 1], checks[k - 1], req.now),
       results + [checks[k - 1].(storedId := |s1.attestations| + 1)])
  }

  ghost function VerdictFor(results: seq<PerResult>, i: int): Verdict
    requires 0 <= i < |results|
  {
    var r := results[i];
    Verdict(r.storedId, r.signatureValid, r.issuerTrusted, r.policyAllowed, r.digest.matched, ConflictWith(results, i))
  }

  ghost function Verdicts(results: seq<PerResult>, k: nat): (r: seq<Verdict>)
    requires k <= |results|
    ensures |r| == k
  {
    seq(k, i requires 0 <= i < k => VerdictFor(results, i))
  }

  predicate AnySigned(results: seq<PerResult>) {
    exists r <- results :: r.signatureValid
  }

  predicate AnyTrusted(results: seq<PerResult>) {
    exists r <- results :: r.issuerTrusted
  }

  predicate AnyCompliant(results: seq<PerResult>) {
    exists r <- results :: r.policyAllowed
  }

  /** The record of a gate decision. */
  ghost function GateRecord(results: seq<PerResult>, now: Time): Verification {
    Verification(0, 0, Decide(results),
                 AnySigned(results), AnyTrusted(results), AnyCompliant(results),
                 !AnyDigestFailed(results),
                 now, "", None, None)
  }

  ghost function ChecksOf(cfg: Config, req: Request): (r: seq<PerResult>)
    ensures |r| == |req.inputs|
  {
    Checked(cfg, req.inputs, req.name, req.actual, req.now)
  }

  /** The state after a whole undisturbed check, and the results it was based on. */
  ghost function VerifyEffect(s: State, req: Request, checks: seq<PerResult>): (State, seq<PerResult>)
    requires |checks| == |req.inputs|
  {
    var (s1, artifactId) := EnsureArtifact(s, ArtifactFor(req));
    var (s2, results) := StoreAll(s1, artifactId, req, checks, |checks|);
    (SaveVerification(s2, artifactId, GateRecord(results, req.now), Verdicts(results, |results|)), results)
  }

  lemma EffectParts(s: State, req: Request, checks: seq<PerResult>)
    requires |checks| == |req.inputs|
    ensures var (s1, id) := EnsureArtifact(s, ArtifactFor(req));
            var (s2, results) := StoreAll(s1, id, req, checks, |checks|);
            VerifyEffect(s, req, checks) ==
              (SaveVerification(s2, id, GateRecord(results, req.now), Verdicts(results, |results|)), results)
  {
    hide GateRecord, Verdicts, SaveVerification, StoreAll, EnsureArtifact;
  }

  /** What a check leaves in the other tables: the artifact, unless one of its name and digest is there, and envelopes
      stored at its time. */
  ghost predicate Registers(s: State, s': State, req: Request) {
    && s'.artifacts == (if exists a <- s.artifacts :: a.name == req.name && a.sha256 == req.actual then s.artifacts
                        else s.artifacts + [Artifact(|s.artifacts| + 1, req.name, req.actual, req.size, req.now)])
    && StoredSince(s, s', req.now)
  }

  ghost predicate StoredSince(s: State, s': State, now: Time) {
    && s.attestations <= s'.attestations
    && forall rec <- s'.attestations[|s.attestations|..] :: rec.receivedAt == now
  }

  lemma {:induction false} StoreAllSince(s: State, id: int, req: Request, checks: seq<PerResult>, k: nat)
    requires k <= |checks| == |req.inputs|
    ensures StoredSince(s, StoreAll(s, id, req, checks, k).0, req.now)
    ensures StoreAll(s, id, req, checks, k).0.artifacts == s.artifacts
  {
    if k > 0 {
      StoreAllSince(s, id, req, checks, k - 1);
    }
  }

  lemma EffectRegisters(s: State, req: Request, checks: seq<PerResult>)
    requires |checks| == |req.inputs|
    ensures Registers(s, VerifyEffect(s, req, checks).0, req)
  {
    hide StoreAll, GateRecord, Verdicts;
    var (s1, id) := EnsureArtifact(s, ArtifactFor(req));
    StoreAllSince(s1, id, req, checks, |checks|);
    EffectParts(s, req, checks);
  }

  /** The review service's ingestion: evidence that does not verify for the envelope is turned away. */
  function Ingested(cfg: Config, s: State, sha: string, ev: TimeEvidence): State {
    if Stamps.VerifiedTime(cfg.lib, cfg.root, ev, sha).None? then s
    else IngestEvidence(s, cfg.lib.parseTime, sha, ev)
  }

  /** A result whose attestation is on file: same artifact, envelope, accepted key and origin. */
  ghost predicate OnFile(s: State, artifactId: int, input: Input, r: PerResult) {
    && HasAttestation(s, artifactId, r.storedId)
    && var row := s.attestations[r.storedId - 1];
       row.envelopeJson == input.envelopeJson && row.acceptedKeyId == r.acceptedKeyId && row.sourceRef == r.sourceRef
  }

  lemma OnFileStays(s: State, s': State, artifactId: int, input: Input, r: PerResult)
    requires OnFile(s, artifactId, input, r) && Extends(s, s')
    ensures OnFile(s', artifactId, input, r)
  {
  }

  lemma StoreOneKeeps(s: State, artifactId: int, input: Input, pr: PerResult, now: Time)
    requires WellFormed(s) && HasArtifact(s, artifactId)
    ensures var s' := StoreOne(s, artifactId, input, pr, now);
            && WellFormed(s') && Extends(s, s') && s'.artifacts == s.artifacts
            && OnFile(s', artifactId, input, pr.(storedId := |s.attestations| + 1))
            && |s'.attestations| == |s.attestations| + 1
  {
    var id := |s.attestations| + 1;
    var rec := RecordFor(artifactId, input, pr, now);
    AddAttestationKeeps(s, rec);
    EdgesForOwn(artifactId, id, pr.dependencies);
    AddDependencyEdgesKeeps(AddAttestation(s, rec), EdgesFor(artifactId, id, pr.dependencies));
  }

  /** The loop stores one envelope per input under increasing ids and concludes what was checked. */
  ghost predicate Stored(s: State, s': State, artifactId: int, inputs: seq<Input>, checks: seq<PerResult>,
                         results: seq<PerResult>)
  {
    && WellFormed(s') && Extends(s, s') && s'.artifacts == s.artifacts
    && |results| == |checks| <= |inputs|
    && |s'.attestations| == |s.attestations| + |results|
    && (forall i :: 0 <= i < |results| ==> results[i].storedId == |s.attestations| + 1 + i)
    && (forall i :: 0 <= i < |results| ==> OnFile(s', artifactId, inputs[i], results[i]))
    && (forall i :: 0 <= i < |results| ==> Conclusion(results[i]) == Conclusion(checks[i]))
  }

  lemma StoredSnoc(s: State, s1: State, artifactId: int, req: Request, checks: seq<PerResult>, k: nat,
                   results: seq<PerResult>)
    requires k < |checks| == |req.inputs| && HasArtifact(s, artifactId)
    requires Stored(s, s1, artifactId, req.inputs, checks[..k], results)
    ensures Stored(s, StoreOne(s1, artifactId, req.inputs[k], checks[k], req.now), artifactId, req.inputs,
                   checks[..k + 1], results + [checks[k].(storedId := |s1.attestations| + 1)])
  {
    var s2 := StoreOne(s1, artifactId, req.inputs[k], checks[k], req.now);
    StoreOneKeeps(s1, artifactId, req.inputs[k], checks[k], req.now);
    forall i | 0 <= i < k ensures OnFile(s2, artifactId, req.inputs[i], results[i]) {
      OnFileStays(s1, s2, artifactId, req.inputs[i], results[i]);
    }
  }

  lemma StoreAllNext(s: State, id: int, req: Request, checks: seq<PerResult>, k: nat)
    requires k < |checks| == |req.inputs|
    ensures var (s2, results) := StoreAll(s, id, req, checks, k);
            StoreAll(s, id, req, checks, k + 1) ==
              (StoreOne(s2, id, req.inputs[k], checks[k], req.now),
               results + [checks[k].(storedId := |s2.attestations| + 1)])
  {
    hide StoreOne;
  }

  lemma NothingStored(s: State, artifactId: int, req: Request, checks: seq<PerResult>)
    requires WellFormed(s) && |checks| == |req.inputs|
    ensures StoreAll(s, artifactId, req, checks, 0) == (s, []) && Stored(s, s, artifactId, req.inputs, [], [])
  {
  }

  lemma {:induction false} StoreAllKeeps(s: State, artifactId: int, req: Request, checks: seq<PerResult>, k: nat)
    requires WellFormed(s) && HasArtifact(s, artifactId) && k <= |checks| == |req.inputs|
    ensures var (s', results) := StoreAll(s, artifactId, req, checks, k);
            Stored(s, s', artifactId, req.inputs, checks[..k], results)
  {
    hide StoreAll, StoreOne, Stored, WellFormed;
    if k == 0 {
      NothingStored(s, artifactId, req, checks);
      assert checks[..0] == [];
    } else {
      StoreAllKeeps(s, artifactId, req, checks, k - 1);
      StoreAllNext(s, artifactId, req, checks, k - 1);
      var (s1, results) := StoreAll(s, artifactId, req, checks, k - 1);
      StoredSnoc(s, s1, artifactId, req, checks, k - 1, results);
    }
  }

  lemma StoredExtends(s: State, s': State, artifactId: int, inputs: seq<Input>, checks: seq<PerResult>,
                      results: seq<PerResult>)
    requires Stored(s, s', artifactId, inputs, checks, results)
    ensures WellFormed(s') && Extends(s, s') && (HasArtifact(s, artifactId) ==> HasArtifact(s', artifactId))
  {
    hide WellFormed, Extends, OnFile;
  }

  lemma StoredConclusions(s: State, s': State, artifactId: int, inputs: seq<Input>, checks: seq<PerResult>,
                          results: seq<PerResult>)
    requires Stored(s, s', artifactId, inputs, checks, results)
    ensures Conclusions(results) == Conclusions(checks)
    ensures DistinctIds(results)
  {
    forall c ensures c in Conclusions(results) <==> c in Conclusions(checks) {
      if c in Conclusions(results) {
        var i :| 0 <= i < |results| && Conclusion(results[i]) == c;
        assert checks[i] in checks;
      }
      if c in Conclusions(checks) {
        var i :| 0 <= i < |checks| && Conclusion(checks[i]) == c;
        assert results[i] in results;
      }
    }
  }

  /** Verdicts name attestations of the artifact, and so do the ids they list as conflicting. */
  lemma VerdictsName(s: State, artifactId: int, inputs: seq<Input>, results: seq<PerResult>)
    requires |results| == |inputs|
    requires forall i :: 0 <= i < |results| ==> OnFile(s, artifactId, inputs[i], results[i])
    ensures forall v <- Verdicts(results, |results|) :: VerdictNames(s, artifactId, v)
  {
    forall i, c | 0 <= i < |results| && c in ConflictWith(results, i)
      ensures HasAttestation(s, artifactId, c)
    {
      var ids := IdsAt(results, OthersOf(results, i));
      StableSortContents(IntLess, ids);
      InMultiset(StableSort(IntLess, ids), ids);
      var k :| 0 <= k < |ids| && ids[k] == c;
      var j := OthersOf(results, i)[k];
      assert j in OthersOf(results, i);
      OthersExact(results, i, j);
      assert OnFile(s, artifactId, inputs[j], results[j]);
    }
  }

  /** From stored evidence to the appended record: the invariant is kept and the decision is the evidence's. */
  lemma RecordKeeps(s1: State, s2: State, artifactId: int, req: Request, checks: seq<PerResult>,
                    results: seq<PerResult>)
    requires HasArtifact(s1, artifactId) && |checks| == |req.inputs|
    requires Stored(s1, s2, artifactId, req.inputs, checks, results)
    ensures forall v <- Verdicts(results, |results|) :: VerdictNames(s2, artifactId, v)
    ensures Decide(results) == Decide(checks)
  {
    assert Conclusions(results) == Conclusions(checks) by {
      StoredConclusions(s1, s2, artifactId, req.inputs, checks, results);
    }
    SameDecision(results, checks);
    VerdictsName(s2, artifactId, req.inputs, results);
  }
}
