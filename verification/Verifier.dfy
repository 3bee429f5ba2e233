/** internal/verifier/verifier.go: Verify, over the mutable store. */
module Gate {
  import opened Base
  import opened Model
  import opened Lists
  import opened Tables
  import opened Memory
  import opened Check
  import opened Decision
  import opened Steps
  import ConflictKey
  import Grouping
  import Keys
  import Digest

  datatype Response = Response(
    name: string,
    actual: string,
    decision: Model.Decision,
    anySignatureValid: bool,
    anyIssuerTrusted: bool,
    anyPolicyAllowed: bool,
    anyDigestMismatch: bool,
    conflicting: seq<seq<int>>,
    results: seq<PerResult>,
    storedVerificationId: int)

  datatype Summary = Summary(revokedCount: nat, anySignatureValid: bool, anyIssuerTrusted: bool,
                             anyPolicyAllowed: bool, anyDigestMismatch: bool)

  ghost predicate Summarizes(sum: Summary, results: seq<PerResult>) {
    && (sum.revokedCount > 0 <==> AnyRevoked(results))
    && (sum.anyDigestMismatch <==> AnyDigestFailed(results))
    && (sum.anySignatureValid <==> AnySigned(results))
    && (sum.anyIssuerTrusted <==> AnyTrusted(results))
    && (sum.anyPolicyAllowed <==> AnyCompliant(results))
  }

  /** The response says what the results and the request say. */
  ghost predicate ReportsOn(response: Response, req: Request, results: seq<PerResult>) {
    && response.name == req.name && response.actual == req.actual && response.results == results
    && response.conflicting == Groups(results)
    && (response.anySignatureValid <==> AnySigned(results))
    && (response.anyIssuerTrusted <==> AnyTrusted(results))
    && (response.anyPolicyAllowed <==> AnyCompliant(results))
    && (response.anyDigestMismatch <==> AnyDigestFailed(results))
  }

  lemma AnySnoc(results: seq<PerResult>, r: PerResult)
    ensures AnyRevoked(results + [r]) <==> AnyRevoked(results) || r.RevocationHit()
    ensures AnyDigestFailed(results + [r]) <==> AnyDigestFailed(results) || DigestFailed(r)
    ensures AnySigned(results + [r]) <==> AnySigned(results) || r.signatureValid
    ensures AnyTrusted(results + [r]) <==> AnyTrusted(results) || r.issuerTrusted
    ensures AnyCompliant(results + [r]) <==> AnyCompliant(results) || r.policyAllowed
  {
    assert forall x :: x in results + [r] <==> x in results || x == r;
  }

  /** The summary loop. */
  method Summarize(results: seq<PerResult>) returns (sum: Summary)
    ensures Summarizes(sum, results)
  {
    sum := Summary(0, false, false, false, false);
    for i := 0 to |results|
      invariant Summarizes(sum, results[..i])
    {
      assert results[..i + 1] == results[..i] + [results[i]];
      AnySnoc(results[..i], results[i]);
      sum := AddToSummary(sum, results[i]);
    }
    assert results[..|results|] == results;
  }

  method AddToSummary(before: Summary, r: PerResult) returns (sum: Summary)
    ensures sum.revokedCount > 0 <==> before.revokedCount > 0 || r.RevocationHit()
    ensures sum.anyDigestMismatch <==> before.anyDigestMismatch || DigestFailed(r)
    ensures sum.anySignatureValid <==> before.anySignatureValid || r.signatureValid
    ensures sum.anyIssuerTrusted <==> before.anyIssuerTrusted || r.issuerTrusted
    ensures sum.anyPolicyAllowed <==> before.anyPolicyAllowed || r.policyAllowed
  {
    sum := before;
    if r.signatureValid {
      sum := sum.(anySignatureValid := true);
    }
    if r.issuerTrusted {
      sum := sum.(anyIssuerTrusted := true);
    }
    if r.policyAllowed {
      sum := sum.(anyPolicyAllowed := true);
    }
    if r.RevocationHit() {
      sum := sum.(revokedCount := sum.revokedCount + 1);
    }
    var mismatch := ScanRows(r.digest.subjects);
    if mismatch {
      sum := sum.(anyDigestMismatch := true);
    }
    if r.digest.hardReject {
      sum := sum.(anyDigestMismatch := true);
    }
  }

  method ScanRows(rows: seq<Digest.SubjectMatch>) returns (mismatch: bool)
    ensures mismatch <==> Digest.AnyExplicitMismatch(rows)
  {
    mismatch := false;
    for i := 0 to |rows|
      invariant mismatch <==> exists k :: 0 <= k < i && Digest.ExplicitMismatch(rows[k])
    {
      var sm := rows[i];
      if !sm.match_ && sm.algorithm != "" {
        if sm.claimed != "" && sm.claimed != sm.actual {
          mismatch := true;
        }
      }
    }
  }

  method CollectPassed(results: seq<PerResult>) returns (idx: seq<int>)
    ensures idx == Passed(results)
  {
    idx := [];
    for i := 0 to |results|
      invariant idx == Passed(results[..i])
    {
      assert results[..i + 1][..i] == results[..i];
      if results[i].FullyPassed() {
        idx := idx + [i];
      }
    }
    assert results[..|results|] == results;
  }

  /** The map from keys to the indices that carry them. */
  method FileByKey(results: seq<PerResult>, passed: seq<int>) returns (groups: map<string, seq<int>>)
    requires forall i <- passed :: 0 <= i < |results|
    ensures groups.Keys == Grouping.KeysAt(ResultKeys(results), passed)
    ensures forall key <- groups.Keys :: groups[key] == Grouping.Group(ResultKeys(results), passed, key)
  {
    groups := map[];
    ghost var ks := ResultKeys(results);
    for k := 0 to |passed|
      invariant groups.Keys == Grouping.KeysAt(ks, passed[..k])
      invariant forall key <- groups.Keys :: groups[key] == Grouping.Group(ks, passed[..k], key)
    {
      var idx := passed[k];
      assert idx in passed;
      var key := ConflictKey.ComputeKey(results[idx].builderId, results[idx].source);
      groups := FileOne(groups, key, idx, ks, passed, k);
    }
    assert passed[..|passed|] == passed;
  }

  method FileOne(groups: map<string, seq<int>>, key: string, idx: int,
                 ghost ks: seq<string>, ghost passed: seq<int>, ghost k: nat)
    returns (r: map<string, seq<int>>)
    requires k < |passed| && passed[k] == idx && key == Grouping.KeyAt(ks, idx)
    requires groups.Keys == Grouping.KeysAt(ks, passed[..k])
    requires forall key <- groups.Keys :: groups[key] == Grouping.Group(ks, passed[..k], key)
    ensures r.Keys == Grouping.KeysAt(ks, passed[..k + 1])
    ensures forall key <- r.Keys :: r[key] == Grouping.Group(ks, passed[..k + 1], key)
  {
    hide Grouping.Group, Grouping.KeysAt, Grouping.KeyAt;
    assert passed[..k + 1] == passed[..k] + [idx];
    Grouping.GroupSnoc(ks, passed[..k], idx);
    r := groups;
    if key !in r {
      Grouping.EmptyGroup(ks, passed[..k], key);
      r := r[key := []];
    }
    r := r[key := r[key] + [idx]];
  }

  lemma FewPassed(results: seq<PerResult>)
    requires |Passed(results)| < 2
    ensures Groups(results) == []
  {
    GroupsPartition(results);
    if a, b :| a in results && b in results && Clash(a, b) {
      ConflictingIffDisagree(results);
      Grouping.DisagreeNeedsTwo(ResultKeys(results), Passed(results));
    }
  }

  method GroupConflicting(results: seq<PerResult>, passed: seq<int>) returns (out: seq<seq<int>>)
    requires passed == Passed(results)
    ensures out == Groups(results)
  {
    if |passed| < 2 {
      FewPassed(results);
      return [];
    }
    PassedExact(results);
    KeysEnumerated(results);
    var groups := FileByKey(results, passed);
    if |groups| < 2 {
      return [];
    }
    var keys := Keys.SortKeys(groups.Keys);
    out := ListGroups(groups, keys, ResultKeys(results), passed);
  }

  method ListGroups(groups: map<string, seq<int>>, keys: seq<string>, ghost ks: seq<string>, ghost passed: seq<int>)
    returns (out: seq<seq<int>>)
    requires forall key <- keys :: key in groups && groups[key] == Grouping.Group(ks, passed, key)
    ensures out == Grouping.GroupsFor(ks, passed, keys)
  {
    out := [];
    for k := 0 to |keys|
      invariant out == Grouping.GroupsFor(ks, passed, keys[..k])
    {
      assert keys[k] in keys && keys[..k + 1] == keys[..k] + [keys[k]];
      out := out + [groups[keys[k]]];
    }
    assert keys[..|keys|] == keys;
  }

  /** confIDs of one verdict. */
  method ConflictIds(results: seq<PerResult>, partners: seq<int>) returns (ids: seq<int>)
    requires forall i <- partners :: 0 <= i < |results|
    ensures ids == StableSort(IntLess, IdsAt(results, partners))
  {
    ids := [];
    for k := 0 to |partners|
      invariant ids == IdsAt(results, partners[..k])
    {
      assert partners[k] in partners && partners[..k + 1] == partners[..k] + [partners[k]];
      ids := ids + [results[partners[k]].storedId];
    }
    assert partners[..|partners|] == partners;
    StableSortSorted(IntLess, ids);
    StableSortContents(IntLess, ids);
    var sorted := SortSlice(IntLess, ids);
    SortedIntsUnique(sorted, StableSort(IntLess, ids));
    ids := sorted;
  }

  method BuildVerdict(results: seq<PerResult>, i: nat, mine: seq<int>) returns (v: Verdict)
    requires i < |results|
    requires mine == if results[i].FullyPassed() then OthersOf(results, i) else []
    ensures v == VerdictFor(results, i)
  {
    forall j <- mine ensures 0 <= j < |results| {
      OthersExact(results, i, j);
    }
    var ids := ConflictIds(results, mine);
    var r := results[i];
    v := Verdict(r.storedId, r.signatureValid, r.issuerTrusted, r.policyAllowed, r.digest.matched, ids);
  }

  /** The partners listed for result i, where a missing entry is an empty list. */
  function PartnersAt(partners: map<int, seq<int>>, i: int): seq<int> {
    if i in partners then partners[i] else []
  }

  ghost predicate PartnersExact(results: seq<PerResult>, partners: map<int, seq<int>>) {
    forall i :: 0 <= i < |results| ==>
      PartnersAt(partners, i) == if results[i].FullyPassed() then OthersOf(results, i) else []
  }

  method FindPartners(results: seq<PerResult>, passed: seq<int>, groups: seq<seq<int>>)
    returns (partners: map<int, seq<int>>)
    requires passed == Passed(results) && groups == Groups(results)
    ensures PartnersExact(results, partners)
  {
    PassedExact(results);
    KeysEnumerated(results);
    partners := Grouping.ConflictPartners(groups, ResultKeys(results), passed, OrderedKeys(results));
    forall i | 0 <= i < |results|
      ensures PartnersAt(partners, i) == if results[i].FullyPassed() then OthersOf(results, i) else []
    {
      assert i in passed <==> results[i].FullyPassed();
    }
  }

  method BuildVerdicts(results: seq<PerResult>, passed: seq<int>, groups: seq<seq<int>>)
    returns (verdicts: seq<Verdict>)
    requires passed == Passed(results) && groups == Groups(results)
    ensures verdicts == Verdicts(results, |results|)
  {
    var partners := FindPartners(results, passed, groups);
    verdicts := [];
    for i := 0 to |results|
      invariant verdicts == Verdicts(results, i)
    {
      var v := BuildVerdict(results, i, PartnersAt(partners, i));
      verdicts := verdicts + [v];
    }
  }

  lemma ReportedResults(response: Response, req: Request, results: seq<PerResult>)
    requires ReportsOn(response, req, results)
    ensures response.results == results
  {
  }

  class Verifier {
    const cfg: Config
    const st: MemoryStore

    constructor (cfg: Config, st: MemoryStore)
      ensures this.cfg == cfg && this.st == st
    {
      this.cfg, this.st := cfg, st;
    }

    /** One turn of the evidence loop: the envelope is stored, whatever is concluded about it, then its edges. */
    method StoreTurn(artifactId: int, input: Input, pr: PerResult, now: Time) returns (attId: int)
      requires st.Valid() && HasArtifact(st.View(), artifactId)
      modifies st
      ensures st.Valid() && st.View() == StoreOne(old(st.View()), artifactId, input, pr, now)
      ensures attId == |old(st.View()).attestations| + 1
    {
      attId := st.AddAttestation(RecordFor(artifactId, input, pr, now));
      var edges := DependencyEdges(artifactId, attId, pr.dependencies);
      EdgesForOwn(artifactId, attId, pr.dependencies);
      if |edges| > 0 {
        st.AddDependencyEdges(edges);
      }
    }

    method CheckInput(req: Request, k: nat, ghost checks: seq<PerResult>) returns (pr: PerResult)
      requires k < |req.inputs| && checks == ChecksOf(cfg, req)
      ensures pr == checks[k]
    {
      pr := VerifyOne(cfg, req.inputs[k], req.name, req.actual, req.now);
    }

    /** The evidence loop. */
    method StoreEvidence(artifactId: int, req: Request, ghost checks: seq<PerResult>) returns (results: seq<PerResult>)
      requires st.Valid() && HasArtifact(st.View(), artifactId) && checks == ChecksOf(cfg, req)
      modifies st
      ensures st.Valid()
      ensures (st.View(), results) == StoreAll(old(st.View()), artifactId, req, checks, |checks|)
    {
      hide ChecksOf, WellFormed, StoreOne;
      results := [];
      ghost var s0 := st.View();
      for k := 0 to |req.inputs|
        invariant st.Valid() && HasArtifact(st.View(), artifactId)
        invariant (st.View(), results) == StoreAll(s0, artifactId, req, checks, k)
      {
        var r := StoreNext(artifactId, req, k, checks);
        results := results + [r];
      }
    }

    method StoreNext(artifactId: int, req: Request, k: nat, ghost checks: seq<PerResult>) returns (r: PerResult)
      requires st.Valid() && HasArtifact(st.View(), artifactId)
      requires k < |req.inputs| && checks == ChecksOf(cfg, req)
      modifies st
      ensures st.Valid() && HasArtifact(st.View(), artifactId)
      ensures st.View() == StoreOne(old(st.View()), artifactId, req.inputs[k], checks[k], req.now)
      ensures r == checks[k].(storedId := |old(st.View()).attestations| + 1)
    {
      StoreOneKeeps(st.View(), artifactId, req.inputs[k], checks[k], req.now);
      var pr := CheckInput(req, k, checks);
      var attId := StoreTurn(artifactId, req.inputs[k], pr, req.now);
      r := pr.(storedId := attId);
    }

    /** The decision switch. */
    method DecideOn(results: seq<PerResult>, sum: Summary, passed: seq<int>, groups: seq<seq<int>>)
      returns (d: Model.Decision)
      requires Summarizes(sum, results)
      requires passed == Passed(results) && groups == Groups(results)
      ensures d == Decide(results)
    {
      NonePassed(results);
      GroupsPartition(results);
      if sum.revokedCount > 0 {
        d := Deny;
      } else if sum.anyDigestMismatch {
        d := Deny;
      } else if |passed| == 0 {
        d := Deny;
      } else if |groups| > 0 {
        d := NeedsReview;
      } else {
        d := Allow;
      }
    }

    /** Steps 4 to 6: summarise, find conflicts, decide, and append the gate record. */
    method Conclude(artifactId: int, req: Request, results: seq<PerResult>) returns (response: Response)
      requires st.Valid() && HasArtifact(st.View(), artifactId)
      requires forall v <- Verdicts(results, |results|) :: VerdictNames(st.View(), artifactId, v)
      modifies st
      ensures st.Valid() && Extends(old(st.View()), st.View())
      ensures st.View() ==
                SaveVerification(old(st.View()), artifactId, GateRecord(results, req.now), Verdicts(results, |results|))
      ensures ReportsOn(response, req, results) && response.decision == Decide(results)
      ensures response.storedVerificationId == |st.verifs|
    {
      hide Decide, Groups, Verdicts, Passed, AnySigned, AnyTrusted, AnyCompliant, AnyDigestFailed;
      var sum := Summarize(results);
      var passed := CollectPassed(results);
      var groups := GroupConflicting(results, passed);
      var decision := DecideOn(results, sum, passed, groups);
      var verdicts := BuildVerdicts(results, passed, groups);
      var v := Verification(0, 0, decision, sum.anySignatureValid, sum.anyIssuerTrusted, sum.anyPolicyAllowed,
                            !sum.anyDigestMismatch, req.now, "", None, None);
      var vid := st.SaveVerification(artifactId, v, verdicts);
      response := Response(req.name, req.actual, decision, sum.anySignatureValid, sum.anyIssuerTrusted,
                           sum.anyPolicyAllowed, sum.anyDigestMismatch, groups, results, vid);
    }

    /** Verify: decides on the evidence and appends the artifact, the envelopes, their edges and one gate record. */
    method Verify(req: Request) returns (r: Result<Response>)
      requires st.Valid()
      modifies st
      ensures st.Valid() && Extends(old(st.View()), st.View())
      ensures r.Ok? <==> req.inputs != []
      ensures r.Err? ==> st.View() == old(st.View())
      ensures r.Ok? ==>
                && (st.View(), r.value.results) == VerifyEffect(old(st.View()), req, ChecksOf(cfg, req))
                && Registers(old(st.View()), st.View(), req)
                && r.value.decision == Decide(ChecksOf(cfg, req))
                && ReportsOn(r.value, req, r.value.results)
                && r.value.storedVerificationId == |st.verifs|
    {
      hide ChecksOf, Decide, Groups, Verdicts, GateRecord, StoreAll, Stored, WellFormed, VerifyEffect, VerdictNames;
      if |req.inputs| == 0 {
        return Err("no evidence");
      }
      hide Extends, ReportsOn, Registers;
      ghost var s := st.View();
      var artifactId := st.EnsureArtifact(ArtifactFor(req));
      ghost var s1, checks := st.View(), ChecksOf(cfg, req);
      StoreAllKeeps(s1, artifactId, req, checks, |checks|);
      var results := StoreEvidence(artifactId, req, checks);
      ghost var s2 := st.View();
      assert checks[..|checks|] == checks;
      StoredExtends(s1, s2, artifactId, req.inputs, checks, results);
      RecordKeeps(s1, s2, artifactId, req, checks, results);
      var response := Conclude(artifactId, req, results);
      assert response.results == results by {
        ReportedResults(response, req, results);
      }
      EffectParts(s, req, checks);
      EffectRegisters(s, req, checks);
      ExtendsTransitive(s, s1, s2);
      ExtendsTransitive(s, s2, st.View());
      r := Ok(response);
    }
  }
}
