/** What every interleaving of checks, ingestion and reviews guarantees: the index, the saved decisions, the history. */
module RunLaws {
  import opened Model
  import opened Lists
  import opened Tables
  import opened Check
  import opened Decision
  import opened Steps
  import opened Runs

  // ---- the dependency index agrees with the envelopes ----

  /** No Verify stands between storing an envelope and filing its edges. */
  ghost predicate NoneFiling(sys: System) {
    forall p <- sys.procs :: !p.phase.Filing?
  }

  /** At every moment the table holds only re-derivable edges, and whenever nothing is being filed, all of them. */
  lemma IndexAgreement(cfg: Config, events: seq<Event>, e: DependencyEdge)
    ensures var sys := Run(cfg, INITIAL, events);
            && (Declared(sys.store.deps, e) ==> DerivedFrom(cfg, sys.store, e))
            && (NoneFiling(sys) ==> (Declared(sys.store.deps, e) <==> DerivedFrom(cfg, sys.store, e)))
  {
    hide Derived, Run, ProcOk, WellFormed;
    InitialOk(cfg);
    RunKeeps(cfg, INITIAL, events);
    var sys := Run(cfg, INITIAL, events);
    if Declared(sys.store.deps, e) {
      DeclaredIsDerived(cfg, sys.store, e);
    }
    if NoneFiling(sys) && DerivedFrom(cfg, sys.store, e) {
      var rec :| rec in sys.store.attestations && Declared(Derived(cfg, rec), e);
      assert Indexed(cfg, sys.store, rec);
      var y :| y in Derived(cfg, rec) && SameEdge(y, e);
      DerivedSame(sys.store.deps, y, e);
    }
  }

  lemma {:induction false} FiltersCommute<T(!new)>(p: T -> bool, q: T -> bool, xs: seq<T>)
    ensures Filter(p, Filter(q, xs)) == Filter(q, Filter(p, xs))
  {
    hide Filter;
    FilterNone(p, []);
    FilterNone(q, []);
    if xs != [] {
      var ys, x := xs[..|xs| - 1], xs[|xs| - 1];
      FiltersCommute(p, q, ys);
      FilterSnoc(p, ys, x);
      FilterSnoc(q, ys, x);
      FilterSnoc(p, Filter(q, ys), x);
      FilterSnoc(q, Filter(p, ys), x);
      assert xs == ys + [x];
      assert Filter(q, ys) + [] == Filter(q, ys) && Filter(p, ys) + [] == Filter(p, ys);
    } else {
      assert xs == [];
    }
  }

  /** Listing dependents is the inverse of listing dependencies: both hold the same edges from n to (name, sha). */
  lemma EdgeListsInverse(s: State, n: int, name: string, sha: string, up: seq<DependencyEdge>,
                         down: seq<DependencyEdge>)
    requires multiset(up) == multiset(Filter(DeclaredBy(n), s.deps))
    requires multiset(down) == multiset(Filter(PointsAt(name, sha), s.deps))
    ensures multiset(Filter(PointsAt(name, sha), up)) == multiset(Filter(DeclaredBy(n), down))
  {
    FilterPermutation(PointsAt(name, sha), up, Filter(DeclaredBy(n), s.deps));
    FilterPermutation(DeclaredBy(n), down, Filter(PointsAt(name, sha), s.deps));
    FiltersCommute(PointsAt(name, sha), DeclaredBy(n), s.deps);
  }

  // ---- the decision saved under interference ----

  /** The verdict about one input names an attestation that holds its envelope and accepted key, and repeats what was
      concluded. */
  ghost predicate VerdictHolds(s: State, artifactId: int, input: Input, check: PerResult, v: Verdict) {
    && HasAttestation(s, artifactId, v.attestationId)
    && s.attestations[v.attestationId - 1].envelopeJson == input.envelopeJson
    && s.attestations[v.attestationId - 1].acceptedKeyId == check.acceptedKeyId
    && v.signatureValid == check.signatureValid && v.issuerTrusted == check.issuerTrusted
    && v.policyAllowed == check.policyAllowed && v.digestMatch == check.digest.matched
  }

  /** Two pass and have different keys. */
  ghost predicate InConflict(a: PerResult, b: PerResult) {
    a.FullyPassed() && b.FullyPassed() && ResultKey(a) != ResultKey(b)
  }

  /** The verdicts of a gate record hold input by input, and list each other exactly when in conflict. */
  ghost predicate VerdictsHold(s: State, artifactId: int, req: Request, checks: seq<PerResult>, verdicts: seq<Verdict>)
  {
    && |verdicts| == |req.inputs| == |checks|
    && (forall k :: 0 <= k < |verdicts| ==> VerdictHolds(s, artifactId, req.inputs[k], checks[k], verdicts[k]))
    && (forall j, k :: 0 <= j < |verdicts| && 0 <= k < |verdicts| ==>
          (verdicts[j].attestationId in verdicts[k].conflictWith <==> InConflict(checks[k], checks[j])))
  }

  /** The flags of a gate record: whether some input has a valid signature, a trusted issuer, a policy that allows it,
      and whether none fails on its digest. */
  ghost predicate Sums(v: Verification, checks: seq<PerResult>) {
    && (v.signatureValid <==> exists c <- checks :: c.signatureValid)
    && (v.issuerTrusted <==> exists c <- checks :: c.issuerTrusted)
    && (v.policyAllowed <==> exists c <- checks :: c.policyAllowed)
    && (v.digestMatch <==> forall c <- checks :: !DigestFailed(c))
  }

  /** The record a Verify appends at its end. */
  ghost predicate RecordsDecision(cfg: Config, s: State, req: Request, v: Verification) {
    && v in s.verifs && v.id in s.verdicts
    && ArtifactIs(s, v.artifactId, req.name, req.actual)
    && v.decision == Decide(ChecksOf(cfg, req)) && Sums(v, ChecksOf(cfg, req))
    && v.reviewKind == "gate" && v.evaluatedAt == req.now && v.classification.None?
    && VerdictsHold(s, v.artifactId, req, ChecksOf(cfg, req), s.verdicts[v.id])
  }

  lemma ResultsConclude(cfg: Config, s: State, req: Request, id: int, results: seq<PerResult>)
    requires ResultsOk(cfg, s, req, id, results) && |results| == |req.inputs|
    ensures Conclusions(results) == Conclusions(ChecksOf(cfg, req))
  {
    hide ChecksOf, OnFile, ArtifactIs;
    var checks := ChecksOf(cfg, req);
    forall k | 0 <= k < |checks| ensures Conclusion(checks[k]) == checks[k] {
      ConclusionOfCheck(cfg, req, k);
    }
    forall c ensures c in Conclusions(results) <==> c in Conclusions(checks) {
      if c in Conclusions(results) {
        var k :| 0 <= k < |results| && Conclusion(results[k]) == c;
        assert checks[k] in checks;
      }
      if c in Conclusions(checks) {
        var k :| 0 <= k < |checks| && Conclusion(checks[k]) == c;
        assert results[k] in results;
      }
    }
  }

  /** Whatever other calls did in between, the last step of a Verify appends the decision its own evidence gives. */
  lemma SavedDecision(cfg: Config, sys: System, i: nat)
    requires Inv(cfg, sys) && i < |sys.procs|
    requires sys.procs[i].phase.Checking? && |sys.procs[i].phase.results| == |sys.procs[i].req.inputs|
    ensures var s, s' := sys.store, Step(cfg, sys, Advance(i)).store;
            && |s'.verifs| == |s.verifs| + 1
            && RecordsDecision(cfg, s', sys.procs[i].req, s'.verifs[|s.verifs|])
            && DistinctIds(sys.procs[i].phase.results)
  {
    hide Decide, ChecksOf, ConflictWith, Inv, Conclusions, ResultsOk, Verdicts, VerdictsHold, ArtifactIs, DistinctIds;
    hide Sums, AnySigned, AnyTrusted, AnyCompliant, AnyDigestFailed;
    var s, p := sys.store, sys.procs[i];
    var id, results := p.phase.artifactId, p.phase.results;
    ProcsOk(cfg, sys, i);
    ResultsConclude(cfg, s, p.req, id, results);
    SameDecision(results, ChecksOf(cfg, p.req));
    SavedVerdictsHold(cfg, s, p.req, id, results);
    RecordSums(results, ChecksOf(cfg, p.req), p.req.now);
    SaveRecords(cfg, s, p.req, id, GateRecord(results, p.req.now), Verdicts(results, |results|));
  }

  lemma ProcsOk(cfg: Config, sys: System, i: nat)
    requires Inv(cfg, sys) && i < |sys.procs| && sys.procs[i].phase.Checking?
    ensures ResultsOk(cfg, sys.store, sys.procs[i].req, sys.procs[i].phase.artifactId, sys.procs[i].phase.results)
  {
    hide WellFormed, IndexOk, ResultsOk;
    assert ProcOk(cfg, sys.store, sys.procs[i]);
  }

  lemma RecordSums(results: seq<PerResult>, checks: seq<PerResult>, now: Time)
    requires Conclusions(results) == Conclusions(checks)
    ensures Sums(GateRecord(results, now), checks)
  {
    FlagsAreConclusions(results);
    FlagsAreConclusions(checks);
    ReasonsAreConclusions(results);
    ReasonsAreConclusions(checks);
    hide Conclusions, DigestFailed, Decide;
  }

  lemma FlagsAreConclusions(results: seq<PerResult>)
    ensures AnySigned(results) <==> exists c <- Conclusions(results) :: c.signatureValid
    ensures AnyTrusted(results) <==> exists c <- Conclusions(results) :: c.issuerTrusted
    ensures AnyCompliant(results) <==> exists c <- Conclusions(results) :: c.policyAllowed
  {
    forall r <- results ensures Conclusion(r) in Conclusions(results) {
    }
  }

  /** The record saved last can be read back. */
  lemma SaveRecords(cfg: Config, s: State, req: Request, id: int, v: Verification, verdicts: seq<Verdict>)
    requires ArtifactIs(s, id, req.name, req.actual) && VerdictsHold(s, id, req, ChecksOf(cfg, req), verdicts)
    requires v.decision == Decide(ChecksOf(cfg, req)) && Sums(v, ChecksOf(cfg, req))
    requires v.reviewKind == "" && v.evaluatedAt == req.now && v.classification.None?
    ensures var s' := SaveVerification(s, id, v, verdicts);
            |s'.verifs| == |s.verifs| + 1 && RecordsDecision(cfg, s', req, s'.verifs[|s.verifs|])
  {
    hide ChecksOf, Decide, InConflict;
  }

  lemma SavedVerdictsHold(cfg: Config, s: State, req: Request, id: int, results: seq<PerResult>)
    requires ResultsOk(cfg, s, req, id, results) && |results| == |req.inputs|
    ensures VerdictsHold(s, id, req, ChecksOf(cfg, req), Verdicts(results, |results|))
    ensures ArtifactIs(s, id, req.name, req.actual) && DistinctIds(results)
  {
    hide ChecksOf, ConflictWith, ResultKey;
    var checks, verdicts := ChecksOf(cfg, req), Verdicts(results, |results|);
    forall k | 0 <= k < |results| ensures VerdictHolds(s, id, req.inputs[k], checks[k], verdicts[k]) {
      assert OnFile(s, id, req.inputs[k], results[k]) && Conclusion(results[k]) == checks[k];
    }
    forall j, k | 0 <= j < |results| && 0 <= k < |results|
      ensures verdicts[j].attestationId in verdicts[k].conflictWith <==> InConflict(checks[k], checks[j])
    {
      ConflictWithExact(results, k, j);
      assert Conclusion(results[j]) == checks[j] && Conclusion(results[k]) == checks[k];
      SameKey(results[j]);
      SameKey(results[k]);
    }
  }

  lemma SameKey(r: PerResult)
    ensures ResultKey(Conclusion(r)) == ResultKey(r) && Conclusion(r).FullyPassed() == r.FullyPassed()
  {
  }

  /** Every finished Verify has left its record. */
  ghost predicate FinishedRecorded(cfg: Config, sys: System) {
    forall p <- sys.procs :: p.phase.Finished? ==> HasRecord(cfg, sys.store, p.req)
  }

  ghost predicate HasRecord(cfg: Config, s: State, req: Request) {
    exists v <- s.verifs :: RecordsDecision(cfg, s, req, v)
  }

  lemma RecordStays(cfg: Config, s: State, s': State, req: Request)
    requires HasRecord(cfg, s, req) && Extends(s, s')
    ensures HasRecord(cfg, s', req)
  {
    hide Decide, ChecksOf;
    var v :| v in s.verifs && RecordsDecision(cfg, s, req, v);
    assert v in s'.verifs && RecordsDecision(cfg, s', req, v);
  }

  /** A step that finishes a Verify is the one that saves its record. */
  lemma FinishingStep(cfg: Config, sys: System, i: nat)
    requires Inv(cfg, sys) && i < |sys.procs| && !sys.procs[i].phase.Finished?
    requires Step(cfg, sys, Advance(i)).procs[i].phase.Finished?
    ensures HasRecord(cfg, Step(cfg, sys, Advance(i)).store, sys.procs[i].req)
  {
    hide ChecksOf, EdgesFor, GateRecord, Verdicts, RecordsDecision, WellFormed, IndexOk, ResultsOk;
    var p := sys.procs[i];
    assert ProcOk(cfg, sys.store, p);
    assert p.phase.Checking?;
    ResultsBounded(cfg, sys.store, p.req, p.phase.artifactId, p.phase.results);
    SavedDecision(cfg, sys, i);
    var s' := Step(cfg, sys, Advance(i)).store;
    assert s'.verifs[|sys.store.verifs|] in s'.verifs;
  }

  lemma StepKeepsRecords(cfg: Config, sys: System, e: Event)
    requires Inv(cfg, sys) && FinishedRecorded(cfg, sys)
    ensures FinishedRecorded(cfg, Step(cfg, sys, e))
  {
    hide Inv, Extends, HasRecord;
    StepKeeps(cfg, sys, e);
    var sys' := Step(cfg, sys, e);
    forall p <- sys'.procs | p.phase.Finished? ensures HasRecord(cfg, sys'.store, p.req) {
      var k :| 0 <= k < |sys'.procs| && sys'.procs[k] == p;
      SameRequest(cfg, sys, e, k);
      if k < |sys.procs| && sys.procs[k].phase.Finished? {
        assert sys.procs[k] in sys.procs;
        RecordStays(cfg, sys.store, sys'.store, p.req);
      } else {
        FinishingStep(cfg, sys, k);
      }
    }
  }

  /** A step touches only the process it advances, and no request ever changes. */
  lemma SameRequest(cfg: Config, sys: System, e: Event, k: nat)
    requires k < |Step(cfg, sys, e).procs|
    ensures k < |sys.procs| ==> Step(cfg, sys, e).procs[k].req == sys.procs[k].req
    ensures Step(cfg, sys, e).procs[k].phase.Finished? ==>
              k < |sys.procs| && (sys.procs[k].phase.Finished? || e == Advance(k))
  {
    hide ChecksOf, EdgesFor, GateRecord, Verdicts;
  }

  /** Every Verify that has finished, under whatever interleaving, left the decision its own evidence gives. */
  lemma {:induction false} DecisionsUndisturbed(cfg: Config, events: seq<Event>)
    ensures FinishedRecorded(cfg, Run(cfg, INITIAL, events))
  {
    hide Step, Inv;
    if events != [] {
      var n := |events| - 1;
      DecisionsUndisturbed(cfg, events[..n]);
      InitialOk(cfg);
      RunKeeps(cfg, INITIAL, events[..n]);
      StepKeepsRecords(cfg, Run(cfg, INITIAL, events[..n]), events[n]);
    }
  }

  // ---- a Verify left alone ----

  /** A Verify advanced by itself, n store calls on. */
  ghost function Advances(cfg: Config, s: State, p: Proc, n: nat): (State, Proc) {
    if n == 0 then (s, p)
    else
      var (s1, p1) := Advances(cfg, s, p, n - 1);
      AdvanceProc(cfg, s1, p1)
  }

  /** The evidence loop of the machine goes through the states of the sequential loop. */
  lemma {:induction false} LoopAlone(cfg: Config, s: State, s1: State, id: int, req: Request, k: nat) returns (n: nat)
    requires k <= |req.inputs| && (s1, id) == EnsureArtifact(s, ArtifactFor(req))
    ensures var (s2, results) := StoreAll(s1, id, req, ChecksOf(cfg, req), k);
            Advances(cfg, s, Proc(req, Waiting), n) == (s2, Proc(req, Checking(id, results)))
  {
    hide *;
    if k == 0 {
      n := 1;
      NoneAdvanced(cfg, s, s1, id, req);
      AdvancesOnce(cfg, s, Proc(req, Waiting), 0);
      FirstStep(cfg, s, req);
    } else {
      var m := LoopAlone(cfg, s, s1, id, req, k - 1);
      var checks := ChecksOf(cfg, req);
      StoredCount(s1, id, req, checks, k - 1);
      StoreAllNext(s1, id, req, checks, k - 1);
      AdvancesOnce(cfg, s, Proc(req, Waiting), m);
      AdvancesOnce(cfg, s, Proc(req, Waiting), m + 1);
      var (s2, results) := StoreAll(s1, id, req, checks, k - 1);
      var d := TurnSteps(cfg, s2, id, req, results);
      n := m + d;
    }
  }

  lemma NoneAdvanced(cfg: Config, s: State, s1: State, id: int, req: Request)
    ensures Advances(cfg, s, Proc(req, Waiting), 0) == (s, Proc(req, Waiting))
    ensures StoreAll(s1, id, req, ChecksOf(cfg, req), 0) == (s1, [])
  {
    hide ChecksOf;
  }

  lemma FirstStep(cfg: Config, s: State, req: Request)
    ensures var (s1, id) := EnsureArtifact(s, ArtifactFor(req));
            AdvanceProc(cfg, s, Proc(req, Waiting)) == (s1, Proc(req, Checking(id, [])))
  {
    hide EnsureArtifact;
  }

  lemma AdvancesOnce(cfg: Config, s: State, p: Proc, n: nat)
    ensures Advances(cfg, s, p, n + 1) == AdvanceProc(cfg, Advances(cfg, s, p, n).0, Advances(cfg, s, p, n).1)
  {
    hide AdvanceProc;
  }

  /** One turn of the loop is one store call, or two when there are edges to file. */
  lemma TurnSteps(cfg: Config, s: State, id: int, req: Request, results: seq<PerResult>) returns (d: nat)
    requires |results| < |req.inputs|
    ensures d == 1 || d == 2
    ensures var pr := ChecksOf(cfg, req)[|results|];
            var (s1, p1) := AdvanceProc(cfg, s, Proc(req, Checking(id, results)));
            (if d == 1 then (s1, p1) else AdvanceProc(cfg, s1, p1)) ==
              (StoreOne(s, id, req.inputs[|results|], pr, req.now),
               Proc(req, Checking(id, results + [pr.(storedId := |s.attestations| + 1)])))
  {
    hide ChecksOf, EdgesFor, AddAttestation;
    var pr := ChecksOf(cfg, req)[|results|].(storedId := |s.attestations| + 1);
    d := if EdgesFor(id, pr.storedId, pr.dependencies) == [] then 1 else 2;
  }

  lemma {:induction false} StoredCount(s: State, id: int, req: Request, checks: seq<PerResult>, k: nat)
    requires k <= |checks| == |req.inputs|
    ensures |StoreAll(s, id, req, checks, k).1| == k
  {
    if k > 0 {
      StoredCount(s, id, req, checks, k - 1);
    }
  }

  lemma LastStep(cfg: Config, s: State, id: int, req: Request, results: seq<PerResult>)
    requires |results| == |req.inputs|
    ensures AdvanceProc(cfg, s, Proc(req, Checking(id, results))) ==
              (SaveVerification(s, id, GateRecord(results, req.now), Verdicts(results, |results|)), Proc(req, Finished))
  {
    hide GateRecord, Verdicts, SaveVerification;
  }

  /** Undisturbed, the machine does to the store exactly what the sequential Verify does. */
  lemma AloneIsSequential(cfg: Config, s: State, req: Request) returns (n: nat)
    ensures Advances(cfg, s, Proc(req, Waiting), n) == (VerifyEffect(s, req, ChecksOf(cfg, req)).0, Proc(req, Finished))
  {
    hide *;
    var checks := ChecksOf(cfg, req);
    var (s1, id) := EnsureArtifact(s, ArtifactFor(req));
    var m := LoopAlone(cfg, s, s1, id, req, |req.inputs|);
    var (s2, results) := StoreAll(s1, id, req, checks, |req.inputs|);
    StoredCount(s1, id, req, checks, |req.inputs|);
    AdvancesOnce(cfg, s, Proc(req, Waiting), m);
    LastStep(cfg, s2, id, req, results);
    EffectParts(s, req, checks);
    n := m + 1;
  }

  lemma {:induction false} RunAppend(cfg: Config, sys: System, a: seq<Event>, b: seq<Event>)
    ensures Run(cfg, sys, a + b) == Run(cfg, Run(cfg, sys, a), b)
  {
    hide Step;
    if b == [] {
      assert a + b == a;
    } else {
      var n := |b| - 1;
      assert (a + b)[..|a| + n] == a + b[..n];
      RunAppend(cfg, sys, a, b[..n]);
    }
  }

  /** A request that arrives and then runs alone for n store calls. */
  function Alone(i: nat, req: Request, n: nat): (r: seq<Event>)
    ensures |r| == n + 1
  {
    [Begin(req)] + seq(n, k => Advance(i))
  }

  lemma {:induction false} RunAlone(cfg: Config, sys: System, req: Request, n: nat)
    requires req.inputs != []
    ensures var (s, p) := Advances(cfg, sys.store, Proc(req, Waiting), n);
            Run(cfg, sys, Alone(|sys.procs|, req, n)) == System(s, sys.procs + [p])
  {
    hide AdvanceProc;
    var i := |sys.procs|;
    var events := Alone(i, req, n);
    if n == 0 {
      assert events == [Begin(req)] && events[..0] == [];
      assert Run(cfg, sys, events) == Step(cfg, Run(cfg, sys, events[..0]), Begin(req));
    } else {
      RunAlone(cfg, sys, req, n - 1);
      assert events[..n] == Alone(i, req, n - 1) && events[n] == Advance(i);
      var (s, p) := Advances(cfg, sys.store, Proc(req, Waiting), n - 1);
      var (s', p') := AdvanceProc(cfg, s, p);
      assert (sys.procs + [p])[i := p'] == sys.procs + [p'];
    }
  }

  /** The sequential Verify is one of the machine's schedules. */
  lemma SequentialIsASchedule(cfg: Config, sys: System, req: Request) returns (n: nat)
    requires req.inputs != []
    ensures Run(cfg, sys, Alone(|sys.procs|, req, n)) ==
              System(VerifyEffect(sys.store, req, ChecksOf(cfg, req)).0, sys.procs + [Proc(req, Finished)])
  {
    hide *;
    n := AloneIsSequential(cfg, sys.store, req);
    RunAlone(cfg, sys, req, n);
  }
}
