/** Concurrent download checks, evidence ingestion and review writes as interleaved atomic store steps. */
module Runs {
  import opened Model
  import opened Tables
  import opened Check
  import opened Decision
  import opened Steps

  /** Where a Verify call stands between two store calls. */
  datatype Phase =
    | Waiting
    | Checking(artifactId: int, results: seq<PerResult>)
    | Filing(artifactId: int, results: seq<PerResult>, current: PerResult)
    | Finished

  datatype Proc = Proc(req: Request, phase: Phase)

  datatype System = System(store: State, procs: seq<Proc>)

  datatype Event =
    | Begin(req: Request)
    | Advance(i: nat)
    | Ingest(sha: string, ev: TimeEvidence)
    | WriteReview(artifactId: int, v: Verification)

  const INITIAL := System(EMPTY, [])

  // ---- steps ----

  /** The store call a Verify makes next. */
  ghost function AdvanceProc(cfg: Config, s: State, p: Proc): (State, Proc) {
    var req := p.req;
    match p.phase
    case Waiting =>
      var (s', id) := EnsureArtifact(s, ArtifactFor(req));
      (s', p.(phase := Checking(id, [])))
    case Checking(id, results) =>
      if |results| < |req.inputs| then
        var k := |results|;
        var pr := ChecksOf(cfg, req)[k].(storedId := |s.attestations| + 1);
        var s' := AddAttestation(s, RecordFor(id, req.inputs[k], pr, req.now));
        if EdgesFor(id, pr.storedId, pr.dependencies) == [] then (s', p.(phase := Checking(id, results + [pr])))
        else (s', p.(phase := Filing(id, results, pr)))
      else
        (SaveVerification(s, id, GateRecord(results, req.now), Verdicts(results, |results|)), p.(phase := Finished))
    case Filing(id, results, pr) =>
      (AddDependencyEdges(s, EdgesFor(id, pr.storedId, pr.dependencies)), p.(phase := Checking(id, results + [pr])))
    case Finished => (s, p)
  }

  ghost function Step(cfg: Config, sys: System, e: Event): System {
    match e
    case Begin(req) =>
      if req.inputs == [] then sys else sys.(procs := sys.procs + [Proc(req, Waiting)])
    case Advance(i) =>
      if i >= |sys.procs| then sys
      else
        var (s, p) := AdvanceProc(cfg, sys.store, sys.procs[i]);
        System(s, sys.procs[i := p])
    case Ingest(sha, ev) =>
      sys.(store := Ingested(cfg, sys.store, sha, ev))
    case WriteReview(id, v) =>
      if !(1 <= id <= |sys.store.artifacts|) then sys
      else sys.(store := SaveVerification(sys.store, id, v, []))
  }

  ghost function Run(cfg: Config, sys: System, events: seq<Event>): System {
    if events == [] then sys
    else Step(cfg, Run(cfg, sys, events[..|events| - 1]), events[|events| - 1])
  }

  // ---- invariant ----

  ghost predicate ArtifactIs(s: State, id: int, name: string, sha: string) {
    HasArtifact(s, id) && s.artifacts[id - 1].name == name && s.artifacts[id - 1].sha256 == sha
  }

  /** Results so far: on file in submission order, and concluding what each input by itself gives. */
  ghost predicate ResultsOk(cfg: Config, s: State, req: Request, id: int, results: seq<PerResult>) {
    && ArtifactIs(s, id, req.name, req.actual) && |results| <= |req.inputs|
    && (forall k :: 0 <= k < |results| ==> OnFile(s, id, req.inputs[k], results[k]))
    && (forall k :: 0 <= k < |results| ==> Conclusion(results[k]) == ChecksOf(cfg, req)[k])
    && (forall j, k :: 0 <= j < k < |results| ==> results[j].storedId < results[k].storedId)
  }

  ghost predicate ProcOk(cfg: Config, s: State, p: Proc) {
    match p.phase
    case Checking(id, results) => ResultsOk(cfg, s, p.req, id, results)
    case Filing(id, results, pr) => ResultsOk(cfg, s, p.req, id, results + [pr])
    case _ => true
  }

  /** The edges re-derivable from a stored envelope. */
  ghost function Derived(cfg: Config, rec: AttestationRecord): seq<DependencyEdge> {
    EdgesFor(rec.artifactId, rec.id, DeclaredDependencies(cfg, rec.envelopeJson))
  }

  ghost predicate DerivedFrom(cfg: Config, s: State, e: DependencyEdge) {
    exists rec <- s.attestations :: Declared(Derived(cfg, rec), e)
  }

  /** Some Verify has stored this envelope and not yet its edges. */
  ghost predicate Pending(procs: seq<Proc>, id: int) {
    exists p <- procs :: p.phase.Filing? && p.phase.current.storedId == id
  }

  ghost predicate Indexed(cfg: Config, s: State, rec: AttestationRecord) {
    forall x <- Derived(cfg, rec) :: Declared(s.deps, x)
  }

  /** An envelope with an edge on file has all of its edges on file: none is pending. */
  ghost predicate WholeFilings(cfg: Config, s: State) {
    forall e <- s.deps, rec <- s.attestations :: e.attestationId == rec.id ==> Indexed(cfg, s, rec)
  }

  /** The dependency table holds only re-derivable edges, and all of them but those still to be filed. */
  ghost predicate IndexOk(cfg: Config, sys: System) {
    && (forall e <- sys.store.deps :: DerivedFrom(cfg, sys.store, e))
    && (forall rec <- sys.store.attestations :: Indexed(cfg, sys.store, rec) || Pending(sys.procs, rec.id))
    && WholeFilings(cfg, sys.store)
  }

  ghost predicate Inv(cfg: Config, sys: System) {
    && WellFormed(sys.store)
    && (forall p <- sys.procs :: ProcOk(cfg, sys.store, p))
    && IndexOk(cfg, sys)
  }

  // ---- preservation: processes ----

  lemma ResultsStay(cfg: Config, s: State, s': State, req: Request, id: int, results: seq<PerResult>)
    requires ResultsOk(cfg, s, req, id, results) && Extends(s, s')
    ensures ResultsOk(cfg, s', req, id, results)
  {
    hide ChecksOf;
    forall k | 0 <= k < |results| ensures OnFile(s', id, req.inputs[k], results[k]) {
      OnFileStays(s, s', id, req.inputs[k], results[k]);
    }
  }

  lemma ProcStays(cfg: Config, s: State, s': State, p: Proc)
    requires ProcOk(cfg, s, p) && Extends(s, s')
    ensures ProcOk(cfg, s', p)
  {
    hide ResultsOk, Extends;
    match p.phase
    case Checking(id, results) => ResultsStay(cfg, s, s', p.req, id, results);
    case Filing(id, results, pr) => ResultsStay(cfg, s, s', p.req, id, results + [pr]);
    case _ =>
  }

  lemma ResultsSnoc(cfg: Config, s: State, s': State, req: Request, id: int, results: seq<PerResult>, pr: PerResult)
    requires ResultsOk(cfg, s, req, id, results) && |results| < |req.inputs| && WellFormed(s)
    requires pr == ChecksOf(cfg, req)[|results|].(storedId := |s.attestations| + 1)
    requires s' == AddAttestation(s, RecordFor(id, req.inputs[|results|], pr, req.now))
    ensures WellFormed(s') && Extends(s, s') && ResultsOk(cfg, s', req, id, results + [pr])
  {
    hide ChecksOf, WellFormed, Extends, ArtifactIs;
    var n := |results|;
    assert HasArtifact(s, id) by {
      HasItsArtifact(s, id, req.name, req.actual);
    }
    WellFormedIsTidy(s);
    AddAttestationKeeps(s, RecordFor(id, req.inputs[n], pr, req.now));
    ResultsStay(cfg, s, s', req, id, results);
    ConclusionOfCheck(cfg, req, n);
    assert OnFile(s', id, req.inputs[n], pr);
    forall k | 0 <= k < n ensures results[k].storedId < pr.storedId {
      assert OnFile(s, id, req.inputs[k], results[k]);
    }
  }

  lemma HasItsArtifact(s: State, id: int, name: string, sha: string)
    requires ArtifactIs(s, id, name, sha)
    ensures HasArtifact(s, id)
  {
  }

  lemma ConclusionOfCheck(cfg: Config, req: Request, k: nat)
    requires k < |req.inputs|
    ensures ChecksOf(cfg, req)[k].storedId == 0
    ensures ChecksOf(cfg, req)[k].dependencies == DeclaredDependencies(cfg, req.inputs[k].envelopeJson)
  {
    CheckedDependencies(cfg, req.inputs[k], req.name, req.actual, req.now);
  }

  /** Every store call of a Verify keeps the tables and the process in order, and changes no row. */
  lemma AdvanceKeeps(cfg: Config, s: State, p: Proc)
    requires WellFormed(s) && ProcOk(cfg, s, p)
    ensures var (s', p') := AdvanceProc(cfg, s, p); WellFormed(s') && Extends(s, s') && ProcOk(cfg, s', p')
  {
    hide ChecksOf, GateRecord, Verdicts, WellFormed, Extends, AddAttestation, AddDependencyEdges, EdgesFor, ResultsOk;
    match p.phase
    case Waiting => StartKeeps(cfg, s, p.req);
    case Checking(id, results) =>
      if |results| < |p.req.inputs| {
        var pr := ChecksOf(cfg, p.req)[|results|].(storedId := |s.attestations| + 1);
        var s' := AddAttestation(s, RecordFor(id, p.req.inputs[|results|], pr, p.req.now));
        ResultsSnoc(cfg, s, s', p.req, id, results, pr);
      } else {
        ResultsBounded(cfg, s, p.req, id, results);
        SaveKeeps(cfg, s, p.req, id, results);
      }
    case Filing(id, results, pr) => FileKeeps(cfg, s, p.req, id, results, pr);
    case Finished => ExtendsItself(s);
  }

  lemma ResultsBounded(cfg: Config, s: State, req: Request, id: int, results: seq<PerResult>)
    requires ResultsOk(cfg, s, req, id, results)
    ensures |results| <= |req.inputs|
  {
  }

  lemma StartKeeps(cfg: Config, s: State, req: Request)
    requires WellFormed(s)
    ensures var (s', id) := EnsureArtifact(s, ArtifactFor(req));
            WellFormed(s') && Extends(s, s') && ResultsOk(cfg, s', req, id, [])
  {
    EnsureArtifactKeeps(s, ArtifactFor(req));
  }

  lemma SaveKeeps(cfg: Config, s: State, req: Request, id: int, results: seq<PerResult>)
    requires WellFormed(s) && ResultsOk(cfg, s, req, id, results) && |results| == |req.inputs|
    ensures var s' := SaveVerification(s, id, GateRecord(results, req.now), Verdicts(results, |results|));
            WellFormed(s') && Extends(s, s')
  {
    hide ChecksOf, GateRecord;
    VerdictsName(s, id, req.inputs, results);
    SaveVerificationKeeps(s, id, GateRecord(results, req.now), Verdicts(results, |results|));
  }

  lemma FileKeeps(cfg: Config, s: State, req: Request, id: int, results: seq<PerResult>, pr: PerResult)
    requires WellFormed(s) && ResultsOk(cfg, s, req, id, results + [pr])
    ensures var s' := AddDependencyEdges(s, EdgesFor(id, pr.storedId, pr.dependencies));
            WellFormed(s') && Extends(s, s') && ResultsOk(cfg, s', req, id, results + [pr])
  {
    hide ChecksOf;
    assert OnFile(s, id, req.inputs[|results|], (results + [pr])[|results|]);
    EdgesForOwn(id, pr.storedId, pr.dependencies);
    AddDependencyEdgesKeeps(s, EdgesFor(id, pr.storedId, pr.dependencies));
    ResultsStay(cfg, s, AddDependencyEdges(s, EdgesFor(id, pr.storedId, pr.dependencies)), req, id, results + [pr]);
  }

  // ---- preservation: the dependency index ----

  lemma DerivedSame(edges: seq<DependencyEdge>, x: DependencyEdge, e: DependencyEdge)
    requires Declared(edges, x) && SameEdge(x, e)
    ensures Declared(edges, e)
  {
  }

  lemma DerivedStays(cfg: Config, s: State, s': State, e: DependencyEdge)
    requires DerivedFrom(cfg, s, e) && s.attestations <= s'.attestations
    ensures DerivedFrom(cfg, s', e)
  {
    hide Derived;
    var rec :| rec in s.attestations && Declared(Derived(cfg, rec), e);
    assert rec in s'.attestations;
  }

  /** The index does not depend on artifacts, verdicts or evidence, nor on processes that file nothing. */
  lemma IndexStays(cfg: Config, sys: System, sys': System)
    requires IndexOk(cfg, sys) && sys'.store.deps == sys.store.deps && sys'.store.attestations == sys.store.attestations
    requires forall p <- sys.procs :: p.phase.Filing? ==> p in sys'.procs
    ensures IndexOk(cfg, sys')
  {
    hide Derived, Declared;
    forall e <- sys'.store.deps ensures DerivedFrom(cfg, sys'.store, e) {
      DerivedStays(cfg, sys.store, sys'.store, e);
    }
    forall rec <- sys'.store.attestations ensures Indexed(cfg, sys'.store, rec) || Pending(sys'.procs, rec.id) {
      assert Indexed(cfg, sys.store, rec) || Pending(sys.procs, rec.id);
    }
  }

  /** A newly stored envelope is indexed when it declares nothing, and pending otherwise. */
  lemma IndexAddsAttestation(cfg: Config, sys: System, sys': System, rec: AttestationRecord)
    requires IndexOk(cfg, sys) && sys'.store.deps == sys.store.deps
    requires sys'.store.attestations == sys.store.attestations + [rec]
    requires forall p <- sys.procs :: p.phase.Filing? ==> p in sys'.procs
    requires Derived(cfg, rec) == [] || Pending(sys'.procs, rec.id)
    requires forall e <- sys.store.deps :: e.attestationId != rec.id
    ensures IndexOk(cfg, sys')
  {
    hide Derived, Declared;
    forall e <- sys'.store.deps ensures DerivedFrom(cfg, sys'.store, e) {
      DerivedStays(cfg, sys.store, sys'.store, e);
    }
    forall r <- sys'.store.attestations ensures Indexed(cfg, sys'.store, r) || Pending(sys'.procs, r.id) {
      if r in sys.store.attestations {
        assert Indexed(cfg, sys.store, r) || Pending(sys.procs, r.id);
      }
    }
  }

  /** No edge names an attestation still to be stored. */
  lemma NumbersAreFresh(s: State)
    requires WellFormed(s)
    ensures forall e <- s.deps :: e.attestationId != |s.attestations| + 1
  {
  }

  lemma IndexedStays(cfg: Config, s: State, s': State, rec: AttestationRecord)
    requires Indexed(cfg, s, rec) && s.deps <= s'.deps
    ensures Indexed(cfg, s', rec)
  {
    hide Derived;
    forall x <- Derived(cfg, rec) ensures Declared(s'.deps, x) {
      var y :| y in s.deps && SameEdge(y, x);
      assert y in s'.deps;
    }
  }

  lemma FilingIndexes(cfg: Config, s: State, rec: AttestationRecord)
    ensures Indexed(cfg, AddDependencyEdges(s, Derived(cfg, rec)), rec)
  {
    hide Derived, AddEdges;
    forall x <- Derived(cfg, rec) ensures Declared(AddEdges(s.deps, Derived(cfg, rec)), x) {
      AddEdgesContents(s.deps, Derived(cfg, rec), x);
      assert SameEdge(x, x);
    }
  }

  /** What is on file after filing was on file before, up to numbering, or comes from the envelope filed. */
  lemma FiledOrBefore(cfg: Config, s: State, rec: AttestationRecord, e: DependencyEdge)
    requires e in AddDependencyEdges(s, Derived(cfg, rec)).deps
    ensures Declared(s.deps, e) || Declared(Derived(cfg, rec), e)
  {
    hide Derived, AddEdges;
    AddEdgesContents(s.deps, Derived(cfg, rec), e);
    assert SameEdge(e, e);
  }

  lemma FilingKeepsWhole(cfg: Config, s: State, rec: AttestationRecord)
    requires WholeFilings(cfg, s) && rec in s.attestations && WellFormed(s)
    ensures WholeFilings(cfg, AddDependencyEdges(s, Derived(cfg, rec)))
  {
    var s' := AddDependencyEdges(s, Derived(cfg, rec));
    assert s.deps <= s'.deps by {
      AddDependencyEdgesKeeps(s, Derived(cfg, rec));
    }
    EdgesForOwn(rec.artifactId, rec.id, DeclaredDependencies(cfg, rec.envelopeJson));
    assert forall x <- Derived(cfg, rec) :: x.attestationId == rec.id;
    hide Derived, AddDependencyEdges, WellFormed, Indexed;
    forall e <- s'.deps, r <- s'.attestations | e.attestationId == r.id ensures Indexed(cfg, s', r) {
      FiledOrBefore(cfg, s, rec, e);
      if r.id == rec.id {
        SameAttestation(s, r, rec);
        FilingIndexes(cfg, s, rec);
      } else {
        var x :| x in s.deps && SameEdge(x, e);
        IndexedStays(cfg, s, s', r);
      }
    }
  }

  /** Filing the edges of an envelope indexes it; everything added is re-derivable from it. */
  lemma IndexAddsEdges(cfg: Config, sys: System, sys': System, rec: AttestationRecord)
    requires IndexOk(cfg, sys) && rec in sys.store.attestations && WellFormed(sys.store)
    requires sys'.store == AddDependencyEdges(sys.store, Derived(cfg, rec))
    requires forall p <- sys.procs :: p.phase.Filing? && p.phase.current.storedId != rec.id ==> p in sys'.procs
    ensures IndexOk(cfg, sys')
  {
    var s, s' := sys.store, sys'.store;
    assert s.deps <= s'.deps && s'.attestations == s.attestations by {
      AddDependencyEdgesKeeps(s, Derived(cfg, rec));
    }
    FilingKeepsWhole(cfg, s, rec);
    hide Derived, WellFormed, AddDependencyEdges, Indexed, WholeFilings, Declared;
    forall e <- s'.deps ensures DerivedFrom(cfg, s', e) {
      FiledOrBefore(cfg, s, rec, e);
      if Declared(s.deps, e) {
        DeclaredIsDerived(cfg, s, e);
      }
    }
    forall r <- s'.attestations ensures Indexed(cfg, s', r) || Pending(sys'.procs, r.id) {
      if r.id == rec.id {
        SameAttestation(s, r, rec);
        FilingIndexes(cfg, s, rec);
      } else if Indexed(cfg, s, r) {
        IndexedStays(cfg, s, s', r);
      }
    }
  }

  lemma DeclaredIsDerived(cfg: Config, s: State, e: DependencyEdge)
    requires Declared(s.deps, e) && forall x <- s.deps :: DerivedFrom(cfg, s, x)
    ensures DerivedFrom(cfg, s, e)
  {
    hide Derived;
    var x :| x in s.deps && SameEdge(x, e);
    var rec :| rec in s.attestations && Declared(Derived(cfg, rec), x);
    DerivedSame(Derived(cfg, rec), x, e);
  }

  lemma SameAttestation(s: State, a: AttestationRecord, b: AttestationRecord)
    requires WellFormed(s) && a in s.attestations && b in s.attestations && a.id == b.id
    ensures a == b
  {
  }

  /** The edges a process files are those re-derivable from the envelope it stored. */
  lemma FiledAreDerived(cfg: Config, s: State, req: Request, id: int, results: seq<PerResult>, pr: PerResult)
    returns (rec: AttestationRecord)
    requires WellFormed(s) && ResultsOk(cfg, s, req, id, results + [pr])
    ensures rec in s.attestations && rec.id == pr.storedId
    ensures Derived(cfg, rec) == EdgesFor(id, pr.storedId, pr.dependencies)
  {
    var k := |results|;
    assert (results + [pr])[k] == pr;
    assert OnFile(s, id, req.inputs[k], pr) && Conclusion(pr) == ChecksOf(cfg, req)[k];
    rec := s.attestations[pr.storedId - 1];
    ConclusionOfCheck(cfg, req, k);
  }

  lemma NewIsDerived(cfg: Config, s: State, req: Request, id: int, k: nat, pr: PerResult)
    requires k < |req.inputs| && pr == ChecksOf(cfg, req)[k].(storedId := |s.attestations| + 1)
    ensures var rec := RecordFor(id, req.inputs[k], pr, req.now).(id := |s.attestations| + 1);
            && AddAttestation(s, RecordFor(id, req.inputs[k], pr, req.now)).attestations == s.attestations + [rec]
            && rec.id == pr.storedId && Derived(cfg, rec) == EdgesFor(id, pr.storedId, pr.dependencies)
  {
    ConclusionOfCheck(cfg, req, k);
  }

  ghost predicate KeepsOtherFilings(procs: seq<Proc>, i: nat, p: Proc)
    requires i < |procs|
  {
    forall q <- procs :: q.phase.Filing? && q != procs[i] ==> q in procs[i := p]
  }

  lemma OtherFilingsKept(procs: seq<Proc>, i: nat, p: Proc)
    requires i < |procs|
    ensures KeepsOtherFilings(procs, i, p) && p in procs[i := p]
  {
    forall q <- procs | q != procs[i] ensures q in procs[i := p] {
      var j :| 0 <= j < |procs| && procs[j] == q;
      assert procs[i := p][j] == q;
    }
    assert procs[i := p][i] == p;
  }

  lemma AdvanceKeepsIndex(cfg: Config, sys: System, i: nat)
    requires Inv(cfg, sys) && i < |sys.procs|
    ensures IndexOk(cfg, Step(cfg, sys, Advance(i)))
  {
    hide ChecksOf, GateRecord, Verdicts, WellFormed, ResultsOk, EdgesFor, IndexOk, Derived;
    var s, p := sys.store, sys.procs[i];
    var (s', p') := AdvanceProc(cfg, s, p);
    var sys' := System(s', sys.procs[i := p']);
    assert ProcOk(cfg, s, p);
    OtherFilingsKept(sys.procs, i, p');
    match p.phase
    case Checking(id, results) =>
      if |results| < |p.req.inputs| {
        var pr := ChecksOf(cfg, p.req)[|results|].(storedId := |s.attestations| + 1);
        NewIsDerived(cfg, s, p.req, id, |results|, pr);
        var rec := RecordFor(id, p.req.inputs[|results|], pr, p.req.now).(id := |s.attestations| + 1);
        NumbersAreFresh(s);
        IndexAddsAttestation(cfg, sys, sys', rec);
      } else {
        IndexStays(cfg, sys, sys');
      }
    case Filing(id, results, pr) =>
      var rec := FiledAreDerived(cfg, s, p.req, id, results, pr);
      IndexAddsEdges(cfg, sys, sys', rec);
    case _ => IndexStays(cfg, sys, sys');
  }

  // ---- preservation: all steps ----

  lemma StepKeeps(cfg: Config, sys: System, e: Event)
    requires Inv(cfg, sys)
    ensures Inv(cfg, Step(cfg, sys, e)) && Extends(sys.store, Step(cfg, sys, e).store)
  {
    hide IndexOk, ProcOk, AdvanceProc, WellFormed, Extends;
    var sys' := Step(cfg, sys, e);
    WellFormedIsTidy(sys.store);
    match e
    case Begin(req) => BeginKeeps(cfg, sys, req);
    case Advance(i) =>
      if i < |sys.procs| {
        AdvanceKeeps(cfg, sys.store, sys.procs[i]);
        AdvanceKeepsIndex(cfg, sys, i);
        OthersStay(cfg, sys, sys');
      } else {
        ExtendsItself(sys.store);
      }
    case Ingest(sha, ev) =>
      IngestEvidenceKeeps(sys.store, cfg.lib.parseTime, sha, ev);
      ExtendsItself(sys.store);
      IndexStays(cfg, sys, sys');
      OthersStay(cfg, sys, sys');
    case WriteReview(id, v) =>
      ExtendsItself(sys.store);
      if 1 <= id <= |sys.store.artifacts| {
        SaveVerificationKeeps(sys.store, id, v, []);
      }
      IndexStays(cfg, sys, sys');
      OthersStay(cfg, sys, sys');
  }

  lemma BeginKeeps(cfg: Config, sys: System, req: Request)
    requires Inv(cfg, sys)
    ensures Inv(cfg, Step(cfg, sys, Begin(req))) && Extends(sys.store, Step(cfg, sys, Begin(req)).store)
  {
    hide IndexOk, WellFormed, ResultsOk;
    var sys' := Step(cfg, sys, Begin(req));
    ExtendsItself(sys.store);
    IndexStays(cfg, sys, sys');
  }

  /** Processes other than the one that moved are unaffected by growth of the tables. */
  lemma OthersStay(cfg: Config, sys: System, sys': System)
    requires Inv(cfg, sys) && Extends(sys.store, sys'.store) && |sys'.procs| == |sys.procs|
    requires forall k :: 0 <= k < |sys.procs| ==>
               sys'.procs[k] == sys.procs[k] || ProcOk(cfg, sys'.store, sys'.procs[k])
    ensures forall p <- sys'.procs :: ProcOk(cfg, sys'.store, p)
  {
    hide IndexOk, ProcOk, WellFormed, Extends;
    forall p <- sys'.procs ensures ProcOk(cfg, sys'.store, p) {
      var k :| 0 <= k < |sys'.procs| && sys'.procs[k] == p;
      if sys'.procs[k] == sys.procs[k] {
        ProcStays(cfg, sys.store, sys'.store, p);
      }
    }
  }

  lemma InitialOk(cfg: Config)
    ensures Inv(cfg, INITIAL)
  {
  }

  /** Interleaving safety: however the steps interleave, the tables stay well-formed and only grow. */
  lemma {:induction false} RunKeeps(cfg: Config, sys: System, events: seq<Event>)
    requires Inv(cfg, sys)
    ensures Inv(cfg, Run(cfg, sys, events)) && Extends(sys.store, Run(cfg, sys, events).store)
  {
    hide Inv, Extends, Step;
    if events == [] {
      ExtendsItself(sys.store);
    } else {
      var before := events[..|events| - 1];
      RunKeeps(cfg, sys, before);
      StepKeeps(cfg, Run(cfg, sys, before), events[|events| - 1]);
      ExtendsTransitive(sys.store, Run(cfg, sys, before).store, Run(cfg, sys, events).store);
    }
  }

  lemma StepKeepsEvidence(cfg: Config, sys: System, e: Event)
    requires !e.Ingest?
    ensures Step(cfg, sys, e).store.evidence == sys.store.evidence
  {
    hide ChecksOf, EdgesFor, GateRecord, Verdicts;
  }

  lemma {:induction false} RunKeepsEvidence(cfg: Config, sys: System, events: seq<Event>)
    requires forall e <- events :: !e.Ingest?
    ensures Run(cfg, sys, events).store.evidence == sys.store.evidence
  {
    hide Step;
    if events != [] {
      var n := |events| - 1;
      RunKeepsEvidence(cfg, sys, events[..n]);
      StepKeepsEvidence(cfg, Run(cfg, sys, events[..n]), events[n]);
    }
  }
}
