/** internal/store: the tables as a value, the steps on them, and what every step keeps. */
module Tables {
  import opened Base
  import opened Model
  import opened Lists
  import Text
  import Keys

  datatype State = State(
    artifacts: seq<Artifact>,
    attestations: seq<AttestationRecord>,
    verifs: seq<Verification>,
    verdicts: map<int, seq<Verdict>>,
    evidence: seq<EvidenceRecord>,
    deps: seq<DependencyEdge>)

  const EMPTY := State([], [], [], map[], [], [])

  // ---- lookups ----

  function FindArtifact(artifacts: seq<Artifact>, name: string, sha: string): (r: Option<Artifact>)
    ensures r.Some? ==> r.value in artifacts && r.value.name == name && r.value.sha256 == sha
    ensures r.None? ==> forall a <- artifacts :: !(a.name == name && a.sha256 == sha)
  {
    if artifacts == [] then None
    else if artifacts[0].name == name && artifacts[0].sha256 == sha then Some(artifacts[0])
    else FindArtifact(artifacts[1..], name, sha)
  }

  function DeclaredBy(id: int): DependencyEdge -> bool {
    (e: DependencyEdge) => e.artifactId == id
  }

  function PointsAt(name: string, sha: string): DependencyEdge -> bool {
    (e: DependencyEdge) => e.depName == name && e.depSha == sha
  }

  function AttestedFor(id: int): AttestationRecord -> bool {
    (r: AttestationRecord) => r.artifactId == id
  }

  function StampsOf(sha: string): EvidenceRecord -> bool {
    (e: EvidenceRecord) => e.envelopeSha == sha
  }

  function VerifiedFor(id: int): Verification -> bool {
    (v: Verification) => v.artifactId == id
  }

  function AttestationsOf(s: State, id: int): seq<AttestationRecord> {
    Filter(AttestedFor(id), s.attestations)
  }

  predicate EdgeLess(a: DependencyEdge, b: DependencyEdge) {
    Text.Less(a.depName, b.depName) || (a.depName == b.depName && Text.Less(a.depSha, b.depSha))
  }

  lemma EdgeOrdering()
    ensures Ordering(EdgeLess)
  {
    Keys.TextOrdering();
  }

  /** By name, and for one name by digest. */
  ghost predicate EdgeInOrder(a: DependencyEdge, b: DependencyEdge) {
    Text.Less(a.depName, b.depName)
    || (a.depName == b.depName && (a.depSha == b.depSha || Text.Less(a.depSha, b.depSha)))
  }

  lemma NotLessInOrder(a: DependencyEdge, b: DependencyEdge)
    requires !EdgeLess(b, a)
    ensures EdgeInOrder(a, b)
  {
    Text.LessTotal(a.depName, b.depName);
    Text.LessTotal(a.depSha, b.depSha);
  }

  predicate IdLess(a: DependencyEdge, b: DependencyEdge) {
    a.id < b.id
  }

  predicate StampLess(a: EvidenceRecord, b: EvidenceRecord) {
    a.trustedTimestamp < b.trustedTimestamp
  }

  // ---- steps ----

  function EnsureArtifact(s: State, a: Artifact): (State, int) {
    match FindArtifact(s.artifacts, a.name, a.sha256)
    case Some(x) => (s, x.id)
    case None =>
      var id := |s.artifacts| + 1;
      (s.(artifacts := s.artifacts + [a.(id := id)]), id)
  }

  function AddAttestation(s: State, rec: AttestationRecord): State {
    s.(attestations := s.attestations + [rec.(id := |s.attestations| + 1)])
  }

  predicate SameEdge(a: DependencyEdge, b: DependencyEdge) {
    a.artifactId == b.artifactId && a.attestationId == b.attestationId &&
    a.depName == b.depName && a.depSha == b.depSha
  }

  /** The edge is in the table, whatever its number. */
  predicate Declared(deps: seq<DependencyEdge>, e: DependencyEdge) {
    exists x <- deps :: SameEdge(x, e)
  }

  function AddEdge(deps: seq<DependencyEdge>, e: DependencyEdge): seq<DependencyEdge> {
    if Declared(deps, e) then deps else deps + [e.(id := |deps| + 1)]
  }

  function AddEdges(deps: seq<DependencyEdge>, edges: seq<DependencyEdge>): seq<DependencyEdge> {
    if edges == [] then deps
    else AddEdge(AddEdges(deps, edges[..|edges| - 1]), edges[|edges| - 1])
  }

  function AddDependencyEdges(s: State, edges: seq<DependencyEdge>): State {
    s.(deps := AddEdges(s.deps, edges))
  }

  function SaveVerification(s: State, artifactId: int, v: Verification, verdicts: seq<Verdict>): State {
    var id := |s.verifs| + 1;
    var kind := if v.reviewKind == "" then "gate" else v.reviewKind;
    s.(verifs := s.verifs + [v.(id := id, artifactId := artifactId, reviewKind := kind)],
       verdicts := s.verdicts[id := verdicts])
  }

  /** The instant the store indexes evidence by: zero when absent or malformed. */
  function ProbeTime(parse: string -> Option<Time>, ev: TimeEvidence): Time {
    if ev.timestamp == "" then ZERO_TIME
    else match parse(ev.timestamp) case Some(t) => t case None => ZERO_TIME
  }

  predicate SameStamp(e: EvidenceRecord, sha: string, tsa: string, t: Time) {
    e.envelopeSha == sha && e.tsaKeyId == tsa && e.trustedTimestamp == t
  }

  function IngestEvidence(s: State, parse: string -> Option<Time>, sha: string, ev: TimeEvidence): State {
    var t := ProbeTime(parse, ev);
    if exists e <- s.evidence :: SameStamp(e, sha, ev.tsaKeyId, t) then s
    else s.(evidence := s.evidence + [EvidenceRecord(|s.evidence| + 1, sha, ev.tsaKeyId, t, ev)])
  }

  // ---- invariant ----

  ghost predicate HasArtifact(s: State, id: int) {
    1 <= id <= |s.artifacts|
  }

  ghost predicate HasAttestation(s: State, artifactId: int, id: int) {
    1 <= id <= |s.attestations| && s.attestations[id - 1].artifactId == artifactId
  }

  /** An artifact or record id is its position; (name, sha256) names one artifact. */
  ghost predicate TablesNumbered(s: State) {
    && (forall i :: 0 <= i < |s.artifacts| ==> s.artifacts[i].id == i + 1)
    && (forall i :: 0 <= i < |s.attestations| ==> s.attestations[i].id == i + 1)
    && (forall i :: 0 <= i < |s.verifs| ==> s.verifs[i].id == i + 1)
    && (forall i :: 0 <= i < |s.evidence| ==> s.evidence[i].id == i + 1)
    && (forall i :: 0 <= i < |s.deps| ==> s.deps[i].id == i + 1)
    && (forall id :: id in s.verdicts <==> 1 <= id <= |s.verifs|)
  }

  ghost predicate Unique(s: State) {
    && (forall i, j :: 0 <= i < j < |s.artifacts| ==>
          !(s.artifacts[i].name == s.artifacts[j].name && s.artifacts[i].sha256 == s.artifacts[j].sha256))
    && (forall i, j :: 0 <= i < j < |s.deps| ==> !SameEdge(s.deps[i], s.deps[j]))
    && (forall i, j :: 0 <= i < j < |s.evidence| ==>
          !SameStamp(s.evidence[i], s.evidence[j].envelopeSha, s.evidence[j].tsaKeyId, s.evidence[j].trustedTimestamp))
  }

  /** Every row names rows that exist, of its own artifact. */
  ghost predicate Referential(s: State) {
    && (forall r <- s.attestations :: HasArtifact(s, r.artifactId))
    && (forall e <- s.deps :: HasArtifact(s, e.artifactId) && HasAttestation(s, e.artifactId, e.attestationId))
    && (forall v <- s.verifs :: HasArtifact(s, v.artifactId))
    && (forall id, v :: 1 <= id <= |s.verifs| && id in s.verdicts && v in s.verdicts[id] ==>
          VerdictNames(s, s.verifs[id - 1].artifactId, v))
  }

  /** A verdict names an attestation of the artifact, and so do its conflict partners. */
  ghost predicate VerdictNames(s: State, artifactId: int, v: Verdict) {
    HasAttestation(s, artifactId, v.attestationId) &&
    forall c <- v.conflictWith :: HasAttestation(s, artifactId, c)
  }

  /** What the store keeps by itself, whatever it is given. */
  ghost predicate Tidy(s: State) {
    TablesNumbered(s) && Unique(s)
  }

  /** And with callers that name existing rows. */
  ghost predicate WellFormed(s: State) {
    Tidy(s) && Referential(s)
  }

  /** Nothing recorded is ever changed or removed. */
  ghost predicate Extends(s: State, s': State) {
    && s.artifacts <= s'.artifacts && s.attestations <= s'.attestations && s.verifs <= s'.verifs
    && s.evidence <= s'.evidence && s.deps <= s'.deps
    && (forall id :: id in s.verdicts ==> id in s'.verdicts && s'.verdicts[id] == s.verdicts[id])
  }

  lemma WellFormedIsTidy(s: State)
    requires WellFormed(s)
    ensures Tidy(s)
  {
  }

  lemma ExtendsItself(s: State)
    ensures Extends(s, s)
  {
  }

  lemma ExtendsTransitive(a: State, b: State, c: State)
    requires Extends(a, b) && Extends(b, c)
    ensures Extends(a, c)
  {
  }

  lemma FindExact(s: State, a: Artifact)
    requires Tidy(s) && a in s.artifacts
    ensures FindArtifact(s.artifacts, a.name, a.sha256) == Some(a)
  {
  }

  lemma EnsureArtifactKeeps(s: State, a: Artifact)
    requires Tidy(s)
    ensures var (s', id) := EnsureArtifact(s, a);
            Tidy(s') && (WellFormed(s) ==> WellFormed(s')) && Extends(s, s') && HasArtifact(s', id) &&
            s'.artifacts[id - 1].name == a.name && s'.artifacts[id - 1].sha256 == a.sha256
  {
    hide Tidy, WellFormed, Extends;
    if FindArtifact(s.artifacts, a.name, a.sha256).Some? {
      FoundIsNumbered(s, FindArtifact(s.artifacts, a.name, a.sha256).value);
    } else {
      NewArtifactKeeps(s, a);
    }
  }

  lemma FoundIsNumbered(s: State, a: Artifact)
    requires Tidy(s) && a in s.artifacts
    ensures HasArtifact(s, a.id) && s.artifacts[a.id - 1] == a && Extends(s, s)
  {
  }

  /** Registering an artifact whose name and digest are new. */
  lemma NewArtifactKeeps(s: State, a: Artifact)
    requires Tidy(s) && FindArtifact(s.artifacts, a.name, a.sha256).None?
    ensures var s' := s.(artifacts := s.artifacts + [a.(id := |s.artifacts| + 1)]);
            Tidy(s') && (WellFormed(s) ==> WellFormed(s')) && Extends(s, s')
  {
    var s' := s.(artifacts := s.artifacts + [a.(id := |s.artifacts| + 1)]);
    assert TablesNumbered(s') by {
      hide Unique, Referential, FindArtifact;
    }
    assert Unique(s') by {
      hide Referential, TablesNumbered;
      assert forall x <- s.artifacts :: !(x.name == a.name && x.sha256 == a.sha256);
      hide FindArtifact;
    }
    assert Referential(s) ==> Referential(s') by {
      hide Unique, TablesNumbered, FindArtifact;
    }
  }

  lemma AddAttestationKeeps(s: State, rec: AttestationRecord)
    requires Tidy(s)
    ensures var s' := AddAttestation(s, rec);
            && Tidy(s') && Extends(s, s') && HasAttestation(s', rec.artifactId, |s.attestations| + 1)
            && (WellFormed(s) && HasArtifact(s, rec.artifactId) ==> WellFormed(s'))
  {
    var s' := AddAttestation(s, rec);
    assert Tidy(s') by {
      hide Referential;
    }
    assert Referential(s) && HasArtifact(s, rec.artifactId) ==> Referential(s') by {
      hide Tidy;
    }
  }

  /** The row names an artifact on file and an attestation of it. */
  ghost predicate Attributed(s: State, e: DependencyEdge) {
    HasArtifact(s, e.artifactId) && HasAttestation(s, e.artifactId, e.attestationId)
  }

  lemma AddEdgeKeeps(s: State, e: DependencyEdge)
    requires Tidy(s)
    ensures var s' := s.(deps := AddEdge(s.deps, e));
            Tidy(s') && Extends(s, s') && (WellFormed(s) && Attributed(s, e) ==> WellFormed(s'))
  {
    if !Declared(s.deps, e) {
      NewEdgeKeeps(s, e);
    }
  }

  lemma NewEdgeKeeps(s: State, e: DependencyEdge)
    requires Tidy(s) && !Declared(s.deps, e)
    ensures var s' := s.(deps := s.deps + [e.(id := |s.deps| + 1)]);
            Tidy(s') && Extends(s, s') && (WellFormed(s) && Attributed(s, e) ==> WellFormed(s'))
  {
    var s' := s.(deps := s.deps + [e.(id := |s.deps| + 1)]);
    assert TablesNumbered(s') by {
      hide Unique, Referential;
    }
    assert Unique(s') by {
      hide Referential, TablesNumbered;
      forall i | 0 <= i < |s.deps| ensures !SameEdge(s'.deps[i], s'.deps[|s.deps|]) {
        assert s.deps[i] in s.deps;
      }
    }
    assert Referential(s) && Attributed(s, e) ==> Referential(s') by {
      hide Unique, TablesNumbered;
      assert forall x <- s'.deps :: x in s.deps || x == s'.deps[|s.deps|];
    }
  }

  lemma {:induction false} AddDependencyEdgesKeeps(s: State, edges: seq<DependencyEdge>)
    requires Tidy(s)
    ensures var s' := AddDependencyEdges(s, edges);
            && Tidy(s') && Extends(s, s')
            && (WellFormed(s) && (forall e <- edges :: Attributed(s, e)) ==> WellFormed(s'))
  {
    hide Tidy, WellFormed, Extends;
    if edges == [] {
      ExtendsItself(s);
    } else {
      var n := |edges| - 1;
      var before := AddDependencyEdges(s, edges[..n]);
      AddDependencyEdgesKeeps(s, edges[..n]);
      AddEdgeKeeps(before, edges[n]);
      ExtendsTransitive(s, before, AddDependencyEdges(s, edges));
      assert forall e <- edges[..n] :: e in edges;
      assert edges[n] in edges && (Attributed(s, edges[n]) ==> Attributed(before, edges[n]));
    }
  }

  lemma SaveVerificationKeeps(s: State, artifactId: int, v: Verification, verdicts: seq<Verdict>)
    requires Tidy(s)
    ensures var s' := SaveVerification(s, artifactId, v, verdicts);
            && Tidy(s') && Extends(s, s')
            && ((WellFormed(s) && HasArtifact(s, artifactId)
                 && forall w <- verdicts :: VerdictNames(s, artifactId, w)) ==> WellFormed(s'))
  {
    var s' := SaveVerification(s, artifactId, v, verdicts);
    assert Tidy(s') by {
      hide Referential;
    }
    if Referential(s) && HasArtifact(s, artifactId) && forall w <- verdicts :: VerdictNames(s, artifactId, w) {
      assert Referential(s') by {
        hide Tidy;
      }
    }
  }

  lemma IngestEvidenceKeeps(s: State, parse: string -> Option<Time>, sha: string, ev: TimeEvidence)
    requires Tidy(s)
    ensures var s' := IngestEvidence(s, parse, sha, ev);
            Tidy(s') && Extends(s, s') && (WellFormed(s) ==> WellFormed(s'))
  {
  }

  /** The edges in the table, up to numbering, are the old ones and the added ones. */
  lemma {:induction false} AddEdgesContents(deps: seq<DependencyEdge>, edges: seq<DependencyEdge>, e: DependencyEdge)
    ensures Declared(AddEdges(deps, edges), e) <==> Declared(deps, e) || Declared(edges, e)
  {
    if edges != [] {
      var n := |edges| - 1;
      var before := AddEdges(deps, edges[..n]);
      AddEdgesContents(deps, edges[..n], e);
      assert Declared(edges, e) <==> Declared(edges[..n], e) || SameEdge(edges[n], e) by {
        assert edges == edges[..n] + [edges[n]];
      }
      AddEdgeContents(before, edges[n], e);
    }
  }

  lemma AddEdgeContents(deps: seq<DependencyEdge>, added: DependencyEdge, e: DependencyEdge)
    ensures Declared(AddEdge(deps, added), e) <==> Declared(deps, e) || SameEdge(added, e)
  {
    var numbered := added.(id := |deps| + 1);
    assert forall x :: x in deps + [numbered] <==> x in deps || x == numbered;
    if SameEdge(added, e) && !Declared(deps, added) {
      assert SameEdge(numbered, e) && numbered in deps + [numbered];
    }
  }
}
