/** The entities the packages exchange, and the library functions they call. */
module Model {
  import opened Base

  /** Instants. Go's zero time is one of them; instants before it exist. */
  type Time = int
  const ZERO_TIME: Time := 0

  const IN_TOTO_TYPE := "https://in-toto.io/Statement/v1"
  const SLSA_TYPE := "https://slsa.dev/provenance/v1"
  const EVIDENCE_TYPE := "https://scbverify.example.com/timestamp-evidence/v1"

  // ---- attestations ----

  datatype Envelope = Envelope(payloadType: string, payload: string, signatures: seq<string>)

  datatype Subject = Subject(name: string, digest: map<string, string>)

  datatype Statement = Statement(subject: seq<Subject>, predicateType: string, body: string)

  datatype SourceFact = SourceFact(uri: string, digest: map<string, string>)

  datatype Resource = Resource(name: string, digest: map<string, string>)

  /** What ParseSLSAProvenance yields; source is None when externalParameters hold none. */
  datatype Provenance = Provenance(builderId: string, source: Option<SourceFact>, dependencies: seq<Resource>)

  /** VerifyEnvelope: a statement comes only with a valid signature. */
  datatype SigCheck =
    | Invalid(keyId: string)
    | Valid(keyId: string, statement: Option<Statement>)
  {
    function Payload(): Option<Statement> {
      if Valid? then statement else None
    }
  }

  datatype TimeEvidence = TimeEvidence(kind: string, envelopeSha: string, timestamp: string,
                                       tsaKeyId: string, signature: string)

  // ---- configuration ----

  datatype TrustedKey = TrustedKey(keyId: string, issuer: string, publicKeyPem: string)

  /** The trust root's indexes; a public key is named by its raw text. */
  datatype RootView = RootView(byId: map<string, TrustedKey>, pubById: map<string, string>,
                               tsaById: map<string, string>)

  datatype Revocation = Revocation(keyId: string, compromisedAt: Time, revokedAt: Time, publicKeyPem: string)

  datatype RevList = RevList(version: int, events: map<string, Revocation>, keyOrder: seq<string>)

  /** Input of the policy engine. */
  datatype PolicyInput = PolicyInput(predicateType: string, builderId: string, source: SourceFact,
                                     signatureValid: bool, issuerTrusted: bool, digestMatch: bool,
                                     payloadTypeCorrect: bool)

  /** Parsing, hashing and signature checking: deterministic functions nothing else is known about. */
  datatype Library = Library(
    decodes: string -> bool,
    parseEnvelope: string -> Option<Envelope>,
    envelopeSha: string -> string,
    verifyEnvelope: (Envelope, map<string, string>) -> SigCheck,
    parseProvenance: string -> Option<Provenance>,
    parseTime: string -> Option<Time>,
    parsePem: string -> Option<string>,
    fingerprint: string -> string,
    verifyTsa: (string, TimeEvidence) -> bool)

  /** What a verifier or review service is constructed from; policy yields None when evaluation fails. */
  datatype Config = Config(lib: Library, root: RootView, rev: Option<RevList>,
                           policy: (PolicyInput, Time) -> Option<bool>)

  // ---- verdicts ----

  datatype Class = Unaffected | Insufficient | Affected

  datatype Decision = Allow | Deny | NeedsReview

  // ---- stored records ----

  datatype Artifact = Artifact(id: int, name: string, sha256: string, sizeBytes: int, firstSeen: Time)

  datatype AttestationRecord = AttestationRecord(id: int, artifactId: int, envelopeJson: string,
                                                 acceptedKeyId: string, receivedAt: Time, sourceRef: string)

  datatype Verdict = Verdict(attestationId: int, signatureValid: bool, issuerTrusted: bool,
                             policyAllowed: bool, digestMatch: bool, conflictWith: seq<int>)

  datatype Verification = Verification(id: int, artifactId: int, decision: Decision,
                                       signatureValid: bool, issuerTrusted: bool, policyAllowed: bool,
                                       digestMatch: bool, evaluatedAt: Time, reviewKind: string,
                                       classification: Option<Class>, referenceTime: Option<Time>)

  datatype EvidenceRecord = EvidenceRecord(id: int, envelopeSha: string, tsaKeyId: string,
                                           trustedTimestamp: Time, evidence: TimeEvidence)

  datatype DependencyEdge = DependencyEdge(id: int, artifactId: int, attestationId: int,
                                           depName: string, depSha: string)
}
