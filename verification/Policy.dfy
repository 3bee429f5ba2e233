/** policies/trust_policy.rego: the shipped rules, deny by default. */
module Policy {
  import opened Base
  import opened Model

  const ALLOWED_BUILDERS := {
    "https://build.example.com/builder/primary",
    "https://build.example.com/builder/secondary"
  }

  const ALLOWED_SOURCES := {"git+https://git.example.com/scm/payments/api"}

  // The validity window, in seconds since Go's zero time.
  const NOT_BEFORE: Time := 63902822400
  const EXPIRES_AT: Time := 63934358400

  datatype Violation =
    | SignatureInvalid | IssuerUntrusted | DigestMismatch | WrongPayloadType | WrongPredicateType
    | BuilderNotAllowed | SourceNotAllowed | CommitNotPinned | OutsideWindow

  predicate CommitPinned(digest: map<string, string>) {
    ("sha1" in digest && digest["sha1"] != "") || ("gitCommit" in digest && digest["gitCommit"] != "")
  }

  /** The bodies of the violation rules, one by one. */
  predicate Violates(inp: PolicyInput, now: Time, v: Violation) {
    match v
    case SignatureInvalid => !inp.signatureValid
    case IssuerUntrusted => !inp.issuerTrusted
    case DigestMismatch => !inp.digestMatch
    case WrongPayloadType => !inp.payloadTypeCorrect
    case WrongPredicateType => inp.predicateType != SLSA_TYPE
    case BuilderNotAllowed => inp.builderId !in ALLOWED_BUILDERS
    case SourceNotAllowed => inp.source.uri !in ALLOWED_SOURCES
    case CommitNotPinned => inp.source.uri in ALLOWED_SOURCES && !CommitPinned(inp.source.digest)
    case OutsideWindow => !(NOT_BEFORE <= now < EXPIRES_AT)
  }

  /** The violations collected, and allow when there are none. */
  function Violations(inp: PolicyInput, now: Time): set<Violation> {
    set v: Violation | Violates(inp, now, v)
  }

  function Shipped(): (PolicyInput, Time) -> Option<bool> {
    (inp: PolicyInput, now: Time) => Some(Violations(inp, now) == {})
  }

  /** What the shipped policy demands: the three earlier gates, the payload and predicate types, one of two builders,
      the one repository at a pinned commit, and the year 2026. */
  ghost predicate Demands(inp: PolicyInput, now: Time) {
    && inp.signatureValid && inp.issuerTrusted && inp.digestMatch && inp.payloadTypeCorrect
    && inp.predicateType == "https://slsa.dev/provenance/v1"
    && (inp.builderId == "https://build.example.com/builder/primary"
        || inp.builderId == "https://build.example.com/builder/secondary")
    && inp.source.uri == "git+https://git.example.com/scm/payments/api"
    && (exists alg <- inp.source.digest.Keys :: (alg == "sha1" || alg == "gitCommit") && inp.source.digest[alg] != "")
    && 63902822400 <= now < 63934358400
  }

  /** Allowed means exactly that no rule fires. */
  lemma ShippedAllows(inp: PolicyInput, now: Time)
    ensures Shipped()(inp, now) == Some(true) <==> Demands(inp, now)
  {
    PinnedExact(inp.source.digest);
    assert forall v: Violation :: v in Violations(inp, now) <==> Violates(inp, now, v);
    if Shipped()(inp, now) == Some(true) {
      assert forall v: Violation :: !Violates(inp, now, v);
      assert !Violates(inp, now, SignatureInvalid) && !Violates(inp, now, IssuerUntrusted);
      assert !Violates(inp, now, DigestMismatch) && !Violates(inp, now, WrongPayloadType);
      assert !Violates(inp, now, WrongPredicateType) && !Violates(inp, now, OutsideWindow);
      assert !Violates(inp, now, BuilderNotAllowed) && !Violates(inp, now, SourceNotAllowed);
      assert !Violates(inp, now, CommitNotPinned);
    }
    if Demands(inp, now) {
      forall v: Violation ensures !Violates(inp, now, v) {
        match v
        case _ =>
      }
    }
  }

  lemma PinnedExact(digest: map<string, string>)
    ensures CommitPinned(digest) <==>
            exists alg <- digest.Keys :: (alg == "sha1" || alg == "gitCommit") && digest[alg] != ""
  {
    if CommitPinned(digest) {
      var alg := if "sha1" in digest && digest["sha1"] != "" then "sha1" else "gitCommit";
      assert alg in digest.Keys;
    }
  }
}
