/** internal/verifier/verifier.go: the four checks of one attestation, and the edges it declares. */
module Check {
  import opened Base
  import opened Model
  import opened Lists
  import Keys
  import Trust
  import Revoke
  import Digest
  import Text

  datatype Input = Input(sourceRef: string, envelopeJson: string)

  datatype PerResult = PerResult(
    storedId: int,
    sourceRef: string,
    signatureValid: bool,
    acceptedKeyId: string,
    issuerTrusted: bool,
    revocation: Option<bool>,
    policyAllowed: bool,
    digest: Digest.DigestResult,
    builderId: string,
    source: Option<SourceFact>,
    dependencies: seq<Resource>)
  {
    predicate RevocationHit() {
      revocation == Some(true)
    }

    predicate FullyPassed() {
      if RevocationHit() then false
      else signatureValid && issuerTrusted && policyAllowed && digest.matched
    }
  }

  // ---- what an envelope shows, in the system's own terms ----

  /** The envelope parses and its signature verifies under this known key. */
  ghost predicate SignedWith(cfg: Config, envelopeJson: string, key: string) {
    match cfg.lib.parseEnvelope(envelopeJson)
    case None => false
    case Some(env) =>
      var sig := cfg.lib.verifyEnvelope(env, cfg.root.pubById);
      sig.Valid? && sig.keyId == key
  }

  /** And it carries this statement. */
  ghost predicate Presents(cfg: Config, envelopeJson: string, env: Envelope, key: string, st: Statement) {
    && cfg.lib.parseEnvelope(envelopeJson) == Some(env)
    && cfg.lib.verifyEnvelope(env, cfg.root.pubById) == Valid(key, Some(st))
  }

  /** The statement is a provenance of the supported type. */
  ghost predicate Claims(lib: Library, st: Statement, prov: Provenance) {
    st.predicateType == SLSA_TYPE && lib.parseProvenance(st.body) == Some(prov)
  }

  ghost predicate Unrevoked(rev: Option<RevList>, key: string) {
    match rev case None => true case Some(l) => key !in l.events
  }

  /** The root binds the key to exactly this builder, and the key is not revoked. */
  ghost predicate BoundTo(cfg: Config, key: string, builder: string) {
    && key != "" && builder != "" && Unrevoked(cfg.rev, key)
    && key in cfg.root.byId && cfg.root.byId[key].issuer == builder
  }

  /** The envelope carries a provenance, signed by a key the root binds to the builder it claims. */
  ghost predicate IssuerBound(cfg: Config, envelopeJson: string) {
    exists env, key, st, prov ::
      Presents(cfg, envelopeJson, env, key, st) && Claims(cfg.lib, st, prov) && BoundTo(cfg, key, prov.builderId)
  }

  // ---- facts from a statement ----

  function ProvenanceOf(lib: Library, st: Statement): Option<Provenance> {
    if st.predicateType != SLSA_TYPE then None else lib.parseProvenance(st.body)
  }

  function BuilderOf(lib: Library, st: Statement): string {
    match ProvenanceOf(lib, st) case Some(p) => p.builderId case None => ""
  }

  /** The source fact; a provenance without one yields an empty fact, not none. */
  function SourceOf(lib: Library, st: Statement): Option<SourceFact> {
    match ProvenanceOf(lib, st)
    case None => None
    case Some(p) => Some(if p.source.Some? then p.source.value else SourceFact("", map[]))
  }

  function Pinned(): Resource -> bool {
    (d: Resource) => d.name != "" && d.digest != map[]
  }

  function DependenciesOf(lib: Library, st: Statement): seq<Resource> {
    match ProvenanceOf(lib, st)
    case None => []
    case Some(p) => Filter(Pinned(), p.dependencies)
  }

  // ---- the four conclusions ----

  /** The real-time revocation gate; None when no list is configured or no key was accepted. */
  function GateOf(cfg: Config, keyId: string): Option<bool> {
    if cfg.rev.Some? && keyId != "" then Some(Revoke.Revoked(cfg.rev, keyId)) else None
  }

  /** Issuer trust after the gate: a revoked key is never trusted. */
  function IssuerOf(cfg: Config, keyId: string, builder: string): bool {
    Trust.Evaluate(cfg.root, keyId, builder) && GateOf(cfg, keyId) != Some(true)
  }

  function PolicyInputFor(cfg: Config, env: Envelope, sig: SigCheck, st: Statement, trusted: bool, digestMatch: bool)
    : PolicyInput
  {
    var src := SourceOf(cfg.lib, st);
    PolicyInput(st.predicateType, BuilderOf(cfg.lib, st), if src.Some? then src.value else SourceFact("", map[]),
                sig.Valid?, trusted, digestMatch, env.payloadType == IN_TOTO_TYPE)
  }

  function NonEmpty(s: string, fallback: string): string {
    if s == "" then fallback else s
  }

  /** The conclusions about one attestation of the artifact (name, actual). */
  ghost function CheckOne(cfg: Config, input: Input, name: string, actual: string, now: Time): PerResult {
    var failed := PerResult(0, NonEmpty(input.sourceRef, "unknown"), false, "", false, None, false,
                            Digest.VerifyDigest(name, actual, None), "", None, []);
    match cfg.lib.parseEnvelope(input.envelopeJson)
    case None => failed
    case Some(env) =>
      var sig := cfg.lib.verifyEnvelope(env, cfg.root.pubById);
      var digest := Digest.VerifyDigest(name, actual, sig.Payload());
      var signed := failed.(signatureValid := sig.Valid?, acceptedKeyId := sig.keyId, digest := digest);
      match sig.Payload()
      case None => signed
      case Some(st) =>
        var trusted := IssuerOf(cfg, sig.keyId, BuilderOf(cfg.lib, st));
        signed.(issuerTrusted := trusted, revocation := GateOf(cfg, sig.keyId),
                policyAllowed :=
                  cfg.policy(PolicyInputFor(cfg, env, sig, st, trusted, digest.matched), now) == Some(true),
                builderId := BuilderOf(cfg.lib, st), source := SourceOf(cfg.lib, st),
                dependencies := DependenciesOf(cfg.lib, st))
  }

  /** The dependencies re-derivable from a stored envelope. */
  function DeclaredDependencies(cfg: Config, envelopeJson: string): seq<Resource> {
    match cfg.lib.parseEnvelope(envelopeJson)
    case None => []
    case Some(env) =>
      match cfg.lib.verifyEnvelope(env, cfg.root.pubById).Payload()
      case None => []
      case Some(st) => DependenciesOf(cfg.lib, st)
  }

  /** Issuer trust: the accepted key is bound to exactly the builder that the signed provenance claims. */
  lemma IssuerExact(cfg: Config, input: Input, name: string, actual: string, now: Time)
    ensures CheckOne(cfg, input, name, actual, now).issuerTrusted <==> IssuerBound(cfg, input.envelopeJson)
  {
    hide Digest.VerifyDigest;
    var json, lib := input.envelopeJson, cfg.lib;
    if CheckOne(cfg, input, name, actual, now).issuerTrusted {
      var env := lib.parseEnvelope(json).value;
      var sig := lib.verifyEnvelope(env, cfg.root.pubById);
      var st := sig.statement.value;
      var prov := ProvenanceOf(lib, st).value;
      assert Presents(cfg, json, env, sig.keyId, st) && Claims(lib, st, prov);
      assert BoundTo(cfg, sig.keyId, prov.builderId);
    }
  }

  lemma CheckedDependencies(cfg: Config, input: Input, name: string, actual: string, now: Time)
    ensures CheckOne(cfg, input, name, actual, now).dependencies == DeclaredDependencies(cfg, input.envelopeJson)
  {
  }

  /** verifyOne. */
  method VerifyOne(cfg: Config, input: Input, name: string, actual: string, now: Time) returns (pr: PerResult)
    ensures pr == CheckOne(cfg, input, name, actual, now)
    ensures pr.issuerTrusted <==> IssuerBound(cfg, input.envelopeJson)
  {
    IssuerExact(cfg, input, name, actual, now);
    pr := PerResult(0, NonEmpty(input.sourceRef, "unknown"), false, "", false, None, false,
                    Digest.DigestResult(false, [], [], true), "", None, []);
    var parsed := cfg.lib.parseEnvelope(input.envelopeJson);
    if parsed.None? {
      return;
    }
    var env := parsed.value;
    var sig := cfg.lib.verifyEnvelope(env, cfg.root.pubById);
    var digest := Digest.VerifySubjectDigest(name, actual, sig.Payload());
    pr := pr.(signatureValid := sig.Valid?, acceptedKeyId := sig.keyId, digest := digest);
    if sig.Payload().None? {
      return;
    }
    var st := sig.Payload().value;
    pr := pr.(builderId := BuilderOf(cfg.lib, st), source := SourceOf(cfg.lib, st));
    var prov := ProvenanceOf(cfg.lib, st);
    if prov.Some? {
      var deps := CollectPinned(prov.value.dependencies);
      pr := pr.(dependencies := deps);
    }
    pr := pr.(issuerTrusted := Trust.Evaluate(cfg.root, sig.keyId, pr.builderId));
    if cfg.rev.Some? && sig.keyId != "" {
      var revoked := Revoke.Revoked(cfg.rev, sig.keyId);
      pr := pr.(revocation := Some(revoked));
      if revoked {
        pr := pr.(issuerTrusted := false);
      }
    }
    var res := cfg.policy(PolicyInputFor(cfg, env, sig, st, pr.issuerTrusted, pr.digest.matched), now);
    pr := pr.(policyAllowed := res == Some(true));
  }

  method CollectPinned(resources: seq<Resource>) returns (out: seq<Resource>)
    ensures out == Filter(Pinned(), resources)
  {
    out := [];
    for i := 0 to |resources|
      invariant out == Filter(Pinned(), resources[..i])
    {
      assert resources[..i + 1][..i] == resources[..i];
      if resources[i].name == "" || resources[i].digest == map[] {
        continue;
      }
      out := out + [resources[i]];
    }
    assert resources[..|resources|] == resources;
  }

  // ---- declared edges ----

  /** What pins a dependency: a non-empty sha256, or else the least algorithm name with its value. */
  ghost predicate PinnedAt(digest: map<string, string>, sha: string) {
    if "sha256" in digest && digest["sha256"] != "" then sha == digest["sha256"]
    else exists alg <- digest.Keys ::
           sha == alg + ":" + digest[alg] && forall b <- digest.Keys :: b == alg || Text.Less(alg, b)
  }

  /** Some dependency of this name is pinned at this digest. */
  ghost predicate PinsTo(deps: seq<Resource>, name: string, sha: string) {
    exists d <- deps :: d.name == name && PinnedAt(d.digest, sha)
  }

  /** The pinned digest of a dependency: its sha256, else the first algorithm in order with a prefix. */
  ghost function DepSha(digest: map<string, string>): string {
    if Digest.SHA256 in digest && digest[Digest.SHA256] != "" then digest[Digest.SHA256]
    else
      var algs := Keys.SortedKeys(digest.Keys);
      if algs == [] then ""
      else
        assert algs[0] in algs;
        algs[0] + ":" + digest[algs[0]]
  }

  lemma LeastIsFirst(keys: set<string>, alg: string)
    ensures (alg in keys && forall b <- keys :: b == alg || Text.Less(alg, b)) <==>
            Keys.SortedKeys(keys) != [] && Keys.SortedKeys(keys)[0] == alg
  {
    Keys.SortedKeysLaw(keys);
    Keys.TextOrdering();
    var algs := Keys.SortedKeys(keys);
    hide Keys.SortedKeys, Text.Less;
    if algs != [] {
      assert algs[0] in algs;
      forall b <- keys ensures b == algs[0] || Text.Less(algs[0], b) {
        var i :| 0 <= i < |algs| && algs[i] == b;
        if i > 0 {
          assert !Text.Less(algs[i], algs[0]);
        }
      }
      if alg in keys && alg != algs[0] {
        assert !Text.Less(alg, algs[0]);
      }
    }
  }

  lemma DepShaExact(digest: map<string, string>, sha: string)
    ensures DepSha(digest) != "" && DepSha(digest) == sha <==> PinnedAt(digest, sha)
  {
    hide Keys.SortedKeys, Text.Less;
    var algs := Keys.SortedKeys(digest.Keys);
    forall alg ensures (alg in digest.Keys && forall b <- digest.Keys :: b == alg || Text.Less(alg, b)) <==>
                       algs != [] && algs[0] == alg
    {
      LeastIsFirst(digest.Keys, alg);
    }
    if algs != [] {
      assert algs[0] in algs;
      assert (algs[0] + ":" + digest[algs[0]])[|algs[0]|] == ':';
    }
  }

  ghost function EdgesFor(artifactId: int, attestationId: int, deps: seq<Resource>): seq<DependencyEdge> {
    if deps == [] then []
    else
      var n := |deps| - 1;
      var sha := DepSha(deps[n].digest);
      EdgesFor(artifactId, attestationId, deps[..n]) +
        if sha == "" then [] else [DependencyEdge(0, artifactId, attestationId, deps[n].name, sha)]
  }

  lemma {:induction false} EdgesForOwn(artifactId: int, attestationId: int, deps: seq<Resource>)
    ensures forall e <- EdgesFor(artifactId, attestationId, deps) ::
              e.artifactId == artifactId && e.attestationId == attestationId
  {
    if deps != [] {
      EdgesForOwn(artifactId, attestationId, deps[..|deps| - 1]);
    }
  }

  /** An edge to (name, sha) is declared exactly when some dependency of that name is pinned there. */
  lemma {:induction false} EdgesForExact(artifactId: int, attestationId: int, deps: seq<Resource>, name: string,
                                         sha: string)
    ensures (exists e <- EdgesFor(artifactId, attestationId, deps) :: e.depName == name && e.depSha == sha) <==>
            PinsTo(deps, name, sha)
  {
    hide DepSha, PinnedAt;
    if deps != [] {
      var n := |deps| - 1;
      var before := EdgesFor(artifactId, attestationId, deps[..n]);
      EdgesForExact(artifactId, attestationId, deps[..n], name, sha);
      DepShaExact(deps[n].digest, sha);
      assert deps == deps[..n] + [deps[n]];
      var own := DependencyEdge(0, artifactId, attestationId, deps[n].name, DepSha(deps[n].digest));
      assert forall e :: e in EdgesFor(artifactId, attestationId, deps) <==>
                         e in before || (DepSha(deps[n].digest) != "" && e == own);
    }
  }

  /** dependencyEdges. */
  method DependencyEdges(artifactId: int, attestationId: int, deps: seq<Resource>) returns (edges: seq<DependencyEdge>)
    ensures edges == EdgesFor(artifactId, attestationId, deps)
    ensures forall e <- edges :: e.artifactId == artifactId && e.attestationId == attestationId
    ensures forall name, sha :: (exists e <- edges :: e.depName == name && e.depSha == sha) <==> PinsTo(deps, name, sha)
  {
    edges := [];
    for i := 0 to |deps|
      invariant edges == EdgesFor(artifactId, attestationId, deps[..i])
    {
      assert deps[..i + 1][..i] == deps[..i];
      var digest := deps[i].digest;
      var sha := if Digest.SHA256 in digest then digest[Digest.SHA256] else "";
      if sha == "" {
        var algs := Keys.SortKeys(digest.Keys);
        if |algs| > 0 {
          assert algs[0] in algs;
          sha := algs[0] + ":" + digest[algs[0]];
        }
      }
      if sha == "" {
        continue;
      }
      edges := edges + [DependencyEdge(0, artifactId, attestationId, deps[i].name, sha)];
    }
    assert deps[..|deps|] == deps;
    EdgesForOwn(artifactId, attestationId, deps);
    forall name, sha ensures (exists e <- edges :: e.depName == name && e.depSha == sha) <==> PinsTo(deps, name, sha) {
      EdgesForExact(artifactId, attestationId, deps, name, sha);
    }
  }
}
