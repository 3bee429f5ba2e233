/** internal/offline/verify.go: the gate over an offline bundle, and how it relates to the online decision. */
module Offline {
  import opened Base
  import opened Model
  import opened Lists
  import opened Check
  import opened Stamps
  import opened Revoke
  import Decision
  import Digest
  import Policy
  import Reclassify
  import Tables
  import Trust

  /** An evidence reference with the files it names read in; time evidence that does not decode is absent. */
  datatype Piece = Piece(envelopeJson: string, artifactName: string, evidence: seq<TimeEvidence>)

  datatype ArtifactFile = ArtifactFile(name: string, path: string)

  datatype EvidenceConclusion = EvidenceConclusion(
    artifactName: string, artifactSha: string, signatureValid: bool, issuerTrusted: bool, keyRevoked: bool,
    digestMatched: bool, policyAllowed: bool, trustedCount: nat, historical: Class)

  datatype Conclusion = Conclusion(allow: bool, byEvidence: seq<EvidenceConclusion>)

  /** The local files: which path holds which artifact, and what a path hashes to unless it cannot be read. */
  datatype Local = Local(artifacts: seq<ArtifactFile>, hash: string -> Option<string>)

  // ---- specification ----

  /** The path given last for a name; empty when there is none. */
  function PathOf(artifacts: seq<ArtifactFile>, name: string): string {
    if artifacts == [] then ""
    else
      var n := |artifacts| - 1;
      if artifacts[n].name == name then artifacts[n].path else PathOf(artifacts[..n], name)
  }

  /** The digest of the local file of an artifact: none is known when no path is given, and reading may fail. */
  function LocalDigest(local: Local, name: string): Result<Option<string>> {
    var path := PathOf(local.artifacts, name);
    if path == "" then Ok(None)
    else match local.hash(path) case None => Err("unreadable") case Some(d) => Ok(Some(d))
  }

  function OfflineTimes(cfg: Config, piece: Piece): seq<Time> {
    Map(Reclassify.StampTime(), Verified(cfg.lib, cfg.root, piece.evidence, cfg.lib.envelopeSha(piece.envelopeJson)))
  }

  ghost function StatementInput(cfg: Config, env: Envelope, sig: SigCheck, trusted: bool, matched: bool): PolicyInput {
    match sig.Payload()
    case Some(st) => PolicyInputFor(cfg, env, sig, st, trusted, matched)
    case None =>
      PolicyInput("", "", SourceFact("", map[]), sig.Valid?, trusted, matched, env.payloadType == IN_TOTO_TYPE)
  }

  function BuilderClaimed(cfg: Config, sig: SigCheck): string {
    match sig.Payload() case Some(st) => BuilderOf(cfg.lib, st) case None => ""
  }

  /** The conclusion about evidence whose signature holds, once the local digest is known. */
  ghost function ConcludeSigned(cfg: Config, piece: Piece, env: Envelope, sig: SigCheck, digest: Option<string>,
                                now: Time)
    : Result<EvidenceConclusion>
  {
    var revoked := Revoked(cfg.rev, sig.keyId);
    var trusted := Trust.Evaluate(cfg.root, sig.keyId, BuilderClaimed(cfg, sig)) && !revoked;
    var matched := digest.Some? && Digest.Matches(piece.artifactName, digest.value, sig.Payload());
    var times := OfflineTimes(cfg, piece);
    match cfg.policy(StatementInput(cfg, env, sig, trusted, matched), now)
    case None => Err("policy")
    case Some(allowed) =>
      Ok(EvidenceConclusion(piece.artifactName, if digest.Some? then digest.value else "", true, trusted, revoked,
                            matched, allowed, |times|, ClassOf(cfg.rev, sig.keyId, Earliest(times))))
  }

  /** The conclusion about one piece of evidence, or the error that ends the whole check. */
  ghost function ConcludeOne(cfg: Config, local: Local, piece: Piece, now: Time): Result<EvidenceConclusion> {
    if !cfg.lib.decodes(piece.envelopeJson) then Err("envelope")
    else
      var failed := EvidenceConclusion(piece.artifactName, "", false, false, false, false, false, 0, Insufficient);
      match cfg.lib.parseEnvelope(piece.envelopeJson)
      case None => Ok(failed)
      case Some(env) =>
        var sig := cfg.lib.verifyEnvelope(env, cfg.root.pubById);
        if sig.Invalid? then Ok(failed.(trustedCount := |OfflineTimes(cfg, piece)|))
        else
          match LocalDigest(local, piece.artifactName)
          case Err(e) => Err(e)
          case Ok(digest) => ConcludeSigned(cfg, piece, env, sig, digest, now)
  }

  predicate Passes(c: EvidenceConclusion) {
    c.signatureValid && !c.keyRevoked && c.issuerTrusted && c.digestMatched && c.policyAllowed
  }

  /** Every piece is concluded on, in order, and the gate opens when there is evidence and all of it passes. */
  ghost predicate IsConclusion(cfg: Config, local: Local, pieces: seq<Piece>, now: Time, r: Conclusion) {
    && |r.byEvidence| == |pieces|
    && (forall i :: 0 <= i < |pieces| ==> ConcludeOne(cfg, local, pieces[i], now) == Ok(r.byEvidence[i]))
    && (r.allow <==> pieces != [] && forall c <- r.byEvidence :: Passes(c))
  }

  ghost predicate Concludes(cfg: Config, local: Local, pieces: seq<Piece>, now: Time) {
    forall p <- pieces :: ConcludeOne(cfg, local, p, now).Ok?
  }

  // ---- the code ----

  method IndexPaths(artifacts: seq<ArtifactFile>) returns (pathByName: map<string, string>)
    ensures forall name :: PathOf(artifacts, name) == if name in pathByName then pathByName[name] else ""
  {
    pathByName := map[];
    for i := 0 to |artifacts|
      invariant forall name :: PathOf(artifacts[..i], name) == if name in pathByName then pathByName[name] else ""
    {
      assert artifacts[..i + 1][..i] == artifacts[..i];
      pathByName := pathByName[artifacts[i].name := artifacts[i].path];
    }
    assert artifacts[..|artifacts|] == artifacts;
  }

  method BuildInput(cfg: Config, env: Envelope, sig: SigCheck, trusted: bool, matched: bool) returns (inp: PolicyInput)
    ensures inp == StatementInput(cfg, env, sig, trusted, matched)
  {
    inp := PolicyInput("", "", SourceFact("", map[]), sig.Valid?, trusted, matched, env.payloadType == IN_TOTO_TYPE);
    if sig.Payload().Some? {
      var st := sig.Payload().value;
      var src := SourceOf(cfg.lib, st);
      inp := inp.(predicateType := st.predicateType, builderId := BuilderOf(cfg.lib, st));
      if src.Some? {
        inp := inp.(source := src.value);
      }
    }
  }

  /** The part of the loop body that runs for a valid signature. */
  method ConcludeValid(cfg: Config, local: Local, path: string, piece: Piece, env: Envelope, sig: SigCheck,
                       times: seq<Time>, now: Time)
    returns (r: Result<EvidenceConclusion>)
    requires sig.Valid? && path == PathOf(local.artifacts, piece.artifactName)
    requires |times| == |OfflineTimes(cfg, piece)| && Earliest(times) == Earliest(OfflineTimes(cfg, piece))
    ensures r == match LocalDigest(local, piece.artifactName)
                 case Err(e) => Err(e)
                 case Ok(digest) => ConcludeSigned(cfg, piece, env, sig, digest, now)
  {
    hide OfflineTimes, Earliest, StatementInput, Digest.Matches, Digest.AllRows, Digest.Ignored;
    hide BuilderClaimed, ClassOf;
    var c := EvidenceConclusion(piece.artifactName, "", true, false, false, false, false, |times|, Insufficient);
    var builder := BuilderClaimed(cfg, sig);
    c := c.(issuerTrusted := Trust.Evaluate(cfg.root, sig.keyId, builder), keyRevoked := Revoked(cfg.rev, sig.keyId));
    if c.keyRevoked {
      c := c.(issuerTrusted := false);
    }
    if path != "" {
      var actual := local.hash(path);
      if actual.None? {
        return Err("unreadable");
      }
      var d := Digest.VerifySubjectDigest(piece.artifactName, actual.value, sig.Payload());
      Digest.MatchedIsMatches(piece.artifactName, actual.value, sig.Payload());
      c := c.(artifactSha := actual.value, digestMatched := d.matched);
    }
    var inp := BuildInput(cfg, env, sig, c.issuerTrusted, c.digestMatched);
    var res := cfg.policy(inp, now);
    if res.None? {
      return Err("policy");
    }
    var cls := Classify(cfg.rev, sig.keyId, times);
    r := Ok(c.(policyAllowed := res.value, historical := cls.cls));
  }

  method OfflinePoints(cfg: Config, piece: Piece) returns (times: seq<Time>)
    ensures multiset(times) == multiset(OfflineTimes(cfg, piece))
  {
    hide Verified;
    var sha := cfg.lib.envelopeSha(piece.envelopeJson);
    var verified := VerifyAll(cfg.lib, cfg.root, piece.evidence, sha);
    times := [];
    for i := 0 to |verified|
      invariant times == Map(Reclassify.StampTime(), verified[..i])
    {
      assert verified[..i + 1] == verified[..i] + [verified[i]];
      times := times + [verified[i].time];
    }
    assert verified[..|verified|] == verified;
    StableSortContents(Earlier, Verified(cfg.lib, cfg.root, piece.evidence, sha));
    MapPermutation(Reclassify.StampTime(), verified, Verified(cfg.lib, cfg.root, piece.evidence, sha));
  }

  /** The body of the evidence loop. */
  method ConcludePiece(cfg: Config, local: Local, path: string, piece: Piece, now: Time)
    returns (r: Result<EvidenceConclusion>)
    requires path == PathOf(local.artifacts, piece.artifactName)
    ensures r == ConcludeOne(cfg, local, piece, now)
  {
    hide OfflineTimes, Earliest, ConcludeSigned, LocalDigest;
    if !cfg.lib.decodes(piece.envelopeJson) {
      return Err("envelope");
    }
    var failed := EvidenceConclusion(piece.artifactName, "", false, false, false, false, false, 0, Insufficient);
    var env := cfg.lib.parseEnvelope(piece.envelopeJson);
    if env.None? {
      return Ok(failed);
    }
    var sig := cfg.lib.verifyEnvelope(env.value, cfg.root.pubById);
    var times := OfflinePoints(cfg, piece);
    Reclassify.SameInstants(times, OfflineTimes(cfg, piece));
    if sig.Invalid? {
      return Ok(failed.(trustedCount := |times|));
    }
    r := ConcludeValid(cfg, local, path, piece, env.value, sig, times, now);
  }

  /** Verify, once the bundle's files are read and its integrity holds. */
  method VerifyPieces(cfg: Config, local: Local, pieces: seq<Piece>, now: Time) returns (r: Result<Conclusion>)
    ensures r.Ok? <==> Concludes(cfg, local, pieces, now)
    ensures r.Ok? ==> IsConclusion(cfg, local, pieces, now, r.value)
  {
    hide ConcludeOne, PathOf;
    var pathByName := IndexPaths(local.artifacts);
    var gateAllow, hasEvidence := true, false;
    var out: seq<EvidenceConclusion> := [];
    for i := 0 to |pieces|
      invariant |out| == i && (hasEvidence <==> i > 0)
      invariant forall k :: 0 <= k < i ==> ConcludeOne(cfg, local, pieces[k], now) == Ok(out[k])
      invariant gateAllow <==> forall k :: 0 <= k < i ==> Passes(out[k])
    {
      hasEvidence := true;
      var name := pieces[i].artifactName;
      var c := ConcludePiece(cfg, local, if name in pathByName then pathByName[name] else "", pieces[i], now);
      if c.Err? {
        assert pieces[i] in pieces;
        return Err(c.error);
      }
      out := out + [c.value];
      if !c.value.signatureValid {
        gateAllow := false;
      } else if c.value.keyRevoked || !c.value.issuerTrusted || !c.value.digestMatched || !c.value.policyAllowed {
        gateAllow := false;
      }
    }
    assert forall p <- pieces :: exists k :: 0 <= k < |pieces| && pieces[k] == p;
    r := Ok(Conclusion(hasEvidence && gateAllow, out));
  }

  // ---- against the online gate ----

  /** An envelope that parses also decodes: both readings start with the same decoding. */
  ghost predicate ParsedDecodes(lib: Library) {
    forall x :: lib.parseEnvelope(x).Some? ==> lib.decodes(x)
  }

  function Online(piece: Piece): Input {
    Input("", piece.envelopeJson)
  }

  function OnlineInputs(pieces: seq<Piece>): (r: seq<Input>)
    ensures |r| == |pieces|
  {
    seq(|pieces|, i requires 0 <= i < |pieces| => Online(pieces[i]))
  }

  /** All evidence is about one artifact, whose local file has the given digest. */
  ghost predicate OneArtifact(local: Local, pieces: seq<Piece>, name: string, actual: string) {
    LocalDigest(local, name) == Ok(Some(actual)) && forall p <- pieces :: p.artifactName == name
  }

  /** The file of the piece's artifact is at hand, and online the piece fully passes for it. */
  ghost predicate FullyPassesOnline(cfg: Config, local: Local, piece: Piece, now: Time) {
    match LocalDigest(local, piece.artifactName)
    case Ok(Some(actual)) => CheckOne(cfg, Online(piece), piece.artifactName, actual, now).FullyPassed()
    case _ => false
  }

  /** Offline, a piece passes exactly when online it fully passes for the file of its artifact. */
  lemma PassesIffFullyPassed(cfg: Config, local: Local, piece: Piece, now: Time)
    requires cfg.rev.Some? && ParsedDecodes(cfg.lib)
    ensures var c := ConcludeOne(cfg, local, piece, now);
            (c.Ok? && Passes(c.value)) <==> FullyPassesOnline(cfg, local, piece, now)
  {
    hide OfflineTimes, Earliest, LocalDigest, Digest.Matches, Digest.AllRows, Digest.Ignored;
    var parsed := cfg.lib.parseEnvelope(piece.envelopeJson);
    if parsed.Some? {
      var sig := cfg.lib.verifyEnvelope(parsed.value, cfg.root.pubById);
      if sig.Payload().Some? {
        var trusted := IssuerOf(cfg, sig.keyId, BuilderOf(cfg.lib, sig.statement.value));
        assert trusted ==
               (Trust.Evaluate(cfg.root, sig.keyId, BuilderClaimed(cfg, sig)) && !Revoked(cfg.rev, sig.keyId));
      }
    }
  }

  lemma CheckedOnline(cfg: Config, pieces: seq<Piece>, name: string, actual: string, now: Time)
    ensures forall r :: r in Decision.Checked(cfg, OnlineInputs(pieces), name, actual, now) <==>
              exists p <- pieces :: r == CheckOne(cfg, Online(p), name, actual, now)
  {
    var ins := OnlineInputs(pieces);
    Decision.CheckedContains(cfg, ins, name, actual, now);
    hide CheckOne;
    forall p <- pieces ensures Online(p) in ins {
      var i :| 0 <= i < |pieces| && pieces[i] == p;
      assert ins[i] == Online(p);
    }
    forall x <- ins ensures exists p <- pieces :: x == Online(p) {
      var i :| 0 <= i < |ins| && ins[i] == x;
      assert pieces[i] in pieces;
    }
  }

  ghost predicate Allows(cfg: Config, local: Local, pieces: seq<Piece>, now: Time) {
    Concludes(cfg, local, pieces, now) &&
    forall r :: IsConclusion(cfg, local, pieces, now, r) ==> r.allow
  }

  lemma AllowsExact(cfg: Config, local: Local, pieces: seq<Piece>, now: Time)
    ensures Allows(cfg, local, pieces, now) <==>
            pieces != [] && forall p <- pieces :: var c := ConcludeOne(cfg, local, p, now); c.Ok? && Passes(c.value)
  {
    hide ConcludeOne;
    if Concludes(cfg, local, pieces, now) {
      var out := seq(|pieces|, i requires 0 <= i < |pieces| => ConclusionAt(cfg, local, pieces, now, i));
      var r := Conclusion(pieces != [] && forall c <- out :: Passes(c), out);
      assert IsConclusion(cfg, local, pieces, now, r);
      if r.allow {
        forall p <- pieces ensures Passes(ConcludeOne(cfg, local, p, now).value) {
          var i :| 0 <= i < |pieces| && pieces[i] == p;
          assert out[i] in out;
        }
      }
    }
  }

  ghost function ConclusionAt(cfg: Config, local: Local, pieces: seq<Piece>, now: Time, i: nat): EvidenceConclusion
    requires i < |pieces| && Concludes(cfg, local, pieces, now)
  {
    assert pieces[i] in pieces;
    ConcludeOne(cfg, local, pieces[i], now).value
  }

  /** Offline allow: there is evidence, and each piece fully passes the online checks for the file of its artifact. */
  lemma OfflineAllowExact(cfg: Config, local: Local, pieces: seq<Piece>, now: Time)
    requires cfg.rev.Some? && ParsedDecodes(cfg.lib)
    ensures Allows(cfg, local, pieces, now) <==>
            pieces != [] && forall p <- pieces :: FullyPassesOnline(cfg, local, p, now)
  {
    hide ConcludeOne, FullyPassesOnline, Allows;
    AllowsExact(cfg, local, pieces, now);
    forall p <- pieces
      ensures var c := ConcludeOne(cfg, local, p, now);
              (c.Ok? && Passes(c.value)) <==> FullyPassesOnline(cfg, local, p, now)
    {
      PassesIffFullyPassed(cfg, local, p, now);
    }
  }

  /** For one artifact, all online results fully pass. */
  lemma OneArtifactAllowExact(cfg: Config, local: Local, pieces: seq<Piece>, name: string, actual: string, now: Time)
    requires cfg.rev.Some? && ParsedDecodes(cfg.lib) && OneArtifact(local, pieces, name, actual)
    ensures var rs := Decision.Checked(cfg, OnlineInputs(pieces), name, actual, now);
            Allows(cfg, local, pieces, now) <==> pieces != [] && forall r <- rs :: r.FullyPassed()
  {
    hide LocalDigest, CheckOne, Allows;
    OfflineAllowExact(cfg, local, pieces, now);
    CheckedOnline(cfg, pieces, name, actual, now);
    assert forall p <- pieces ::
        FullyPassesOnline(cfg, local, p, now) <==> CheckOne(cfg, Online(p), name, actual, now).FullyPassed();
  }

  /** Some piece carries a named claim about the artifact under an algorithm other than sha256. */
  ghost predicate AnyForeignClaim(cfg: Config, pieces: seq<Piece>, name: string) {
    exists p <- pieces :: HasForeignClaim(cfg, p, name)
  }

  ghost predicate HasForeignClaim(cfg: Config, piece: Piece, name: string) {
    match cfg.lib.parseEnvelope(piece.envelopeJson)
    case None => false
    case Some(env) =>
      var sig := cfg.lib.verifyEnvelope(env, cfg.root.pubById);
      sig.Payload().Some? && Digest.ForeignClaim(name, sig.Payload().value)
  }

  lemma PassedFailsOnlyByForeignClaim(cfg: Config, piece: Piece, name: string, actual: string, now: Time)
    requires CheckOne(cfg, Online(piece), name, actual, now).FullyPassed()
    ensures Decision.DigestFailed(CheckOne(cfg, Online(piece), name, actual, now)) <==>
            HasForeignClaim(cfg, piece, name)
  {
    hide Digest.AllRows, Digest.Ignored, Digest.AnyExplicitMismatch;
    var env := cfg.lib.parseEnvelope(piece.envelopeJson).value;
    var sig := cfg.lib.verifyEnvelope(env, cfg.root.pubById);
    Digest.MismatchExact(name, actual, sig.Payload());
  }

  /** For one artifact, what offline allows, online denies exactly when some of it carries a foreign claim;
      otherwise online allows it too, or asks for review because the passing evidence disagrees. */
  lemma OneArtifactRefinesOnline(cfg: Config, local: Local, pieces: seq<Piece>, name: string, actual: string, now: Time)
    requires cfg.rev.Some? && ParsedDecodes(cfg.lib) && OneArtifact(local, pieces, name, actual)
    requires Allows(cfg, local, pieces, now)
    ensures var rs := Decision.Checked(cfg, OnlineInputs(pieces), name, actual, now);
            && (Decision.Decide(rs) == Deny <==> AnyForeignClaim(cfg, pieces, name))
            && (Decision.Decide(rs) == NeedsReview <==> !AnyForeignClaim(cfg, pieces, name) && Decision.Conflicting(rs))
  {
    hide LocalDigest, Allows, CheckOne, HasForeignClaim, Decision.DigestFailed, Decision.Conflicting;
    OneArtifactAllowExact(cfg, local, pieces, name, actual, now);
    CheckedOnline(cfg, pieces, name, actual, now);
    var rs := Decision.Checked(cfg, OnlineInputs(pieces), name, actual, now);
    assert pieces[0] in pieces;
    assert CheckOne(cfg, Online(pieces[0]), name, actual, now) in rs;
    forall p <- pieces
      ensures Decision.DigestFailed(CheckOne(cfg, Online(p), name, actual, now)) <==> HasForeignClaim(cfg, p, name)
    {
      assert CheckOne(cfg, Online(p), name, actual, now) in rs;
      PassedFailsOnlyByForeignClaim(cfg, p, name, actual, now);
    }
  }

  function About(name: string): Piece -> bool {
    (p: Piece) => p.artifactName == name
  }

  /** What allows a bundle allows each part of its evidence. */
  lemma AllowsPart(cfg: Config, local: Local, pieces: seq<Piece>, part: seq<Piece>, now: Time)
    requires Allows(cfg, local, pieces, now) && part != [] && forall p <- part :: p in pieces
    ensures Allows(cfg, local, part, now)
  {
    hide ConcludeOne, Allows;
    AllowsExact(cfg, local, pieces, now);
    AllowsExact(cfg, local, part, now);
  }

  lemma AllowedHasFile(cfg: Config, local: Local, pieces: seq<Piece>, p: Piece, now: Time)
    requires cfg.rev.Some? && ParsedDecodes(cfg.lib) && Allows(cfg, local, pieces, now) && p in pieces
    ensures LocalDigest(local, p.artifactName).Ok? && LocalDigest(local, p.artifactName).value.Some?
  {
    hide Allows, CheckOne, LocalDigest;
    OfflineAllowExact(cfg, local, pieces, now);
    assert FullyPassesOnline(cfg, local, p, now);
  }

  /** When a bundle is allowed, the file of every artifact it has evidence about is at hand, and for each of them online
      denies exactly when some of its evidence carries a foreign claim, and holds for review exactly when otherwise its
      evidence disagrees. */
  lemma OfflineRefinesOnline(cfg: Config, local: Local, pieces: seq<Piece>, p: Piece, now: Time)
    requires cfg.rev.Some? && ParsedDecodes(cfg.lib) && Allows(cfg, local, pieces, now) && p in pieces
    ensures LocalDigest(local, p.artifactName).Ok? && LocalDigest(local, p.artifactName).value.Some?
    ensures var name, actual := p.artifactName, LocalDigest(local, p.artifactName).value.value;
            var part := Filter(About(name), pieces);
            var rs := Decision.Checked(cfg, OnlineInputs(part), name, actual, now);
            && (Decision.Decide(rs) == Deny <==> AnyForeignClaim(cfg, part, name))
            && (Decision.Decide(rs) == NeedsReview <==> !AnyForeignClaim(cfg, part, name) && Decision.Conflicting(rs))
  {
    AllowedHasFile(cfg, local, pieces, p, now);
    var name, actual := p.artifactName, LocalDigest(local, p.artifactName).value.value;
    var part := Filter(About(name), pieces);
    assert p in part && forall q <- part :: q in pieces && q.artifactName == name;
    hide LocalDigest, Allows, Decision.Decide, Decision.Conflicting, AnyForeignClaim, Filter;
    AllowsPart(cfg, local, pieces, part, now);
    OneArtifactRefinesOnline(cfg, local, part, name, actual, now);
  }

  function SplitStatement(): Statement {
    Statement([Subject("a", map["sha256" := "00", "sha512" := "ff"])], SLSA_TYPE, "")
  }

  function SplitSetting(): Config {
    Config(Library(x => true, x => Some(Envelope(IN_TOTO_TYPE, "p", ["s"])), x => x,
                   (e: Envelope, keys) => Valid("k", Some(SplitStatement())), x => Some(Provenance("b", None, [])),
                   x => None, x => Some(x), x => x, (k, ev) => false),
           RootView(map["k" := TrustedKey("k", "b", "k")], map["k" := "k"], map[]),
           Some(RevList(1, map[], [])), (inp, now) => Some(true))
  }

  const SPLIT_LOCAL := Local([ArtifactFile("a", "p")], path => Some("00"))
  const SPLIT_PIECE := Piece("e", "a", [])

  lemma SplitConfigured()
    ensures SplitSetting().rev.Some? && ParsedDecodes(SplitSetting().lib)
  {
  }

  lemma SplitMatches()
    ensures Digest.Matches("a", "00", Some(SplitStatement())) && Digest.ForeignClaim("a", SplitStatement())
  {
    var s := SplitStatement().subject[0];
    assert s in SplitStatement().subject && Digest.SHA256 in s.digest && "sha512" in s.digest;
    assert Digest.LowerHex("00") == "00";
    hide Digest.LowerHex;
  }

  lemma SplitPasses()
    ensures CheckOne(SplitSetting(), Online(SPLIT_PIECE), "a", "00", 0).FullyPassed()
    ensures HasForeignClaim(SplitSetting(), SPLIT_PIECE, "a")
  {
    SplitMatches();
    hide SplitStatement, Digest.Matches, Digest.ForeignClaim, Digest.AllRows, Digest.Ignored;
    assert SplitStatement().predicateType == SLSA_TYPE by {
      SplitIsProvenance();
    }
  }

  lemma SplitIsProvenance()
    ensures SplitStatement().predicateType == SLSA_TYPE
  {
  }

  lemma SplitFile()
    ensures LocalDigest(SPLIT_LOCAL, "a") == Ok(Some("00"))
  {
    assert SPLIT_LOCAL.artifacts[..0] == [];
  }

  /** A statement whose target also carries a named sha512 claim: allowed offline, denied online. */
  lemma ForeignClaimSplitsTheGates()
    ensures Allows(SplitSetting(), SPLIT_LOCAL, [SPLIT_PIECE], 0)
    ensures Decision.Decide(Decision.Checked(SplitSetting(), OnlineInputs([SPLIT_PIECE]), "a", "00", 0)) == Deny
  {
    SplitPasses();
    SplitFile();
    SplitConfigured();
    assert SPLIT_PIECE.artifactName == "a" && SPLIT_PIECE in [SPLIT_PIECE];
    hide *;
    OnlyPiece(SplitSetting(), SPLIT_LOCAL, SPLIT_PIECE, "a", "00", 0);
  }

  lemma OnlyPiece(cfg: Config, local: Local, piece: Piece, name: string, actual: string, now: Time)
    requires cfg.rev.Some? && ParsedDecodes(cfg.lib)
    requires LocalDigest(local, name) == Ok(Some(actual)) && piece.artifactName == name
    requires CheckOne(cfg, Online(piece), name, actual, now).FullyPassed() && HasForeignClaim(cfg, piece, name)
    ensures Allows(cfg, local, [piece], now)
    ensures Decision.Decide(Decision.Checked(cfg, OnlineInputs([piece]), name, actual, now)) == Deny
  {
    hide CheckOne, LocalDigest, HasForeignClaim, ParsedDecodes, Allows, Decision.Decide;
    assert piece in [piece];
    CheckedOnline(cfg, [piece], name, actual, now);
    OneArtifactAllowExact(cfg, local, [piece], name, actual, now);
    OneArtifactRefinesOnline(cfg, local, [piece], name, actual, now);
  }

  /** Under the shipped policy the policy's verdict alone is the conjunction of all four checks. */
  lemma PolicyDecidesAlone(cfg: Config, input: Input, name: string, actual: string, now: Time)
    requires cfg.policy == Policy.Shipped()
    ensures var r := CheckOne(cfg, input, name, actual, now); r.policyAllowed <==> r.FullyPassed()
  {
    hide Digest.AllRows, Digest.Ignored, Digest.Matches;
    var parsed := cfg.lib.parseEnvelope(input.envelopeJson);
    if parsed.Some? {
      var sig := cfg.lib.verifyEnvelope(parsed.value, cfg.root.pubById);
      if sig.Payload().Some? {
        var st := sig.Payload().value;
        var trusted := IssuerOf(cfg, sig.keyId, BuilderOf(cfg.lib, st));
        var matched := Digest.Matches(name, actual, sig.Payload());
        Policy.ShippedAllows(PolicyInputFor(cfg, parsed.value, sig, st, trusted, matched), now);
      }
    }
  }

  /** The historical class given offline is that of a review over a store holding the same instants. */
  lemma HistoricalClassAgrees(cfg: Config, local: Local, piece: Piece, now: Time, s: Tables.State,
                              rec: AttestationRecord)
    requires rec.envelopeJson == piece.envelopeJson && ConcludeOne(cfg, local, piece, now).Ok?
    requires ToSet(OfflineTimes(cfg, piece)) ==
               ToSet(Reclassify.TrustedTimes(cfg, s, cfg.lib.envelopeSha(rec.envelopeJson)))
    ensures ConcludeOne(cfg, local, piece, now).value.historical == Reclassify.ReviewAttestation(cfg, s, rec).cls
  {
    hide OfflineTimes, Reclassify.TrustedTimes, Earliest, Digest.Matches, LocalDigest;
    var times := Reclassify.TrustedTimes(cfg, s, cfg.lib.envelopeSha(rec.envelopeJson));
    EarliestCorrect(OfflineTimes(cfg, piece));
    EarliestCorrect(times);
  }
}
