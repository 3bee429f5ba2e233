/** What the download gate's conclusions and decisions mean: for the envelopes, provenances and keys behind them. */
module GateMeaning {
  import opened Base
  import opened Model
  import opened Check
  import opened Decision
  import ConflictKey
  import Digest
  import Policy
  import Revoke
  import TrustMaterial

  // ---- one attestation ----

  /** The source a provenance states; one that states none reads as empty. */
  ghost function StatedSource(prov: Provenance): SourceFact {
    match prov.source case Some(src) => src case None => SourceFact("", map[])
  }

  /** What the policy sees of a provenance whose other three checks hold. */
  ghost function PassingInput(env: Envelope, prov: Provenance): PolicyInput {
    PolicyInput("https://slsa.dev/provenance/v1", prov.builderId, StatedSource(prov), true, true, true,
                env.payloadType == "https://in-toto.io/Statement/v1")
  }

  /** All four checks, on what the envelope carries: its key is unrevoked and bound to the builder claimed, the
      statement bears out the file, and the policy allows what it states. */
  ghost predicate PassesWith(cfg: Config, json: string, name: string, actual: string, now: Time, env: Envelope,
                             key: string, st: Statement, prov: Provenance) {
    && Presents(cfg, json, env, key, st) && Claims(cfg.lib, st, prov) && BoundTo(cfg, key, prov.builderId)
    && Digest.Matches(name, actual, Some(st)) && cfg.policy(PassingInput(env, prov), now) == Some(true)
  }

  ghost predicate Passing(cfg: Config, json: string, name: string, actual: string, now: Time) {
    exists env, key, st, prov :: PassesWith(cfg, json, name, actual, now, env, key, st, prov)
  }

  lemma PassesWithPasses(cfg: Config, input: Input, name: string, actual: string, now: Time, env: Envelope,
                         key: string, st: Statement, prov: Provenance)
    requires PassesWith(cfg, input.envelopeJson, name, actual, now, env, key, st, prov)
    ensures var r := CheckOne(cfg, input, name, actual, now);
            r.FullyPassed() && r.acceptedKeyId == key && r.builderId == prov.builderId
            && r.source == Some(StatedSource(prov))
  {
    hide Digest.Matches, Digest.AllRows, Digest.Ignored;
  }

  lemma PassedPassesWith(cfg: Config, input: Input, name: string, actual: string, now: Time)
    returns (env: Envelope, key: string, st: Statement, prov: Provenance)
    requires CheckOne(cfg, input, name, actual, now).FullyPassed()
    ensures PassesWith(cfg, input.envelopeJson, name, actual, now, env, key, st, prov)
  {
    hide Digest.Matches, Digest.AllRows, Digest.Ignored;
    env := cfg.lib.parseEnvelope(input.envelopeJson).value;
    var sig := cfg.lib.verifyEnvelope(env, cfg.root.pubById);
    key, st := sig.keyId, sig.statement.value;
    prov := ProvenanceOf(cfg.lib, st).value;
  }

  /** A result fully passes exactly when its envelope passes all four checks. */
  lemma FullyPassedExact(cfg: Config, input: Input, name: string, actual: string, now: Time)
    ensures CheckOne(cfg, input, name, actual, now).FullyPassed() <==>
            Passing(cfg, input.envelopeJson, name, actual, now)
  {
    hide CheckOne, PassesWith;
    if CheckOne(cfg, input, name, actual, now).FullyPassed() {
      var env, key, st, prov := PassedPassesWith(cfg, input, name, actual, now);
    }
    if env, key, st, prov :| PassesWith(cfg, input.envelopeJson, name, actual, now, env, key, st, prov) {
      PassesWithPasses(cfg, input, name, actual, now, env, key, st, prov);
    }
  }

  /** Under the shipped policy that means: one of the two builders, the one repository at a pinned commit, the right
      payload type, and the year 2026. */
  lemma ShippedPassExact(cfg: Config, json: string, name: string, actual: string, now: Time, env: Envelope,
                         key: string, st: Statement, prov: Provenance)
    requires cfg.policy == Policy.Shipped()
    ensures PassesWith(cfg, json, name, actual, now, env, key, st, prov) <==>
            && Presents(cfg, json, env, key, st) && Claims(cfg.lib, st, prov) && BoundTo(cfg, key, prov.builderId)
            && Digest.Matches(name, actual, Some(st)) && Policy.Demands(PassingInput(env, prov), now)
  {
    hide Presents, Claims, BoundTo, Digest.Matches, Policy.Demands, Policy.Shipped;
    Policy.ShippedAllows(PassingInput(env, prov), now);
  }

  /** The other conclusions about one attestation, in the same terms. */
  lemma ConclusionExact(cfg: Config, input: Input, name: string, actual: string, now: Time)
    ensures var r, json := CheckOne(cfg, input, name, actual, now), input.envelopeJson;
            && (r.signatureValid <==> exists key :: SignedWith(cfg, json, key))
            && (forall key :: SignedWith(cfg, json, key) ==> r.acceptedKeyId == key)
            && (r.digest.matched <==>
                exists env, key, st :: Presents(cfg, json, env, key, st) && Digest.Matches(name, actual, Some(st)))
            && (r.RevocationHit() <==>
                exists env, key, st :: Presents(cfg, json, env, key, st) && key != "" && !Unrevoked(cfg.rev, key))
  {
    hide Digest.Matches, Digest.AllRows, Digest.Ignored;
    var json := input.envelopeJson;
    var parsed := cfg.lib.parseEnvelope(json);
    if parsed.Some? {
      var sig := cfg.lib.verifyEnvelope(parsed.value, cfg.root.pubById);
      assert sig.Valid? ==> SignedWith(cfg, json, sig.keyId);
      if sig.Payload().Some? {
        assert Presents(cfg, json, parsed.value, sig.keyId, sig.statement.value);
      }
    }
  }

  /** What the policy is shown of a statement, passing or not. */
  ghost predicate Shows(cfg: Config, json: string, name: string, actual: string, env: Envelope, st: Statement,
                        inp: PolicyInput) {
    && inp.predicateType == st.predicateType && inp.signatureValid
    && (forall prov :: Claims(cfg.lib, st, prov) ==>
          inp.builderId == prov.builderId && inp.source == StatedSource(prov))
    && ((forall prov :: !Claims(cfg.lib, st, prov)) ==> inp.builderId == "" && inp.source == SourceFact("", map[]))
    && (inp.issuerTrusted <==> IssuerBound(cfg, json))
    && (inp.digestMatch <==> Digest.Matches(name, actual, Some(st)))
    && (inp.payloadTypeCorrect <==> env.payloadType == "https://in-toto.io/Statement/v1")
  }

  lemma PolicyExact(cfg: Config, input: Input, name: string, actual: string, now: Time)
    ensures CheckOne(cfg, input, name, actual, now).policyAllowed <==>
            exists env, key, st, inp ::
              Presents(cfg, input.envelopeJson, env, key, st)
              && Shows(cfg, input.envelopeJson, name, actual, env, st, inp) && cfg.policy(inp, now) == Some(true)
  {
    IssuerExact(cfg, input, name, actual, now);
    hide Digest.Matches, Digest.AllRows, Digest.Ignored, IssuerBound;
    var json := input.envelopeJson;
    var parsed := cfg.lib.parseEnvelope(json);
    if parsed.Some? {
      var sig := cfg.lib.verifyEnvelope(parsed.value, cfg.root.pubById);
      if sig.Payload().Some? {
        var st := sig.statement.value;
        var prov := ProvenanceOf(cfg.lib, st);
        var inp := PolicyInputFor(cfg, parsed.value, sig, st, IssuerBound(cfg, json),
                                  Digest.Matches(name, actual, Some(st)));
        assert prov.Some? ==> Claims(cfg.lib, st, prov.value);
        assert Presents(cfg, json, parsed.value, sig.keyId, st);
        assert Shows(cfg, json, name, actual, parsed.value, st, inp);
        forall x | Shows(cfg, json, name, actual, parsed.value, st, x) ensures x == inp {
        }
      }
    }
  }

  /** Clean evidence, in the same terms. */
  lemma CleanExact(cfg: Config, input: Input, name: string, actual: string)
    ensures CleanEvidence(cfg, input, name, actual) <==>
            exists env, key, st :: Presents(cfg, input.envelopeJson, env, key, st) && Unrevoked(cfg.rev, key)
                                   && Digest.Matches(name, actual, Some(st)) && !Digest.ForeignClaim(name, st)
  {
    hide Digest.Matches, Digest.ForeignClaim;
    if CleanEvidence(cfg, input, name, actual) {
      var env := cfg.lib.parseEnvelope(input.envelopeJson).value;
      var sig := cfg.lib.verifyEnvelope(env, cfg.root.pubById);
      assert Presents(cfg, input.envelopeJson, env, sig.keyId, sig.statement.value);
    }
  }

  // ---- the decision ----

  ghost predicate AllClean(cfg: Config, inputs: seq<Input>, name: string, actual: string) {
    forall x <- inputs :: CleanEvidence(cfg, x, name, actual)
  }

  ghost predicate SomePassing(cfg: Config, inputs: seq<Input>, name: string, actual: string, now: Time) {
    exists x <- inputs :: Passing(cfg, x.envelopeJson, name, actual, now)
  }

  /** Two envelopes that pass, with different builder and source as the conflict key reads them. */
  ghost predicate Disagree(cfg: Config, inputs: seq<Input>, name: string, actual: string, now: Time) {
    exists x <- inputs, y <- inputs, env, key, st, prov, env', key', st', prov' ::
      && PassesWith(cfg, x.envelopeJson, name, actual, now, env, key, st, prov)
      && PassesWith(cfg, y.envelopeJson, name, actual, now, env', key', st', prov')
      && ConflictKey.KeyOf(prov.builderId, Some(StatedSource(prov)))
           != ConflictKey.KeyOf(prov'.builderId, Some(StatedSource(prov')))
  }

  lemma AnyPassedExact(cfg: Config, inputs: seq<Input>, name: string, actual: string, now: Time)
    ensures AnyPassed(Checked(cfg, inputs, name, actual, now)) <==> SomePassing(cfg, inputs, name, actual, now)
  {
    hide CheckOne, Passing, Checked;
    CheckedContains(cfg, inputs, name, actual, now);
    forall x <- inputs
      ensures CheckOne(cfg, x, name, actual, now).FullyPassed() <==> Passing(cfg, x.envelopeJson, name, actual, now)
    {
      FullyPassedExact(cfg, x, name, actual, now);
    }
  }

  lemma ConflictingExact(cfg: Config, inputs: seq<Input>, name: string, actual: string, now: Time)
    ensures Conflicting(Checked(cfg, inputs, name, actual, now)) <==> Disagree(cfg, inputs, name, actual, now)
  {
    hide CheckOne, PassesWith, ConflictKey.KeyOf, Checked;
    var rs := Checked(cfg, inputs, name, actual, now);
    CheckedContains(cfg, inputs, name, actual, now);
    if a, b :| a in rs && b in rs && Clash(a, b) {
      var x :| x in inputs && a == CheckOne(cfg, x, name, actual, now);
      var y :| y in inputs && b == CheckOne(cfg, y, name, actual, now);
      var env, key, st, prov := PassedPassesWith(cfg, x, name, actual, now);
      var env', key', st', prov' := PassedPassesWith(cfg, y, name, actual, now);
      PassesWithPasses(cfg, x, name, actual, now, env, key, st, prov);
      PassesWithPasses(cfg, y, name, actual, now, env', key', st', prov');
    }
    if Disagree(cfg, inputs, name, actual, now) {
      var x, y, env, key, st, prov, env', key', st', prov' :|
        && x in inputs && y in inputs
        && PassesWith(cfg, x.envelopeJson, name, actual, now, env, key, st, prov)
        && PassesWith(cfg, y.envelopeJson, name, actual, now, env', key', st', prov')
        && ConflictKey.KeyOf(prov.builderId, Some(StatedSource(prov)))
             != ConflictKey.KeyOf(prov'.builderId, Some(StatedSource(prov')));
      PassesWithPasses(cfg, x, name, actual, now, env, key, st, prov);
      PassesWithPasses(cfg, y, name, actual, now, env', key', st', prov');
      assert Clash(CheckOne(cfg, x, name, actual, now), CheckOne(cfg, y, name, actual, now));
    }
  }

  /** The three decisions: deny for any unclean evidence or when nothing passes, review when what passes disagrees,
      allow otherwise. */
  lemma DecisionExact(cfg: Config, inputs: seq<Input>, name: string, actual: string, now: Time)
    requires FeedNamesKeys(cfg)
    ensures var d := Decide(Checked(cfg, inputs, name, actual, now));
            var clean := AllClean(cfg, inputs, name, actual);
            var some := SomePassing(cfg, inputs, name, actual, now);
            var split := Disagree(cfg, inputs, name, actual, now);
            && (d == Deny <==> !clean || !some)
            && (d == NeedsReview <==> clean && some && split)
            && (d == Allow <==> clean && some && !split)
  {
    hide Checked, CleanEvidence, SomePassing, Disagree, Conflicting, AnyPassed, DigestFailed;
    NotDeniedExact(cfg, inputs, name, actual, now);
    AnyPassedExact(cfg, inputs, name, actual, now);
    ConflictingExact(cfg, inputs, name, actual, now);
  }

  // ---- from the files an operator writes ----

  /** Under a trust root file and a feed, a key is bound to a builder exactly when an entry of the file says so and no
      event of the feed names the key. */
  lemma BoundByFile(ps: TrustMaterial.Parsers, rootText: string, policyText: string, feedText: string, key: string,
                    builder: string)
    requires TrustMaterial.Loaded(ps, rootText, policyText, feedText).Some?
    ensures BoundTo(TrustMaterial.Loaded(ps, rootText, policyText, feedText).value, key, builder) <==>
            && builder != ""
            && (exists k <- ps.root(rootText).value.keys :: k.keyId == key && k.issuer == builder)
            && (forall e <- ps.feed(feedText).value.events :: e.keyId != key)
  {
    var cfg := TrustMaterial.Loaded(ps, rootText, policyText, feedText).value;
    TrustMaterial.LoadedIsSound(ps, rootText, policyText, feedText);
    TrustMaterial.ListedExact(ps, rootText, policyText, feedText, key);
    hide TrustMaterial.Loaded, Revoke.Filed, FeedNamesKeys;
    if key in cfg.root.byId {
      var k :| k in ps.root(rootText).value.keys && k.keyId == key;
      assert cfg.root.byId[key] == k;
    }
  }

  /** Allow vouches for one envelope at least: signed by a key that the trust root file binds to exactly the builder the
      provenance claims, and that no event of the feed names. */
  lemma AllowIsBound(ps: TrustMaterial.Parsers, rootText: string, policyText: string, feedText: string,
                     inputs: seq<Input>, name: string, actual: string, now: Time)
    returns (x: Input, env: Envelope, key: string, st: Statement, prov: Provenance, k: TrustedKey)
    requires TrustMaterial.Loaded(ps, rootText, policyText, feedText).Some?
    requires var cfg := TrustMaterial.Loaded(ps, rootText, policyText, feedText).value;
             Decide(Checked(cfg, inputs, name, actual, now)) == Allow
    ensures var cfg := TrustMaterial.Loaded(ps, rootText, policyText, feedText).value;
            x in inputs && PassesWith(cfg, x.envelopeJson, name, actual, now, env, key, st, prov)
    ensures k in ps.root(rootText).value.keys && k.keyId == key && k.issuer == prov.builderId
    ensures forall e <- ps.feed(feedText).value.events :: e.keyId != key
  {
    var cfg := TrustMaterial.Loaded(ps, rootText, policyText, feedText).value;
    hide TrustMaterial.Loaded, CheckOne, Checked, CleanEvidence, Disagree, Decide;
    TrustMaterial.LoadedIsSound(ps, rootText, policyText, feedText);
    DecisionExact(cfg, inputs, name, actual, now);
    x :| x in inputs && Passing(cfg, x.envelopeJson, name, actual, now);
    env, key, st, prov :| PassesWith(cfg, x.envelopeJson, name, actual, now, env, key, st, prov);
    BoundByFile(ps, rootText, policyText, feedText, key, prov.builderId);
    k :| k in ps.root(rootText).value.keys && k.keyId == key && k.issuer == prov.builderId;
  }
}
