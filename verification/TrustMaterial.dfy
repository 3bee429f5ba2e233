/** internal/offline/verify.go: the configuration that the texts of a trust root, a policy and a feed amount to. */
module TrustMaterial {
  import opened Base
  import opened Model
  import Decision
  import Revoke
  import Trust

  type Engine = (PolicyInput, Time) -> Option<bool>

  /** A revocation feed after JSON decoding. */
  datatype Feed = Feed(version: int, events: seq<Revoke.FeedEvent>)

  /** Decoding the three texts; everything after decoding is modelled. */
  datatype Parsers = Parsers(lib: Library, root: string -> Option<Trust.RootFile>, policy: string -> Option<Engine>,
                             feed: string -> Option<Feed>)

  ghost function RevListOf(lib: Library, feed: Feed): RevList {
    Revoke.ListOf(lib, feed.version, feed.events)
  }

  ghost function RevokedKeys(lib: Library, feed: Feed): map<string, string> {
    var l := RevListOf(lib, feed);
    Revoke.CarriedKeys(lib, l, l.keyOrder)
  }

  /** The root's indexes, with the keys the feed carries known for signature checking unless they are already. */
  ghost function RootWith(lib: Library, f: Trust.RootFile, feed: Feed): RootView {
    var root := Trust.RootOf(lib, f);
    root.(pubById := RevokedKeys(lib, feed) + root.pubById)
  }

  /** The configuration of an offline check, when all three texts are acceptable. */
  ghost function Loaded(ps: Parsers, rootText: string, policyText: string, feedText: string): Option<Config> {
    match (ps.root(rootText), ps.policy(policyText), ps.feed(feedText))
    case (Some(f), Some(engine), Some(feed)) =>
      if Trust.Acceptable(ps.lib, f) && Revoke.GoodFeed(ps.lib, feed.events)
      then Some(Config(ps.lib, RootWith(ps.lib, f, feed), Some(RevListOf(ps.lib, feed)), engine))
      else None
    case _ => None
  }

  // ---- the code ----

  lemma OneMore(done: map<string, string>, known: map<string, string>, id: string, pub: string)
    requires id !in done
    ensures map[id := pub] + (done + known) == done[id := pub] + known
  {
  }

  lemma FiledUnder(lib: Library, keys: map<string, string>, id: string)
    requires Revoke.UnderFingerprint(lib, keys) && id in keys
    ensures lib.fingerprint(keys[id]) == id
  {
  }

  /** Keys are registered one by one, in any order. */
  method RegisterAll(root: Trust.TrustRoot, keys: map<string, string>)
    requires Trust.Indexed(root.lib, root.View()) && Revoke.UnderFingerprint(root.lib, keys)
    modifies root`pubById
    ensures Trust.Indexed(root.lib, root.View()) && root.pubById == keys + old(root.pubById)
  {
    hide Trust.Indexed, Revoke.UnderFingerprint;
    var rest := keys.Keys;
    ghost var done: map<string, string> := map[];
    while rest != {}
      invariant rest <= keys.Keys && Trust.Indexed(root.lib, root.View())
      invariant done.Keys == keys.Keys - rest && forall id <- done.Keys :: done[id] == keys[id]
      invariant root.pubById == done + old(root.pubById)
    {
      var id :| id in rest;
      OneMore(done, old(root.pubById), id, keys[id]);
      FiledUnder(root.lib, keys, id);
      root.AddKnownButUntrustedKey(keys[id]);
      done, rest := done[id := keys[id]], rest - {id};
    }
    assert done == keys;
  }

  method RegisterRevoked(root: Trust.TrustRoot, l: RevList, ghost feed: Feed)
    requires Trust.Indexed(root.lib, root.View()) && Revoke.GoodFeed(root.lib, feed.events)
    requires l == RevListOf(root.lib, feed)
    modifies root`pubById
    ensures Trust.Indexed(root.lib, root.View()) && root.pubById == RevokedKeys(root.lib, feed) + old(root.pubById)
  {
    Revoke.GoodPemsParse(root.lib, feed.version, feed.events);
    Revoke.CarriedAreFingerprinted(root.lib, feed.version, feed.events, |feed.events|);
    assert l.keyOrder[..|feed.events|] == l.keyOrder;
    hide Revoke.GoodFeed, Revoke.ListOf, Revoke.CarriedKeys, Revoke.PemsParse, Revoke.UnderFingerprint, Trust.Indexed;
    var pubs := Revoke.KnownPublicKeys(root.lib, l);
    if pubs.Some? {
      RegisterAll(root, pubs.value);
    }
  }

  /** Parses the trust root, the policy and the feed in turn; the first that is not acceptable ends the check. */
  method Load(ps: Parsers, rootText: string, policyText: string, feedText: string) returns (r: Option<Config>)
    ensures r == Loaded(ps, rootText, policyText, feedText)
  {
    hide Trust.Acceptable, Revoke.GoodFeed, Revoke.ListOf, Trust.RootOf, Trust.Indexed, RevokedKeys;
    var f := ps.root(rootText);
    if f.None? {
      return None;
    }
    var root := Trust.ParseRoot(ps.lib, f.value);
    if root.Err? {
      return None;
    }
    var engine := ps.policy(policyText);
    if engine.None? {
      return None;
    }
    var feed := ps.feed(feedText);
    if feed.None? {
      return None;
    }
    var l := Revoke.ParseFeed(ps.lib, feed.value.version, feed.value.events);
    if l.Err? {
      return None;
    }
    RegisterRevoked(root.value, l.value, feed.value);
    var known := root.value.KnownKeys();
    r := Some(Config(ps.lib, RootView(root.value.byId, known, root.value.tsaById), Some(l.value), engine.value));
  }

  // ---- what a loaded configuration guarantees ----

  /** A loaded configuration has a revocation list that names its keys and holds the feed's instants, every key indexed
      under its fingerprint, and exactly the file's keys as anchors. */
  lemma LoadedIsSound(ps: Parsers, rootText: string, policyText: string, feedText: string)
    requires Loaded(ps, rootText, policyText, feedText).Some?
    ensures var cfg := Loaded(ps, rootText, policyText, feedText).value;
            && cfg.lib == ps.lib && cfg.rev.Some? && Decision.FeedNamesKeys(cfg)
            && Trust.Indexed(cfg.lib, cfg.root)
            && Trust.HoldsFile(cfg.lib, cfg.root, ps.root(rootText).value)
            && forall e <- ps.feed(feedText).value.events :: Revoke.Filed(cfg.lib, cfg.rev.value, e)
  {
    var f, feed := ps.root(rootText).value, ps.feed(feedText).value;
    Trust.RootIsIndexed(ps.lib, f);
    NoEmptyKey(ps.lib, feed);
    Revoke.AllFiled(ps.lib, feed.version, feed.events);
    Revoke.CarriedAreFingerprinted(ps.lib, feed.version, feed.events, |feed.events|);
    var order := RevListOf(ps.lib, feed).keyOrder;
    assert order[..|feed.events|] == order;
    hide Trust.RootOf, Trust.Acceptable, Trust.Indexed, Revoke.GoodFeed, Revoke.CarriedKeys, Revoke.EventIndex;
    hide Revoke.UnderFingerprint, Revoke.Filed, Trust.HoldsFile;
    MoreKnown(ps.lib, Trust.RootOf(ps.lib, f), RevokedKeys(ps.lib, feed), f);
  }

  lemma NoEmptyKey(lib: Library, feed: Feed)
    requires Revoke.GoodFeed(lib, feed.events)
    ensures "" !in RevListOf(lib, feed).events
  {
    Revoke.EventIndexed(lib, feed.events);
    hide Revoke.EventIndex;
  }

  lemma MoreKnown(lib: Library, root: RootView, keys: map<string, string>, f: Trust.RootFile)
    requires Trust.Indexed(lib, root) && Revoke.UnderFingerprint(lib, keys) && Trust.HoldsFile(lib, root, f)
    ensures Trust.Indexed(lib, root.(pubById := keys + root.pubById))
    ensures Trust.HoldsFile(lib, root.(pubById := keys + root.pubById), f)
  {
    hide Trust.KeyComplete;
  }

  /** A key revoked together with its public key stays known: its signatures can be checked, and are refused. */
  lemma RevokedKeysStayKnown(ps: Parsers, rootText: string, policyText: string, feedText: string, e: Revoke.FeedEvent)
    requires Loaded(ps, rootText, policyText, feedText).Some?
    requires e in ps.feed(feedText).value.events
    ensures var cfg := Loaded(ps, rootText, policyText, feedText).value;
            && Revoke.Revoked(cfg.rev, e.keyId)
            && (e.publicKeyPem != "" ==> e.keyId in cfg.root.pubById)
  {
    var feed := ps.feed(feedText).value;
    Revoke.EventIndexed(ps.lib, feed.events);
    Revoke.CarriedAreFingerprinted(ps.lib, feed.version, feed.events, |feed.events|);
    var order := RevListOf(ps.lib, feed).keyOrder;
    assert order[..|feed.events|] == order && feed.events[..|feed.events|] == feed.events;
    hide Trust.RootOf, Trust.Acceptable, Revoke.GoodFeed, Revoke.CarriedKeys, Revoke.EventIndex;
  }

  /** A key is revoked exactly when an event of the feed names it; a trusted key has a name. */
  lemma ListedExact(ps: Parsers, rootText: string, policyText: string, feedText: string, key: string)
    requires Loaded(ps, rootText, policyText, feedText).Some?
    ensures var cfg := Loaded(ps, rootText, policyText, feedText).value;
            && (key in cfg.rev.value.events <==> exists e <- ps.feed(feedText).value.events :: e.keyId == key)
            && "" !in cfg.root.byId
  {
    var f, feed := ps.root(rootText).value, ps.feed(feedText).value;
    Revoke.EventKeys(ps.lib, feed.events);
    Trust.RootIsIndexed(ps.lib, f);
    assert forall k <- f.keys :: Trust.KeyComplete(ps.lib, k);
    hide Trust.RootOf, Revoke.GoodFeed, Revoke.CarriedKeys, Revoke.EventIndex;
  }
}
