/** internal/trust/root.go: the trust root's indexes and the issuer decision. */
module Trust {
  import opened Base
  import opened Model

  datatype Tsa = Tsa(name: string, keyId: string, publicKeyPem: string)

  /** A trust root file after JSON decoding. */
  datatype RootFile = RootFile(version: int, keys: seq<TrustedKey>, tsas: seq<Tsa>)

  /** A PEM text decodes to a public key whose fingerprint is the declared id. */
  predicate Fingerprinted(lib: Library, pem: string, keyId: string) {
    match lib.parsePem(pem)
    case Some(pub) => lib.fingerprint(pub) == keyId
    case None => false
  }

  predicate KeyComplete(lib: Library, k: TrustedKey) {
    k.keyId != "" && k.issuer != "" && k.publicKeyPem != "" && Fingerprinted(lib, k.publicKeyPem, k.keyId)
  }

  predicate TsaComplete(lib: Library, t: Tsa) {
    t.keyId != "" && t.publicKeyPem != "" && Fingerprinted(lib, t.publicKeyPem, t.keyId)
  }

  ghost predicate Acceptable(lib: Library, f: RootFile) {
    && f.keys != [] && KeysAcceptable(lib, f.keys)
    && (forall t <- f.tsas :: TsaComplete(lib, t))
  }

  /** Every index entry is filed under the fingerprint of its key, and every anchor's key is known. */
  ghost predicate Indexed(lib: Library, r: RootView) {
    && (forall id :: id in r.byId ==> r.byId[id].keyId == id && KeyComplete(lib, r.byId[id]) && id in r.pubById)
    && (forall id :: id in r.pubById ==> lib.fingerprint(r.pubById[id]) == id)
    && (forall id :: id in r.tsaById ==> lib.fingerprint(r.tsaById[id]) == id)
  }

  // ---- the indexes a file amounts to ----

  function PublicKey(lib: Library, pem: string): string {
    match lib.parsePem(pem) case Some(pub) => pub case None => ""
  }

  function AnchorIndex(keys: seq<TrustedKey>): map<string, TrustedKey> {
    if keys == [] then map[]
    else
      var n := |keys| - 1;
      AnchorIndex(keys[..n])[keys[n].keyId := keys[n]]
  }

  function KeyIndex(lib: Library, keys: seq<TrustedKey>): map<string, string> {
    if keys == [] then map[]
    else
      var n := |keys| - 1;
      KeyIndex(lib, keys[..n])[keys[n].keyId := PublicKey(lib, keys[n].publicKeyPem)]
  }

  function TsaIndex(lib: Library, tsas: seq<Tsa>): map<string, string> {
    if tsas == [] then map[]
    else
      var n := |tsas| - 1;
      TsaIndex(lib, tsas[..n])[tsas[n].keyId := PublicKey(lib, tsas[n].publicKeyPem)]
  }

  function RootOf(lib: Library, f: RootFile): RootView {
    RootView(AnchorIndex(f.keys), KeyIndex(lib, f.keys), TsaIndex(lib, f.tsas))
  }

  /** Evaluate: the accepted key is anchored and bound to the builder the provenance claims. */
  function Evaluate(r: RootView, acceptedKeyId: string, claimedBuilder: string): bool {
    if acceptedKeyId == "" then false
    else if acceptedKeyId !in r.byId then false
    else if claimedBuilder == "" then false
    else r.byId[acceptedKeyId].issuer == claimedBuilder
  }

  class TrustRoot {
    const lib: Library
    const version: int
    var byId: map<string, TrustedKey>
    var pubById: map<string, string>
    var tsaById: map<string, string>

    ghost function View(): RootView
      reads this
    {
      RootView(byId, pubById, tsaById)
    }

    constructor (lib: Library, version: int)
      ensures this.lib == lib && this.version == version && View() == RootView(map[], map[], map[])
    {
      this.lib, this.version := lib, version;
      byId, pubById, tsaById := map[], map[], map[];
    }

    /** Registers a key for signature checking only: anchors and time-stamping keys stay as they are. */
    method AddKnownButUntrustedKey(pub: string)
      requires Indexed(lib, View())
      modifies this`pubById
      ensures Indexed(lib, View())
      ensures pubById == old(map[lib.fingerprint(pub) := pub] + pubById)
    {
      var id := lib.fingerprint(pub);
      if id !in pubById {
        pubById := pubById[id := pub];
      }
    }

    /** A copy of all keys, taken entry by entry. */
    method KnownKeys() returns (out: map<string, string>)
      ensures out == pubById
    {
      out := map[];
      var rest := pubById.Keys;
      while rest != {}
        invariant rest <= pubById.Keys && out.Keys == pubById.Keys - rest
        invariant forall id :: id in out ==> out[id] == pubById[id]
      {
        var id :| id in rest;
        out, rest := out[id := pubById[id]], rest - {id};
      }
    }
  }

  ghost predicate KeysAcceptable(lib: Library, keys: seq<TrustedKey>) {
    && (forall k <- keys :: KeyComplete(lib, k))
    && (forall i, j :: 0 <= i < j < |keys| ==> keys[i].keyId != keys[j].keyId)
  }

  ghost predicate KeysIndexed(lib: Library, r: RootView, keys: seq<TrustedKey>) {
    && Indexed(lib, r)
    && r.byId.Keys == (set k <- keys :: k.keyId) == r.pubById.Keys
    && forall k <- keys :: k.keyId in r.byId && r.byId[k.keyId] == k
  }

  lemma IndexedStep(lib: Library, r: RootView, k: TrustedKey, pub: string)
    requires Indexed(lib, r) && KeyComplete(lib, k) && lib.fingerprint(pub) == k.keyId
    ensures Indexed(lib, r.(byId := r.byId[k.keyId := k], pubById := r.pubById[k.keyId := pub]))
  {
    hide KeyComplete;
  }

  lemma AcceptableSnoc(lib: Library, keys: seq<TrustedKey>, k: TrustedKey)
    requires KeysAcceptable(lib, keys) && KeyComplete(lib, k) && forall x <- keys :: x.keyId != k.keyId
    ensures KeysAcceptable(lib, keys + [k])
  {
    hide KeyComplete;
    assert forall i :: 0 <= i < |keys| ==> keys[i] in keys;
  }

  lemma IndexStep(lib: Library, r: RootView, keys: seq<TrustedKey>, i: nat, pub: string)
    requires i < |keys| && KeysAcceptable(lib, keys[..i]) && KeysIndexed(lib, r, keys[..i])
    requires KeyComplete(lib, keys[i]) && lib.fingerprint(pub) == keys[i].keyId && keys[i].keyId !in r.byId
    ensures var k := keys[i];
            && KeysAcceptable(lib, keys[..i + 1])
            && KeysIndexed(lib, r.(byId := r.byId[k.keyId := k], pubById := r.pubById[k.keyId := pub]), keys[..i + 1])
  {
    hide KeyComplete, KeysAcceptable, Indexed;
    var before, k := keys[..i], keys[i];
    assert keys[..i + 1] == before + [k];
    IndexedStep(lib, r, k, pub);
    AcceptableSnoc(lib, before, k);
    assert forall x :: x in before + [k] <==> x in before || x == k;
  }

  lemma IndexedKeyIsEarlier(lib: Library, r: RootView, keys: seq<TrustedKey>, i: nat)
    requires i < |keys| && KeysIndexed(lib, r, keys[..i]) && keys[i].keyId in r.byId
    ensures !KeysAcceptable(lib, keys)
  {
    var x :| x in keys[..i] && x.keyId == keys[i].keyId;
    var j :| 0 <= j < i && keys[j] == x;
  }

  lemma NothingIndexed(lib: Library, keys: seq<TrustedKey>)
    ensures AnchorIndex(keys[..0]) == map[] && KeyIndex(lib, keys[..0]) == map[]
  {
  }

  lemma IndexesSnoc(lib: Library, keys: seq<TrustedKey>, i: nat)
    requires i < |keys|
    ensures AnchorIndex(keys[..i + 1]) == AnchorIndex(keys[..i])[keys[i].keyId := keys[i]]
    ensures KeyIndex(lib, keys[..i + 1]) ==
              KeyIndex(lib, keys[..i])[keys[i].keyId := PublicKey(lib, keys[i].publicKeyPem)]
  {
    assert keys[..i + 1][..i] == keys[..i];
  }

  /** The loop over trustedKeys: one entry per key, or the first defect. */
  method IndexKeys(root: TrustRoot, keys: seq<TrustedKey>) returns (ok: bool)
    requires root.View() == RootView(map[], map[], map[])
    modifies root
    ensures ok <==> KeysAcceptable(root.lib, keys)
    ensures ok ==> KeysIndexed(root.lib, root.View(), keys) && root.tsaById == map[]
    ensures ok ==> root.byId == AnchorIndex(keys) && root.pubById == KeyIndex(root.lib, keys)
  {
    hide AnchorIndex, KeyIndex;
    var lib := root.lib;
    NothingIndexed(lib, keys);
    for i := 0 to |keys|
      invariant root.tsaById == map[]
      invariant root.byId == AnchorIndex(keys[..i]) && root.pubById == KeyIndex(lib, keys[..i])
      invariant KeysAcceptable(lib, keys[..i]) && KeysIndexed(lib, root.View(), keys[..i])
    {
      var k := keys[i];
      assert k in keys;
      if k.keyId == "" || k.issuer == "" || k.publicKeyPem == "" {
        return false;
      }
      var pub := lib.parsePem(k.publicKeyPem);
      if pub.None? {
        return false;
      }
      if lib.fingerprint(pub.value) != k.keyId {
        return false;
      }
      if k.keyId in root.byId {
        IndexedKeyIsEarlier(lib, root.View(), keys, i);
        return false;
      }
      IndexStep(lib, root.View(), keys, i, pub.value);
      IndexesSnoc(lib, keys, i);
      root.byId := root.byId[k.keyId := k];
      root.pubById := root.pubById[k.keyId := pub.value];
    }
    assert keys[..|keys|] == keys;
    ok := true;
  }

  lemma TsaIndexSnoc(lib: Library, tsas: seq<Tsa>, i: nat)
    requires i < |tsas|
    ensures TsaIndex(lib, tsas[..i + 1]) ==
              TsaIndex(lib, tsas[..i])[tsas[i].keyId := PublicKey(lib, tsas[i].publicKeyPem)]
  {
    assert tsas[..i + 1][..i] == tsas[..i];
  }

  /** The loop over timestampAuthorities; a later entry of one fingerprint replaces an earlier one. */
  method IndexTsas(root: TrustRoot, tsas: seq<Tsa>) returns (ok: bool)
    requires Indexed(root.lib, root.View()) && root.tsaById == map[]
    modifies root`tsaById
    ensures ok <==> forall t <- tsas :: TsaComplete(root.lib, t)
    ensures ok ==> Indexed(root.lib, root.View()) && root.tsaById.Keys == set t <- tsas :: t.keyId
    ensures ok ==> root.tsaById == TsaIndex(root.lib, tsas)
  {
    var lib := root.lib;
    assert TsaIndex(lib, tsas[..0]) == map[];
    for i := 0 to |tsas|
      invariant forall t <- tsas[..i] :: TsaComplete(lib, t)
      invariant root.tsaById == TsaIndex(lib, tsas[..i])
    {
      hide TsaIndex;
      var t := tsas[i];
      assert t in tsas && tsas[..i + 1] == tsas[..i] + [t];
      TsaIndexSnoc(lib, tsas, i);
      if t.keyId == "" || t.publicKeyPem == "" {
        return false;
      }
      var pub := lib.parsePem(t.publicKeyPem);
      if pub.None? {
        return false;
      }
      if lib.fingerprint(pub.value) != t.keyId {
        return false;
      }
      root.tsaById := root.tsaById[t.keyId := pub.value];
    }
    assert tsas[..|tsas|] == tsas;
    TsasIndexed(lib, tsas);
    ok := true;
  }

  /** ParseRoot accepts exactly the acceptable files, and indexes exactly their entries. */
  method ParseRoot(lib: Library, f: RootFile) returns (r: Result<TrustRoot>)
    ensures r.Ok? <==> Acceptable(lib, f)
    ensures r.Ok? ==> fresh(r.value) && r.value.lib == lib && KeysIndexed(lib, r.value.View(), f.keys)
    ensures r.Ok? ==> r.value.tsaById.Keys == set t <- f.tsas :: t.keyId
    ensures r.Ok? ==> r.value.View() == RootOf(lib, f) && HoldsFile(lib, r.value.View(), f)
  {
    if f.keys == [] {
      return Err("no trusted key");
    }
    var root := new TrustRoot(lib, f.version);
    var ok := IndexKeys(root, f.keys);
    if !ok {
      return Err("trustedKeys");
    }
    ok := IndexTsas(root, f.tsas);
    if !ok {
      return Err("timestampAuthorities");
    }
    RootIsIndexed(lib, f);
    r := Ok(root);
  }

  // ---- the indexes of an acceptable file ----

  lemma {:induction false} AnchorsIndexed(lib: Library, keys: seq<TrustedKey>)
    requires forall k <- keys :: KeyComplete(lib, k)
    ensures Indexed(lib, RootView(AnchorIndex(keys), KeyIndex(lib, keys), map[]))
    ensures AnchorIndex(keys).Keys == (set k <- keys :: k.keyId) == KeyIndex(lib, keys).Keys
  {
    if keys != [] {
      var n := |keys| - 1;
      var k := keys[n];
      assert keys == keys[..n] + [k];
      AnchorsIndexed(lib, keys[..n]);
      hide KeyComplete, Indexed;
      assert Fingerprinted(lib, k.publicKeyPem, k.keyId) by {
        CompleteIsFingerprinted(lib, k);
      }
      IndexedStep(lib, RootView(AnchorIndex(keys[..n]), KeyIndex(lib, keys[..n]), map[]), k,
                  PublicKey(lib, k.publicKeyPem));
    }
  }

  lemma CompleteIsFingerprinted(lib: Library, k: TrustedKey)
    requires KeyComplete(lib, k)
    ensures Fingerprinted(lib, k.publicKeyPem, k.keyId)
  {
  }

  lemma {:induction false} TsasIndexed(lib: Library, tsas: seq<Tsa>)
    requires forall t <- tsas :: TsaComplete(lib, t)
    ensures forall id :: id in TsaIndex(lib, tsas) ==> lib.fingerprint(TsaIndex(lib, tsas)[id]) == id
    ensures TsaIndex(lib, tsas).Keys == set t <- tsas :: t.keyId
  {
    if tsas != [] {
      var n := |tsas| - 1;
      assert tsas == tsas[..n] + [tsas[n]] && TsaComplete(lib, tsas[n]);
      TsasIndexed(lib, tsas[..n]);
    }
  }

  lemma {:induction false} EntryOf(lib: Library, keys: seq<TrustedKey>, i: nat)
    requires KeysAcceptable(lib, keys) && i < |keys|
    ensures keys[i].keyId in AnchorIndex(keys) && AnchorIndex(keys)[keys[i].keyId] == keys[i]
    ensures keys[i].keyId in KeyIndex(lib, keys)
    ensures lib.parsePem(keys[i].publicKeyPem) == Some(KeyIndex(lib, keys)[keys[i].keyId])
  {
    var n := |keys| - 1;
    assert keys[i] in keys && KeyComplete(lib, keys[i]);
    if i < n {
      assert forall k <- keys[..n] :: k in keys;
      EntryOf(lib, keys[..n], i);
    }
  }

  lemma {:induction false} TsaEntries(lib: Library, tsas: seq<Tsa>)
    requires forall t <- tsas :: TsaComplete(lib, t)
    ensures forall id <- TsaIndex(lib, tsas).Keys ::
              exists t <- tsas :: t.keyId == id && lib.parsePem(t.publicKeyPem) == Some(TsaIndex(lib, tsas)[id])
  {
    if tsas != [] {
      var n := |tsas| - 1;
      assert tsas == tsas[..n] + [tsas[n]] && TsaComplete(lib, tsas[n]);
      TsaEntries(lib, tsas[..n]);
    }
  }

  /** The root's indexes hold the file: each trusted key, its public key, and each authority. */
  ghost predicate HoldsFile(lib: Library, r: RootView, f: RootFile) {
    && r.byId.Keys == (set k <- f.keys :: k.keyId)
    && (forall k <- f.keys :: k.keyId in r.byId && r.byId[k.keyId] == k)
    && (forall k <- f.keys :: k.keyId in r.pubById && lib.parsePem(k.publicKeyPem) == Some(r.pubById[k.keyId]))
    && r.tsaById.Keys == (set t <- f.tsas :: t.keyId)
    && (forall id <- r.tsaById.Keys ::
          exists t <- f.tsas :: t.keyId == id && lib.parsePem(t.publicKeyPem) == Some(r.tsaById[id]))
  }

  /** The indexes of an acceptable file are filed by fingerprint and hold exactly its keys. */
  lemma RootIsIndexed(lib: Library, f: RootFile)
    requires Acceptable(lib, f)
    ensures Indexed(lib, RootOf(lib, f)) && HoldsFile(lib, RootOf(lib, f), f)
  {
    AnchorsIndexed(lib, f.keys);
    TsasIndexed(lib, f.tsas);
    TsaEntries(lib, f.tsas);
    hide AnchorIndex, KeyIndex, TsaIndex, KeyComplete, TsaComplete;
    forall k <- f.keys
      ensures k.keyId in AnchorIndex(f.keys) && AnchorIndex(f.keys)[k.keyId] == k
      ensures k.keyId in KeyIndex(lib, f.keys)
      ensures lib.parsePem(k.publicKeyPem) == Some(KeyIndex(lib, f.keys)[k.keyId])
    {
      var i :| 0 <= i < |f.keys| && f.keys[i] == k;
      EntryOf(lib, f.keys, i);
    }
  }
}
