/** internal/offline: what two intact copies of one bundle can differ in. */
module Copies {
  import opened Base
  import opened Model
  import opened Bundle
  import opened OfflineCheck
  import Digest
  import Offline
  import TrustMaterial
  import Trust

  // ---- exactly when the manifest pins the conclusion ----

  /** An intact copy under the same manifest file that differs, where hashed, only by more than a hash collision. */
  ghost predicate IsCopy(rd: Reader, f: Files, g: Files, dir: string, m: Manifest) {
    && Read(g, dir, MANIFEST) == Read(f, dir, MANIFEST)
    && Intact(rd.codec, g, dir, m) && CollisionFree(rd.codec, f, g, dir, m)
  }

  /** Every copy is concluded on alike. */
  ghost predicate Pinned(rd: Reader, f: Files, dir: string, m: Manifest) {
    forall g: Files :: IsCopy(rd, f, g, dir, m) ==> Inputs(rd, g, dir) == Inputs(rd, f, dir)
  }

  /** Every file opened has a digest in the list, or is the manifest itself. */
  ghost predicate OpensOnlyListed(rd: Reader, f: Files, dir: string, m: Manifest) {
    forall p <- Opened(rd, f, dir, m) :: p == MANIFEST || HasDigest(m, p)
  }

  lemma ListedIsPinned(rd: Reader, f: Files, g: Files, dir: string, m: Manifest)
    requires LoadedManifest(rd, f, dir) == Some(m) && Intact(rd.codec, f, dir, m)
    requires OpensOnlyListed(rd, f, dir, m) && IsCopy(rd, f, g, dir, m)
    ensures Inputs(rd, g, dir) == Inputs(rd, f, dir)
  {
    hide Read, Intact, CollisionFree, Opened, InputsUnder, HasDigest;
    forall p <- Opened(rd, f, dir, m) ensures Read(f, dir, p) == Read(g, dir, p) {
      if p != MANIFEST {
        IntactAgree(rd.codec, f, g, dir, m, p);
      }
    }
    SameInputs(rd, f, g, dir, m);
  }

  /** The bundle without one file. */
  function Without(f: Files, dir: string, p: string): Files {
    f - {Under(dir, p)}
  }

  lemma RemovedReads(f: Files, dir: string, p: string, q: string)
    ensures Read(Without(f, dir, p), dir, q) == if q == p then None else Read(f, dir, q)
  {
    UnderInjective(dir, p, q);
    hide Under;
  }

  lemma WithoutIsCopy(rd: Reader, f: Files, dir: string, m: Manifest, p: string)
    requires Intact(rd.codec, f, dir, m) && !HasDigest(m, p) && p != MANIFEST
    ensures IsCopy(rd, f, Without(f, dir, p), dir, m)
  {
    var g := Without(f, dir, p);
    RemovedReads(f, dir, p, MANIFEST);
    forall e <- m.files
      ensures EntryMatches(rd.codec, g, dir, e) && SameWhenHashed(rd.codec, f, g, Under(dir, e.path))
    {
      UnderInjective(dir, p, e.path);
      assert EntryMatches(rd.codec, f, dir, e);
    }
  }

  lemma {:induction false} TimesNeedEach(rd: Reader, files: Files, dir: string, rels: seq<string>, p: string)
    requires p in rels && Read(files, dir, p).None?
    ensures ReadTimes(rd, files, dir, rels).None?
  {
    hide Read;
    var n := |rels| - 1;
    if rels[n] != p {
      TimesNeedEach(rd, files, dir, rels[..n], p);
    }
  }

  lemma {:induction false} PiecesNeedEach(rd: Reader, files: Files, dir: string, refs: seq<EvidenceRef>, e: EvidenceRef)
    requires e in refs && ReadPiece(rd, files, dir, e).None?
    ensures ReadPieces(rd, files, dir, refs).None?
  {
    hide ReadPiece;
    var n := |refs| - 1;
    if refs[n] != e {
      PiecesNeedEach(rd, files, dir, refs[..n], e);
    }
  }

  /** A file that is opened is needed. */
  lemma PieceNeeds(rd: Reader, f: Files, dir: string, e: EvidenceRef, p: string)
    requires p in OpenedFor(rd, f, dir, e)
    ensures ReadPiece(rd, Without(f, dir, p), dir, e).None?
  {
    var g := Without(f, dir, p);
    forall q ensures Read(g, dir, q) == if q == p then None else Read(f, dir, q) {
      RemovedReads(f, dir, p, q);
    }
    hide Read, ReadTimes, Without;
    if p != e.attestationPath {
      TimesNeedEach(rd, g, dir, e.timestampPaths, p);
    }
  }

  lemma InputsNeed(rd: Reader, f: Files, dir: string, m: Manifest, p: string)
    requires p in Opened(rd, f, dir, m)
    ensures InputsUnder(rd, Without(f, dir, p), dir, m).None?
  {
    RemovedReads(f, dir, p, p);
    hide Read, ReadPieces, ReadPiece, OpenedFor, Without, TrustMaterial.Loaded;
    if p !in {m.policyPath, m.trustRootPath, m.revocationPath} {
      var e :| e in m.evidence && p in OpenedFor(rd, f, dir, e);
      PieceNeeds(rd, f, dir, e, p);
      PiecesNeedEach(rd, Without(f, dir, p), dir, m.evidence, e);
    }
  }

  /** All intact copies of a bundle that can be concluded on are concluded on alike exactly when every file opened is
      listed with a digest, the manifest apart. */
  lemma PinnedIff(rd: Reader, f: Files, dir: string, m: Manifest)
    requires LoadedManifest(rd, f, dir) == Some(m) && Inputs(rd, f, dir).Some?
    ensures Pinned(rd, f, dir, m) <==> OpensOnlyListed(rd, f, dir, m)
  {
    hide Read, Intact, InputsUnder, Opened, HasDigest, CollisionFree, Without;
    if OpensOnlyListed(rd, f, dir, m) {
      forall g: Files | IsCopy(rd, f, g, dir, m) ensures Inputs(rd, g, dir) == Inputs(rd, f, dir) {
        ListedIsPinned(rd, f, g, dir, m);
      }
    }
    forall p <- Opened(rd, f, dir, m) | p != MANIFEST && !HasDigest(m, p) ensures !Pinned(rd, f, dir, m) {
      WithoutIsCopy(rd, f, dir, m, p);
      InputsNeed(rd, f, dir, m, p);
    }
  }

  // ---- a manifest that leaves its trust root unlisted ----

  /** The bundle with one file exchanged. */
  function With(f: Files, dir: string, p: string, text: string): Files {
    f[Under(dir, p) := text]
  }

  lemma ExchangedReads(f: Files, dir: string, p: string, text: string, q: string)
    ensures Read(With(f, dir, p, text), dir, q) == if q == p then Some(text) else Read(f, dir, q)
  {
    UnderInjective(dir, p, q);
    hide Under;
  }

  lemma WithIsCopy(rd: Reader, f: Files, dir: string, m: Manifest, p: string, text: string)
    requires Intact(rd.codec, f, dir, m) && !HasDigest(m, p) && p != MANIFEST
    ensures IsCopy(rd, f, With(f, dir, p, text), dir, m)
  {
    var g := With(f, dir, p, text);
    ExchangedReads(f, dir, p, text, MANIFEST);
    forall e <- m.files
      ensures EntryMatches(rd.codec, g, dir, e) && SameWhenHashed(rd.codec, f, g, Under(dir, e.path))
    {
      UnderInjective(dir, p, e.path);
      assert EntryMatches(rd.codec, f, dir, e);
    }
  }

  /** The trust root is neither listed nor opened as anything else. */
  ghost predicate TrustRootApart(rd: Reader, f: Files, dir: string, m: Manifest) {
    && m.trustRootPath != MANIFEST && !HasDigest(m, m.trustRootPath)
    && m.trustRootPath != m.policyPath && m.trustRootPath != m.revocationPath
    && forall e <- m.evidence :: m.trustRootPath !in OpenedFor(rd, f, dir, e)
  }

  /** Whoever exchanges an unlisted trust root chooses what the same evidence is checked against, unnoticed. */
  lemma UnlistedTrustRootIsFree(rd: Reader, f: Files, dir: string, m: Manifest, text: string, policy: string,
                                feed: string)
    requires LoadedManifest(rd, f, dir) == Some(m) && Inputs(rd, f, dir).Some? && TrustRootApart(rd, f, dir, m)
    requires Read(f, dir, m.policyPath) == Some(policy) && Read(f, dir, m.revocationPath) == Some(feed)
    requires TrustMaterial.Loaded(rd.parsers, text, policy, feed).Some?
    ensures var g := With(f, dir, m.trustRootPath, text);
            && IsCopy(rd, f, g, dir, m)
            && Inputs(rd, g, dir) ==
                 Some((TrustMaterial.Loaded(rd.parsers, text, policy, feed).value, Inputs(rd, f, dir).value.1))
  {
    var g := With(f, dir, m.trustRootPath, text);
    WithIsCopy(rd, f, dir, m, m.trustRootPath, text);
    forall q ensures Read(g, dir, q) == if q == m.trustRootPath then Some(text) else Read(f, dir, q) {
      ExchangedReads(f, dir, m.trustRootPath, text, q);
    }
    hide Read, Intact, HasDigest, OpenedFor, ReadPieces, TrustMaterial.Loaded, With, CollisionFree;
    SamePieces(rd, f, g, dir, m.evidence);
  }

  function SwapStatement(): Statement {
    Statement([Subject("a", map[Digest.SHA256 := "00"])], SLSA_TYPE, "")
  }

  /** A trust root text is the one key it anchors; the envelope is signed with the key "k". */
  function SwapParsers(): TrustMaterial.Parsers {
    TrustMaterial.Parsers(
      Library(x => true, x => if x == "e" then Some(Envelope(IN_TOTO_TYPE, "p", ["s"])) else None, x => x,
              (e, keys: map<string, string>) =>
                if "k" in keys then Valid("k", Some(SwapStatement())) else Invalid(""),
              x => Some(Provenance("b", None, [])), x => Some(7), x => Some(x), x => x, (k, ev) => false),
      x => Some(Trust.RootFile(1, [TrustedKey(x, "b", x)], [])),
      x => Some((inp, now) => Some(true)),
      x => Some(TrustMaterial.Feed(1, [])))
  }

  const SWAP_MANIFEST := Manifest(VERSION, "c", 1, false, POLICY, "alt.json", REVOCATION,
                                  [EvidenceRef("e.json", [], "a")],
                                  [FileEntry(POLICY, "p", 1), FileEntry(TRUST_ROOT, "t", 1),
                                   FileEntry(REVOCATION, "r", 1), FileEntry("e.json", "e", 1)])

  function SwapReader(): Reader {
    Reader(Codec(x => x, m => "m", x => if x == "m" then Some(SWAP_MANIFEST) else None, t => "c"), SwapParsers(),
           x => None)
  }

  /** Intact, complete but for the trust root the manifest really names. */
  function SwapFiles(root: string): Files {
    map[Under("d", MANIFEST) := "m", Under("d", POLICY) := "p", Under("d", TRUST_ROOT) := "t",
        Under("d", REVOCATION) := "r", Under("d", "e.json") := "e", Under("d", "alt.json") := root]
  }

  const SWAP_LOCAL := Offline.Local([Offline.ArtifactFile("a", "p")], path => Some("00"))
  const SWAP_PIECE := Offline.Piece("e", "a", [])

  /** The configuration under a trust root that anchors one key for the builder "b". */
  ghost predicate Anchors(cfg: Config, key: string) {
    && cfg.lib == SwapParsers().lib && cfg.rev == Some(RevList(1, map[], []))
    && cfg.root.byId == map[key := TrustedKey(key, "b", key)] && cfg.root.pubById == map[key := key]
    && forall inp, now :: cfg.policy(inp, now) == Some(true)
  }

  lemma SwapConfig(root: string)
    requires root != ""
    ensures var cfg := TrustMaterial.Loaded(SwapParsers(), root, "p", "r"); cfg.Some? && Anchors(cfg.value, root)
  {
    var k := TrustedKey(root, "b", root);
    assert [k][..0] == [] && Trust.AnchorIndex([k]) == map[root := k];
    assert Trust.KeyIndex(SwapParsers().lib, [k]) == map[root := root];
    assert TrustMaterial.RevListOf(SwapParsers().lib, TrustMaterial.Feed(1, [])) == RevList(1, map[], []);
    hide Trust.AnchorIndex, Trust.KeyIndex;
  }

  lemma SwapMatches()
    ensures Digest.Matches("a", "00", Some(SwapStatement())) && SwapStatement().predicateType == SLSA_TYPE
  {
    var s := SwapStatement().subject[0];
    assert s in SwapStatement().subject && Digest.SHA256 in s.digest;
    assert Digest.LowerHex("00") == "00";
  }

  lemma SwapFile()
    ensures Offline.LocalDigest(SWAP_LOCAL, "a") == Ok(Some("00"))
  {
    assert SWAP_LOCAL.artifacts[..0] == [];
  }

  /** The evidence passes under the key it is signed with, and under no other. */
  lemma SwapAllowed(cfg: Config, key: string)
    requires Anchors(cfg, key)
    ensures Offline.Allows(cfg, SWAP_LOCAL, [SWAP_PIECE], 0) <==> key == "k"
  {
    SwapMatches();
    SwapFile();
    hide Offline.LocalDigest, Offline.OfflineTimes, Digest.Matches, SwapStatement, Offline.Allows;
    assert SWAP_PIECE in [SWAP_PIECE];
    Offline.AllowsExact(cfg, SWAP_LOCAL, [SWAP_PIECE], 0);
  }

  lemma SwapReads(root: string)
    ensures Read(SwapFiles(root), "d", MANIFEST) == Some("m") && Read(SwapFiles(root), "d", POLICY) == Some("p")
    ensures Read(SwapFiles(root), "d", TRUST_ROOT) == Some("t") && Read(SwapFiles(root), "d", REVOCATION) == Some("r")
    ensures Read(SwapFiles(root), "d", "e.json") == Some("e") && Read(SwapFiles(root), "d", "alt.json") == Some(root)
  {
  }

  lemma SwapIntact(root: string)
    ensures LoadedManifest(SwapReader(), SwapFiles(root), "d") == Some(SWAP_MANIFEST)
    ensures Intact(SwapReader().codec, SwapFiles(root), "d", SWAP_MANIFEST)
  {
    SwapReads(root);
    hide SwapFiles, Under, SwapParsers;
    forall e <- SWAP_MANIFEST.files ensures EntryMatches(SwapReader().codec, SwapFiles(root), "d", e) {
      assert Read(SwapFiles(root), "d", e.path) == Some(e.sha256);
    }
  }

  lemma SwapPieces(root: string)
    ensures ReadPieces(SwapReader(), SwapFiles(root), "d", SWAP_MANIFEST.evidence) == Some([SWAP_PIECE])
  {
    SwapReads(root);
    hide SwapFiles, Read, SwapStatement;
    var refs := SWAP_MANIFEST.evidence;
    assert refs[..0] == [];
    assert ReadPiece(SwapReader(), SwapFiles(root), "d", refs[0]) == Some(SWAP_PIECE);
    hide ReadPiece;
    var none: seq<Offline.Piece> := [];
    assert ReadPieces(SwapReader(), SwapFiles(root), "d", refs[..0]) == Some(none);
    assert none + [SWAP_PIECE] == [SWAP_PIECE] && |refs| == 1;
  }

  lemma SwapBundle(root: string)
    requires root != ""
    ensures LoadedManifest(SwapReader(), SwapFiles(root), "d") == Some(SWAP_MANIFEST)
    ensures Intact(SwapReader().codec, SwapFiles(root), "d", SWAP_MANIFEST)
    ensures Inputs(SwapReader(), SwapFiles(root), "d") ==
              Some((TrustMaterial.Loaded(SwapParsers(), root, "p", "r").value, [SWAP_PIECE]))
  {
    SwapReads(root);
    SwapIntact(root);
    SwapPieces(root);
    SwapConfig(root);
    assert SwapReader().parsers == SwapParsers();
    assert SwapParsers().lib.parseTime("c") == Some(7);
    hide SwapFiles, SwapParsers, SwapReader, Read, LoadedManifest, Intact, ReadPieces, TrustMaterial.Loaded;
  }

  /** Two intact copies of a bundle, alike but for a trust root the manifest names and does not list: one allows what
      the other denies. */
  lemma UnlistedTrustRootDecides() returns (f: Files, g: Files)
    ensures LoadedManifest(SwapReader(), f, "d") == Some(SWAP_MANIFEST) == LoadedManifest(SwapReader(), g, "d")
    ensures Intact(SwapReader().codec, f, "d", SWAP_MANIFEST) && Intact(SwapReader().codec, g, "d", SWAP_MANIFEST)
    ensures g == With(f, "d", SWAP_MANIFEST.trustRootPath, "z")
    ensures Inputs(SwapReader(), f, "d").Some? && Inputs(SwapReader(), g, "d").Some?
    ensures var (cfg, pieces) := Inputs(SwapReader(), f, "d").value; Offline.Allows(cfg, SWAP_LOCAL, pieces, 0)
    ensures var (cfg, pieces) := Inputs(SwapReader(), g, "d").value; !Offline.Allows(cfg, SWAP_LOCAL, pieces, 0)
  {
    f, g := SwapFiles("k"), SwapFiles("z");
    hide Offline.Allows, SwapReader, Intact, LoadedManifest, Inputs, TrustMaterial.Loaded;
    SwapBundle("k");
    SwapBundle("z");
    SwapConfig("k");
    SwapConfig("z");
    SwapAllowed(TrustMaterial.Loaded(SwapParsers(), "k", "p", "r").value, "k");
    SwapAllowed(TrustMaterial.Loaded(SwapParsers(), "z", "p", "r").value, "z");
  }
}
