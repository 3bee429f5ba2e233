/** internal/offline/verify.go: checking a whole bundle on disk, and what its manifest pins down. */
module OfflineCheck {
  import opened Base
  import opened Model
  import opened Bundle
  import Decision
  import Offline
  import Trust
  import TrustMaterial

  /** How the bundle's files are read: the manifest, trust material from three texts, time evidence from one. */
  datatype Reader = Reader(codec: Codec, parsers: TrustMaterial.Parsers, parseEvidence: string -> Option<TimeEvidence>)

  // ---- specification ----

  function Read(files: Files, dir: string, rel: string): Option<string> {
    if Under(dir, rel) in files then Some(files[Under(dir, rel)]) else None
  }

  /** The time evidence of a reference; a file that does not decode is skipped, a missing one is an error. */
  function ReadTimes(rd: Reader, files: Files, dir: string, rels: seq<string>): Option<seq<TimeEvidence>> {
    if rels == [] then Some([])
    else
      var n := |rels| - 1;
      match (ReadTimes(rd, files, dir, rels[..n]), Read(files, dir, rels[n]))
      case (Some(before), Some(text)) =>
        (match rd.parseEvidence(text) case Some(ev) => Some(before + [ev]) case None => Some(before))
      case _ => None
  }

  /** The time evidence of an envelope that does not parse is not even opened. */
  function ReadPiece(rd: Reader, files: Files, dir: string, e: EvidenceRef): Option<Offline.Piece> {
    match Read(files, dir, e.attestationPath)
    case None => None
    case Some(text) =>
      if rd.parsers.lib.parseEnvelope(text).None? then Some(Offline.Piece(text, e.artifactName, []))
      else
        match ReadTimes(rd, files, dir, e.timestampPaths)
        case Some(evidence) => Some(Offline.Piece(text, e.artifactName, evidence))
        case None => None
  }

  function ReadPieces(rd: Reader, files: Files, dir: string, refs: seq<EvidenceRef>): Option<seq<Offline.Piece>> {
    if refs == [] then Some([])
    else
      var n := |refs| - 1;
      match (ReadPieces(rd, files, dir, refs[..n]), ReadPiece(rd, files, dir, refs[n]))
      case (Some(before), Some(p)) => Some(before + [p])
      case _ => None
  }

  /** The trust material is read from where the manifest says. */
  ghost function ReadConfig(rd: Reader, files: Files, dir: string, m: Manifest): Option<Config> {
    match (Read(files, dir, m.trustRootPath), Read(files, dir, m.policyPath), Read(files, dir, m.revocationPath))
    case (Some(root), Some(policy), Some(rev)) => TrustMaterial.Loaded(rd.parsers, root, policy, rev)
    case _ => None
  }

  function LoadedManifest(rd: Reader, files: Files, dir: string): Option<Manifest> {
    match Read(files, dir, MANIFEST)
    case None => None
    case Some(text) =>
      match rd.codec.decode(text)
      case Some(m) => if m.version == VERSION then Some(m) else None
      case None => None
  }

  /** What is read from a bundle under its manifest. */
  ghost function InputsUnder(rd: Reader, files: Files, dir: string, m: Manifest): Option<(Config, seq<Offline.Piece>)> {
    if rd.parsers.lib.parseTime(m.revocationCutoff).None? then None
    else
      match (ReadConfig(rd, files, dir, m), ReadPieces(rd, files, dir, m.evidence))
      case (Some(cfg), Some(pieces)) => Some((cfg, pieces))
      case _ => None
  }

  /** Everything the conclusion is drawn from, when the bundle is intact and readable. */
  ghost function Inputs(rd: Reader, files: Files, dir: string): Option<(Config, seq<Offline.Piece>)> {
    match LoadedManifest(rd, files, dir)
    case None => None
    case Some(m) => if Intact(rd.codec, files, dir, m) then InputsUnder(rd, files, dir, m) else None
  }

  // ---- the code ----

  method LoadTimes(disk: Disk, rd: Reader, dir: string, rels: seq<string>) returns (r: Option<seq<TimeEvidence>>)
    ensures r == ReadTimes(rd, disk.files, dir, rels)
  {
    var out: seq<TimeEvidence> := [];
    for i := 0 to |rels|
      invariant ReadTimes(rd, disk.files, dir, rels[..i]) == Some(out)
    {
      assert rels[..i + 1][..i] == rels[..i];
      if Under(dir, rels[i]) !in disk.files {
        TimesStayMissing(rd, disk.files, dir, rels, i + 1);
        return None;
      }
      var ev := rd.parseEvidence(disk.files[Under(dir, rels[i])]);
      if ev.None? {
        continue;
      }
      out := out + [ev.value];
    }
    assert rels[..|rels|] == rels;
    r := Some(out);
  }

  lemma {:induction false} TimesStayMissing(rd: Reader, files: Files, dir: string, rels: seq<string>, i: nat)
    requires i <= |rels| && ReadTimes(rd, files, dir, rels[..i]).None?
    ensures ReadTimes(rd, files, dir, rels).None?
    decreases |rels| - i
  {
    if i < |rels| {
      assert rels[..i + 1][..i] == rels[..i];
      TimesStayMissing(rd, files, dir, rels, i + 1);
    } else {
      assert rels[..i] == rels;
    }
  }

  method LoadPiece(disk: Disk, rd: Reader, dir: string, e: EvidenceRef) returns (r: Option<Offline.Piece>)
    ensures r == ReadPiece(rd, disk.files, dir, e)
  {
    if Under(dir, e.attestationPath) !in disk.files {
      return None;
    }
    var text := disk.files[Under(dir, e.attestationPath)];
    if rd.parsers.lib.parseEnvelope(text).None? {
      return Some(Offline.Piece(text, e.artifactName, []));
    }
    var times := LoadTimes(disk, rd, dir, e.timestampPaths);
    if times.None? {
      return None;
    }
    r := Some(Offline.Piece(text, e.artifactName, times.value));
  }

  method LoadPieces(disk: Disk, rd: Reader, dir: string, refs: seq<EvidenceRef>)
    returns (r: Option<seq<Offline.Piece>>)
    ensures r == ReadPieces(rd, disk.files, dir, refs)
  {
    var out: seq<Offline.Piece> := [];
    for i := 0 to |refs|
      invariant ReadPieces(rd, disk.files, dir, refs[..i]) == Some(out)
    {
      assert refs[..i + 1][..i] == refs[..i];
      var piece := LoadPiece(disk, rd, dir, refs[i]);
      if piece.None? {
        PiecesStayMissing(rd, disk.files, dir, refs, i + 1);
        return None;
      }
      out := out + [piece.value];
    }
    assert refs[..|refs|] == refs;
    r := Some(out);
  }

  lemma {:induction false} PiecesStayMissing(rd: Reader, files: Files, dir: string, refs: seq<EvidenceRef>, i: nat)
    requires i <= |refs| && ReadPieces(rd, files, dir, refs[..i]).None?
    ensures ReadPieces(rd, files, dir, refs).None?
    decreases |refs| - i
  {
    hide ReadPiece;
    if i < |refs| {
      assert refs[..i + 1][..i] == refs[..i];
      PiecesStayMissing(rd, files, dir, refs, i + 1);
    } else {
      assert refs[..i] == refs;
    }
  }

  method LoadConfig(disk: Disk, rd: Reader, dir: string, m: Manifest) returns (r: Option<Config>)
    ensures r == ReadConfig(rd, disk.files, dir, m)
  {
    hide TrustMaterial.Loaded, Under;
    var files := disk.files;
    if Under(dir, m.trustRootPath) !in files || Under(dir, m.policyPath) !in files
       || Under(dir, m.revocationPath) !in files
    {
      return None;
    }
    r := TrustMaterial.Load(rd.parsers, files[Under(dir, m.trustRootPath)], files[Under(dir, m.policyPath)],
                            files[Under(dir, m.revocationPath)]);
  }

  /** Verify: integrity first, then the trust material, then the evidence; the disk is only read. */
  method Verify(disk: Disk, rd: Reader, dir: string, local: Offline.Local, now: Time)
    returns (r: Result<Offline.Conclusion>)
    ensures r.Ok? <==> Inputs(rd, disk.files, dir).Some? &&
                       var (cfg, pieces) := Inputs(rd, disk.files, dir).value;
                       Offline.Concludes(cfg, local, pieces, now)
    ensures r.Ok? ==> var (cfg, pieces) := Inputs(rd, disk.files, dir).value;
                      Offline.IsConclusion(cfg, local, pieces, now, r.value)
  {
    hide Under, ReadPieces, ReadConfig, Intact, Offline.Concludes, Offline.IsConclusion;
    var m := disk.LoadManifest(rd.codec, dir);
    if m.None? {
      return Err("manifest");
    }
    var ok := disk.VerifyIntegrity(rd.codec, dir, m.value);
    if !ok {
      return Err("integrity");
    }
    if rd.parsers.lib.parseTime(m.value.revocationCutoff).None? {
      return Err("cutoff");
    }
    var cfg := LoadConfig(disk, rd, dir, m.value);
    if cfg.None? {
      return Err("trust material");
    }
    var pieces := LoadPieces(disk, rd, dir, m.value.evidence);
    if pieces.None? {
      return Err("evidence");
    }
    r := Offline.VerifyPieces(cfg.value, local, pieces.value, now);
  }

  // ---- what the manifest pins down ----

  /** On the listed files, equal digests mean equal contents. */
  ghost predicate CollisionFree(codec: Codec, f: Files, g: Files, dir: string, m: Manifest) {
    forall e <- m.files :: SameWhenHashed(codec, f, g, Under(dir, e.path))
  }

  ghost predicate SameWhenHashed(codec: Codec, f: Files, g: Files, p: string) {
    p in f && p in g && codec.hash(f[p]) == codec.hash(g[p]) ==> f[p] == g[p]
  }

  /** Every file the manifest names has a digest in its list. */
  ghost predicate Covers(m: Manifest) {
    forall p <- DataFiles(m) :: HasDigest(m, p)
  }

  lemma IntactAgree(codec: Codec, f: Files, g: Files, dir: string, m: Manifest, p: string)
    requires Intact(codec, f, dir, m) && Intact(codec, g, dir, m) && CollisionFree(codec, f, g, dir, m)
    requires HasDigest(m, p)
    ensures Read(f, dir, p) == Read(g, dir, p) && Read(f, dir, p).Some?
  {
    hide Under;
    var e :| e in m.files && e.path == p;
    assert EntryMatches(codec, f, dir, e) && EntryMatches(codec, g, dir, e);
    assert SameWhenHashed(codec, f, g, Under(dir, p));
  }

  lemma {:induction false} SameTimes(rd: Reader, f: Files, g: Files, dir: string, rels: seq<string>)
    requires forall p <- rels :: Read(f, dir, p) == Read(g, dir, p)
    ensures ReadTimes(rd, f, dir, rels) == ReadTimes(rd, g, dir, rels)
  {
    hide Read;
    if rels != [] {
      var n := |rels| - 1;
      assert rels[n] in rels;
      SameTimes(rd, f, g, dir, rels[..n]);
    }
  }

  /** The files opened for one piece of evidence. */
  function OpenedFor(rd: Reader, files: Files, dir: string, e: EvidenceRef): seq<string> {
    var text := Read(files, dir, e.attestationPath);
    [e.attestationPath] +
      if text.Some? && rd.parsers.lib.parseEnvelope(text.value).Some? then e.timestampPaths else []
  }

  lemma SamePiece(rd: Reader, f: Files, g: Files, dir: string, e: EvidenceRef)
    requires forall p <- OpenedFor(rd, f, dir, e) :: Read(f, dir, p) == Read(g, dir, p)
    ensures ReadPiece(rd, f, dir, e) == ReadPiece(rd, g, dir, e)
  {
    hide Read, ReadTimes;
    assert e.attestationPath in OpenedFor(rd, f, dir, e);
    var text := Read(f, dir, e.attestationPath);
    if text.Some? && rd.parsers.lib.parseEnvelope(text.value).Some? {
      SameTimes(rd, f, g, dir, e.timestampPaths);
    }
  }

  lemma {:induction false} SamePieces(rd: Reader, f: Files, g: Files, dir: string, refs: seq<EvidenceRef>)
    requires forall e <- refs, p <- OpenedFor(rd, f, dir, e) :: Read(f, dir, p) == Read(g, dir, p)
    ensures ReadPieces(rd, f, dir, refs) == ReadPieces(rd, g, dir, refs)
  {
    hide Read, ReadPiece, OpenedFor;
    if refs != [] {
      var n := |refs| - 1;
      assert refs[n] in refs;
      SamePieces(rd, f, g, dir, refs[..n]);
      SamePiece(rd, f, g, dir, refs[n]);
    }
  }

  /** Every file that is opened in checking the bundle. */
  ghost function Opened(rd: Reader, files: Files, dir: string, m: Manifest): set<string> {
    {m.policyPath, m.trustRootPath, m.revocationPath} + set e <- m.evidence, p | p in OpenedFor(rd, files, dir, e) :: p
  }

  lemma OpenedAreData(rd: Reader, files: Files, dir: string, m: Manifest)
    ensures Opened(rd, files, dir, m) <= DataFiles(m)
  {
    hide Read;
    forall e <- m.evidence, p <- OpenedFor(rd, files, dir, e) ensures p in EvidenceFiles(m.evidence) {
      assert p in [e.attestationPath] + e.timestampPaths;
    }
    hide OpenedFor, EvidenceFiles;
  }

  /** Copies that agree on what is opened give the same inputs. */
  lemma SameInputs(rd: Reader, f: Files, g: Files, dir: string, m: Manifest)
    requires forall p <- Opened(rd, f, dir, m) :: Read(f, dir, p) == Read(g, dir, p)
    ensures InputsUnder(rd, f, dir, m) == InputsUnder(rd, g, dir, m)
  {
    hide Read, ReadPieces, OpenedFor, TrustMaterial.Loaded;
    var named := Opened(rd, f, dir, m);
    assert m.policyPath in named && m.trustRootPath in named && m.revocationPath in named;
    forall e <- m.evidence, p <- OpenedFor(rd, f, dir, e) ensures Read(f, dir, p) == Read(g, dir, p) {
      assert p in named;
    }
    SamePieces(rd, f, g, dir, m.evidence);
  }

  /** Two intact copies of a bundle whose manifest has a digest for every file it names give the same conclusion:
      whatever is exchanged in a copy, short of a hash collision, is either noticed or without influence. */
  lemma ManifestPinsConclusion(rd: Reader, f: Files, g: Files, dir: string, m: Manifest)
    requires LoadedManifest(rd, f, dir) == Some(m) && LoadedManifest(rd, g, dir) == Some(m) && Covers(m)
    requires Intact(rd.codec, f, dir, m) && Intact(rd.codec, g, dir, m) && CollisionFree(rd.codec, f, g, dir, m)
    ensures Inputs(rd, f, dir) == Inputs(rd, g, dir)
  {
    hide Read, Intact, CollisionFree, DataFiles, Opened, LoadedManifest, InputsUnder;
    OpenedAreData(rd, f, dir, m);
    forall p <- Opened(rd, f, dir, m) ensures Read(f, dir, p) == Read(g, dir, p) {
      IntactAgree(rd.codec, f, g, dir, m, p);
    }
    SameInputs(rd, f, g, dir, m);
  }

  // ---- a bundle that was just built ----

  lemma {:induction false} TimesReadable(rd: Reader, files: Files, dir: string, rels: seq<string>)
    requires forall p <- rels :: Read(files, dir, p).Some?
    ensures ReadTimes(rd, files, dir, rels).Some?
  {
    if rels != [] {
      assert rels[|rels| - 1] in rels;
      TimesReadable(rd, files, dir, rels[..|rels| - 1]);
    }
  }

  lemma {:induction false} PiecesReadable(rd: Reader, files: Files, dir: string, refs: seq<EvidenceRef>)
    requires forall p <- EvidenceFiles(refs) :: Read(files, dir, p).Some?
    ensures ReadPieces(rd, files, dir, refs).Some?
  {
    hide Read, EvidenceFiles;
    if refs != [] {
      var n := |refs| - 1;
      assert refs == refs[..n] + [refs[n]];
      EvidenceFilesSnoc(refs[..n], refs[n]);
      PiecesReadable(rd, files, dir, refs[..n]);
      TimesReadable(rd, files, dir, refs[n].timestampPaths);
      assert refs[n].attestationPath in [refs[n].attestationPath] + refs[n].timestampPaths;
      assert Read(files, dir, refs[n].attestationPath).Some?;
    }
  }

  /** A bundle as Build leaves it loads, is intact, covers what it names, and has every file it names;
      only a cutoff or trust material that does not parse can keep it from being concluded on. */
  lemma BuiltBundleReadable(rd: Reader, files: Files, dir: string, m: Manifest)
    requires Under(dir, MANIFEST) in files && rd.codec.decode(files[Under(dir, MANIFEST)]) == Some(m)
    requires m.version == VERSION
    requires Intact(rd.codec, files, dir, m) && Complete(m)
    ensures Covers(m)
    ensures Inputs(rd, files, dir).Some? <==>
            rd.parsers.lib.parseTime(m.revocationCutoff).Some? && ReadConfig(rd, files, dir, m).Some?
    ensures Read(files, dir, m.trustRootPath).Some? && Read(files, dir, m.policyPath).Some?
            && Read(files, dir, m.revocationPath).Some?
  {
    hide EvidenceFiles, ReadPieces, Under, TrustMaterial.Loaded;
    forall p <- DataFiles(m) ensures Read(files, dir, p).Some? {
      var e :| e in m.files && e.path == p;
      assert EntryMatches(rd.codec, files, dir, e);
    }
    PiecesReadable(rd, files, dir, m.evidence);
    assert {m.policyPath, m.trustRootPath, m.revocationPath} <= DataFiles(m);
  }

  // ---- a bundle on disk against the online gate ----

  /** The configuration read from a bundle meets what the theorems about both gates ask of one. */
  lemma InputsAreSound(rd: Reader, files: Files, dir: string)
    requires Inputs(rd, files, dir).Some?
    ensures var cfg := Inputs(rd, files, dir).value.0;
            && cfg.lib == rd.parsers.lib && cfg.rev.Some? && Decision.FeedNamesKeys(cfg)
            && Trust.Indexed(cfg.lib, cfg.root)
  {
    hide Read, ReadPieces, Intact, LoadedManifest, TrustMaterial.Loaded, Trust.Indexed;
    var m := LoadedManifest(rd, files, dir).value;
    TrustMaterial.LoadedIsSound(rd.parsers, Read(files, dir, m.trustRootPath).value,
                                Read(files, dir, m.policyPath).value, Read(files, dir, m.revocationPath).value);
  }

  /** A bundle on disk is allowed exactly when it holds evidence and every piece of it fully passes online, under the
      trust material of the bundle. */
  lemma BundleAllowExact(rd: Reader, files: Files, dir: string, local: Offline.Local, now: Time)
    requires Inputs(rd, files, dir).Some? && Offline.ParsedDecodes(rd.parsers.lib)
    ensures var (cfg, pieces) := Inputs(rd, files, dir).value;
            Offline.Allows(cfg, local, pieces, now) <==>
            pieces != [] && forall p <- pieces :: Offline.FullyPassesOnline(cfg, local, p, now)
  {
    hide Inputs, Offline.Allows, Offline.FullyPassesOnline, Offline.ParsedDecodes, Trust.Indexed;
    InputsAreSound(rd, files, dir);
    var (cfg, pieces) := Inputs(rd, files, dir).value;
    Offline.OfflineAllowExact(cfg, local, pieces, now);
  }
}
