/** internal/offline: what a built bundle holds and what checking it amounts to, for the files it was built from. */
module BundleMeaning {
  import opened Base
  import opened Model
  import opened Lists
  import opened Bundle
  import opened OfflineCheck
  import Check
  import Digest
  import GateMeaning
  import Offline
  import Revoke
  import Stamps
  import Keys
  import Text
  import TrustMaterial

  // ---- which source lands where ----

  /** The text of the last path that has the base name of src. */
  ghost predicate Stands(files: Files, paths: seq<string>, src: string, text: string) {
    exists i :: 0 <= i < |paths| && BaseName(paths[i]) == BaseName(src)
                && (forall j :: i < j < |paths| ==> BaseName(paths[j]) != BaseName(src))
                && paths[i] in files && files[paths[i]] == text
  }

  lemma {:induction false} LastNamedAt(paths: seq<string>, base: string) returns (i: nat)
    requires LastNamed(paths, base).Some?
    ensures i < |paths| && BaseName(paths[i]) == base && LastNamed(paths, base) == Some(paths[i])
    ensures forall j :: i < j < |paths| ==> BaseName(paths[j]) != base
  {
    hide BaseName;
    var n := |paths| - 1;
    if BaseName(paths[n]) == base {
      i := n;
    } else {
      i := LastNamedAt(paths[..n], base);
    }
  }

  /** In the place of an attestation stands the last attestation of its base name. */
  lemma AttestationPlace(files: Files, spec: Spec, src: string)
    requires Apart(Jobs(spec)) && Copied(files, Jobs(spec)).Some? && src in spec.attestationPaths
    ensures var text := Read(Copied(files, Jobs(spec)).value, spec.outDir, "attestations/" + BaseName(src));
            text.Some? && Stands(files, spec.attestationPaths, src, text.value)
  {
    hide Copied, Apart, Jobs, BaseName, LastNamed, Under;
    AttestationCopied(files, spec, src);
    var i := LastNamedAt(spec.attestationPaths, BaseName(src));
  }

  lemma TimestampTargets(dir: string, a: string, b: string)
    ensures Under(dir, TimestampRel(a)) == Under(dir, TimestampRel(b)) <==> BaseName(a) == BaseName(b)
  {
    hide BaseName, Under;
    UnderInjective(dir, TimestampRel(a), TimestampRel(b));
    PrefixInjective("timestamps/", BaseName(a), BaseName(b));
  }

  lemma {:induction false} LastTimestampTo(dir: string, paths: seq<string>, src: string)
    ensures LastTo(Map(TimestampJob(dir), paths), Under(dir, TimestampRel(src))) == LastNamed(paths, BaseName(src))
  {
    hide BaseName, Under, TimestampRel;
    if paths != [] {
      var n := |paths| - 1;
      LastTimestampTo(dir, paths[..n], src);
      assert Map(TimestampJob(dir), paths)[..n] == Map(TimestampJob(dir), paths[..n]);
      TimestampTargets(dir, paths[n], src);
    }
  }

  lemma LastTimestamp(spec: Spec, src: string)
    requires src in spec.timePaths
    ensures LastNamed(spec.timePaths, BaseName(src)).Some?
    ensures LastTo(Jobs(spec), Under(spec.outDir, TimestampRel(src))) == LastNamed(spec.timePaths, BaseName(src))
  {
    hide BaseName, LastNamed, Under, TimestampRel, FixedJobs, AttestationJob, TimestampJob, LastTo;
    LastNamedExists(spec.timePaths, src);
    LastTimestampTo(spec.outDir, spec.timePaths, src);
    LastToAppend(FixedJobs(spec) + Map(AttestationJob(spec.outDir), spec.attestationPaths),
                 Map(TimestampJob(spec.outDir), spec.timePaths), Under(spec.outDir, TimestampRel(src)));
  }

  /** In the place of time evidence stands the last of its base name. */
  lemma TimestampPlace(files: Files, spec: Spec, src: string)
    requires Apart(Jobs(spec)) && Copied(files, Jobs(spec)).Some? && src in spec.timePaths
    ensures var text := Read(Copied(files, Jobs(spec)).value, spec.outDir, "timestamps/" + BaseName(src));
            text.Some? && Stands(files, spec.timePaths, src, text.value)
  {
    hide Copied, Apart, Jobs, BaseName, LastNamed, Under, LastTo;
    LastTimestamp(spec, src);
    CopiedExact(files, Jobs(spec));
    var i := LastNamedAt(spec.timePaths, BaseName(src));
  }

  lemma FixedIsNoEvidence(p: string, src: string)
    requires IsFixed(p)
    ensures p != AttestationRel(src) && p != TimestampRel(src)
  {
    hide BaseName;
    assert AttestationRel(src)[0] == 'a' && TimestampRel(src)[1] == 'i';
    assert p[0] != 'a' && p[1] != 'i';
  }

  lemma OtherPlaces(dir: string, p: string, src: string)
    requires IsFixed(p)
    ensures Under(dir, AttestationRel(src)) != Under(dir, p) && Under(dir, TimestampRel(src)) != Under(dir, p)
  {
    FixedIsNoEvidence(p, src);
    UnderInjective(dir, p, AttestationRel(src));
    UnderInjective(dir, p, TimestampRel(src));
  }

  lemma {:induction false} NoAttestationTo(dir: string, p: string, paths: seq<string>)
    requires IsFixed(p)
    ensures LastTo(Map(AttestationJob(dir), paths), Under(dir, p)).None?
  {
    hide BaseName, Under, AttestationRel, TimestampRel, IsFixed;
    if paths != [] {
      var n := |paths| - 1;
      NoAttestationTo(dir, p, paths[..n]);
      OtherPlaces(dir, p, paths[n]);
      assert Map(AttestationJob(dir), paths)[..n] == Map(AttestationJob(dir), paths[..n]);
    }
  }

  lemma {:induction false} NoTimeEvidenceTo(dir: string, p: string, paths: seq<string>)
    requires IsFixed(p)
    ensures LastTo(Map(TimestampJob(dir), paths), Under(dir, p)).None?
  {
    hide BaseName, Under, AttestationRel, TimestampRel, IsFixed;
    if paths != [] {
      var n := |paths| - 1;
      NoTimeEvidenceTo(dir, p, paths[..n]);
      OtherPlaces(dir, p, paths[n]);
      assert Map(TimestampJob(dir), paths)[..n] == Map(TimestampJob(dir), paths[..n]);
    }
  }

  /** The source copied to a fixed name. */
  ghost function SourceOf(spec: Spec, p: string): string {
    if p == "policy.rego" then spec.policyPath
    else if p == "trustroot.json" then spec.trustRootPath else spec.revocationPath
  }

  lemma FixedSource(spec: Spec, p: string)
    requires IsFixed(p)
    ensures LastTo(FixedJobs(spec), Under(spec.outDir, p)) == Some(SourceOf(spec, p))
  {
    assert POLICY[0] == 'p' && TRUST_ROOT[0] == 't' && REVOCATION[0] == 'r';
    UnderInjective(spec.outDir, p, POLICY);
    UnderInjective(spec.outDir, p, TRUST_ROOT);
    UnderInjective(spec.outDir, p, REVOCATION);
    hide Under;
    var jobs, dst := FixedJobs(spec), Under(spec.outDir, p);
    assert jobs[..2] == [jobs[0], jobs[1]] && jobs[..2][..1] == [jobs[0]];
    assert LastTo(jobs[..2], dst) == if jobs[1].dst == dst then Some(jobs[1].src) else LastTo(jobs[..2][..1], dst);
    assert jobs[..2][..1][0] == jobs[0];
  }

  lemma LastFixed(spec: Spec, p: string)
    requires IsFixed(p)
    ensures LastTo(Jobs(spec), Under(spec.outDir, p)) == Some(SourceOf(spec, p))
  {
    hide Under, IsFixed, FixedJobs, AttestationJob, TimestampJob, LastTo, SourceOf;
    var fixed, atts, times := FixedJobs(spec), Map(AttestationJob(spec.outDir), spec.attestationPaths),
                              Map(TimestampJob(spec.outDir), spec.timePaths);
    LastToAppend(fixed, atts, Under(spec.outDir, p));
    LastToAppend(fixed + atts, times, Under(spec.outDir, p));
    NoAttestationTo(spec.outDir, p, spec.attestationPaths);
    NoTimeEvidenceTo(spec.outDir, p, spec.timePaths);
    FixedSource(spec, p);
  }

  /** The policy, the trust root and the feed stand under their fixed names. */
  lemma TrustMaterialPlace(files: Files, spec: Spec, p: string)
    requires Apart(Jobs(spec)) && Copied(files, Jobs(spec)).Some? && IsFixed(p)
    ensures SourceOf(spec, p) in files
            && Read(Copied(files, Jobs(spec)).value, spec.outDir, p) == Some(files[SourceOf(spec, p)])
  {
    hide Copied, Apart, Jobs, Under, LastTo, SourceOf, IsFixed;
    CopiedExact(files, Jobs(spec));
    LastFixed(spec, p);
  }

  /** The configuration that the sources of a bundle amount to, once they are there. */
  ghost function SourceConfig(rd: Reader, files: Files, spec: Spec): Option<Config> {
    if spec.trustRootPath in files && spec.policyPath in files && spec.revocationPath in files
    then TrustMaterial.Loaded(rd.parsers, files[spec.trustRootPath], files[spec.policyPath], files[spec.revocationPath])
    else None
  }

  // ---- what is read back ----

  /** The time evidence is what the texts decode to, in their order; a text that does not decode is left out. */
  ghost predicate Decoded(rd: Reader, texts: seq<string>, evs: seq<TimeEvidence>, at: seq<nat>) {
    && |at| == |evs| && (forall k :: 0 <= k < |at| ==> at[k] < |texts|)
    && (forall k, l :: 0 <= k < l < |at| ==> at[k] < at[l])
    && (forall k :: 0 <= k < |at| ==> rd.parseEvidence(texts[at[k]]) == Some(evs[k]))
    && (forall i :: 0 <= i < |texts| && rd.parseEvidence(texts[i]).Some? ==> i in at)
  }

  lemma {:induction false} TimesDecoded(rd: Reader, files: Files, dir: string, rels: seq<string>, texts: seq<string>)
    returns (at: seq<nat>)
    requires |texts| == |rels| && forall i :: 0 <= i < |rels| ==> Read(files, dir, rels[i]) == Some(texts[i])
    ensures ReadTimes(rd, files, dir, rels).Some?
    ensures Decoded(rd, texts, ReadTimes(rd, files, dir, rels).value, at)
  {
    hide Read;
    if rels == [] {
      at := [];
    } else {
      var n := |rels| - 1;
      at := TimesDecoded(rd, files, dir, rels[..n], texts[..n]);
      if rd.parseEvidence(texts[n]).Some? {
        at := at + [n];
      }
    }
  }

  /** The artifact an attestation is filed for. */
  ghost function NameOf(spec: Spec, src: string): string {
    if src in spec.artifactNames && spec.artifactNames[src] != "" then spec.artifactNames[src] else "artifact"
  }

  /** One text for each time evidence path of the specification. */
  ghost predicate TimeTexts(files: Files, spec: Spec, texts: seq<string>) {
    |texts| == |spec.timePaths|
    && forall i :: 0 <= i < |texts| ==> Stands(files, spec.timePaths, spec.timePaths[i], texts[i])
  }

  /** A piece as read for one attestation of the specification. */
  ghost predicate PieceFor(rd: Reader, files: Files, spec: Spec, src: string, p: Offline.Piece) {
    && Stands(files, spec.attestationPaths, src, p.envelopeJson) && p.artifactName == NameOf(spec, src)
    && if rd.parsers.lib.parseEnvelope(p.envelopeJson).None? then p.evidence == []
       else exists texts, at :: TimeTexts(files, spec, texts) && Decoded(rd, texts, p.evidence, at)
  }

  /** The disk as Build leaves it, with sources outside the bundle. */
  ghost predicate Built(rd: Reader, files: Files, spec: Spec, after: Files, m: Manifest) {
    && Apart(Jobs(spec)) && Copied(files, Jobs(spec)).Some?
    && after == Copied(files, Jobs(spec)).value[Under(spec.outDir, MANIFEST) := rd.codec.encode(m)]
    && m.version == VERSION && m.revocationCutoff == rd.codec.formatTime(spec.cutoff) && m.evidence == EvidenceFor(spec)
    && m.policyPath == POLICY && m.trustRootPath == TRUST_ROOT && m.revocationPath == REVOCATION
    && Intact(rd.codec, after, spec.outDir, m) && Complete(m)
  }

  lemma ManifestApart(rd: Reader, files: Files, spec: Spec, after: Files, m: Manifest, p: string)
    requires Built(rd, files, spec, after, m) && p != MANIFEST
    ensures Read(after, spec.outDir, p) == Read(Copied(files, Jobs(spec)).value, spec.outDir, p)
  {
    hide Copied, Jobs, Under, Intact, Complete, EvidenceFor;
    UnderInjective(spec.outDir, p, MANIFEST);
  }

  lemma RelsAreNotManifest(src: string)
    ensures AttestationRel(src) != MANIFEST && TimestampRel(src) != MANIFEST
  {
    hide BaseName;
    assert AttestationRel(src)[0] == 'a' && TimestampRel(src)[0] == 't' && MANIFEST[0] == 'm';
  }

  lemma AttestationRead(rd: Reader, files: Files, spec: Spec, after: Files, m: Manifest, src: string)
    requires Built(rd, files, spec, after, m) && src in spec.attestationPaths
    ensures var t := Read(after, spec.outDir, AttestationRel(src));
            t.Some? && Stands(files, spec.attestationPaths, src, t.value)
  {
    hide Stands, Apart, Copied, Jobs, Intact, Complete, EvidenceFor, BaseName, Under;
    RelsAreNotManifest(src);
    AttestationPlace(files, spec, src);
    ManifestApart(rd, files, spec, after, m, AttestationRel(src));
  }

  lemma TimestampRead(rd: Reader, files: Files, spec: Spec, after: Files, m: Manifest, src: string)
    requires Built(rd, files, spec, after, m) && src in spec.timePaths
    ensures var t := Read(after, spec.outDir, TimestampRel(src));
            t.Some? && Stands(files, spec.timePaths, src, t.value)
  {
    hide Stands, Apart, Copied, Jobs, Intact, Complete, EvidenceFor, BaseName, Under;
    RelsAreNotManifest(src);
    TimestampPlace(files, spec, src);
    ManifestApart(rd, files, spec, after, m, TimestampRel(src));
  }

  /** One reference of a built bundle reads as a piece for its attestation. */
  lemma PieceRead(rd: Reader, files: Files, spec: Spec, after: Files, m: Manifest, src: string)
    requires Built(rd, files, spec, after, m) && src in spec.attestationPaths
    ensures var p := ReadPiece(rd, after, spec.outDir, RefFor(spec)(src));
            p.Some? && PieceFor(rd, files, spec, src, p.value)
  {
    hide Built, Stands, Read, AttestationRel, TimestampRel;
    AttestationRead(rd, files, spec, after, m, src);
    var rels := TimestampRels(spec);
    forall i | 0 <= i < |rels|
      ensures var t := Read(after, spec.outDir, rels[i]);
              t.Some? && Stands(files, spec.timePaths, spec.timePaths[i], t.value)
    {
      assert spec.timePaths[i] in spec.timePaths;
      TimestampRead(rd, files, spec, after, m, spec.timePaths[i]);
    }
    var texts := seq(|rels|, i requires 0 <= i < |rels| => Read(after, spec.outDir, rels[i]).value);
    var at := TimesDecoded(rd, after, spec.outDir, rels, texts);
    assert TimeTexts(files, spec, texts);
  }

  lemma {:induction false} PiecesAt(rd: Reader, files: Files, dir: string, refs: seq<EvidenceRef>)
    requires forall e <- refs :: ReadPiece(rd, files, dir, e).Some?
    ensures var r := ReadPieces(rd, files, dir, refs);
            r.Some? && |r.value| == |refs|
            && forall i :: 0 <= i < |refs| ==> ReadPiece(rd, files, dir, refs[i]) == Some(r.value[i])
  {
    hide ReadPiece;
    if refs != [] {
      var n := |refs| - 1;
      assert refs[n] in refs;
      PiecesAt(rd, files, dir, refs[..n]);
    }
  }

  /** The pieces of a bundle: one for each attestation, in the order of their paths. */
  ghost predicate PiecesFor(rd: Reader, files: Files, spec: Spec, order: seq<string>, pieces: seq<Offline.Piece>) {
    && multiset(order) == multiset(spec.attestationPaths)
    && (forall i, j :: 0 <= i < j < |order| ==> order[i] == order[j] || Text.Less(order[i], order[j]))
    && |pieces| == |order| && forall i :: 0 <= i < |order| ==> PieceFor(rd, files, spec, order[i], pieces[i])
  }

  /** A bundle reads back as the files it was built from. */
  lemma BuiltReadsBack(rd: Reader, files: Files, spec: Spec, after: Files, m: Manifest)
    returns (order: seq<string>)
    requires Built(rd, files, spec, after, m) && rd.codec.decode(rd.codec.encode(m)) == Some(m)
    ensures LoadedManifest(rd, after, spec.outDir) == Some(m)
    ensures ReadConfig(rd, after, spec.outDir, m) == SourceConfig(rd, files, spec)
    ensures var pieces := ReadPieces(rd, after, spec.outDir, m.evidence);
            pieces.Some? && PiecesFor(rd, files, spec, order, pieces.value)
  {
    order := StableSort(Text.Less, spec.attestationPaths);
    hide Apart, Copied, Jobs, StableSort, RefFor, Intact, Complete, TrustMaterial.Loaded, Under, PieceFor, ReadPiece;
    hide EvidenceFiles;
    SortedPaths(spec, order);
    ConfigReadsBack(rd, files, spec, after, m);
    forall i | 0 <= i < |order|
      ensures var p := ReadPiece(rd, after, spec.outDir, RefFor(spec)(order[i]));
              p.Some? && PieceFor(rd, files, spec, order[i], p.value)
    {
      assert order[i] in order;
      PieceRead(rd, files, spec, after, m, order[i]);
    }
    PiecesAt(rd, after, spec.outDir, m.evidence);
  }

  lemma FixedRead(rd: Reader, files: Files, spec: Spec, after: Files, m: Manifest, p: string)
    requires Built(rd, files, spec, after, m) && IsFixed(p)
    ensures SourceOf(spec, p) in files && Read(after, spec.outDir, p) == Some(files[SourceOf(spec, p)])
  {
    hide Apart, Copied, Jobs, Intact, Complete, EvidenceFor, Under, Read, SourceOf, IsFixed;
    FixedIsNotManifest(p);
    TrustMaterialPlace(files, spec, p);
    ManifestApart(rd, files, spec, after, m, p);
  }

  lemma FixedIsNotManifest(p: string)
    requires IsFixed(p)
    ensures p != MANIFEST
  {
    assert p[0] != 'm' && MANIFEST[0] == 'm';
  }

  lemma FixedSources(spec: Spec)
    ensures SourceOf(spec, POLICY) == spec.policyPath && SourceOf(spec, TRUST_ROOT) == spec.trustRootPath
    ensures SourceOf(spec, REVOCATION) == spec.revocationPath
  {
    assert POLICY[0] == 'p' && TRUST_ROOT[0] == 't' && REVOCATION[0] == 'r';
  }

  lemma ConfigReadsBack(rd: Reader, files: Files, spec: Spec, after: Files, m: Manifest)
    requires Built(rd, files, spec, after, m)
    ensures ReadConfig(rd, after, spec.outDir, m) == SourceConfig(rd, files, spec)
  {
    hide Apart, Copied, Jobs, Intact, Complete, EvidenceFor, Under, Read, TrustMaterial.Loaded, SourceOf;
    assert IsFixed(POLICY) && IsFixed(TRUST_ROOT) && IsFixed(REVOCATION);
    FixedSources(spec);
    FixedRead(rd, files, spec, after, m, POLICY);
    FixedRead(rd, files, spec, after, m, TRUST_ROOT);
    FixedRead(rd, files, spec, after, m, REVOCATION);
  }

  lemma SortedPaths(spec: Spec, order: seq<string>)
    requires order == StableSort(Text.Less, spec.attestationPaths)
    ensures multiset(order) == multiset(spec.attestationPaths)
    ensures forall src :: src in order <==> src in spec.attestationPaths
    ensures forall i, j :: 0 <= i < j < |order| ==> order[i] == order[j] || Text.Less(order[i], order[j])
  {
    Keys.TextOrdering();
    StableSortSorted(Text.Less, spec.attestationPaths);
    StableSortContents(Text.Less, spec.attestationPaths);
    InMultiset(order, spec.attestationPaths);
    hide StableSort;
    forall i, j | 0 <= i < j < |order| ensures order[i] == order[j] || Text.Less(order[i], order[j]) {
      Text.LessTotal(order[i], order[j]);
    }
  }

  // ---- the file an artifact is at ----

  /** The path given last for the name. */
  ghost predicate PathGiven(local: Offline.Local, name: string, path: string) {
    exists i :: 0 <= i < |local.artifacts| && local.artifacts[i].name == name && local.artifacts[i].path == path
                && forall j :: i < j < |local.artifacts| ==> local.artifacts[j].name != name
  }

  /** The file the artifact is at has this digest. */
  ghost predicate HashesTo(local: Offline.Local, name: string, actual: string) {
    exists path :: path != "" && PathGiven(local, name, path) && local.hash(path) == Some(actual)
  }

  lemma {:induction false} PathExact(artifacts: seq<Offline.ArtifactFile>, hash: string -> Option<string>, name: string,
                                     path: string)
    ensures PathGiven(Offline.Local(artifacts, hash), name, path) ==> Offline.PathOf(artifacts, name) == path
    ensures Offline.PathOf(artifacts, name) == path && path != "" ==>
              PathGiven(Offline.Local(artifacts, hash), name, path)
  {
    if artifacts != [] {
      var n := |artifacts| - 1;
      PathExact(artifacts[..n], hash, name, path);
      var before := Offline.Local(artifacts[..n], hash);
      if artifacts[n].name != name {
        assert PathGiven(Offline.Local(artifacts, hash), name, path) ==> PathGiven(before, name, path);
        assert PathGiven(before, name, path) ==> PathGiven(Offline.Local(artifacts, hash), name, path);
      }
    }
  }

  lemma DigestExact(local: Offline.Local, name: string, actual: string)
    ensures Offline.LocalDigest(local, name) == Ok(Some(actual)) <==> HashesTo(local, name, actual)
  {
    hide PathGiven, Offline.PathOf;
    PathExact(local.artifacts, local.hash, name, Offline.PathOf(local.artifacts, name));
    forall path ensures PathGiven(local, name, path) ==> Offline.PathOf(local.artifacts, name) == path {
      PathExact(local.artifacts, local.hash, name, path);
    }
  }

  /** The file the artifact is at bears out the envelope. */
  ghost predicate BornOut(cfg: Config, local: Offline.Local, json: string, name: string, now: Time) {
    exists actual :: HashesTo(local, name, actual) && GateMeaning.Passing(cfg, json, name, actual, now)
  }

  lemma PieceExact(cfg: Config, local: Offline.Local, p: Offline.Piece, now: Time)
    ensures Offline.FullyPassesOnline(cfg, local, p, now) <==> BornOut(cfg, local, p.envelopeJson, p.artifactName, now)
  {
    hide Offline.LocalDigest, HashesTo, Check.CheckOne, GateMeaning.Passing;
    forall actual
      ensures HashesTo(local, p.artifactName, actual) <==>
              Offline.LocalDigest(local, p.artifactName) == Ok(Some(actual))
      ensures Check.CheckOne(cfg, Offline.Online(p), p.artifactName, actual, now).FullyPassed() <==>
              GateMeaning.Passing(cfg, p.envelopeJson, p.artifactName, actual, now)
    {
      DigestExact(local, p.artifactName, actual);
      GateMeaning.FullyPassedExact(cfg, Offline.Online(p), p.artifactName, actual, now);
    }
  }

  // ---- from the sources to the decision ----

  /** A bundle just built is concluded on when its cutoff can be read back and the trust material it was built from is
      acceptable. It is then allowed exactly when it was built from some attestation, and for each of them the text that
      stands in its place passes all four checks for the artifact it was filed for. */
  lemma BuiltAllowExact(rd: Reader, files: Files, spec: Spec, after: Files, m: Manifest, local: Offline.Local,
                        now: Time)
    requires Built(rd, files, spec, after, m) && rd.codec.decode(rd.codec.encode(m)) == Some(m)
    requires Offline.ParsedDecodes(rd.parsers.lib)
    ensures var inputs, loaded := Inputs(rd, after, spec.outDir), SourceConfig(rd, files, spec);
            && (inputs.Some? <==> rd.parsers.lib.parseTime(rd.codec.formatTime(spec.cutoff)).Some? && loaded.Some?)
            && (inputs.Some? ==>
                var (cfg, pieces) := inputs.value;
                && loaded == Some(cfg)
                && (Offline.Allows(cfg, local, pieces, now) <==> SourcesPass(files, spec, cfg, local, now)))
  {
    hide Apart, Copied, Jobs, Complete, EvidenceFor, ReadPieces, ReadConfig, SourceConfig, SourcesPass;
    hide Offline.Allows, Offline.ParsedDecodes, Offline.FullyPassesOnline, PiecesFor, LoadedManifest, Intact, Under;
    var order := BuiltReadsBack(rd, files, spec, after, m);
    if Inputs(rd, after, spec.outDir).Some? {
      var (cfg, pieces) := Inputs(rd, after, spec.outDir).value;
      BundleAllowExact(rd, after, spec.outDir, local, now);
      PassesBySource(rd, files, spec, order, pieces, cfg, local, now);
    }
  }

  /** There is an attestation, and what stands in the place of each passes all four checks for its artifact. */
  ghost predicate SourcesPass(files: Files, spec: Spec, cfg: Config, local: Offline.Local, now: Time) {
    && spec.attestationPaths != []
    && forall src <- spec.attestationPaths, text | Stands(files, spec.attestationPaths, src, text) ::
         BornOut(cfg, local, text, NameOf(spec, src), now)
  }

  lemma StandsOnce(files: Files, paths: seq<string>, src: string, a: string, b: string)
    requires Stands(files, paths, src, a) && Stands(files, paths, src, b)
    ensures a == b
  {
    hide BaseName;
  }

  lemma PassesBySource(rd: Reader, files: Files, spec: Spec, order: seq<string>, pieces: seq<Offline.Piece>,
                       cfg: Config, local: Offline.Local, now: Time)
    requires PiecesFor(rd, files, spec, order, pieces)
    ensures pieces != [] && (forall p <- pieces :: Offline.FullyPassesOnline(cfg, local, p, now)) <==>
            SourcesPass(files, spec, cfg, local, now)
  {
    hide Stands, NameOf, BornOut, Offline.FullyPassesOnline, Decoded, TimeTexts;
    InMultiset(order, spec.attestationPaths);
    forall p <- pieces
      ensures Offline.FullyPassesOnline(cfg, local, p, now) <==>
              BornOut(cfg, local, p.envelopeJson, p.artifactName, now)
    {
      PieceExact(cfg, local, p, now);
    }
    forall src <- spec.attestationPaths, text | Stands(files, spec.attestationPaths, src, text)
      ensures exists p <- pieces :: p.envelopeJson == text && p.artifactName == NameOf(spec, src)
    {
      var i :| 0 <= i < |order| && order[i] == src;
      assert PieceFor(rd, files, spec, order[i], pieces[i]) && pieces[i] in pieces;
      StandsOnce(files, spec.attestationPaths, src, text, pieces[i].envelopeJson);
    }
    forall p <- pieces
      ensures exists src <- spec.attestationPaths ::
                Stands(files, spec.attestationPaths, src, p.envelopeJson) && p.artifactName == NameOf(spec, src)
    {
      var i :| 0 <= i < |pieces| && pieces[i] == p;
      assert PieceFor(rd, files, spec, order[i], pieces[i]) && order[i] in order;
    }
  }

  // ---- the historical class of a piece ----

  /** Evidence of the piece vouches for this instant, and the instant carries information. */
  ghost predicate SeenIn(cfg: Config, p: Offline.Piece, t: Time) {
    var sha := cfg.lib.envelopeSha(p.envelopeJson);
    t != ZERO_TIME && exists ev <- p.evidence :: Stamps.CountsAt(cfg.lib, cfg.root, ev, sha, t)
  }

  lemma InstantsIn(cfg: Config, p: Offline.Piece, t: Time)
    ensures t in Offline.OfflineTimes(cfg, p) && t != ZERO_TIME <==> SeenIn(cfg, p, t)
  {
    var sha := cfg.lib.envelopeSha(p.envelopeJson);
    var stamps := Stamps.Verified(cfg.lib, cfg.root, p.evidence, sha);
    hide Stamps.Verified, Stamps.CountsAt;
    var times := Offline.OfflineTimes(cfg, p);
    forall s
      ensures s in stamps <==> s.evidence in p.evidence && Stamps.CountsAt(cfg.lib, cfg.root, s.evidence, sha, s.time)
    {
      Stamps.VerifiedExact(cfg.lib, cfg.root, p.evidence, sha, s);
    }
    if t in times {
      var i :| 0 <= i < |times| && times[i] == t;
      assert stamps[i] in stamps;
    }
    if ev :| ev in p.evidence && Stamps.CountsAt(cfg.lib, cfg.root, ev, sha, t) {
      var i :| 0 <= i < |stamps| && stamps[i] == Stamps.Stamp(t, ev);
      assert times[i] == t;
    }
  }

  /** What an offline check says of a piece signed by a key: the class is by when its own evidence saw it. */
  lemma ConclusionExact(cfg: Config, local: Offline.Local, p: Offline.Piece, now: Time, key: string)
    requires Offline.ConcludeOne(cfg, local, p, now).Ok? && Check.SignedWith(cfg, p.envelopeJson, key)
    ensures var c := Offline.ConcludeOne(cfg, local, p, now).value;
            && c.artifactName == p.artifactName && c.signatureValid
            && (c.keyRevoked <==> !Check.Unrevoked(cfg.rev, key))
            && (c.historical == Affected || c.historical == Insufficient ==> c.keyRevoked)
            && (c.keyRevoked ==>
                var comp := cfg.rev.value.events[key].compromisedAt;
                && (c.historical == Unaffected <==> exists t :: SeenIn(cfg, p, t) && t < comp)
                && (c.historical == Insufficient <==> forall t :: !SeenIn(cfg, p, t)))
  {
    hide Offline.OfflineTimes, Revoke.Earliest, Offline.LocalDigest, Digest.Matches, SeenIn;
    forall t ensures t in Offline.OfflineTimes(cfg, p) && t != ZERO_TIME <==> SeenIn(cfg, p, t) {
      InstantsIn(cfg, p, t);
    }
    var c := Offline.ConcludeOne(cfg, local, p, now).value;
    assert c.historical == Revoke.ClassOf(cfg.rev, key, Revoke.Earliest(Offline.OfflineTimes(cfg, p)));
    if Revoke.Revoked(cfg.rev, key) {
      Revoke.LateStampsNeverClear(cfg.rev, key, Offline.OfflineTimes(cfg, p));
    }
  }

  /** Its other verdicts: on the issuer, and on the file the artifact is at. */
  lemma VerdictsExact(cfg: Config, local: Offline.Local, p: Offline.Piece, now: Time, key: string)
    requires Offline.ConcludeOne(cfg, local, p, now).Ok? && Check.SignedWith(cfg, p.envelopeJson, key)
    ensures var c := Offline.ConcludeOne(cfg, local, p, now).value;
            && (c.issuerTrusted <==> Check.IssuerBound(cfg, p.envelopeJson))
            && (forall actual :: HashesTo(local, p.artifactName, actual) ==> c.artifactSha == actual)
            && (c.digestMatched <==>
                exists env, st, actual ::
                  && Check.Presents(cfg, p.envelopeJson, env, key, st) && HashesTo(local, p.artifactName, actual)
                  && Digest.Matches(p.artifactName, actual, Some(st)))
  {
    assert forall actual :: !Digest.Matches(p.artifactName, actual, None);
    hide Offline.OfflineTimes, Revoke.Earliest, Offline.LocalDigest, Digest.Matches, HashesTo, Revoke.ClassOf;
    forall actual
      ensures HashesTo(local, p.artifactName, actual) <==>
              Offline.LocalDigest(local, p.artifactName) == Ok(Some(actual))
    {
      DigestExact(local, p.artifactName, actual);
    }
    var c := Offline.ConcludeOne(cfg, local, p, now).value;
    var env := cfg.lib.parseEnvelope(p.envelopeJson).value;
    var sig := cfg.lib.verifyEnvelope(env, cfg.root.pubById);
    if sig.Payload().Some? {
      var st := sig.statement.value;
      assert Check.Presents(cfg, p.envelopeJson, env, key, st);
      var prov := Check.ProvenanceOf(cfg.lib, st);
      if prov.Some? {
        assert Check.Claims(cfg.lib, st, prov.value);
        assert c.issuerTrusted <==> Check.BoundTo(cfg, key, prov.value.builderId);
      }
    }
    if c.digestMatched {
      var actual := Offline.LocalDigest(local, p.artifactName).value.value;
      assert HashesTo(local, p.artifactName, actual);
    }
  }

  /** An envelope no key signs is concluded on as insufficient, without any check. */
  lemma UnsignedConclusion(cfg: Config, local: Offline.Local, p: Offline.Piece, now: Time)
    requires Offline.ConcludeOne(cfg, local, p, now).Ok? && forall key :: !Check.SignedWith(cfg, p.envelopeJson, key)
    ensures var c := Offline.ConcludeOne(cfg, local, p, now).value;
            !c.signatureValid && !c.issuerTrusted && !c.keyRevoked && c.historical == Insufficient
  {
    var parsed := cfg.lib.parseEnvelope(p.envelopeJson);
    if parsed.Some? {
      var sig := cfg.lib.verifyEnvelope(parsed.value, cfg.root.pubById);
      assert sig.Valid? ==> Check.SignedWith(cfg, p.envelopeJson, sig.keyId);
    }
  }
}
