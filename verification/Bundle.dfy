/** internal/offline/bundle.go: building an offline bundle on disk, and what its manifest guarantees to a reader. */
module Bundle {
  import opened Base
  import opened Model
  import opened Lists
  import Keys
  import Text

  type Files = map<string, string>

  datatype FileEntry = FileEntry(path: string, sha256: string, size: nat)

  datatype EvidenceRef = EvidenceRef(attestationPath: string, timestampPaths: seq<string>, artifactName: string)

  /** The manifest; the cutoff is text, and the three paths say where a reader finds the trust material. */
  datatype Manifest = Manifest(version: string, revocationCutoff: string, feedVersion: int, realTimeValid: bool,
                               policyPath: string, trustRootPath: string, revocationPath: string,
                               evidence: seq<EvidenceRef>, files: seq<FileEntry>)

  datatype Spec = Spec(outDir: string, policyPath: string, trustRootPath: string, revocationPath: string,
                       attestationPaths: seq<string>, timePaths: seq<string>, artifactNames: map<string, string>,
                       feedVersion: int, cutoff: Time)

  /** Hashing, the manifest's JSON form, and instants as text. */
  datatype Codec = Codec(hash: string -> string, encode: Manifest -> string, decode: string -> Option<Manifest>,
                         formatTime: Time -> string)

  const VERSION := "offline-bundle-v1"
  const POLICY := "policy.rego"
  const TRUST_ROOT := "trustroot.json"
  const REVOCATION := "revocation.json"
  const MANIFEST := "manifest.json"

  // ---- paths ----

  function Under(dir: string, rel: string): string {
    dir + "/" + rel
  }

  /** The text after the last '/'. */
  function BaseName(path: string): (r: string)
    ensures '/' !in r
  {
    if path == [] then ""
    else
      var n := |path| - 1;
      if path[n] == '/' then "" else BaseName(path[..n]) + [path[n]]
  }

  function AttestationRel(src: string): string {
    "attestations/" + BaseName(src)
  }

  function TimestampRel(src: string): string {
    "timestamps/" + BaseName(src)
  }

  lemma UnderInjective(dir: string, a: string, b: string)
    ensures Under(dir, a) == Under(dir, b) <==> a == b
  {
    assert Under(dir, a)[|dir| + 1..] == a && Under(dir, b)[|dir| + 1..] == b;
  }

  lemma PrefixInjective(prefix: string, a: string, b: string)
    ensures prefix + a == prefix + b <==> a == b
  {
    assert (prefix + a)[|prefix|..] == a && (prefix + b)[|prefix|..] == b;
  }

  // ---- copying ----

  datatype Job = Job(src: string, dst: string)

  /** The files after the jobs are done in order; None once a source is missing. */
  function Copied(files: Files, jobs: seq<Job>): Option<Files> {
    if jobs == [] then Some(files)
    else
      var n := |jobs| - 1;
      match Copied(files, jobs[..n])
      case None => None
      case Some(f) => if jobs[n].src in f then Some(f[jobs[n].dst := f[jobs[n].src]]) else None
  }

  function AttestationJob(dir: string): string -> Job {
    (src: string) => Job(src, Under(dir, AttestationRel(src)))
  }

  function TimestampJob(dir: string): string -> Job {
    (src: string) => Job(src, Under(dir, TimestampRel(src)))
  }

  function FixedJobs(spec: Spec): (r: seq<Job>)
    ensures |r| == 3
  {
    [Job(spec.policyPath, Under(spec.outDir, POLICY)), Job(spec.trustRootPath, Under(spec.outDir, TRUST_ROOT)),
     Job(spec.revocationPath, Under(spec.outDir, REVOCATION))]
  }

  function Jobs(spec: Spec): seq<Job> {
    FixedJobs(spec) + Map(AttestationJob(spec.outDir), spec.attestationPaths)
      + Map(TimestampJob(spec.outDir), spec.timePaths)
  }

  // ---- the manifest ----

  function NameFor(names: map<string, string>, src: string): string {
    if src in names && names[src] != "" then names[src] else "artifact"
  }

  function RefFor(spec: Spec): string -> EvidenceRef {
    (src: string) => EvidenceRef(AttestationRel(src), TimestampRels(spec), NameFor(spec.artifactNames, src))
  }

  function TimestampRels(spec: Spec): seq<string> {
    Map((src: string) => TimestampRel(src), spec.timePaths)
  }

  function EvidenceFor(spec: Spec): seq<EvidenceRef> {
    Map(RefFor(spec), StableSort(Text.Less, spec.attestationPaths))
  }

  /** Every file the evidence names. */
  ghost function EvidenceFiles(evidence: seq<EvidenceRef>): set<string> {
    set e <- evidence, p | p in [e.attestationPath] + e.timestampPaths :: p
  }

  /** Every file the manifest names outside its list of digests. */
  ghost function DataFiles(m: Manifest): set<string> {
    {m.policyPath, m.trustRootPath, m.revocationPath} + EvidenceFiles(m.evidence)
  }

  /** The data files of the bundle built from a specification. */
  ghost function BuiltFiles(spec: Spec): set<string> {
    {POLICY, TRUST_ROOT, REVOCATION} + EvidenceFiles(EvidenceFor(spec))
  }

  predicate EntryMatches(codec: Codec, files: Files, dir: string, e: FileEntry) {
    Under(dir, e.path) in files && codec.hash(files[Under(dir, e.path)]) == e.sha256
  }

  /** Every listed file is there with the listed digest. */
  predicate Intact(codec: Codec, files: Files, dir: string, m: Manifest) {
    forall e <- m.files :: EntryMatches(codec, files, dir, e)
  }

  predicate SizeMatches(files: Files, dir: string, e: FileEntry) {
    Under(dir, e.path) in files && |files[Under(dir, e.path)]| == e.size
  }

  /** One matching entry for each path, in order. */
  ghost predicate Inventory(codec: Codec, files: Files, dir: string, rels: seq<string>, entries: seq<FileEntry>) {
    && |entries| == |rels|
    && forall i :: 0 <= i < |rels| ==>
         && entries[i].path == rels[i]
         && EntryMatches(codec, files, dir, entries[i]) && SizeMatches(files, dir, entries[i])
  }

  lemma ListedArePresent(codec: Codec, files: Files, dir: string, rels: seq<string>, entries: seq<FileEntry>)
    requires Inventory(codec, files, dir, rels, entries)
    ensures forall p <- rels :: Under(dir, p) in files
  {
    hide Under;
    forall p <- rels ensures Under(dir, p) in files {
      var k :| 0 <= k < |rels| && rels[k] == p;
      assert EntryMatches(codec, files, dir, entries[k]);
    }
  }

  /** The list of digests has an entry for the path. */
  ghost predicate HasDigest(m: Manifest, p: string) {
    exists e <- m.files :: e.path == p
  }

  /** The manifest lists exactly the files it names, each once. */
  ghost predicate Complete(m: Manifest) {
    && (forall p :: p in DataFiles(m) <==> HasDigest(m, p))
    && (forall i, j :: 0 <= i < j < |m.files| ==> m.files[i].path != m.files[j].path)
  }

  class Disk {
    var files: Files

    method CopyFile(src: string, dst: string) returns (ok: bool)
      modifies this
      ensures ok <==> src in old(files)
      ensures files == if ok then old(files)[dst := old(files)[src]] else old(files)
    {
      if src !in files {
        return false;
      }
      files := files[dst := files[src]];
      ok := true;
    }

    method CopyAll(jobs: seq<Job>) returns (ok: bool)
      modifies this
      ensures ok <==> Copied(old(files), jobs).Some?
      ensures ok ==> Copied(old(files), jobs) == Some(files)
    {
      for i := 0 to |jobs|
        invariant Copied(old(files), jobs[..i]) == Some(files)
      {
        assert jobs[..i + 1][..i] == jobs[..i];
        var copied := CopyFile(jobs[i].src, jobs[i].dst);
        if !copied {
          StaysMissing(old(files), jobs, i + 1);
          return false;
        }
      }
      assert jobs[..|jobs|] == jobs;
      ok := true;
    }

    /** The manifest entries of the data files, in order. */
    method HashAll(codec: Codec, dir: string, rels: seq<string>) returns (r: Option<seq<FileEntry>>)
      ensures r.Some? <==> forall p <- rels :: Under(dir, p) in files
      ensures r.Some? ==> Inventory(codec, files, dir, rels, r.value)
    {
      var out: seq<FileEntry> := [];
      for i := 0 to |rels|
        invariant Inventory(codec, files, dir, rels[..i], out)
      {
        assert rels[..i + 1] == rels[..i] + [rels[i]];
        if Under(dir, rels[i]) !in files {
          assert rels[i] in rels;
          return None;
        }
        var b := files[Under(dir, rels[i])];
        out := out + [FileEntry(rels[i], codec.hash(b), |b|)];
      }
      assert rels[..|rels|] == rels;
      ListedArePresent(codec, files, dir, rels, out);
      r := Some(out);
    }

    /** Build: copies the sources, writes the manifest; afterwards the bundle is intact and its manifest complete. */
    method Build(codec: Codec, spec: Spec) returns (r: Result<Manifest>)
      modifies this
      ensures r.Ok? <==> Copied(old(files), Jobs(spec)).Some?
      ensures r.Ok? ==>
                var m := r.value;
                && files == Copied(old(files), Jobs(spec)).value[Under(spec.outDir, MANIFEST) := codec.encode(m)]
                && m.version == VERSION && m.revocationCutoff == codec.formatTime(spec.cutoff)
                && m.feedVersion == spec.feedVersion && !m.realTimeValid && m.evidence == EvidenceFor(spec)
                && m.policyPath == POLICY && m.trustRootPath == TRUST_ROOT && m.revocationPath == REVOCATION
                && Intact(codec, files, spec.outDir, m) && Complete(m)
                && forall e <- m.files :: SizeMatches(files, spec.outDir, e)
    {
      hide Copied, Jobs, EvidenceFor, EvidenceFiles, Under, Complete, Keys.SortedKeys, Inventory, Intact, SizeMatches;
      var jobs := ListJobs(spec);
      var ok := CopyAll(jobs);
      if !ok {
        return Err("copy");
      }
      var evidence := ListEvidence(spec);
      var m := Manifest(VERSION, codec.formatTime(spec.cutoff), spec.feedVersion, false, POLICY, TRUST_ROOT, REVOCATION,
                        evidence, []);
      var rels := ListDataFiles(m);
      DataFilesCopied(old(files), spec, files);
      var entries := HashAll(codec, spec.outDir, rels);
      m := m.(files := entries.value);
      ListedOnce(codec, files, spec.outDir, m, rels);
      ghost var data := files;
      files := files[Under(spec.outDir, MANIFEST) := codec.encode(m)];
      assert DataFiles(m) == BuiltFiles(spec);
      ManifestIsNotData(codec, data, spec, m, codec.encode(m));
      r := Ok(m);
    }

    /** LoadManifest; the manifest is None when it is missing, malformed or of another version. */
    method LoadManifest(codec: Codec, dir: string) returns (r: Option<Manifest>)
      ensures r.Some? <==> Under(dir, MANIFEST) in files && codec.decode(files[Under(dir, MANIFEST)]).Some?
                           && codec.decode(files[Under(dir, MANIFEST)]).value.version == VERSION
      ensures r.Some? ==> r == codec.decode(files[Under(dir, MANIFEST)])
    {
      if Under(dir, MANIFEST) !in files {
        return None;
      }
      r := codec.decode(files[Under(dir, MANIFEST)]);
      if r.Some? && r.value.version != VERSION {
        r := None;
      }
    }

    /** VerifyIntegrity. */
    method VerifyIntegrity(codec: Codec, dir: string, m: Manifest) returns (ok: bool)
      ensures ok <==> Intact(codec, files, dir, m)
    {
      for i := 0 to |m.files|
        invariant forall k :: 0 <= k < i ==> EntryMatches(codec, files, dir, m.files[k])
      {
        var e := m.files[i];
        assert e in m.files;
        if Under(dir, e.path) !in files {
          return false;
        }
        if codec.hash(files[Under(dir, e.path)]) != e.sha256 {
          return false;
        }
      }
      ok := true;
    }
  }

  // ---- the loops of Build over values ----

  method ListJobs(spec: Spec) returns (jobs: seq<Job>)
    ensures jobs == Jobs(spec)
  {
    hide FixedJobs;
    var atts := JobsFor(AttestationJob(spec.outDir), spec.attestationPaths);
    var times := JobsFor(TimestampJob(spec.outDir), spec.timePaths);
    jobs := FixedJobs(spec) + atts + times;
  }

  method JobsFor(job: string -> Job, paths: seq<string>) returns (jobs: seq<Job>)
    ensures jobs == Map(job, paths)
  {
    jobs := [];
    for i := 0 to |paths|
      invariant jobs == Map(job, paths[..i])
    {
      assert paths[..i + 1] == paths[..i] + [paths[i]];
      jobs := jobs + [job(paths[i])];
    }
    assert paths[..|paths|] == paths;
  }

  method SortPaths(paths: seq<string>) returns (sorted: seq<string>)
    ensures sorted == StableSort(Text.Less, paths)
  {
    Keys.TextOrdering();
    StableSortSorted(Text.Less, paths);
    StableSortContents(Text.Less, paths);
    hide StableSort;
    sorted := SortSlice(Text.Less, paths);
    SortedUnique(Text.Less, sorted, StableSort(Text.Less, paths));
  }

  method ListTimestamps(spec: Spec) returns (rels: seq<string>)
    ensures rels == TimestampRels(spec)
  {
    hide TimestampRel;
    rels := [];
    for i := 0 to |spec.timePaths|
      invariant rels == Map((src: string) => TimestampRel(src), spec.timePaths[..i])
    {
      assert spec.timePaths[..i + 1] == spec.timePaths[..i] + [spec.timePaths[i]];
      rels := rels + [TimestampRel(spec.timePaths[i])];
    }
    assert spec.timePaths[..|spec.timePaths|] == spec.timePaths;
  }

  method ListEvidence(spec: Spec) returns (evidence: seq<EvidenceRef>)
    ensures evidence == EvidenceFor(spec)
  {
    hide AttestationRel, TimestampRels, StableSort;
    var sorted := SortPaths(spec.attestationPaths);
    var allTs := ListTimestamps(spec);
    evidence := [];
    for i := 0 to |sorted|
      invariant evidence == Map(RefFor(spec), sorted[..i])
    {
      var src := sorted[i];
      assert sorted[..i + 1] == sorted[..i] + [src];
      var name := if src in spec.artifactNames then spec.artifactNames[src] else "";
      if name == "" {
        name := "artifact";
      }
      evidence := evidence + [EvidenceRef(AttestationRel(src), allTs, name)];
    }
    assert sorted[..|sorted|] == sorted;
  }

  /** dedup: the first occurrence of each string, in order. */
  method Dedup(xs: seq<string>) returns (out: seq<string>)
    ensures forall x :: x in out <==> x in xs
    ensures forall i, j :: 0 <= i < j < |out| ==> out[i] != out[j]
    ensures Sorted(Text.Less, xs) ==> Sorted(Text.Less, out)
  {
    var seen: set<string> := {};
    out := [];
    ghost var at: seq<nat> := [];
    for i := 0 to |xs|
      invariant forall x :: x in out <==> x in xs[..i]
      invariant forall x :: x in seen <==> x in out
      invariant forall i, j :: 0 <= i < j < |out| ==> out[i] != out[j]
      invariant |at| == |out| && forall k :: 0 <= k < |out| ==> at[k] < i && xs[at[k]] == out[k]
      invariant forall j, k :: 0 <= j < k < |out| ==> at[j] < at[k]
    {
      assert xs[..i + 1] == xs[..i] + [xs[i]];
      if xs[i] in seen {
        continue;
      }
      seen, out, at := seen + {xs[i]}, out + [xs[i]], at + [i];
    }
    assert xs[..|xs|] == xs;
  }

  method ListDataFiles(m: Manifest) returns (rels: seq<string>)
    ensures rels == Keys.SortedKeys(DataFiles(m))
  {
    rels := [m.policyPath, m.trustRootPath, m.revocationPath];
    for i := 0 to |m.evidence|
      invariant forall p :: p in rels <==>
                  p in {m.policyPath, m.trustRootPath, m.revocationPath} + EvidenceFiles(m.evidence[..i])
    {
      assert m.evidence[..i + 1] == m.evidence[..i] + [m.evidence[i]];
      EvidenceFilesSnoc(m.evidence[..i], m.evidence[i]);
      rels := rels + [m.evidence[i].attestationPath] + m.evidence[i].timestampPaths;
    }
    assert m.evidence[..|m.evidence|] == m.evidence;
    Keys.TextOrdering();
    var sorted := SortSlice(Text.Less, rels);
    InMultiset(sorted, rels);
    rels := Dedup(sorted);
    DistinctContents(rels, DataFiles(m));
    Keys.SortedKeysUnique(DataFiles(m), rels);
  }

  lemma EvidenceFilesSnoc(evidence: seq<EvidenceRef>, e: EvidenceRef)
    ensures forall p :: p in EvidenceFiles(evidence + [e]) <==>
              p in EvidenceFiles(evidence) || p in [e.attestationPath] + e.timestampPaths
  {
    assert forall x :: x in evidence + [e] <==> x in evidence || x == e;
  }

  lemma DistinctContents(xs: seq<string>, s: set<string>)
    requires forall i, j :: 0 <= i < j < |xs| ==> xs[i] != xs[j]
    requires forall x :: x in xs <==> x in s
    ensures multiset(xs) == multiset(s)
  {
    forall x ensures multiset(xs)[x] == multiset(s)[x] {
      CountDistinct(xs, x);
    }
  }

  lemma {:induction false} CountDistinct(xs: seq<string>, x: string)
    requires forall i, j :: 0 <= i < j < |xs| ==> xs[i] != xs[j]
    ensures multiset(xs)[x] == if x in xs then 1 else 0
  {
    if xs != [] {
      var n := |xs| - 1;
      CountDistinct(xs[..n], x);
      assert xs == xs[..n] + [xs[n]];
      assert forall i :: 0 <= i < n ==> xs[..n][i] != xs[n];
    }
  }

  // ---- what copying leaves where ----

  lemma {:induction false} StaysMissing(files: Files, jobs: seq<Job>, i: nat)
    requires i <= |jobs| && Copied(files, jobs[..i]).None?
    ensures Copied(files, jobs).None?
    decreases |jobs| - i
  {
    if i < |jobs| {
      assert jobs[..i + 1][..i] == jobs[..i];
      StaysMissing(files, jobs, i + 1);
    } else {
      assert jobs[..i] == jobs;
    }
  }

  lemma {:induction false} DestinationsThere(files: Files, jobs: seq<Job>)
    requires Copied(files, jobs).Some?
    ensures forall j <- jobs :: j.dst in Copied(files, jobs).value
    ensures forall p :: p in files ==> p in Copied(files, jobs).value
  {
    if jobs != [] {
      var n := |jobs| - 1;
      DestinationsThere(files, jobs[..n]);
      assert jobs == jobs[..n] + [jobs[n]];
    }
  }

  lemma MapContains<T, U>(f: T -> U, xs: seq<T>, x: T)
    requires x in xs
    ensures f(x) in Map(f, xs)
  {
    var i :| 0 <= i < |xs| && xs[i] == x;
    assert Map(f, xs)[i] == f(x);
  }

  lemma AttestationJobListed(spec: Spec, src: string)
    requires src in spec.attestationPaths
    ensures Job(src, Under(spec.outDir, AttestationRel(src))) in Jobs(spec)
  {
    hide Under, AttestationRel, FixedJobs, TimestampJob;
    MapContains(AttestationJob(spec.outDir), spec.attestationPaths, src);
  }

  lemma TimestampJobListed(spec: Spec, src: string)
    requires src in spec.timePaths
    ensures Job(src, Under(spec.outDir, TimestampRel(src))) in Jobs(spec)
  {
    hide Under, TimestampRel, FixedJobs, AttestationJob;
    MapContains(TimestampJob(spec.outDir), spec.timePaths, src);
  }

  predicate IsFixed(p: string) {
    p == POLICY || p == TRUST_ROOT || p == REVOCATION
  }

  /** What the evidence names comes from the sources. */
  lemma EvidenceNames(spec: Spec, p: string)
    requires p in BuiltFiles(spec)
    ensures IsFixed(p)
            || (exists src <- spec.attestationPaths :: p == AttestationRel(src))
            || (exists src <- spec.timePaths :: p == TimestampRel(src))
  {
    hide AttestationRel, TimestampRel, StableSort;
    if !IsFixed(p) {
      var e :| e in EvidenceFor(spec) && p in [e.attestationPath] + e.timestampPaths;
      var sorted := StableSort(Text.Less, spec.attestationPaths);
      var k :| 0 <= k < |sorted| && RefFor(spec)(sorted[k]) == e;
      StableSortContents(Text.Less, spec.attestationPaths);
      InMultiset(sorted, spec.attestationPaths);
      if p == e.attestationPath {
        assert sorted[k] in spec.attestationPaths;
      } else {
        var i :| 0 <= i < |spec.timePaths| && TimestampRel(spec.timePaths[i]) == p;
        assert spec.timePaths[i] in spec.timePaths;
      }
    }
  }

  /** Every data file is the destination of a job. */
  lemma JobFor(spec: Spec, p: string) returns (j: Job)
    requires p in BuiltFiles(spec)
    ensures j in Jobs(spec) && j.dst == Under(spec.outDir, p)
  {
    hide *;
    EvidenceNames(spec, p);
    if IsFixed(p) {
      j := FixedJob(spec, p);
    } else if exists src <- spec.attestationPaths :: p == AttestationRel(src) {
      var src :| src in spec.attestationPaths && p == AttestationRel(src);
      AttestationJobListed(spec, src);
      j := Job(src, Under(spec.outDir, AttestationRel(src)));
    } else {
      var src :| src in spec.timePaths && p == TimestampRel(src);
      TimestampJobListed(spec, src);
      j := Job(src, Under(spec.outDir, TimestampRel(src)));
    }
  }

  lemma FixedJob(spec: Spec, p: string) returns (j: Job)
    requires IsFixed(p)
    ensures j in Jobs(spec) && j.dst == Under(spec.outDir, p)
  {
    hide Under, Jobs;
    var i := if p == POLICY then 0 else if p == TRUST_ROOT then 1 else 2;
    FixedJobListed(spec, i);
    j := FixedJobs(spec)[i];
  }

  lemma FixedJobListed(spec: Spec, i: nat)
    requires i < 3
    ensures FixedJobs(spec)[i] in Jobs(spec)
  {
    hide FixedJobs, AttestationJob, TimestampJob;
    var fixed := FixedJobs(spec);
    assert Jobs(spec)[i] == fixed[i];
  }

  /** Every data file has been copied into the bundle. */
  lemma DataFilesCopied(files: Files, spec: Spec, after: Files)
    requires Copied(files, Jobs(spec)) == Some(after)
    ensures forall p <- BuiltFiles(spec) :: Under(spec.outDir, p) in after
  {
    hide Copied, Under, BuiltFiles, Jobs;
    DestinationsThere(files, Jobs(spec));
    forall p <- BuiltFiles(spec) ensures Under(spec.outDir, p) in after {
      var j := JobFor(spec, p);
    }
  }

  lemma DataIsNotManifest(spec: Spec)
    ensures MANIFEST !in BuiltFiles(spec)
  {
    assert MANIFEST[0] == 'm' && !IsFixed(MANIFEST);
    assert forall src :: AttestationRel(src)[0] == 'a' && TimestampRel(src)[0] == 't';
    hide BuiltFiles, AttestationRel, TimestampRel, IsFixed;
    forall p <- BuiltFiles(spec) ensures p != MANIFEST {
      EvidenceNames(spec, p);
    }
  }

  lemma ManifestIsNotData(codec: Codec, data: Files, spec: Spec, m: Manifest, text: string)
    requires Intact(codec, data, spec.outDir, m)
    requires forall e <- m.files :: e.path in BuiltFiles(spec) && SizeMatches(data, spec.outDir, e)
    ensures Intact(codec, data[Under(spec.outDir, MANIFEST) := text], spec.outDir, m)
    ensures forall e <- m.files :: SizeMatches(data[Under(spec.outDir, MANIFEST) := text], spec.outDir, e)
  {
    hide BuiltFiles, Under;
    DataIsNotManifest(spec);
    forall e <- m.files
      ensures EntryMatches(codec, data[Under(spec.outDir, MANIFEST) := text], spec.outDir, e)
      ensures SizeMatches(data[Under(spec.outDir, MANIFEST) := text], spec.outDir, e)
    {
      UnderInjective(spec.outDir, e.path, MANIFEST);
      assert EntryMatches(codec, data, spec.outDir, e);
    }
  }

  lemma ListedOnce(codec: Codec, files: Files, dir: string, m: Manifest, rels: seq<string>)
    requires rels == Keys.SortedKeys(DataFiles(m)) && Inventory(codec, files, dir, rels, m.files)
    ensures Complete(m) && Intact(codec, files, dir, m)
    ensures forall e <- m.files :: e.path in DataFiles(m) && SizeMatches(files, dir, e)
  {
    hide DataFiles, EntryMatches, SizeMatches, Keys.SortedKeys;
    Keys.SortedKeysLaw(DataFiles(m));
    forall p ensures p in DataFiles(m) <==> HasDigest(m, p) {
      if p in DataFiles(m) {
        var i :| 0 <= i < |rels| && rels[i] == p;
        assert m.files[i] in m.files;
      }
      if HasDigest(m, p) {
        var e :| e in m.files && e.path == p;
        var i :| 0 <= i < |m.files| && m.files[i] == e;
        assert rels[i] in rels;
      }
    }
  }

  // ---- base names that collide ----

  /** The source of the last job with this destination. */
  function LastTo(jobs: seq<Job>, p: string): Option<string> {
    if jobs == [] then None
    else
      var n := |jobs| - 1;
      if jobs[n].dst == p then Some(jobs[n].src) else LastTo(jobs[..n], p)
  }

  /** No job reads what another writes: the sources lie outside the bundle. */
  ghost predicate Apart(jobs: seq<Job>) {
    forall j <- jobs, k <- jobs :: j.src != k.dst
  }

  lemma {:induction false} CopiedExact(files: Files, jobs: seq<Job>)
    requires Apart(jobs) && Copied(files, jobs).Some?
    ensures forall j <- jobs :: j.src in files && j.src in Copied(files, jobs).value
                                && Copied(files, jobs).value[j.src] == files[j.src]
    ensures forall p | LastTo(jobs, p).Some? ::
              LastTo(jobs, p).value in files && p in Copied(files, jobs).value
              && Copied(files, jobs).value[p] == files[LastTo(jobs, p).value]
  {
    if jobs != [] {
      var n := |jobs| - 1;
      var before := jobs[..n];
      assert jobs == before + [jobs[n]];
      assert jobs[n] in jobs && forall j <- before :: j in jobs;
      CopiedExact(files, before);
      SourceUntouched(files, before, jobs[n].src);
      forall j <- before ensures j.src != jobs[n].dst {
      }
    }
  }

  lemma {:induction false} SourceUntouched(files: Files, jobs: seq<Job>, p: string)
    requires Copied(files, jobs).Some? && forall j <- jobs :: j.dst != p
    ensures p in Copied(files, jobs).value <==> p in files
    ensures p in files ==> Copied(files, jobs).value[p] == files[p]
  {
    if jobs != [] {
      var n := |jobs| - 1;
      assert jobs == jobs[..n] + [jobs[n]];
      SourceUntouched(files, jobs[..n], p);
    }
  }

  lemma {:induction false} LastToAppend(a: seq<Job>, b: seq<Job>, p: string)
    ensures LastTo(a + b, p) == if LastTo(b, p).Some? then LastTo(b, p) else LastTo(a, p)
  {
    if b == [] {
      assert a + b == a;
    } else {
      var n := |b| - 1;
      assert (a + b)[..|a| + n] == a + b[..n];
      LastToAppend(a, b[..n], p);
    }
  }

  /** The last path with a given base name. */
  function LastNamed(paths: seq<string>, base: string): Option<string> {
    if paths == [] then None
    else
      var n := |paths| - 1;
      if BaseName(paths[n]) == base then Some(paths[n]) else LastNamed(paths[..n], base)
  }

  lemma {:induction false} LastNamedExists(paths: seq<string>, src: string)
    requires src in paths
    ensures LastNamed(paths, BaseName(src)).Some? && LastNamed(paths, BaseName(src)).value in paths
    ensures BaseName(LastNamed(paths, BaseName(src)).value) == BaseName(src)
  {
    var n := |paths| - 1;
    if BaseName(paths[n]) != BaseName(src) {
      assert paths == paths[..n] + [paths[n]];
      LastNamedExists(paths[..n], src);
    }
  }

  lemma Targets(dir: string, a: string, b: string)
    ensures Under(dir, AttestationRel(a)) == Under(dir, AttestationRel(b)) <==> BaseName(a) == BaseName(b)
    ensures Under(dir, TimestampRel(a)) != Under(dir, AttestationRel(b))
  {
    hide BaseName, Under;
    UnderInjective(dir, AttestationRel(a), AttestationRel(b));
    UnderInjective(dir, TimestampRel(a), AttestationRel(b));
    PrefixInjective("attestations/", BaseName(a), BaseName(b));
    assert TimestampRel(a)[0] == 't' && AttestationRel(b)[0] == 'a';
  }

  lemma {:induction false} LastAttestationTo(dir: string, paths: seq<string>, src: string)
    ensures LastTo(Map(AttestationJob(dir), paths), Under(dir, AttestationRel(src))) == LastNamed(paths, BaseName(src))
  {
    hide BaseName, Under, AttestationRel, TimestampRel;
    if paths != [] {
      var n := |paths| - 1;
      LastAttestationTo(dir, paths[..n], src);
      assert Map(AttestationJob(dir), paths)[..n] == Map(AttestationJob(dir), paths[..n]);
      Targets(dir, paths[n], src);
    }
  }

  lemma {:induction false} NoTimestampTo(dir: string, paths: seq<string>, src: string)
    ensures LastTo(Map(TimestampJob(dir), paths), Under(dir, AttestationRel(src))).None?
  {
    hide BaseName, Under, AttestationRel, TimestampRel;
    if paths != [] {
      var n := |paths| - 1;
      NoTimestampTo(dir, paths[..n], src);
      assert Map(TimestampJob(dir), paths)[..n] == Map(TimestampJob(dir), paths[..n]);
      Targets(dir, paths[n], src);
    }
  }

  /** In the bundle an attestation's place holds the last attestation of that base name. */
  lemma AttestationCopied(files: Files, spec: Spec, src: string)
    requires Apart(Jobs(spec)) && Copied(files, Jobs(spec)).Some? && src in spec.attestationPaths
    ensures LastNamed(spec.attestationPaths, BaseName(src)).Some?
    ensures var after, p := Copied(files, Jobs(spec)).value, Under(spec.outDir, AttestationRel(src));
            var last := LastNamed(spec.attestationPaths, BaseName(src)).value;
            last in files && p in after && after[p] == files[last]
  {
    hide Copied, Under, AttestationRel, Apart, BaseName, FixedJobs, AttestationJob, TimestampJob, LastTo, LastNamed;
    var p := Under(spec.outDir, AttestationRel(src));
    var fixed, atts, times := FixedJobs(spec), Map(AttestationJob(spec.outDir), spec.attestationPaths),
                              Map(TimestampJob(spec.outDir), spec.timePaths);
    LastNamedExists(spec.attestationPaths, src);
    LastAttestationTo(spec.outDir, spec.attestationPaths, src);
    NoTimestampTo(spec.outDir, spec.timePaths, src);
    LastToAppend(fixed, atts, p);
    LastToAppend(fixed + atts, times, p);
    CopiedExact(files, Jobs(spec));
  }

  /** The attestation's bytes are found in its place. */
  predicate KeptAt(files: Files, after: Files, dir: string, src: string) {
    var p := Under(dir, AttestationRel(src));
    src in files && p in after && after[p] == files[src]
  }

  predicate SameBytes(files: Files, a: string, b: string) {
    a in files && b in files && files[a] == files[b]
  }

  ghost predicate BaseNamesAgree(files: Files, paths: seq<string>) {
    forall a <- paths, b <- paths :: BaseName(a) == BaseName(b) ==> SameBytes(files, a, b)
  }

  /** Every attestation keeps its bytes in the bundle exactly when attestations of one base name have the same bytes. */
  lemma PreservedIffBaseNamesAgree(files: Files, spec: Spec, after: Files)
    requires Apart(Jobs(spec)) && Copied(files, Jobs(spec)) == Some(after)
    ensures (forall src <- spec.attestationPaths :: KeptAt(files, after, spec.outDir, src)) <==>
            BaseNamesAgree(files, spec.attestationPaths)
  {
    hide Copied, Apart, BaseName, Jobs, LastNamed, KeptAt, SameBytes;
    var paths := spec.attestationPaths;
    forall a <- paths, b <- paths | BaseName(a) == BaseName(b)
      ensures KeptAt(files, after, spec.outDir, a) && KeptAt(files, after, spec.outDir, b) ==> SameBytes(files, a, b)
    {
      Targets(spec.outDir, a, b);
      if KeptAt(files, after, spec.outDir, a) && KeptAt(files, after, spec.outDir, b) {
        BothKept(files, after, spec.outDir, a, b);
      }
    }
    forall src <- paths
      ensures LastNamed(paths, BaseName(src)).Some? && LastNamed(paths, BaseName(src)).value in paths
      ensures BaseName(LastNamed(paths, BaseName(src)).value) == BaseName(src)
      ensures SameBytes(files, src, LastNamed(paths, BaseName(src)).value) ==> KeptAt(files, after, spec.outDir, src)
    {
      LastNamedExists(paths, src);
      LastKept(files, spec, after, src);
    }
  }

  lemma BothKept(files: Files, after: Files, dir: string, a: string, b: string)
    requires KeptAt(files, after, dir, a) && KeptAt(files, after, dir, b)
    requires Under(dir, AttestationRel(a)) == Under(dir, AttestationRel(b))
    ensures SameBytes(files, a, b)
  {
    hide Under, AttestationRel;
  }

  lemma LastKept(files: Files, spec: Spec, after: Files, src: string)
    requires Apart(Jobs(spec)) && Copied(files, Jobs(spec)) == Some(after) && src in spec.attestationPaths
    requires LastNamed(spec.attestationPaths, BaseName(src)).Some?
    ensures var last := LastNamed(spec.attestationPaths, BaseName(src)).value;
            SameBytes(files, src, last) ==> KeptAt(files, after, spec.outDir, src)
  {
    hide Copied, Under, Apart, BaseName, Jobs, LastNamed, AttestationRel;
    AttestationCopied(files, spec, src);
  }

  // ---- an attestation that is lost ----

  lemma {:induction false} BaseNameOf(dir: string, base: string)
    requires '/' !in base
    ensures BaseName(dir + "/" + base) == base
  {
    var path := dir + "/" + base;
    var n := |path| - 1;
    if base == [] {
      assert path[n] == '/';
    } else {
      var m := |base| - 1;
      assert path[n] == base[m] && base[m] in base;
      assert path[..n] == dir + "/" + base[..m] && forall c <- base[..m] :: c in base;
      BaseNameOf(dir, base[..m]);
    }
  }

  lemma {:induction false} CopiedWhenThere(files: Files, jobs: seq<Job>)
    requires forall j <- jobs :: j.src in files
    ensures Copied(files, jobs).Some?
  {
    if jobs != [] {
      var n := |jobs| - 1;
      CopiedWhenThere(files, jobs[..n]);
      DestinationsThere(files, jobs[..n]);
      assert jobs[n] in jobs;
    }
  }

  const FIRST_SOURCE := "a/x.json"
  const SECOND_SOURCE := "b/x.json"
  const LOSSY_SPEC := Spec("out", "p", "t", "r", [FIRST_SOURCE, SECOND_SOURCE], [], map[], 1, 0)
  const LOSSY_FILES: Files := map["p" := "1", "t" := "2", "r" := "3", FIRST_SOURCE := "4", SECOND_SOURCE := "5"]

  lemma LossyNames()
    ensures BaseName(FIRST_SOURCE) == "x.json" && BaseName(SECOND_SOURCE) == "x.json"
    ensures LastNamed([FIRST_SOURCE, SECOND_SOURCE], "x.json") == Some(SECOND_SOURCE)
  {
    assert FIRST_SOURCE == "a" + "/" + "x.json" && SECOND_SOURCE == "b" + "/" + "x.json";
    BaseNameOf("a", "x.json");
    BaseNameOf("b", "x.json");
    hide BaseName;
  }

  predicate InOut(p: string) {
    p != "" && p[0] == 'o'
  }

  lemma LossyJobs(j: Job)
    requires j in Jobs(LOSSY_SPEC)
    ensures j.src in LOSSY_FILES && !InOut(j.src) && InOut(j.dst)
  {
    hide TimestampJob, AttestationRel;
    var atts := Map(AttestationJob("out"), LOSSY_SPEC.attestationPaths);
    assert Jobs(LOSSY_SPEC) == FixedJobs(LOSSY_SPEC) + atts;
    assert atts == [AttestationJob("out")(FIRST_SOURCE), AttestationJob("out")(SECOND_SOURCE)];
  }

  /** Two attestations of one base name: Build succeeds, and the bundle holds the bytes of the second only. */
  lemma OneAttestationIsLost()
    ensures Copied(LOSSY_FILES, Jobs(LOSSY_SPEC)).Some?
    ensures var after := Copied(LOSSY_FILES, Jobs(LOSSY_SPEC)).value;
            !KeptAt(LOSSY_FILES, after, "out", FIRST_SOURCE) && KeptAt(LOSSY_FILES, after, "out", SECOND_SOURCE)
  {
    hide Copied, Jobs, BaseName, LastNamed, Under, AttestationRel;
    forall j <- Jobs(LOSSY_SPEC) ensures j.src in LOSSY_FILES && !InOut(j.src) && InOut(j.dst) {
      LossyJobs(j);
    }
    CopiedWhenThere(LOSSY_FILES, Jobs(LOSSY_SPEC));
    LossyNames();
    AttestationCopied(LOSSY_FILES, LOSSY_SPEC, FIRST_SOURCE);
    AttestationCopied(LOSSY_FILES, LOSSY_SPEC, SECOND_SOURCE);
  }
}
