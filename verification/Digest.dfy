/** internal/artifact/digest.go: the claimed digests of the target subject against the file's real digest. */
module Digest {
  import opened Base
  import opened Model
  import opened Keys

  datatype SubjectMatch = SubjectMatch(name: string, algorithm: string, claimed: string, actual: string, match_: bool)

  datatype DigestResult = DigestResult(matched: bool, subjects: seq<SubjectMatch>, ignored: seq<string>,
                                       hardReject: bool)

  const SHA256 := "sha256"

  /** One character of normalizeHex, on ASCII. */
  function Lower(c: char): char {
    if 'A' <= c <= 'F' then (c as int + 32) as char else c
  }

  function LowerHex(s: string): (r: string)
    ensures |r| == |s|
  {
    seq(|s|, i requires 0 <= i < |s| => Lower(s[i]))
  }

  method NormalizeHex(s: string) returns (r: string)
    ensures r == LowerHex(s)
  {
    r := [];
    for i := 0 to |s|
      invariant r == LowerHex(s[..i])
    {
      if 'A' <= s[i] <= 'F' {
        r := r + [(s[i] as int + 32) as char];
      } else {
        r := r + [s[i]];
      }
    }
    assert s[..|s|] == s;
  }

  // ---- specification ----

  /** The row for one algorithm; only sha256 is compared with the file. */
  function Row(subj: Subject, alg: string, actual: string): SubjectMatch
    requires alg in subj.digest
  {
    var claimed := LowerHex(subj.digest[alg]);
    if alg != SHA256 then SubjectMatch(subj.name, alg, claimed, "", false)
    else SubjectMatch(subj.name, alg, claimed, actual, claimed == actual)
  }

  function Rows(subj: Subject, algs: seq<string>, actual: string): (r: seq<SubjectMatch>)
    requires forall a <- algs :: a in subj.digest
    ensures |r| == |algs|
  {
    seq(|algs|, i requires 0 <= i < |algs| => Row(subj, algs[i], actual))
  }

  predicate AnyMatch(rows: seq<SubjectMatch>) {
    exists m <- rows :: m.match_
  }

  ghost function SubjectRows(subj: Subject, actual: string): seq<SubjectMatch> {
    var rows := Rows(subj, SortedKeys(subj.digest.Keys), actual);
    if AnyMatch(rows) then rows else rows + [SubjectMatch(subj.name, "", "", "", false)]
  }

  ghost function AllRows(subjects: seq<Subject>, actual: string): seq<SubjectMatch> {
    if subjects == [] then []
    else AllRows(subjects[..|subjects| - 1], actual) + SubjectRows(subjects[|subjects| - 1], actual)
  }

  function Targets(subjects: seq<Subject>, name: string): seq<Subject> {
    if subjects == [] then []
    else
      var n := |subjects| - 1;
      Targets(subjects[..n], name) + if subjects[n].name == name then [subjects[n]] else []
  }

  lemma {:induction false} TargetsExact(subjects: seq<Subject>, name: string)
    ensures forall s :: s in Targets(subjects, name) <==> s in subjects && s.name == name
  {
    if subjects != [] {
      var n := |subjects| - 1;
      TargetsExact(subjects[..n], name);
      assert subjects == subjects[..n] + [subjects[n]];
    }
  }

  /** The subject claims a sha256 that is not the file's. */
  predicate Contradicts(subj: Subject, actual: string) {
    SHA256 in subj.digest && LowerHex(subj.digest[SHA256]) != actual
  }

  predicate Confirms(subj: Subject, actual: string) {
    SHA256 in subj.digest && LowerHex(subj.digest[SHA256]) == actual
  }

  /** The same character, or the two cases of one hex letter. */
  ghost predicate SameHex(c: char, d: char) {
    c == d || exists k :: 0 <= k < 6 && (c == "ABCDEF"[k] || c == "abcdef"[k]) && (d == "ABCDEF"[k] || d == "abcdef"[k])
  }

  /** Equal but for the case of hex letters. */
  ghost predicate SameHexText(s: string, t: string) {
    |s| == |t| && forall i :: 0 <= i < |s| ==> SameHex(s[i], t[i])
  }

  /** A digest as hashing gives it: no hex letter in upper case. */
  ghost predicate LowerCase(s: string) {
    forall i :: 0 <= i < |s| ==> !('A' <= s[i] <= 'F')
  }

  lemma LowerExact(c: char, d: char)
    requires !('A' <= d <= 'F')
    ensures Lower(c) == d <==> SameHex(c, d)
  {
    if 'A' <= c <= 'F' {
      var k := c as int - 'A' as int;
      assert "ABCDEF"[k] == c && "abcdef"[k] == Lower(c);
    }
  }

  /** A sha256 claim confirms a file exactly when it is the file's digest but for the case of hex letters, and
      contradicts it otherwise. */
  lemma ClaimExact(subj: Subject, actual: string)
    requires LowerCase(actual)
    ensures Confirms(subj, actual) <==> "sha256" in subj.digest && SameHexText(subj.digest["sha256"], actual)
    ensures Contradicts(subj, actual) <==> "sha256" in subj.digest && !SameHexText(subj.digest["sha256"], actual)
  {
    hide SameHex;
    if SHA256 in subj.digest {
      var s := subj.digest[SHA256];
      if |s| == |actual| {
        forall i | 0 <= i < |s| ensures LowerHex(s)[i] == actual[i] <==> SameHex(s[i], actual[i]) {
          LowerExact(s[i], actual[i]);
        }
      }
    }
  }

  /** A subject of the target's name confirms the file and none contradicts it. */
  ghost predicate Matches(name: string, actual: string, st: Option<Statement>) {
    && st.Some?
    && (exists s <- st.value.subject :: s.name == name && Confirms(s, actual))
    && (forall s <- st.value.subject :: s.name == name ==> !Contradicts(s, actual))
  }

  /** A non-empty claim about the target under a named algorithm other than sha256. */
  ghost predicate ForeignClaim(name: string, st: Statement) {
    exists s <- st.subject, alg | alg in s.digest ::
      s.name == name && alg != "" && alg != SHA256 && s.digest[alg] != ""
  }

  ghost function Ignored(st: Statement, name: string): seq<string> {
    SortedKeys(set s <- st.subject | s.name != name :: s.name)
  }

  ghost function VerifyDigest(name: string, actual: string, st: Option<Statement>): DigestResult {
    if st.None? then DigestResult(false, [], [], true)
    else
      var ok := Matches(name, actual, st);
      DigestResult(ok, AllRows(Targets(st.value.subject, name), actual), Ignored(st.value, name), !ok)
  }

  lemma MatchedIsMatches(name: string, actual: string, st: Option<Statement>)
    ensures VerifyDigest(name, actual, st).matched <==> Matches(name, actual, st)
  {
    hide AllRows, Ignored;
  }

  // ---- what the rows say ----

  /** verifier.Verify's reading of the rows: an explicit algorithm with a non-empty claim that is not the file's. */
  predicate ExplicitMismatch(m: SubjectMatch) {
    !m.match_ && m.algorithm != "" && m.claimed != "" && m.claimed != m.actual
  }

  predicate AnyExplicitMismatch(rows: seq<SubjectMatch>) {
    exists m <- rows :: ExplicitMismatch(m)
  }

  predicate RowMismatch(subj: Subject, actual: string) {
    exists alg <- subj.digest.Keys :: ExplicitMismatch(Row(subj, alg, actual))
  }

  lemma RowsExact(subj: Subject, actual: string, m: SubjectMatch)
    ensures m in Rows(subj, SortedKeys(subj.digest.Keys), actual) <==>
            exists alg <- subj.digest.Keys :: m == Row(subj, alg, actual)
  {
    var algs := SortedKeys(subj.digest.Keys);
    var rows := Rows(subj, algs, actual);
    if m in rows {
      var i :| 0 <= i < |rows| && rows[i] == m;
      assert algs[i] in algs && m == Row(subj, algs[i], actual);
    }
    if alg :| alg in subj.digest.Keys && m == Row(subj, alg, actual) {
      assert alg in algs;
      var i :| 0 <= i < |algs| && algs[i] == alg;
      assert rows[i] == m;
    }
  }

  lemma SubjectRowsExact(subj: Subject, actual: string)
    ensures AnyMatch(SubjectRows(subj, actual)) <==> Confirms(subj, actual)
    ensures AnyExplicitMismatch(SubjectRows(subj, actual)) <==> RowMismatch(subj, actual)
  {
    hide SortedKeys, Rows, LowerHex;
    var rows := Rows(subj, SortedKeys(subj.digest.Keys), actual);
    MatchAmongRows(subj, actual, rows);
    MismatchAmongRows(subj, actual, rows);
    var filler := SubjectMatch(subj.name, "", "", "", false);
    assert !ExplicitMismatch(filler) && !filler.match_;
    hide ExplicitMismatch, RowMismatch, Confirms;
    assert forall m :: m in rows + [filler] <==> m in rows || m == filler;
  }

  lemma MatchAmongRows(subj: Subject, actual: string, rows: seq<SubjectMatch>)
    requires rows == Rows(subj, SortedKeys(subj.digest.Keys), actual)
    ensures AnyMatch(rows) <==> Confirms(subj, actual)
  {
    hide SortedKeys, Rows, LowerHex;
    if m :| m in rows && m.match_ {
      RowsExact(subj, actual, m);
    }
    if Confirms(subj, actual) {
      assert SHA256 in subj.digest.Keys;
      RowsExact(subj, actual, Row(subj, SHA256, actual));
    }
  }

  lemma MismatchAmongRows(subj: Subject, actual: string, rows: seq<SubjectMatch>)
    requires rows == Rows(subj, SortedKeys(subj.digest.Keys), actual)
    ensures AnyExplicitMismatch(rows) <==> RowMismatch(subj, actual)
  {
    hide SortedKeys, Rows, LowerHex, ExplicitMismatch, Row;
    if m :| m in rows && ExplicitMismatch(m) {
      RowsExact(subj, actual, m);
    }
    if RowMismatch(subj, actual) {
      var alg :| alg in subj.digest.Keys && ExplicitMismatch(Row(subj, alg, actual));
      RowsExact(subj, actual, Row(subj, alg, actual));
    }
  }

  predicate AnyContradicts(subjects: seq<Subject>, actual: string) {
    exists s <- subjects :: Contradicts(s, actual)
  }

  predicate AnyConfirms(subjects: seq<Subject>, actual: string) {
    exists s <- subjects :: Confirms(s, actual)
  }

  predicate AnyRowMismatch(subjects: seq<Subject>, actual: string) {
    exists s <- subjects :: RowMismatch(s, actual)
  }

  lemma AnySnoc(subjects: seq<Subject>, s: Subject, actual: string)
    ensures AnyConfirms(subjects + [s], actual) <==> AnyConfirms(subjects, actual) || Confirms(s, actual)
    ensures AnyRowMismatch(subjects + [s], actual) <==> AnyRowMismatch(subjects, actual) || RowMismatch(s, actual)
    ensures AnyContradicts(subjects + [s], actual) <==> AnyContradicts(subjects, actual) || Contradicts(s, actual)
  {
    hide Confirms, RowMismatch, Contradicts;
    assert forall x :: x in subjects + [s] <==> x in subjects || x == s;
  }

  lemma AnyRowAppend(a: seq<SubjectMatch>, b: seq<SubjectMatch>)
    ensures AnyMatch(a + b) <==> AnyMatch(a) || AnyMatch(b)
    ensures AnyExplicitMismatch(a + b) <==> AnyExplicitMismatch(a) || AnyExplicitMismatch(b)
  {
    hide ExplicitMismatch;
    assert forall m :: m in a + b <==> m in a || m in b;
  }

  /** What the rows of all subjects say is what the subjects say. */
  ghost predicate RowsSpeak(subjects: seq<Subject>, actual: string) {
    && (AnyMatch(AllRows(subjects, actual)) <==> AnyConfirms(subjects, actual))
    && (AnyExplicitMismatch(AllRows(subjects, actual)) <==> AnyRowMismatch(subjects, actual))
  }

  lemma AllRowsSnoc(subjects: seq<Subject>, s: Subject, actual: string)
    ensures AllRows(subjects + [s], actual) == AllRows(subjects, actual) + SubjectRows(s, actual)
  {
    hide SubjectRows;
    assert (subjects + [s])[..|subjects|] == subjects;
  }

  lemma RowsSpeakSnoc(subjects: seq<Subject>, s: Subject, actual: string)
    requires RowsSpeak(subjects, actual)
    ensures RowsSpeak(subjects + [s], actual)
  {
    hide AnyMatch, AnyExplicitMismatch, AnyConfirms, AnyRowMismatch, SubjectRows;
    AllRowsSnoc(subjects, s, actual);
    SubjectRowsExact(s, actual);
    AnySnoc(subjects, s, actual);
    AnyRowAppend(AllRows(subjects, actual), SubjectRows(s, actual));
  }

  lemma {:induction false} AllRowsExact(subjects: seq<Subject>, actual: string)
    ensures RowsSpeak(subjects, actual)
  {
    hide RowsSpeak;
    if subjects == [] {
      NothingToSpeak(actual);
      assert subjects == [];
    } else {
      var n := |subjects| - 1;
      AllRowsExact(subjects[..n], actual);
      RowsSpeakSnoc(subjects[..n], subjects[n], actual);
      assert subjects == subjects[..n] + [subjects[n]];
    }
  }

  lemma NothingToSpeak(actual: string)
    ensures RowsSpeak([], actual)
  {
  }

  /** The gate reads a digest failure from the rows or the hard-reject flag exactly when
      the target is not matched or carries a foreign claim. */
  lemma MismatchExact(name: string, actual: string, st: Option<Statement>)
    ensures var d := VerifyDigest(name, actual, st);
            (AnyExplicitMismatch(d.subjects) || d.hardReject) <==>
            !Matches(name, actual, st) || ForeignClaim(name, st.value)
  {
    if st.Some? && Matches(name, actual, st) {
      var targets := Targets(st.value.subject, name);
      TargetsExact(st.value.subject, name);
      AllRowsExact(targets, actual);
      forall s <- targets, alg <- s.digest.Keys
        ensures ExplicitMismatch(Row(s, alg, actual)) <==> alg != "" && alg != SHA256 && s.digest[alg] != ""
      {
        assert |LowerHex(s.digest[alg])| == |s.digest[alg]|;
      }
      if ForeignClaim(name, st.value) {
        var s, alg :| s in st.value.subject && alg in s.digest && s.name == name && alg != "" && alg != SHA256
                      && s.digest[alg] != "";
        assert s in targets && alg in s.digest.Keys && ExplicitMismatch(Row(s, alg, actual));
        assert RowMismatch(s, actual);
      }
    }
  }

  // ---- the documented meaning ----

  /** What ParseStatement asks of a statement. */
  ghost predicate Parseable(st: Statement) {
    && st.subject != [] && st.predicateType != ""
    && forall s <- st.subject :: s.name != "" && s.digest != map[]
  }

  /** What the field's comment promises: some target subject, and each one confirmed. */
  ghost predicate Documented(name: string, actual: string, st: Statement) {
    && (exists s <- st.subject :: s.name == name)
    && (forall s <- st.subject :: s.name == name ==> Confirms(s, actual))
  }

  /** A matched statement meets the documented meaning exactly when each target subject states a sha256. */
  lemma DocumentedIffAllClaimSha256(name: string, actual: string, st: Statement)
    requires Matches(name, actual, Some(st))
    ensures Documented(name, actual, st) <==> forall s <- st.subject :: s.name == name ==> SHA256 in s.digest
  {
    assert forall s <- st.subject :: s.name == name ==> !Contradicts(s, actual);
  }

  /** For every target and every digest in lower case there is such a statement that the parser accepts. */
  lemma MatchedDespiteUnconfirmedSubject(name: string, actual: string)
    requires name != "" && LowerHex(actual) == actual
    ensures var st := Statement([Subject(name, map[SHA256 := actual]), Subject(name, map["md5" := ""])], SLSA_TYPE, "");
            Parseable(st) && Matches(name, actual, Some(st)) && !Documented(name, actual, st)
  {
    var s0, s1 := Subject(name, map[SHA256 := actual]), Subject(name, map["md5" := ""]);
    var st := Statement([s0, s1], SLSA_TYPE, "");
    assert s0 in st.subject && s1 in st.subject;
    assert SHA256 in s0.digest && "md5" in s1.digest;
  }

  // ---- the code ----

  /** The inner loop: one subject's algorithms in sorted order, with the two seen-flags. */
  method CompareSubject(subj: Subject, actual: string)
    returns (rows: seq<SubjectMatch>, unsupportedSeen: bool, mismatchSeen: bool)
    ensures rows == SubjectRows(subj, actual)
    ensures mismatchSeen <==> Contradicts(subj, actual)
  {
    var algs := SortKeys(subj.digest.Keys);
    var subjectMatched := false;
    rows, unsupportedSeen, mismatchSeen := [], false, false;
    for i := 0 to |algs|
      invariant rows == Rows(subj, algs[..i], actual)
      invariant subjectMatched <==> AnyMatch(rows)
      invariant mismatchSeen <==> SHA256 in algs[..i] && Contradicts(subj, actual)
    {
      var alg := algs[i];
      assert algs[..i + 1] == algs[..i] + [alg];
      var claimed := NormalizeHex(subj.digest[alg]);
      var m := SubjectMatch(subj.name, alg, claimed, "", false);
      if alg != SHA256 {
        unsupportedSeen := true;
      } else {
        m := m.(actual := actual);
        if claimed == actual {
          m := m.(match_ := true);
          subjectMatched := true;
        } else {
          mismatchSeen := true;
        }
      }
      assert m == Row(subj, alg, actual);
      rows := rows + [m];
    }
    assert algs[..|algs|] == algs;
    if !subjectMatched {
      rows := rows + [SubjectMatch(subj.name, "", "", "", false)];
    }
  }

  /** The loop over the target subjects, accumulating rows and flags. */
  method CompareTargets(targets: seq<Subject>, actual: string)
    returns (rows: seq<SubjectMatch>, unsupportedSeen: bool, mismatchSeen: bool)
    ensures rows == AllRows(targets, actual)
    ensures mismatchSeen <==> AnyContradicts(targets, actual)
  {
    hide *;
    rows, unsupportedSeen, mismatchSeen := [], false, false;
    NothingCompared(actual);
    assert targets[..0] == [];
    for i := 0 to |targets|
      invariant rows == AllRows(targets[..i], actual)
      invariant mismatchSeen <==> AnyContradicts(targets[..i], actual)
    {
      assert targets[..i + 1] == targets[..i] + [targets[i]];
      AnySnoc(targets[..i], targets[i], actual);
      AllRowsSnoc(targets[..i], targets[i], actual);
      var r, u, m := CompareSubject(targets[i], actual);
      rows, unsupportedSeen, mismatchSeen := rows + r, unsupportedSeen || u, mismatchSeen || m;
    }
    assert targets[..|targets|] == targets;
  }

  lemma NothingCompared(actual: string)
    ensures AllRows([], actual) == [] && !AnyContradicts([], actual)
  {
  }

  /** Splits the subjects by name; the other names are only listed. */
  method SplitByName(subjects: seq<Subject>, name: string) returns (targets: seq<Subject>, ignored: seq<string>)
    ensures targets == Targets(subjects, name)
    ensures ignored == SortedKeys(set s <- subjects | s.name != name :: s.name)
  {
    var ignoredSet := {};
    targets := [];
    for i := 0 to |subjects|
      invariant targets == Targets(subjects[..i], name)
      invariant ignoredSet == set s <- subjects[..i] | s.name != name :: s.name
    {
      assert subjects[..i + 1] == subjects[..i] + [subjects[i]] && subjects[..i + 1][..i] == subjects[..i];
      if subjects[i].name == name {
        targets := targets + [subjects[i]];
      } else {
        ignoredSet := ignoredSet + {subjects[i].name};
      }
    }
    assert subjects[..|subjects|] == subjects;
    ignored := SortKeys(ignoredSet);
  }

  lemma MatchesFromTargets(name: string, actual: string, st: Statement)
    ensures var targets := Targets(st.subject, name);
            Matches(name, actual, Some(st)) <==>
            !AnyContradicts(targets, actual) && AnyMatch(AllRows(targets, actual))
  {
    TargetsExact(st.subject, name);
    AllRowsExact(Targets(st.subject, name), actual);
  }

  method VerifySubjectDigest(name: string, actual: string, st: Option<Statement>) returns (res: DigestResult)
    ensures res == VerifyDigest(name, actual, st)
  {
    if st.None? {
      return DigestResult(false, [], [], true);
    }
    var targets, ignored := SplitByName(st.value.subject, name);
    MatchesFromTargets(name, actual, st.value);
    if |targets| == 0 {
      return DigestResult(false, [], ignored, true);
    }
    var rows, unsupportedSeen, mismatchSeen := CompareTargets(targets, actual);
    if mismatchSeen {
      res := DigestResult(false, rows, ignored, true);
    } else if unsupportedSeen && !AnyMatch(rows) {
      res := DigestResult(false, rows, ignored, true);
    } else {
      var matched := AnyMatch(rows);
      res := DigestResult(matched, rows, ignored, !matched);
    }
  }
}
