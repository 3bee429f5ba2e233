/** internal/verifier/verifier.go: the conflict key and what it can be decoded to. */
module ConflictKey {
  import opened Base
  import opened Model
  import Text
  import Keys

  // ---- the key ----

  /** joinParts. */
  function Join(parts: seq<string>): string {
    if parts == [] then ""
    else
      var n := |parts| - 1;
      if n == 0 then parts[0] else Join(parts[..n]) + "," + parts[n]
  }

  function Part(digest: map<string, string>, alg: string): string
    requires alg in digest
  {
    alg + "=" + digest[alg]
  }

  function Parts(digest: map<string, string>, algs: seq<string>): (r: seq<string>)
    requires forall a <- algs :: a in digest
    ensures |r| == |algs|
  {
    seq(|algs|, i requires 0 <= i < |algs| => Part(digest, algs[i]))
  }

  ghost function DigestText(digest: map<string, string>): string {
    Join(Parts(digest, Keys.SortedKeys(digest.Keys)))
  }

  ghost function SourceText(src: Option<SourceFact>): string {
    match src
    case None => ""
    case Some(s) => s.uri + "#" + DigestText(s.digest)
  }

  /** keyOf: what groups fully passed evidence. */
  ghost function KeyOf(builder: string, src: Option<SourceFact>): string {
    builder + "|" + SourceText(src)
  }

  method ComputeKey(builder: string, src: Option<SourceFact>) returns (key: string)
    ensures key == KeyOf(builder, src)
  {
    var text := "";
    if src.Some? {
      var digest := src.value.digest;
      var algs := Keys.SortKeys(digest.Keys);
      var parts: seq<string> := [];
      for i := 0 to |algs|
        invariant parts == Parts(digest, algs[..i])
      {
        assert algs[..i + 1] == algs[..i] + [algs[i]];
        parts := parts + [algs[i] + "=" + digest[algs[i]]];
      }
      assert algs[..|algs|] == algs;
      var joined := JoinParts(parts);
      text := src.value.uri + "#" + joined;
    }
    key := builder + "|" + text;
  }

  method JoinParts(parts: seq<string>) returns (out: string)
    ensures out == Join(parts)
  {
    out := "";
    for i := 0 to |parts|
      invariant out == Join(parts[..i])
    {
      assert parts[..i + 1][..i] == parts[..i];
      if i > 0 {
        out := out + ",";
      }
      out := out + parts[i];
    }
    assert parts[..|parts|] == parts;
  }

  // ---- decoding the key ----

  ghost predicate CleanDigest(digest: map<string, string>) {
    forall a <- digest.Keys :: ',' !in a && '=' !in a && ',' !in digest[a]
  }

  /** No separator occurs where the encoding relies on it. */
  ghost predicate CleanFacts(builder: string, src: Option<SourceFact>) {
    && '|' !in builder
    && (src.Some? ==> '#' !in src.value.uri && CleanDigest(src.value.digest))
  }

  function Split(s: string, sep: char): (parts: seq<string>)
    decreases |s|
  {
    var i := Text.IndexOf(s, sep);
    if i == |s| then [s] else [s[..i]] + Split(s[i + 1..], sep)
  }

  function DecodeParts(parts: seq<string>): map<string, string> {
    if parts == [] then map[]
    else
      var p := parts[|parts| - 1];
      var i := Text.IndexOf(p, '=');
      DecodeParts(parts[..|parts| - 1])[p[..i] := if i < |p| then p[i + 1..] else ""]
  }

  function DecodeDigest(text: string): map<string, string> {
    if text == "" then map[] else DecodeParts(Split(text, ','))
  }

  /** Cuts a key at the first '|', the source at the first '#', the digest at ',' and '='. */
  function Decode(key: string): (string, Option<SourceFact>) {
    var i := Text.IndexOf(key, '|');
    var builder, text := key[..i], if i < |key| then key[i + 1..] else "";
    if text == "" then (builder, None)
    else
      var j := Text.IndexOf(text, '#');
      (builder, Some(SourceFact(text[..j], DecodeDigest(if j < |text| then text[j + 1..] else ""))))
  }

  lemma {:induction false} JoinFront(parts: seq<string>)
    requires |parts| > 1
    ensures Join(parts) == parts[0] + "," + Join(parts[1..])
  {
    var n := |parts| - 1;
    assert parts[1..][..n - 1] == parts[..n][1..];
    if n > 1 {
      JoinFront(parts[..n]);
    }
  }

  lemma {:induction false} SplitJoin(parts: seq<string>)
    requires parts != [] && forall p <- parts :: ',' !in p
    ensures Split(Join(parts), ',') == parts
    decreases |parts|
  {
    if |parts| == 1 {
      Text.IndexOfAbsent(parts[0], ',');
    } else {
      JoinFront(parts);
      Text.IndexOfJoin(parts[0], Join(parts[1..]), ',');
      SplitJoin(parts[1..]);
      assert parts == [parts[0]] + parts[1..];
    }
  }

  lemma {:induction false} DecodePartsCorrect(digest: map<string, string>, algs: seq<string>)
    requires CleanDigest(digest) && forall a <- algs :: a in digest
    ensures DecodeParts(Parts(digest, algs)) == map a | a in algs :: digest[a]
  {
    if algs != [] {
      var n := |algs| - 1;
      var a := algs[n];
      assert Parts(digest, algs)[..n] == Parts(digest, algs[..n]);
      DecodePartsCorrect(digest, algs[..n]);
      assert a in digest.Keys;
      Text.IndexOfJoin(a, digest[a], '=');
      assert algs == algs[..n] + [a];
    }
  }

  lemma PartsClean(digest: map<string, string>, algs: seq<string>)
    requires CleanDigest(digest) && forall a <- algs :: a in digest
    ensures forall p <- Parts(digest, algs) :: ',' !in p && p != ""
  {
    forall i | 0 <= i < |algs| ensures ',' !in Part(digest, algs[i]) && Part(digest, algs[i]) != "" {
      assert algs[i] in algs && algs[i] in digest.Keys;
    }
  }

  lemma JoinNonEmpty(parts: seq<string>)
    requires parts != [] && forall p <- parts :: p != ""
    ensures Join(parts) != ""
  {
    assert parts[|parts| - 1] in parts;
  }

  lemma DecodeDigestCorrect(digest: map<string, string>)
    requires CleanDigest(digest)
    ensures DecodeDigest(DigestText(digest)) == digest
  {
    hide Split, Join, DecodeParts, Part, CleanDigest, Keys.SortedKeys;
    var algs := Keys.SortedKeys(digest.Keys);
    var parts := Parts(digest, algs);
    DecodePartsCorrect(digest, algs);
    PartsClean(digest, algs);
    if algs == [] {
      JoinNothing();
      assert digest == map[] by {
        assert forall k :: k in algs <==> k in digest.Keys;
      }
    } else {
      SplitJoin(parts);
      JoinNonEmpty(parts);
    }
  }

  lemma JoinNothing()
    ensures Join([]) == ""
  {
  }

  lemma {:induction false} SplitFreeOf(s: string, sep: char)
    ensures forall p <- Split(s, sep) :: sep !in p
    decreases |s|
  {
    var i := Text.IndexOf(s, sep);
    if i == |s| {
      assert s[..i] == s;
    } else {
      SplitFreeOf(s[i + 1..], sep);
    }
  }

  lemma {:induction false} DecodePartsClean(parts: seq<string>)
    requires forall p <- parts :: ',' !in p
    ensures CleanDigest(DecodeParts(parts))
  {
    if parts != [] {
      var n := |parts| - 1;
      assert parts[n] in parts;
      DecodePartsClean(parts[..n]);
    }
  }

  /** Whatever text is decoded, the map it gives has no separator in its names or values. */
  lemma DecodeDigestClean(text: string)
    ensures CleanDigest(DecodeDigest(text))
  {
    hide CleanDigest, Split, DecodeParts;
    if text == "" {
      EmptyIsClean();
    } else {
      SplitFreeOf(text, ',');
      DecodePartsClean(Split(text, ','));
    }
  }

  lemma EmptyIsClean()
    ensures CleanDigest(map[])
  {
  }

  lemma DecodedIsClean(key: string)
    ensures CleanFacts(Decode(key).0, Decode(key).1)
  {
    hide CleanDigest, DecodeDigest;
    var i := Text.IndexOf(key, '|');
    var text := if i < |key| then key[i + 1..] else "";
    if text != "" {
      var j := Text.IndexOf(text, '#');
      DecodeDigestClean(if j < |text| then text[j + 1..] else "");
    }
  }

  /** Decoding undoes the encoding exactly when no separator occurs in the parts, with and without a source. */
  lemma DecodeKey(builder: string, src: Option<SourceFact>)
    ensures Decode(KeyOf(builder, src)) == (builder, src) <==> CleanFacts(builder, src)
  {
    if CleanFacts(builder, src) {
      Text.IndexOfJoin(builder, SourceText(src), '|');
      if src.Some? {
        Text.IndexOfJoin(src.value.uri, DigestText(src.value.digest), '#');
        DecodeDigestCorrect(src.value.digest);
      }
    }
    DecodedIsClean(KeyOf(builder, src));
  }

  /** Equal keys mean equal builder, source and digest map. */
  lemma KeysEqualIffFactsEqual(b: string, src: Option<SourceFact>, b': string, src': Option<SourceFact>)
    requires CleanFacts(b, src) && CleanFacts(b', src')
    ensures KeyOf(b, src) == KeyOf(b', src') <==> b == b' && src == src'
  {
    DecodeKey(b, src);
    DecodeKey(b', src');
  }

  lemma SortedPair(keys: set<string>, a: string, b: string)
    requires keys == {a, b} && Text.Less(a, b)
    ensures Keys.SortedKeys(keys) == [a, b]
  {
    Keys.TextOrdering();
    assert !Text.Less(b, a) && a != b;
    assert multiset(keys) == multiset([a, b]);
    Keys.SortedKeysUnique(keys, [a, b]);
  }

  lemma SortedSingle(keys: set<string>, a: string)
    requires keys == {a}
    ensures Keys.SortedKeys(keys) == [a]
  {
    assert multiset(keys) == multiset([a]);
    Keys.SortedKeysUnique(keys, [a]);
  }

  lemma TextOfPair(digest: map<string, string>, a: string, c: string)
    requires digest.Keys == {a, c} && Text.Less(a, c)
    ensures DigestText(digest) == (a + "=" + digest[a]) + "," + (c + "=" + digest[c])
  {
    SortedPair(digest.Keys, a, c);
    var parts := Parts(digest, [a, c]);
    assert parts[..1] == [Part(digest, a)];
    assert Join(parts) == Join(parts[..1]) + "," + parts[1];
  }

  lemma TextOfSingle(digest: map<string, string>, a: string)
    requires digest.Keys == {a}
    ensures DigestText(digest) == a + "=" + digest[a]
  {
    SortedSingle(digest.Keys, a);
  }

  lemma Regroup(a: string, x: string, c: string, y: string)
    ensures a + "=" + (x + "," + c + "=" + y) == (a + "=" + x) + "," + (c + "=" + y)
  {
  }

  /** A ',' in a digest value makes one entry read as two: different sources, one key. */
  lemma SeparatorInValueCollides(b: string, uri: string, a: string, c: string, x: string, y: string)
    requires Text.Less(a, c)
    ensures var one, two := map[a := x + "," + c + "=" + y], map[a := x, c := y];
            one != two && KeyOf(b, Some(SourceFact(uri, one))) == KeyOf(b, Some(SourceFact(uri, two)))
  {
    var one, two := map[a := x + "," + c + "=" + y], map[a := x, c := y];
    Text.LessIrreflexive(a);
    assert c in two && c !in one;
    TextOfSingle(one, a);
    TextOfPair(two, a, c);
    Regroup(a, x, c, y);
  }
}
