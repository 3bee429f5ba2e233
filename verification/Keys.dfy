/** The keys of a map in string order: the source's collect-then-sort.Strings idiom. */
module Keys {
  import opened Lists
  import Text

  lemma TextOrdering()
    ensures Ordering(Text.Less) && Total(Text.Less)
  {
    forall a ensures !Text.Less(a, a) {
      Text.LessIrreflexive(a);
    }
    forall a, b, c | Text.Less(a, b) && Text.Less(b, c) ensures Text.Less(a, c) {
      Text.LessTransitive(a, b, c);
    }
    forall a, b ensures a == b || Text.Less(a, b) || Text.Less(b, a) {
      Text.LessTotal(a, b);
    }
    forall a, b, c | Text.Less(a, c) ensures Text.Less(a, b) || Text.Less(b, c) {
      Text.LessTotal(a, b);
      if Text.Less(b, a) {
        Text.LessTransitive(b, a, c);
      }
    }
  }

  /** No key sorts after k. */
  ghost predicate IsLast(k: string, keys: set<string>) {
    k in keys && forall x <- keys :: !Text.Less(k, x)
  }

  lemma {:induction false} LastExists(keys: set<string>)
    requires keys != {}
    ensures exists k :: IsLast(k, keys)
  {
    hide IsLast;
    var k :| k in keys;
    if keys == {k} {
      LastOfOne(k);
    } else {
      LastExists(keys - {k});
      var m :| IsLast(m, keys - {k});
      LastOfTwo(keys, k, m);
    }
  }

  lemma LastOfOne(k: string)
    ensures IsLast(k, {k})
  {
    Text.LessIrreflexive(k);
  }

  lemma LastOfTwo(keys: set<string>, k: string, m: string)
    requires k in keys && IsLast(m, keys - {k})
    ensures IsLast(if Text.Less(m, k) then k else m, keys)
  {
    Text.LessIrreflexive(k);
    forall x <- keys ensures Text.Less(m, k) && Text.Less(k, x) ==> Text.Less(m, x) {
      if Text.Less(m, k) && Text.Less(k, x) {
        Text.LessTransitive(m, k, x);
      }
    }
    hide Text.Less;
  }

  /** The keys in increasing order. */
  ghost function SortedKeys(keys: set<string>): (r: seq<string>)
    ensures forall k :: k in r <==> k in keys
  {
    if keys == {} then []
    else
      LastExists(keys);
      var k :| IsLast(k, keys);
      SortedKeys(keys - {k}) + [k]
  }

  lemma SortedKeysStep(keys: set<string>) returns (k: string)
    requires keys != {}
    ensures k in keys && SortedKeys(keys) == SortedKeys(keys - {k}) + [k]
    ensures forall x <- keys :: !Text.Less(k, x)
  {
    hide Text.Less;
    LastExists(keys);
    k :| IsLast(k, keys) && SortedKeys(keys) == SortedKeys(keys - {k}) + [k];
  }

  lemma {:induction false} SortedKeysContents(keys: set<string>)
    ensures multiset(SortedKeys(keys)) == multiset(keys)
    decreases |keys|
  {
    if keys != {} {
      var k := SortedKeysStep(keys);
      hide SortedKeys;
      assert |keys - {k}| < |keys|;
      SortedKeysContents(keys - {k});
      assert multiset(keys) == multiset(keys - {k}) + multiset{k};
    }
  }

  lemma {:induction false} SortedKeysInOrder(keys: set<string>)
    ensures Sorted(Text.Less, SortedKeys(keys))
    ensures forall i, j :: 0 <= i < j < |SortedKeys(keys)| ==> SortedKeys(keys)[i] != SortedKeys(keys)[j]
    decreases |keys|
  {
    if keys != {} {
      var k := SortedKeysStep(keys);
      hide SortedKeys, Text.Less;
      assert |keys - {k}| < |keys|;
      SortedKeysInOrder(keys - {k});
      var before := SortedKeys(keys - {k});
      assert forall i :: 0 <= i < |before| ==> before[i] in before;
    }
  }

  /** Every key occurs once, and in order. */
  lemma SortedKeysLaw(keys: set<string>)
    ensures multiset(SortedKeys(keys)) == multiset(keys)
    ensures Sorted(Text.Less, SortedKeys(keys))
    ensures |SortedKeys(keys)| == |keys|
    ensures forall i, j :: 0 <= i < j < |SortedKeys(keys)| ==> SortedKeys(keys)[i] != SortedKeys(keys)[j]
  {
    SortedKeysContents(keys);
    SortedKeysInOrder(keys);
    hide SortedKeys;
    assert |multiset(SortedKeys(keys))| == |multiset(keys)|;
  }

  /** An ordered list with the right contents is the sorted list of keys. */
  lemma SortedKeysUnique(keys: set<string>, r: seq<string>)
    requires Sorted(Text.Less, r) && multiset(r) == multiset(keys)
    ensures r == SortedKeys(keys)
  {
    TextOrdering();
    SortedKeysLaw(keys);
    SortedUnique(Text.Less, r, SortedKeys(keys));
  }

  /** Ranging over a map in any order and sorting gives one result. */
  method SortKeys(keys: set<string>) returns (r: seq<string>)
    ensures r == SortedKeys(keys)
  {
    var rest, listed: seq<string> := keys, [];
    while rest != {}
      invariant rest <= keys
      invariant multiset(listed) == multiset(keys - rest)
    {
      var k :| k in rest;
      assert keys - (rest - {k}) == (keys - rest) + {k};
      listed, rest := listed + [k], rest - {k};
    }
    assert keys - {} == keys;
    TextOrdering();
    r := SortSlice(Text.Less, listed);
    SortedKeysUnique(keys, r);
  }
}
