/** Grouping indices by key: the shape of groupConflicting and of the conflict partners, for any keys. */
module Grouping {
  import opened Lists

  ghost function KeyAt(ks: seq<string>, i: int): string {
    if 0 <= i < |ks| then ks[i] else ""
  }

  ghost function WithKey(ks: seq<string>, key: string): int -> bool {
    (i: int) => KeyAt(ks, i) == key
  }

  ghost function KeysAt(ks: seq<string>, idx: seq<int>): set<string> {
    set i <- idx :: KeyAt(ks, i)
  }

  ghost function Group(ks: seq<string>, idx: seq<int>, key: string): seq<int> {
    Filter(WithKey(ks, key), idx)
  }

  /** One group per listed key. */
  ghost function GroupsFor(ks: seq<string>, idx: seq<int>, keys: seq<string>): (r: seq<seq<int>>)
    ensures |r| == |keys|
  {
    seq(|keys|, k requires 0 <= k < |keys| => Group(ks, idx, keys[k]))
  }

  /** The list names every key of the indices once. */
  ghost predicate Enumerates(keys: seq<string>, ks: seq<string>, idx: seq<int>) {
    && (forall a, b :: 0 <= a < b < |keys| ==> keys[a] != keys[b])
    && (forall k :: k in keys <==> k in KeysAt(ks, idx))
  }

  /** Two indices carry different keys. */
  ghost predicate Disagree(ks: seq<string>, idx: seq<int>) {
    exists i, j | i in idx && j in idx :: KeyAt(ks, i) != KeyAt(ks, j)
  }

  /** No group is empty, and every index is in one. */
  ghost predicate Covering(idx: seq<int>, groups: seq<seq<int>>) {
    && (forall a :: 0 <= a < |groups| ==> groups[a] != [])
    && (forall i <- idx :: exists a :: 0 <= a < |groups| && i in groups[a])
  }

  /** Groups hold only given indices, and two indices share a group iff their keys agree. */
  ghost predicate Separated(ks: seq<string>, idx: seq<int>, groups: seq<seq<int>>) {
    forall a, b, i, j :: 0 <= a < |groups| && 0 <= b < |groups| && i in groups[a] && j in groups[b] ==>
      i in idx && j in idx && (a == b <==> KeyAt(ks, i) == KeyAt(ks, j))
  }

  /** Some index carries the a-th key. */
  lemma KeyHasIndex(ks: seq<string>, idx: seq<int>, keys: seq<string>, a: nat) returns (i: int)
    requires Enumerates(keys, ks, idx) && a < |keys|
    ensures i in idx && KeyAt(ks, i) == keys[a]
  {
    assert keys[a] in keys;
    i :| i in idx && KeyAt(ks, i) == keys[a];
  }

  /** The key of an index has a place in the list. */
  lemma IndexHasKey(ks: seq<string>, idx: seq<int>, keys: seq<string>, i: int) returns (a: nat)
    requires Enumerates(keys, ks, idx) && i in idx
    ensures a < |keys| && keys[a] == KeyAt(ks, i)
  {
    assert KeyAt(ks, i) in KeysAt(ks, idx);
    a :| a < |keys| && keys[a] == KeyAt(ks, i);
  }

  lemma DisagreeNeedsTwo(ks: seq<string>, idx: seq<int>)
    requires Disagree(ks, idx)
    ensures |idx| >= 2
  {
    var i, j :| i in idx && j in idx && KeyAt(ks, i) != KeyAt(ks, j);
    var a :| 0 <= a < |idx| && idx[a] == i;
    var b :| 0 <= b < |idx| && idx[b] == j;
    assert a != b;
  }

  lemma TwoKeysIffDisagree(ks: seq<string>, idx: seq<int>, keys: seq<string>)
    requires Enumerates(keys, ks, idx)
    ensures |keys| >= 2 <==> Disagree(ks, idx)
  {
    if Disagree(ks, idx) {
      var i, j :| i in idx && j in idx && KeyAt(ks, i) != KeyAt(ks, j);
      var a := IndexHasKey(ks, idx, keys, i);
      var b := IndexHasKey(ks, idx, keys, j);
    }
    if |keys| >= 2 {
      var i := KeyHasIndex(ks, idx, keys, 0);
      var j := KeyHasIndex(ks, idx, keys, 1);
    }
  }

  /** The groups partition the indices by key. */
  lemma GroupsPartition(ks: seq<string>, idx: seq<int>, keys: seq<string>)
    requires Enumerates(keys, ks, idx)
    ensures Covering(idx, GroupsFor(ks, idx, keys)) && Separated(ks, idx, GroupsFor(ks, idx, keys))
  {
    var groups := GroupsFor(ks, idx, keys);
    forall a | 0 <= a < |groups| ensures groups[a] != [] {
      var i := KeyHasIndex(ks, idx, keys, a);
      assert i in groups[a];
    }
    forall i <- idx ensures exists a :: 0 <= a < |groups| && i in groups[a] {
      var a := IndexHasKey(ks, idx, keys, i);
      assert i in groups[a];
    }
  }

  /** One more index adds its key and joins the group of that key only. */
  lemma GroupSnoc(ks: seq<string>, idx: seq<int>, i: int)
    ensures KeysAt(ks, idx + [i]) == KeysAt(ks, idx) + {KeyAt(ks, i)}
    ensures forall key :: Group(ks, idx + [i], key) == Group(ks, idx, key) + if key == KeyAt(ks, i) then [i] else []
  {
    forall key ensures Group(ks, idx + [i], key) == Group(ks, idx, key) + if key == KeyAt(ks, i) then [i] else [] {
      FilterSnoc(WithKey(ks, key), idx, i);
    }
  }

  lemma EmptyGroup(ks: seq<string>, idx: seq<int>, key: string)
    requires key !in KeysAt(ks, idx)
    ensures Group(ks, idx, key) == []
  {
    FilterNone(WithKey(ks, key), idx);
  }

  // ---- the other groups ----

  /** All groups but one, one after another. */
  function AllBut(groups: seq<seq<int>>, gi: nat): seq<int> {
    if groups == [] then []
    else
      var n := |groups| - 1;
      AllBut(groups[..n], gi) + if n == gi then [] else groups[n]
  }

  ghost function KeySet(keys: seq<string>, gi: nat): set<string> {
    set a | 0 <= a < |keys| && a != gi :: keys[a]
  }

  ghost function WithKeyIn(ks: seq<string>, keys: set<string>): int -> bool {
    (i: int) => KeyAt(ks, i) in keys
  }

  ghost function OtherKey(ks: seq<string>, i: int): int -> bool {
    (j: int) => KeyAt(ks, j) != KeyAt(ks, i)
  }

  /** The indices with another key than i, in the order given. */
  ghost function Others(ks: seq<string>, idx: seq<int>, i: int): seq<int> {
    Filter(OtherKey(ks, i), idx)
  }

  lemma KeySetSnoc(keys: seq<string>, gi: nat)
    requires keys != [] && forall a, b :: 0 <= a < b < |keys| ==> keys[a] != keys[b]
    ensures var n := |keys| - 1;
            keys[n] !in KeySet(keys[..n], gi) &&
            KeySet(keys, gi) == KeySet(keys[..n], gi) + if n == gi then {} else {keys[n]}
  {
  }

  lemma OneMoreKey(ks: seq<string>, idx: seq<int>, keys: set<string>, key: string)
    requires key !in keys
    ensures multiset(Filter(WithKeyIn(ks, keys + {key}), idx)) ==
            multiset(Filter(WithKeyIn(ks, keys), idx)) + multiset(Group(ks, idx, key))
  {
    FilterUnion(WithKeyIn(ks, keys), WithKey(ks, key), WithKeyIn(ks, keys + {key}), idx);
  }

  lemma AllButSnoc(ks: seq<string>, idx: seq<int>, keys: seq<string>, gi: nat)
    requires keys != []
    ensures var n := |keys| - 1;
            AllBut(GroupsFor(ks, idx, keys), gi) ==
            AllBut(GroupsFor(ks, idx, keys[..n]), gi) + if n == gi then [] else Group(ks, idx, keys[n])
  {
    assert GroupsFor(ks, idx, keys)[..|keys| - 1] == GroupsFor(ks, idx, keys[..|keys| - 1]);
  }

  /** The other groups hold the indices whose key is among the other keys. */
  ghost predicate HoldOthers(ks: seq<string>, idx: seq<int>, keys: seq<string>, gi: nat) {
    multiset(AllBut(GroupsFor(ks, idx, keys), gi)) == multiset(Filter(WithKeyIn(ks, KeySet(keys, gi)), idx))
  }

  lemma HoldOthersSnoc(ks: seq<string>, idx: seq<int>, keys: seq<string>, gi: nat)
    requires keys != [] && forall a, b :: 0 <= a < b < |keys| ==> keys[a] != keys[b]
    requires HoldOthers(ks, idx, keys[..|keys| - 1], gi)
    ensures HoldOthers(ks, idx, keys, gi)
  {
    var n := |keys| - 1;
    var before, all := AllBut(GroupsFor(ks, idx, keys[..n]), gi), AllBut(GroupsFor(ks, idx, keys), gi);
    var key, k := keys[n], KeySet(keys[..n], gi);
    assert all == before + (if n == gi then [] else Group(ks, idx, key)) by {
      AllButSnoc(ks, idx, keys, gi);
    }
    assert key !in k && KeySet(keys, gi) == k + (if n == gi then {} else {key}) by {
      KeySetSnoc(keys, gi);
    }
    if n == gi {
      assert all == before && KeySet(keys, gi) == k;
    } else {
      assert multiset(all) == multiset(before) + multiset(Group(ks, idx, key));
      OneMoreKey(ks, idx, k, key);
    }
  }

  lemma {:induction false} AllButContents(ks: seq<string>, idx: seq<int>, keys: seq<string>, gi: nat)
    requires forall a, b :: 0 <= a < b < |keys| ==> keys[a] != keys[b]
    ensures HoldOthers(ks, idx, keys, gi)
  {
    if keys == [] {
      assert KeySet(keys, gi) == {};
      FilterNone(WithKeyIn(ks, {}), idx);
    } else {
      AllButContents(ks, idx, keys[..|keys| - 1], gi);
      HoldOthersSnoc(ks, idx, keys, gi);
    }
  }

  /** The other groups together hold the indices with another key than a member's. */
  lemma OthersAreOtherGroups(ks: seq<string>, idx: seq<int>, keys: seq<string>, gi: nat, member: int)
    requires Enumerates(keys, ks, idx)
    requires gi < |keys| && member in Group(ks, idx, keys[gi])
    ensures multiset(AllBut(GroupsFor(ks, idx, keys), gi)) == multiset(Others(ks, idx, member))
  {
    AllButContents(ks, idx, keys, gi);
    forall i <- idx
      ensures WithKeyIn(ks, KeySet(keys, gi))(i) == OtherKey(ks, member)(i)
    {
      var a := IndexHasKey(ks, idx, keys, i);
      assert a != gi ==> keys[a] in KeySet(keys, gi);
    }
    FilterCongruent(WithKeyIn(ks, KeySet(keys, gi)), OtherKey(ks, member), idx);
  }

  lemma NoOthers(ks: seq<string>, idx: seq<int>)
    requires !Disagree(ks, idx)
    ensures forall i <- idx :: Others(ks, idx, i) == []
  {
    forall i <- idx ensures Others(ks, idx, i) == [] {
      FilterNone(OtherKey(ks, i), idx);
    }
  }

  /** One group's partners: the members of all other groups in one sorted list. */
  method PartnersOf(groups: seq<seq<int>>, gi: nat) returns (partners: seq<int>)
    requires gi < |groups|
    ensures Sorted(IntLess, partners) && multiset(partners) == multiset(AllBut(groups, gi))
  {
    partners := [];
    for other := 0 to |groups|
      invariant partners == AllBut(groups[..other], gi)
    {
      assert groups[..other + 1][..other] == groups[..other];
      if other == gi {
        continue;
      }
      partners := partners + groups[other];
    }
    assert groups[..|groups|] == groups;
    partners := SortSlice(IntLess, partners);
  }

  ghost predicate Partnered(ks: seq<string>, idx: seq<int>, partners: map<int, seq<int>>) {
    forall i <- partners.Keys :: i in idx && partners[i] == Others(ks, idx, i)
  }

  /** The sorted members of the other groups are, for each member of a group, the indices with another key in order. */
  lemma GroupPartners(ks: seq<string>, idx: seq<int>, keys: seq<string>, gi: nat, ps: seq<int>)
    requires Enumerates(keys, ks, idx) && Sorted(IntLess, idx) && gi < |keys|
    ensures Sorted(IntLess, ps) && multiset(ps) == multiset(AllBut(GroupsFor(ks, idx, keys), gi)) ==>
              forall i <- Group(ks, idx, keys[gi]) :: i in idx && ps == Others(ks, idx, i)
  {
    if Sorted(IntLess, ps) && multiset(ps) == multiset(AllBut(GroupsFor(ks, idx, keys), gi)) {
      forall i <- Group(ks, idx, keys[gi]) ensures i in idx && ps == Others(ks, idx, i) {
        OthersAreOtherGroups(ks, idx, keys, gi, i);
        FilterSorted(IntLess, OtherKey(ks, i), idx);
        SortedIntsUnique(ps, Others(ks, idx, i));
      }
    }
  }

  /** The inner loop: every member of a group gets the same partners. */
  method MapGroup(partners: map<int, seq<int>>, grp: seq<int>, ps: seq<int>, ghost ks: seq<string>, ghost idx: seq<int>)
    returns (r: map<int, seq<int>>)
    requires Partnered(ks, idx, partners)
    requires forall i <- grp :: i in idx && ps == Others(ks, idx, i)
    ensures Partnered(ks, idx, r) && r.Keys == partners.Keys + set i <- grp
  {
    r := partners;
    for m := 0 to |grp|
      invariant Partnered(ks, idx, r) && r.Keys == partners.Keys + set i <- grp[..m]
    {
      assert grp[m] in grp && grp[..m + 1] == grp[..m] + [grp[m]];
      r := r[grp[m] := ps];
    }
    assert grp[..|grp|] == grp;
  }

  /** conflictPartners: every grouped index is mapped to the indices of the other groups. */
  method ConflictPartners(groups: seq<seq<int>>, ghost ks: seq<string>, ghost idx: seq<int>, ghost keys: seq<string>)
    returns (partners: map<int, seq<int>>)
    requires Enumerates(keys, ks, idx) && Sorted(IntLess, idx)
    requires groups == if |keys| < 2 then [] else GroupsFor(ks, idx, keys)
    ensures forall i <- idx :: (if i in partners then partners[i] else []) == Others(ks, idx, i)
    ensures forall i <- partners.Keys :: i in idx
  {
    if |groups| > 1 {
      partners := MapGroups(groups, ks, idx, keys);
    } else {
      TwoKeysIffDisagree(ks, idx, keys);
      NoOthers(ks, idx);
      partners := map[];
    }
  }

  method MapGroups(groups: seq<seq<int>>, ghost ks: seq<string>, ghost idx: seq<int>, ghost keys: seq<string>)
    returns (partners: map<int, seq<int>>)
    requires Enumerates(keys, ks, idx) && Sorted(IntLess, idx) && groups == GroupsFor(ks, idx, keys)
    ensures Partnered(ks, idx, partners) && forall i <- idx :: i in partners
  {
    hide Others, AllBut, Enumerates;
    partners := map[];
    for gi := 0 to |groups|
      invariant forall a, i :: 0 <= a < gi && i in groups[a] ==> i in partners
      invariant Partnered(ks, idx, partners)
    {
      var ps := PartnersOf(groups, gi);
      GroupPartners(ks, idx, keys, gi, ps);
      partners := MapGroup(partners, groups[gi], ps, ks, idx);
    }
    GroupsPartition(ks, idx, keys);
  }
}
