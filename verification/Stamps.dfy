/** internal/timestampevidence/evidence.go: which time evidence counts for an envelope, and in what order. */
module Stamps {
  import opened Base
  import opened Model
  import opened Lists

  /** A verified piece of evidence and the instant it vouches for. */
  datatype Stamp = Stamp(time: Time, evidence: TimeEvidence)

  /** Verify: the instant, when the evidence is complete, bound to this envelope and signed by an authorised key. */
  function VerifiedTime(lib: Library, root: RootView, ev: TimeEvidence, expectedSha: string): Option<Time> {
    if ev.kind != EVIDENCE_TYPE then None
    else if ev.envelopeSha == "" || ev.timestamp == "" || ev.signature == "" || ev.tsaKeyId == "" then None
    else if expectedSha != "" && ev.envelopeSha != expectedSha then None
    else
      match lib.parseTime(ev.timestamp)
      case None => None
      case Some(t) =>
        if ev.tsaKeyId !in root.tsaById then None
        else if !lib.verifyTsa(root.tsaById[ev.tsaKeyId], ev) then None
        else if lib.fingerprint(root.tsaById[ev.tsaKeyId]) != ev.tsaKeyId then None
        else Some(t)
  }

  /** Time evidence vouches for t: of the right kind and complete, bound to this envelope, and accepted by an authorised
      authority that is filed under its own fingerprint. */
  ghost predicate CountsAt(lib: Library, root: RootView, ev: TimeEvidence, sha: string, t: Time) {
    && ev.kind == EVIDENCE_TYPE
    && "" !in {ev.envelopeSha, ev.timestamp, ev.signature, ev.tsaKeyId}
    && sha in {"", ev.envelopeSha}
    && lib.parseTime(ev.timestamp) == Some(t)
    && (ev.tsaKeyId in root.tsaById && lib.verifyTsa(root.tsaById[ev.tsaKeyId], ev)
        && lib.fingerprint(root.tsaById[ev.tsaKeyId]) == ev.tsaKeyId)
  }

  lemma VerifiedTimeExact(lib: Library, root: RootView, ev: TimeEvidence, sha: string, t: Time)
    ensures VerifiedTime(lib, root, ev, sha) == Some(t) <==> CountsAt(lib, root, ev, sha, t)
  {
  }

  predicate Earlier(a: Stamp, b: Stamp) {
    a.time < b.time
  }

  function AtTime(t: Time): Stamp -> bool {
    (s: Stamp) => s.time == t
  }

  /** The evidence that verifies, in the order submitted. */
  function Verified(lib: Library, root: RootView, evs: seq<TimeEvidence>, sha: string): seq<Stamp> {
    if evs == [] then []
    else
      var n := |evs| - 1;
      var r := VerifiedTime(lib, root, evs[n], sha);
      Verified(lib, root, evs[..n], sha) + if r.Some? then [Stamp(r.value, evs[n])] else []
  }

  /** The inner loop of sortByTime: adjacent swaps carry element i left to its place. */
  method Sink(vs: array<Stamp>, i: nat)
    requires i < vs.Length
    modifies vs
    ensures vs[..i + 1] == Insert(Earlier, old(vs[i]), old(vs[..i]))
    ensures vs[i + 1..] == old(vs[i + 1..])
  {
    hide Insert;
    ghost var sorted, x := vs[..i], vs[i];
    assert sorted[..i] == sorted && sorted[i..] == [];
    assert Insert(Earlier, x, sorted) + [] == Insert(Earlier, x, sorted);
    var j := i;
    while j > 0 && vs[j].time < vs[j - 1].time
      invariant 0 <= j <= i
      invariant forall k :: 0 <= k < j ==> vs[k] == sorted[k]
      invariant vs[j] == x
      invariant forall k :: j < k <= i ==> vs[k] == sorted[k - 1]
      invariant forall k :: i < k < vs.Length ==> vs[k] == old(vs[k])
      invariant Insert(Earlier, x, sorted) == Insert(Earlier, x, sorted[..j]) + sorted[j..]
    {
      InsertStep(x, sorted, j);
      vs[j - 1], vs[j] := vs[j], vs[j - 1];
      j := j - 1;
    }
    assert vs[..i + 1] == sorted[..j] + [x] + sorted[j..];
    InsertDone(x, sorted, j);
  }

  lemma InsertDone(x: Stamp, sorted: seq<Stamp>, j: nat)
    requires j <= |sorted| && (j == 0 || !Earlier(x, sorted[j - 1]))
    ensures Insert(Earlier, x, sorted[..j]) == sorted[..j] + [x]
  {
  }

  lemma InsertStep(x: Stamp, sorted: seq<Stamp>, j: nat)
    requires 0 < j <= |sorted| && Earlier(x, sorted[j - 1])
    ensures Insert(Earlier, x, sorted[..j]) + sorted[j..] == Insert(Earlier, x, sorted[..j - 1]) + sorted[j - 1..]
  {
    assert sorted[..j][..j - 1] == sorted[..j - 1] && sorted[j - 1..] == [sorted[j - 1]] + sorted[j..];
  }

  /** sortByTime: in place, and equal to the stable sort of what was there. */
  method SortByTime(vs: array<Stamp>)
    modifies vs
    ensures vs[..] == StableSort(Earlier, old(vs[..]))
  {
    if vs.Length == 0 {
      return;
    }
    var i := 1;
    assert old(vs[..])[..1][..0] == [];
    while i < vs.Length
      invariant 1 <= i <= vs.Length
      invariant vs[..i] == StableSort(Earlier, old(vs[..])[..i])
      invariant vs[i..] == old(vs[..])[i..]
    {
      assert vs[i] == old(vs[..])[i] && old(vs[..])[..i + 1][..i] == old(vs[..])[..i];
      Sink(vs, i);
      i := i + 1;
    }
    assert vs[..] == vs[..i] && old(vs[..])[..i] == old(vs[..]);
  }

  /** VerifyAll returns the verified evidence, stably sorted by time. */
  method VerifyAll(lib: Library, root: RootView, evs: seq<TimeEvidence>, sha: string) returns (out: seq<Stamp>)
    ensures out == StableSort(Earlier, Verified(lib, root, evs, sha))
  {
    out := [];
    for i := 0 to |evs|
      invariant out == Verified(lib, root, evs[..i], sha)
    {
      assert evs[..i + 1][..i] == evs[..i];
      var v := VerifiedTime(lib, root, evs[i], sha);
      if v.Some? {
        out := out + [Stamp(v.value, evs[i])];
      }
    }
    assert evs[..|evs|] == evs;
    var vs := new Stamp[|out|](i requires 0 <= i < |out| => out[i]);
    assert vs[..] == out;
    SortByTime(vs);
    out := vs[..];
  }

  /** Exactly the verifying evidence, ascending, and evidence of one instant in the order submitted. */
  lemma VerifyAllLaw(lib: Library, root: RootView, evs: seq<TimeEvidence>, sha: string, t: Time)
    ensures var in_ := Verified(lib, root, evs, sha);
            var out := StableSort(Earlier, in_);
            && (forall i, j :: 0 <= i < j < |out| ==> out[i].time <= out[j].time)
            && multiset(out) == multiset(in_)
            && Filter(AtTime(t), out) == Filter(AtTime(t), in_)
  {
    var in_ := Verified(lib, root, evs, sha);
    StableSortSorted(Earlier, in_);
    StableSortContents(Earlier, in_);
    StableSortStable(Earlier, AtTime(t), in_);
    var out := StableSort(Earlier, in_);
    forall i, j | 0 <= i < j < |out| ensures out[i].time <= out[j].time {
      assert !Earlier(out[j], out[i]);
    }
  }

  /** A stamp is reported exactly for submitted evidence that verifies. */
  lemma {:induction false} VerifiedExact(lib: Library, root: RootView, evs: seq<TimeEvidence>, sha: string, s: Stamp)
    ensures s in Verified(lib, root, evs, sha) <==>
            s.evidence in evs && CountsAt(lib, root, s.evidence, sha, s.time)
  {
    VerifiedTimeExact(lib, root, s.evidence, sha, s.time);
    hide CountsAt;
    if evs != [] {
      var n := |evs| - 1;
      VerifiedExact(lib, root, evs[..n], sha, s);
      assert evs == evs[..n] + [evs[n]];
    }
  }
}
