/** internal/verifier/verifier.go: the decision over all results, and what it means for the evidence submitted. */
module Decision {
  import opened Base
  import opened Model
  import opened Lists
  import opened Check
  import ConflictKey
  import Grouping
  import Keys
  import Revoke
  import Digest

  // ---- passing results and their keys ----

  ghost function ResultKey(r: PerResult): string {
    ConflictKey.KeyOf(r.builderId, r.source)
  }

  ghost function ResultKeys(results: seq<PerResult>): (ks: seq<string>)
    ensures |ks| == |results|
  {
    seq(|results|, i requires 0 <= i < |results| => ResultKey(results[i]))
  }

  function Passed(results: seq<PerResult>): seq<int> {
    if results == [] then []
    else
      var n := |results| - 1;
      Passed(results[..n]) + if results[n].FullyPassed() then [n] else []
  }

  lemma {:induction false} PassedExact(results: seq<PerResult>)
    ensures forall i :: i in Passed(results) <==> 0 <= i < |results| && results[i].FullyPassed()
    ensures Sorted(IntLess, Passed(results))
  {
    if results != [] {
      var n := |results| - 1;
      PassedExact(results[..n]);
      assert forall i :: 0 <= i < |Passed(results[..n])| ==> Passed(results[..n])[i] in Passed(results[..n]);
    }
  }

  ghost predicate Clash(a: PerResult, b: PerResult) {
    a.FullyPassed() && b.FullyPassed() && ResultKey(a) != ResultKey(b)
  }

  /** Two fully passed results with different keys. */
  ghost predicate Conflicting(results: seq<PerResult>) {
    exists a, b | a in results && b in results :: Clash(a, b)
  }

  /** Results conflict exactly when two passing indices carry different keys. */
  lemma ConflictingIffDisagree(results: seq<PerResult>)
    ensures Conflicting(results) <==> Grouping.Disagree(ResultKeys(results), Passed(results))
  {
    hide Passed, ResultKey;
    var ks := ResultKeys(results);
    PassedExact(results);
    if a, b :| a in results && b in results && Clash(a, b) {
      var i :| 0 <= i < |results| && results[i] == a;
      var j :| 0 <= j < |results| && results[j] == b;
      assert i in Passed(results) && j in Passed(results);
      assert Grouping.KeyAt(ks, i) != Grouping.KeyAt(ks, j);
    }
    if i, j :| i in Passed(results) && j in Passed(results) && Grouping.KeyAt(ks, i) != Grouping.KeyAt(ks, j) {
      assert results[i] in results && results[j] in results && Clash(results[i], results[j]);
    }
  }

  // ---- the decision ----

  predicate DigestFailed(r: PerResult) {
    Digest.AnyExplicitMismatch(r.digest.subjects) || r.digest.hardReject
  }

  predicate AnyRevoked(results: seq<PerResult>) {
    exists r <- results :: r.RevocationHit()
  }

  predicate AnyDigestFailed(results: seq<PerResult>) {
    exists r <- results :: DigestFailed(r)
  }

  predicate AnyPassed(results: seq<PerResult>) {
    exists r <- results :: r.FullyPassed()
  }

  /** The precedence: revocation, digest, nothing passed, conflict, allow. */
  ghost function Decide(results: seq<PerResult>): Model.Decision {
    if AnyRevoked(results) then Deny
    else if AnyDigestFailed(results) then Deny
    else if !AnyPassed(results) then Deny
    else if Conflicting(results) then NeedsReview
    else Allow
  }

  lemma NonePassed(results: seq<PerResult>)
    ensures Passed(results) == [] <==> !AnyPassed(results)
  {
    PassedExact(results);
    if AnyPassed(results) {
      var r :| r in results && r.FullyPassed();
      var i :| 0 <= i < |results| && results[i] == r;
      assert i in Passed(results);
    }
    if Passed(results) != [] {
      assert Passed(results)[0] in Passed(results);
      assert results[Passed(results)[0]] in results;
    }
  }

  /** A result without the id under which its attestation was stored. */
  function Conclusion(r: PerResult): PerResult {
    r.(storedId := 0)
  }

  function Conclusions(results: seq<PerResult>): set<PerResult> {
    set r <- results :: Conclusion(r)
  }

  lemma ReasonsAreConclusions(results: seq<PerResult>)
    ensures AnyRevoked(results) <==> exists c <- Conclusions(results) :: c.RevocationHit()
    ensures AnyDigestFailed(results) <==> exists c <- Conclusions(results) :: DigestFailed(c)
    ensures AnyPassed(results) <==> exists c <- Conclusions(results) :: c.FullyPassed()
  {
    forall r <- results
      ensures Conclusion(r) in Conclusions(results) && Conclusion(r).RevocationHit() == r.RevocationHit()
      ensures DigestFailed(Conclusion(r)) == DigestFailed(r) && Conclusion(r).FullyPassed() == r.FullyPassed()
    {
    }
  }

  lemma ConflictIsConclusions(results: seq<PerResult>)
    ensures Conflicting(results) <==>
            exists a, b | a in Conclusions(results) && b in Conclusions(results) :: Clash(a, b)
  {
    if a, b :| a in results && b in results && Clash(a, b) {
      assert ResultKey(a) == ResultKey(Conclusion(a)) && ResultKey(b) == ResultKey(Conclusion(b));
      assert Clash(Conclusion(a), Conclusion(b));
    }
    if c, d :| c in Conclusions(results) && d in Conclusions(results) && Clash(c, d) {
      var a :| a in results && Conclusion(a) == c;
      var b :| b in results && Conclusion(b) == d;
      assert ResultKey(a) == ResultKey(c) && ResultKey(b) == ResultKey(d);
      assert Clash(a, b);
    }
  }

  /** The decision depends only on the set of conclusions. */
  lemma SameDecision(results: seq<PerResult>, results': seq<PerResult>)
    requires Conclusions(results) == Conclusions(results')
    ensures Decide(results) == Decide(results')
  {
    ReasonsAreConclusions(results);
    ReasonsAreConclusions(results');
    ConflictIsConclusions(results);
    ConflictIsConclusions(results');
  }

  // ---- in terms of the evidence ----

  /** The conclusions about a list of evidence, before any of it is stored. */
  ghost function Checked(cfg: Config, inputs: seq<Input>, name: string, actual: string, now: Time): (r: seq<PerResult>)
    ensures |r| == |inputs|
  {
    seq(|inputs|, i requires 0 <= i < |inputs| => CheckOne(cfg, inputs[i], name, actual, now))
  }

  lemma CheckedContains(cfg: Config, inputs: seq<Input>, name: string, actual: string, now: Time)
    ensures forall r :: r in Checked(cfg, inputs, name, actual, now) <==>
              exists x <- inputs :: r == CheckOne(cfg, x, name, actual, now)
  {
    var rs := Checked(cfg, inputs, name, actual, now);
    forall x <- inputs ensures CheckOne(cfg, x, name, actual, now) in rs {
      var i :| 0 <= i < |inputs| && inputs[i] == x;
      assert rs[i] == CheckOne(cfg, x, name, actual, now);
    }
    forall r <- rs ensures exists x <- inputs :: r == CheckOne(cfg, x, name, actual, now) {
      var i :| 0 <= i < |rs| && rs[i] == r;
      assert inputs[i] in inputs;
    }
  }

  /** Loading a feed rejects an empty key id. */
  ghost predicate FeedNamesKeys(cfg: Config) {
    cfg.rev.Some? ==> "" !in cfg.rev.value.events
  }

  /** Parses, verifies, carries a statement, is signed by an unrevoked key, and states nothing
      about the target that the file does not bear out. */
  ghost predicate CleanEvidence(cfg: Config, input: Input, name: string, actual: string) {
    match cfg.lib.parseEnvelope(input.envelopeJson)
    case None => false
    case Some(env) =>
      var sig := cfg.lib.verifyEnvelope(env, cfg.root.pubById);
      && sig.Valid? && sig.statement.Some?
      && !Revoke.Revoked(cfg.rev, sig.keyId)
      && Digest.Matches(name, actual, sig.statement)
      && !Digest.ForeignClaim(name, sig.statement.value)
  }

  lemma CleanIffNoVeto(cfg: Config, input: Input, name: string, actual: string, now: Time)
    requires FeedNamesKeys(cfg)
    ensures var r := CheckOne(cfg, input, name, actual, now);
            CleanEvidence(cfg, input, name, actual) <==> !r.RevocationHit() && !DigestFailed(r)
  {
    var parsed := cfg.lib.parseEnvelope(input.envelopeJson);
    if parsed.Some? {
      var sig := cfg.lib.verifyEnvelope(parsed.value, cfg.root.pubById);
      Digest.MismatchExact(name, actual, sig.Payload());
    }
  }

  /** Allowed exactly when all evidence is clean, some of it passes all four checks, and what passes agrees. */
  lemma AllowExact(cfg: Config, inputs: seq<Input>, name: string, actual: string, now: Time)
    requires FeedNamesKeys(cfg)
    ensures var rs := Checked(cfg, inputs, name, actual, now);
            Decide(rs) == Allow <==>
            && (forall x <- inputs :: CleanEvidence(cfg, x, name, actual))
            && AnyPassed(rs)
            && (forall a <- rs, b <- rs :: !Clash(a, b))
  {
    NotDeniedExact(cfg, inputs, name, actual, now);
  }

  /** No veto in the results means clean evidence throughout, and conversely. */
  lemma NotDeniedExact(cfg: Config, inputs: seq<Input>, name: string, actual: string, now: Time)
    requires FeedNamesKeys(cfg)
    ensures var rs := Checked(cfg, inputs, name, actual, now);
            (forall r <- rs :: !r.RevocationHit() && !DigestFailed(r)) <==>
            (forall x <- inputs :: CleanEvidence(cfg, x, name, actual))
  {
    CheckedContains(cfg, inputs, name, actual, now);
    forall x <- inputs
      ensures var r := CheckOne(cfg, x, name, actual, now);
              CleanEvidence(cfg, x, name, actual) <==> !r.RevocationHit() && !DigestFailed(r)
    {
      CleanIffNoVeto(cfg, x, name, actual, now);
    }
  }

  /** Any other decision than deny vouches for every single envelope submitted. */
  lemma UniversalVeto(cfg: Config, inputs: seq<Input>, name: string, actual: string, now: Time, x: Input)
    requires FeedNamesKeys(cfg) && x in inputs
    ensures Decide(Checked(cfg, inputs, name, actual, now)) != Deny ==> CleanEvidence(cfg, x, name, actual)
  {
    NotDeniedExact(cfg, inputs, name, actual, now);
  }

  /** Further evidence, wherever it is put, never lifts a revocation or digest deny. */
  lemma VetoIsPermanent(cfg: Config, inputs: seq<Input>, more: seq<Input>, name: string, actual: string, now: Time)
    requires FeedNamesKeys(cfg)
    requires exists x <- inputs :: !CleanEvidence(cfg, x, name, actual)
    requires forall x <- inputs :: x in more
    ensures Decide(Checked(cfg, more, name, actual, now)) == Deny
  {
    var x :| x in inputs && !CleanEvidence(cfg, x, name, actual);
    UniversalVeto(cfg, more, name, actual, now, x);
  }

  /** Neither order nor repetition of the evidence changes the decision. */
  lemma OrderIndependence(cfg: Config, inputs: seq<Input>, inputs': seq<Input>, name: string, actual: string, now: Time)
    requires forall x :: x in inputs <==> x in inputs'
    ensures Decide(Checked(cfg, inputs, name, actual, now)) == Decide(Checked(cfg, inputs', name, actual, now))
  {
    var rs, rs' := Checked(cfg, inputs, name, actual, now), Checked(cfg, inputs', name, actual, now);
    assert forall r :: r in rs <==> r in rs' by {
      CheckedContains(cfg, inputs, name, actual, now);
      CheckedContains(cfg, inputs', name, actual, now);
    }
    SameDecision(rs, rs');
  }

  // ---- a longer revocation list ----

  /** What is concluded about evidence whose key neither list revokes differs at most in how the gate is noted. */
  lemma CheckUnderMoreRevocations(cfg: Config, rev: Option<RevList>, input: Input, name: string, actual: string,
                                  now: Time)
    requires forall k :: Revoke.Revoked(cfg.rev, k) ==> Revoke.Revoked(rev, k)
    ensures var r, r' := CheckOne(cfg, input, name, actual, now), CheckOne(cfg.(rev := rev), input, name, actual, now);
            !r'.RevocationHit() ==> !r.RevocationHit() && r' == r.(revocation := r'.revocation)
  {
    hide Digest.VerifyDigest;
  }

  ghost predicate SameButGate(r: PerResult, r': PerResult) {
    !r.RevocationHit() && !r'.RevocationHit() && r' == r.(revocation := r'.revocation)
  }

  ghost predicate AllSameButGate(results: seq<PerResult>, results': seq<PerResult>) {
    |results| == |results'| && forall i :: 0 <= i < |results| ==> SameButGate(results[i], results'[i])
  }

  lemma ReasonsSameButGate(results: seq<PerResult>, results': seq<PerResult>)
    requires AllSameButGate(results, results')
    ensures !AnyRevoked(results) && !AnyRevoked(results')
    ensures AnyDigestFailed(results) <==> AnyDigestFailed(results')
    ensures AnyPassed(results) <==> AnyPassed(results')
  {
    hide DigestFailed;
    forall i | 0 <= i < |results|
      ensures results[i] in results && results'[i] in results'
      ensures DigestFailed(results[i]) == DigestFailed(results'[i])
      ensures results[i].FullyPassed() == results'[i].FullyPassed()
    {
      assert SameButGate(results[i], results'[i]);
      SameDigest(results[i], results'[i]);
    }
  }

  lemma SameDigest(r: PerResult, r': PerResult)
    requires r.digest == r'.digest
    ensures DigestFailed(r) == DigestFailed(r')
  {
  }

  lemma ConflictSameButGate(results: seq<PerResult>, results': seq<PerResult>)
    requires AllSameButGate(results, results') && Conflicting(results)
    ensures Conflicting(results')
  {
    var a, b :| a in results && b in results && Clash(a, b);
    var i :| 0 <= i < |results| && results[i] == a;
    var j :| 0 <= j < |results| && results[j] == b;
    assert SameButGate(a, results'[i]) && SameButGate(b, results'[j]);
    assert ResultKey(a) == ResultKey(results'[i]) && ResultKey(b) == ResultKey(results'[j]);
    hide ResultKey;
    assert results'[i] in results' && results'[j] in results' && Clash(results'[i], results'[j]);
  }

  /** Listing more revoked keys turns a decision into deny or leaves it alone. */
  lemma MoreRevocationsOnlyDeny(cfg: Config, rev: Option<RevList>, inputs: seq<Input>, name: string, actual: string,
                                now: Time)
    requires forall k :: Revoke.Revoked(cfg.rev, k) ==> Revoke.Revoked(rev, k)
    ensures var d := Decide(Checked(cfg.(rev := rev), inputs, name, actual, now));
            d == Deny || d == Decide(Checked(cfg, inputs, name, actual, now))
  {
    hide CheckOne, AnyDigestFailed, Conflicting, SameButGate;
    var rs, rs' := Checked(cfg, inputs, name, actual, now), Checked(cfg.(rev := rev), inputs, name, actual, now);
    if !AnyRevoked(rs') {
      forall i | 0 <= i < |rs| ensures SameButGate(rs[i], rs'[i]) {
        CheckUnderMoreRevocations(cfg, rev, inputs[i], name, actual, now);
        assert rs'[i] in rs';
        NotHit(rs[i], rs'[i]);
      }
      ReasonsSameButGate(rs, rs');
      if Conflicting(rs) {
        ConflictSameButGate(rs, rs');
      }
      if Conflicting(rs') {
        SameButGateBack(rs, rs');
        ConflictSameButGate(rs', rs);
      }
    }
  }

  lemma NotHit(r: PerResult, r': PerResult)
    requires !r'.RevocationHit()
    requires !r'.RevocationHit() ==> !r.RevocationHit() && r' == r.(revocation := r'.revocation)
    ensures SameButGate(r, r')
  {
  }

  lemma SameButGateBack(results: seq<PerResult>, results': seq<PerResult>)
    requires AllSameButGate(results, results')
    ensures AllSameButGate(results', results)
  {
    forall i | 0 <= i < |results'| ensures SameButGate(results'[i], results[i]) {
      assert SameButGate(results[i], results'[i]);
    }
  }

  // ---- the conflict partners of a verdict ----

  function IdAt(results: seq<PerResult>, i: int): int {
    if 0 <= i < |results| then results[i].storedId else 0
  }

  function IdsAt(results: seq<PerResult>, idx: seq<int>): (r: seq<int>)
    ensures |r| == |idx|
  {
    seq(|idx|, k requires 0 <= k < |idx| => IdAt(results, idx[k]))
  }

  ghost function OthersOf(results: seq<PerResult>, i: int): seq<int> {
    Grouping.Others(ResultKeys(results), Passed(results), i)
  }

  /** The stored ids a verdict lists: the passing evidence with another key, in increasing order. */
  ghost function ConflictWith(results: seq<PerResult>, i: int): seq<int>
    requires 0 <= i < |results|
  {
    if results[i].FullyPassed() then StableSort(IntLess, IdsAt(results, OthersOf(results, i))) else []
  }

  ghost predicate DistinctIds(results: seq<PerResult>) {
    forall i, j :: 0 <= i < j < |results| ==> results[i].storedId != results[j].storedId
  }

  lemma IdsAtContains(results: seq<PerResult>, idx: seq<int>, j: int)
    requires DistinctIds(results) && 0 <= j < |results|
    requires forall i <- idx :: 0 <= i < |results|
    ensures results[j].storedId in IdsAt(results, idx) <==> j in idx
  {
    var ids := IdsAt(results, idx);
    if results[j].storedId in ids {
      var k :| 0 <= k < |ids| && ids[k] == results[j].storedId;
      assert idx[k] in idx;
    }
    if j in idx {
      var k :| 0 <= k < |idx| && idx[k] == j;
      assert ids[k] == results[j].storedId;
    }
  }

  lemma OthersExact(results: seq<PerResult>, i: int, j: int)
    requires 0 <= i < |results|
    ensures j in OthersOf(results, i) <==>
            0 <= j < |results| && results[j].FullyPassed() && ResultKey(results[i]) != ResultKey(results[j])
  {
    PassedExact(results);
  }

  /** Partners are exactly the passing evidence with a different key. */
  lemma ConflictWithExact(results: seq<PerResult>, i: int, j: int)
    requires DistinctIds(results) && 0 <= i < |results| && 0 <= j < |results|
    ensures results[j].storedId in ConflictWith(results, i) <==>
            results[i].FullyPassed() && results[j].FullyPassed() && ResultKey(results[i]) != ResultKey(results[j])
  {
    var others := OthersOf(results, i);
    assert forall j <- others :: 0 <= j < |results| by {
      PassedExact(results);
    }
    IdsAtContains(results, others, j);
    OthersExact(results, i, j);
    StableSortContents(IntLess, IdsAt(results, others));
    InMultiset(StableSort(IntLess, IdsAt(results, others)), IdsAt(results, others));
  }

  /** Being in conflict is symmetric, nothing conflicts with itself, and the ids are listed in order. */
  lemma ConflictSymmetric(results: seq<PerResult>, i: int, j: int)
    requires DistinctIds(results) && 0 <= i < |results| && 0 <= j < |results|
    ensures results[j].storedId in ConflictWith(results, i) <==> results[i].storedId in ConflictWith(results, j)
    ensures results[i].storedId !in ConflictWith(results, i)
    ensures Sorted(IntLess, ConflictWith(results, i))
  {
    ConflictWithExact(results, i, j);
    ConflictWithExact(results, j, i);
    ConflictWithExact(results, i, i);
    StableSortSorted(IntLess, IdsAt(results, OthersOf(results, i)));
  }

  // ---- the groups of a response ----

  ghost function OrderedKeys(results: seq<PerResult>): seq<string> {
    Keys.SortedKeys(Grouping.KeysAt(ResultKeys(results), Passed(results)))
  }

  /** groupConflicting: one group per key in key order, and none at all while there is one key. */
  ghost function Groups(results: seq<PerResult>): seq<seq<int>> {
    var keys := OrderedKeys(results);
    if |keys| < 2 then [] else Grouping.GroupsFor(ResultKeys(results), Passed(results), keys)
  }

  lemma KeysEnumerated(results: seq<PerResult>)
    ensures Grouping.Enumerates(OrderedKeys(results), ResultKeys(results), Passed(results))
    ensures |OrderedKeys(results)| == |Grouping.KeysAt(ResultKeys(results), Passed(results))|
  {
    Keys.SortedKeysLaw(Grouping.KeysAt(ResultKeys(results), Passed(results)));
  }

  /** There are groups exactly when passing evidence conflicts, and then they partition it by key. */
  lemma GroupsPartition(results: seq<PerResult>)
    ensures Groups(results) != [] <==> Conflicting(results)
    ensures Conflicting(results) ==>
              && Grouping.Covering(Passed(results), Groups(results))
              && Grouping.Separated(ResultKeys(results), Passed(results), Groups(results))
  {
    hide Grouping.Covering, Grouping.Separated, Grouping.Disagree, Conflicting, OrderedKeys, ResultKeys, Passed;
    var ks, idx, keys := ResultKeys(results), Passed(results), OrderedKeys(results);
    KeysEnumerated(results);
    Grouping.TwoKeysIffDisagree(ks, idx, keys);
    Grouping.GroupsPartition(ks, idx, keys);
    ConflictingIffDisagree(results);
  }
}
