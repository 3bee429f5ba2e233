/** Time evidence as a set: what ingesting it in any order and any number of times amounts to. */
module Ingestion {
  import opened Base
  import opened Model
  import opened Lists
  import opened Tables
  import opened Stamps
  import opened Revoke
  import opened Reclassify
  import opened Steps
  import opened Runs

  datatype Submission = Submission(sha: string, ev: TimeEvidence)

  function TimeOf(cfg: Config, x: Submission): Option<Time> {
    VerifiedTime(cfg.lib, cfg.root, x.ev, x.sha)
  }

  ghost function Submit(cfg: Config, s: State, x: Submission): State {
    Ingested(cfg, s, x.sha, x.ev)
  }

  ghost function SubmitAll(cfg: Config, s: State, xs: seq<Submission>): State {
    if xs == [] then s else Submit(cfg, SubmitAll(cfg, s, xs[..|xs| - 1]), xs[|xs| - 1])
  }

  // ---- stored evidence verifies ----

  /** Stored evidence vouches for the instant it is filed under, for the envelope it is filed under. */
  ghost predicate EvidenceVerified(cfg: Config, s: State) {
    forall r <- s.evidence :: CountsAt(cfg.lib, cfg.root, r.evidence, r.envelopeSha, r.trustedTimestamp)
  }

  lemma VerifiedIsCounted(cfg: Config, x: Submission)
    requires TimeOf(cfg, x).Some?
    ensures CountsAt(cfg.lib, cfg.root, x.ev, x.sha, TimeOf(cfg, x).value)
  {
    VerifiedTimeExact(cfg.lib, cfg.root, x.ev, x.sha, TimeOf(cfg, x).value);
  }

  lemma ProbeIsVerified(cfg: Config, x: Submission)
    requires TimeOf(cfg, x).Some?
    ensures ProbeTime(cfg.lib.parseTime, x.ev) == TimeOf(cfg, x).value
  {
  }

  lemma SubmitKeeps(cfg: Config, s: State, x: Submission)
    requires WellFormed(s) && EvidenceVerified(cfg, s)
    ensures WellFormed(Submit(cfg, s, x)) && EvidenceVerified(cfg, Submit(cfg, s, x))
  {
    if TimeOf(cfg, x).Some? {
      ProbeIsVerified(cfg, x);
      VerifiedIsCounted(cfg, x);
      IngestEvidenceKeeps(s, cfg.lib.parseTime, x.sha, x.ev);
    }
  }

  /** No interleaving of checks, reviews and ingestion ever files evidence that does not verify. */
  lemma {:induction false} RunKeepsVerified(cfg: Config, sys: System, events: seq<Event>)
    requires EvidenceVerified(cfg, sys.store)
    ensures EvidenceVerified(cfg, Run(cfg, sys, events).store)
  {
    hide Step, EvidenceVerified;
    if events != [] {
      var n := |events| - 1;
      RunKeepsVerified(cfg, sys, events[..n]);
      StepKeepsVerified(cfg, Run(cfg, sys, events[..n]), events[n]);
    }
  }

  lemma StepKeepsVerified(cfg: Config, sys: System, e: Event)
    requires EvidenceVerified(cfg, sys.store)
    ensures EvidenceVerified(cfg, Step(cfg, sys, e).store)
  {
    hide ChecksOf, Check.EdgesFor, GateRecord, Verdicts, VerifiedTime, CountsAt;
    if e.Ingest? {
      var x := Submission(e.sha, e.ev);
      if TimeOf(cfg, x).Some? {
        ProbeIsVerified(cfg, x);
        VerifiedIsCounted(cfg, x);
      }
    }
  }

  /** In every run, an instant a review uses for an envelope is vouched for by evidence stored for this envelope and
      bound to it by its authority; none comes from evidence bound to another. */
  lemma InstantsAreBound(cfg: Config, events: seq<Event>, sha: string, t: Time)
    ensures var s := Run(cfg, INITIAL, events).store;
            t in TrustedTimes(cfg, s, sha) <==>
            exists r <- s.evidence :: r.envelopeSha == sha && r.trustedTimestamp == t
    ensures var s := Run(cfg, INITIAL, events).store;
            forall r <- s.evidence :: r.envelopeSha == sha != "" ==> r.evidence.envelopeSha == sha
  {
    hide Run, TrustedTimes;
    RunKeepsVerified(cfg, INITIAL, events);
    var s := Run(cfg, INITIAL, events).store;
    TrustedTimesExact(cfg, s, sha, t);
  }

  // ---- what is on file for an envelope ----

  /** The keys under which evidence for an envelope is filed. */
  ghost function KeysIn(evs: seq<EvidenceRecord>, sha: string): set<(string, Time)> {
    set r <- evs | r.envelopeSha == sha :: (r.tsaKeyId, r.trustedTimestamp)
  }

  ghost function StampKeys(s: State, sha: string): set<(string, Time)> {
    KeysIn(s.evidence, sha)
  }

  /** The keys that verified submissions for an envelope vouch for. */
  ghost function Vouched(cfg: Config, xs: seq<Submission>, sha: string): set<(string, Time)> {
    set x <- xs | x.sha == sha && TimeOf(cfg, x).Some? :: (x.ev.tsaKeyId, TimeOf(cfg, x).value)
  }

  lemma SubmitAdds(cfg: Config, s: State, x: Submission, sha: string)
    ensures StampKeys(Submit(cfg, s, x), sha) == StampKeys(s, sha) + Vouched(cfg, [x], sha)
  {
    hide VerifiedTime;
    var s' := Submit(cfg, s, x);
    if TimeOf(cfg, x).Some? {
      ProbeIsVerified(cfg, x);
      var t := TimeOf(cfg, x).value;
      if e :| e in s.evidence && SameStamp(e, x.sha, x.ev.tsaKeyId, t) {
        assert x.sha == sha ==> (e.tsaKeyId, e.trustedTimestamp) in StampKeys(s, sha);
      } else {
        var r := EvidenceRecord(|s.evidence| + 1, x.sha, x.ev.tsaKeyId, t, x.ev);
        assert s'.evidence == s.evidence + [r];
        assert forall y :: y in s'.evidence <==> y in s.evidence || y == r;
      }
      assert Vouched(cfg, [x], sha) == if x.sha == sha then {(x.ev.tsaKeyId, t)} else {} by {
        assert x in [x];
      }
    }
  }

  /** After any submissions an envelope's evidence is what was on file and what verified among them. */
  lemma {:induction false} SubmitAllAdds(cfg: Config, s: State, xs: seq<Submission>, sha: string)
    requires WellFormed(s) && EvidenceVerified(cfg, s)
    ensures WellFormed(SubmitAll(cfg, s, xs)) && EvidenceVerified(cfg, SubmitAll(cfg, s, xs))
    ensures StampKeys(SubmitAll(cfg, s, xs), sha) == StampKeys(s, sha) + Vouched(cfg, xs, sha)
  {
    hide WellFormed, EvidenceVerified, StampKeys, Submit, TimeOf;
    if xs != [] {
      var ys, x := xs[..|xs| - 1], xs[|xs| - 1];
      SubmitAllAdds(cfg, s, ys, sha);
      SubmitKeeps(cfg, SubmitAll(cfg, s, ys), x);
      SubmitAdds(cfg, SubmitAll(cfg, s, ys), x, sha);
      VouchedSnoc(cfg, ys, x, sha);
      assert xs == ys + [x];
    } else {
      assert Vouched(cfg, xs, sha) == {};
    }
  }

  lemma VouchedSnoc(cfg: Config, xs: seq<Submission>, x: Submission, sha: string)
    ensures Vouched(cfg, xs + [x], sha) == Vouched(cfg, xs, sha) + Vouched(cfg, [x], sha)
  {
    hide TimeOf;
    assert forall y :: y in xs + [x] <==> y in xs || y in [x];
  }

  // ---- the keys on file determine what a review sees ----

  function FiledTime(): EvidenceRecord -> Time {
    (r: EvidenceRecord) => r.trustedTimestamp
  }

  lemma {:induction false} TimesAreFiled(cfg: Config, recs: seq<EvidenceRecord>, sha: string)
    requires forall r <- recs :: VerifiedTime(cfg.lib, cfg.root, r.evidence, sha) == Some(r.trustedTimestamp)
    ensures TimesOf(cfg, recs, sha) == Map(FiledTime(), recs)
  {
    hide VerifiedTime;
    var evs := Map(Evidence(), recs);
    if recs != [] {
      var n := |recs| - 1;
      assert recs[n] in recs;
      TimesAreFiled(cfg, recs[..n], sha);
      assert evs[..n] == Map(Evidence(), recs[..n]);
      assert TimesOf(cfg, recs, sha) == TimesOf(cfg, recs[..n], sha) + [recs[n].trustedTimestamp];
    }
  }

  lemma KeysSnoc(evs: seq<EvidenceRecord>, r: EvidenceRecord, sha: string)
    ensures KeysIn(evs + [r], sha) ==
              KeysIn(evs, sha) + if r.envelopeSha == sha then {(r.tsaKeyId, r.trustedTimestamp)} else {}
  {
    assert forall x :: x in evs + [r] <==> x in evs || x == r;
  }

  lemma {:induction false} CountKeys(evs: seq<EvidenceRecord>, sha: string)
    requires forall i, j :: 0 <= i < j < |evs| ==>
               !SameStamp(evs[i], evs[j].envelopeSha, evs[j].tsaKeyId, evs[j].trustedTimestamp)
    ensures |KeysIn(evs, sha)| == |Filter(StampsOf(sha), evs)|
  {
    hide Filter;
    if evs == [] {
      FilterNone(StampsOf(sha), evs);
      assert KeysIn(evs, sha) == {};
    } else {
      var before, r := evs[..|evs| - 1], evs[|evs| - 1];
      CountKeys(before, sha);
      assert evs == before + [r];
      KeysSnoc(before, r, sha);
      FilterSnoc(StampsOf(sha), before, r);
      assert r.envelopeSha == sha ==> (r.tsaKeyId, r.trustedTimestamp) !in KeysIn(before, sha) by {
        assert forall x <- before :: !SameStamp(x, r.envelopeSha, r.tsaKeyId, r.trustedTimestamp);
      }
    }
  }

  lemma FiledTimesAreKeyed(evs: seq<EvidenceRecord>, sha: string)
    ensures ToSet(Map(FiledTime(), Filter(StampsOf(sha), evs))) == set k <- KeysIn(evs, sha) :: k.1
  {
    var recs := Filter(StampsOf(sha), evs);
    var times := Map(FiledTime(), recs);
    forall t ensures t in ToSet(times) <==> t in set k <- KeysIn(evs, sha) :: k.1 {
      if t in ToSet(times) {
        var i :| 0 <= i < |times| && times[i] == t;
        assert recs[i] in recs;
        assert (recs[i].tsaKeyId, t) in KeysIn(evs, sha);
      }
      if k :| k in KeysIn(evs, sha) && k.1 == t {
        var r :| r in evs && r.envelopeSha == sha && (r.tsaKeyId, r.trustedTimestamp) == k;
        assert r in recs;
        var i :| 0 <= i < |recs| && recs[i] == r;
        assert times[i] == t;
      }
    }
  }

  /** The instants a review sees, and how many, are read off the keys on file. */
  lemma TimesFromKeys(cfg: Config, s: State, sha: string)
    requires WellFormed(s) && EvidenceVerified(cfg, s)
    ensures |TrustedTimes(cfg, s, sha)| == |StampKeys(s, sha)|
    ensures ToSet(TrustedTimes(cfg, s, sha)) == set k <- StampKeys(s, sha) :: k.1
  {
    var recs := Filter(StampsOf(sha), s.evidence);
    CountKeys(s.evidence, sha);
    forall r <- recs ensures VerifiedTime(cfg.lib, cfg.root, r.evidence, sha) == Some(r.trustedTimestamp) {
      VerifiedTimeExact(cfg.lib, cfg.root, r.evidence, sha, r.trustedTimestamp);
    }
    hide *;
    TimesAreFiled(cfg, recs, sha);
    FiledTimesAreKeyed(s.evidence, sha);
    TrustedTimesDefinition(cfg, s, sha);
    KeysOnFile(s, sha);
  }

  lemma KeysOnFile(s: State, sha: string)
    ensures StampKeys(s, sha) == KeysIn(s.evidence, sha)
  {
  }

  lemma TrustedTimesDefinition(cfg: Config, s: State, sha: string)
    ensures TrustedTimes(cfg, s, sha) == TimesOf(cfg, Filter(StampsOf(sha), s.evidence), sha)
  {
  }

  lemma SameKeysSameReview(cfg: Config, s: State, s': State, rec: AttestationRecord)
    requires WellFormed(s) && EvidenceVerified(cfg, s) && WellFormed(s') && EvidenceVerified(cfg, s')
    requires StampKeys(s, cfg.lib.envelopeSha(rec.envelopeJson)) == StampKeys(s', cfg.lib.envelopeSha(rec.envelopeJson))
    ensures ReviewAttestation(cfg, s, rec) == ReviewAttestation(cfg, s', rec)
  {
    var sha := cfg.lib.envelopeSha(rec.envelopeJson);
    TimesFromKeys(cfg, s, sha);
    TimesFromKeys(cfg, s', sha);
    hide TrustedTimes, Earliest, WellFormed, EvidenceVerified, StampKeys;
    ClassDependsOnSet(cfg.rev, "", TrustedTimes(cfg, s, sha), TrustedTimes(cfg, s', sha));
  }

  /** Submitting the same evidence in another order, or some of it again, leaves every attestation's review as it is. */
  lemma OrderAndRepetitionIrrelevant(cfg: Config, s: State, xs: seq<Submission>, ys: seq<Submission>,
                                     rec: AttestationRecord)
    requires WellFormed(s) && EvidenceVerified(cfg, s)
    requires forall x :: x in xs <==> x in ys
    ensures ReviewAttestation(cfg, SubmitAll(cfg, s, xs), rec) == ReviewAttestation(cfg, SubmitAll(cfg, s, ys), rec)
  {
    hide WellFormed, EvidenceVerified, StampKeys, SubmitAll, ReviewAttestation, TimeOf;
    var sha := cfg.lib.envelopeSha(rec.envelopeJson);
    SubmitAllAdds(cfg, s, xs, sha);
    SubmitAllAdds(cfg, s, ys, sha);
    assert Vouched(cfg, xs, sha) == Vouched(cfg, ys, sha);
    SameKeysSameReview(cfg, SubmitAll(cfg, s, xs), SubmitAll(cfg, s, ys), rec);
  }

  /** Exactly the verified submissions count: the instants afterwards are the old ones and theirs. */
  lemma IngestionExact(cfg: Config, s: State, xs: seq<Submission>, sha: string, t: Time)
    requires WellFormed(s) && EvidenceVerified(cfg, s)
    ensures t in TrustedTimes(cfg, SubmitAll(cfg, s, xs), sha) <==>
            t in TrustedTimes(cfg, s, sha)
            || exists x <- xs :: x.sha == sha && CountsAt(cfg.lib, cfg.root, x.ev, sha, t)
  {
    forall x <- xs ensures TimeOf(cfg, x) == Some(t) <==> CountsAt(cfg.lib, cfg.root, x.ev, x.sha, t) {
      VerifiedTimeExact(cfg.lib, cfg.root, x.ev, x.sha, t);
    }
    hide CountsAt;
    hide WellFormed, EvidenceVerified, SubmitAll, TimeOf, TrustedTimes, StampKeys;
    var s' := SubmitAll(cfg, s, xs);
    SubmitAllAdds(cfg, s, xs, sha);
    TimesFromKeys(cfg, s, sha);
    TimesFromKeys(cfg, s', sha);
    assert t in TrustedTimes(cfg, s', sha) <==> t in ToSet(TrustedTimes(cfg, s', sha));
    assert t in TrustedTimes(cfg, s, sha) <==> t in ToSet(TrustedTimes(cfg, s, sha));
    if x :| x in xs && x.sha == sha && TimeOf(cfg, x) == Some(t) {
      assert (x.ev.tsaKeyId, t) in Vouched(cfg, xs, sha);
      assert (x.ev.tsaKeyId, t) in StampKeys(s', sha);
    }
    if t in TrustedTimes(cfg, s', sha) {
      var k :| k in StampKeys(s', sha) && k.1 == t;
    }
    if t in TrustedTimes(cfg, s, sha) {
      var k :| k in StampKeys(s, sha) && k.1 == t;
      assert k in StampKeys(s', sha);
    }
  }
}
