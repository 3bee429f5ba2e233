/** internal/review/service.go, phase 2: re-verifying and classifying one artifact's stored evidence. */
module Reclassify {
  import opened Base
  import opened Model
  import opened Lists
  import opened Tables
  import opened Memory
  import opened Revoke
  import opened Stamps

  datatype AttReview = AttReview(storedId: int, envelopeSha: string, signatureValid: bool, rootAnchored: bool,
                                 signingKeyId: string, keyRevoked: bool, trustedCount: nat,
                                 earliestTrusted: Option<Time>, cls: Class)

  // ---- specification ----

  function Evidence(): EvidenceRecord -> TimeEvidence {
    (r: EvidenceRecord) => r.evidence
  }

  function StampTime(): Stamp -> Time {
    (s: Stamp) => s.time
  }

  /** The instants vouched for by stored evidence that verifies for this envelope. */
  function TimesOf(cfg: Config, recs: seq<EvidenceRecord>, sha: string): seq<Time> {
    Map(StampTime(), Verified(cfg.lib, cfg.root, Map(Evidence(), recs), sha))
  }

  function TrustedTimes(cfg: Config, s: State, sha: string): seq<Time> {
    TimesOf(cfg, Filter(StampsOf(sha), s.evidence), sha)
  }

  /** What a review concludes about one stored attestation. */
  function ReviewAttestation(cfg: Config, s: State, rec: AttestationRecord): AttReview {
    var sha := cfg.lib.envelopeSha(rec.envelopeJson);
    var unusable := AttReview(rec.id, sha, false, false, "", false, 0, None, Insufficient);
    match cfg.lib.parseEnvelope(rec.envelopeJson)
    case None => unusable
    case Some(env) =>
      var sig := cfg.lib.verifyEnvelope(env, cfg.root.pubById);
      if sig.Invalid? then unusable.(signingKeyId := sig.keyId)
      else
        var times := TrustedTimes(cfg, s, sha);
        var revoked := Revoked(cfg.rev, sig.keyId);
        AttReview(rec.id, sha, true, sig.keyId in cfg.root.byId, sig.keyId, revoked, |times|,
                  if revoked then Earliest(times) else None, ClassOf(cfg.rev, sig.keyId, Earliest(times)))
  }

  function Reviewing(cfg: Config, s: State): AttestationRecord -> AttReview {
    (rec: AttestationRecord) => ReviewAttestation(cfg, s, rec)
  }

  function ReviewsOf(cfg: Config, s: State, id: int): seq<AttReview> {
    Map(Reviewing(cfg, s), AttestationsOf(s, id))
  }

  /** The class of an artifact by its own evidence: the worst class among valid attestations,
      and insufficient without any. */
  ghost function Own(atts: seq<AttReview>): Class {
    if exists a <- atts :: a.signatureValid && a.cls == Affected then Affected
    else if (exists a <- atts :: a.signatureValid && a.cls == Insufficient) || forall a <- atts :: !a.signatureValid
    then Insufficient
    else Unaffected
  }

  /** What is concluded about the attestations of each artifact. */
  type Findings = int -> seq<AttReview>

  function FindingsOf(cfg: Config, s: State): Findings {
    (id: int) => ReviewsOf(cfg, s, id)
  }

  ghost function OwnClass(fd: Findings, id: int): Class {
    Own(fd(id))
  }

  ghost predicate IsReference(atts: seq<AttReview>, r: Option<Time>) {
    match r
    case None => forall a <- atts :: a.earliestTrusted.None?
    case Some(t) =>
      && (exists a <- atts :: a.earliestTrusted == Some(t))
      && (forall a <- atts :: a.earliestTrusted.Some? ==> t <= a.earliestTrusted.value)
  }

  // ---- order of evidence is irrelevant ----

  function Verifies(cfg: Config, sha: string): TimeEvidence -> bool {
    (ev: TimeEvidence) => VerifiedTime(cfg.lib, cfg.root, ev, sha).Some?
  }

  function TimeFor(cfg: Config, sha: string): TimeEvidence -> Time {
    (ev: TimeEvidence) =>
      var t := VerifiedTime(cfg.lib, cfg.root, ev, sha);
      if t.Some? then t.value else ZERO_TIME
  }

  lemma {:induction false} VerifiedTimes(cfg: Config, evs: seq<TimeEvidence>, sha: string)
    ensures Map(StampTime(), Verified(cfg.lib, cfg.root, evs, sha)) ==
              Map(TimeFor(cfg, sha), Filter(Verifies(cfg, sha), evs))
  {
    hide VerifiedTime;
    if evs != [] {
      var n := |evs| - 1;
      VerifiedTimes(cfg, evs[..n], sha);
      MapAppend(StampTime(), Verified(cfg.lib, cfg.root, evs[..n], sha),
                if Verifies(cfg, sha)(evs[n]) then [Stamp(TimeFor(cfg, sha)(evs[n]), evs[n])] else []);
      MapAppend(TimeFor(cfg, sha), Filter(Verifies(cfg, sha), evs[..n]),
                if Verifies(cfg, sha)(evs[n]) then [evs[n]] else []);
    }
  }

  lemma MapAppend<T, U>(f: T -> U, xs: seq<T>, ys: seq<T>)
    ensures Map(f, xs + ys) == Map(f, xs) + Map(f, ys)
  {
  }

  lemma TimesPermutation(cfg: Config, xs: seq<EvidenceRecord>, ys: seq<EvidenceRecord>, sha: string)
    requires multiset(xs) == multiset(ys)
    ensures multiset(TimesOf(cfg, xs, sha)) == multiset(TimesOf(cfg, ys, sha))
  {
    hide Verified, Map, Filter;
    MapPermutation(Evidence(), xs, ys);
    VerifiedTimes(cfg, Map(Evidence(), xs), sha);
    VerifiedTimes(cfg, Map(Evidence(), ys), sha);
    FilterPermutation(Verifies(cfg, sha), Map(Evidence(), xs), Map(Evidence(), ys));
    MapPermutation(TimeFor(cfg, sha), Filter(Verifies(cfg, sha), Map(Evidence(), xs)),
                   Filter(Verifies(cfg, sha), Map(Evidence(), ys)));
  }

  lemma SameInstants(p: seq<Time>, q: seq<Time>)
    requires multiset(p) == multiset(q)
    ensures Earliest(p) == Earliest(q) && |p| == |q|
  {
    InMultiset(p, q);
    assert ToSet(p) == ToSet(q);
    EarliestCorrect(p);
    EarliestCorrect(q);
  }

  /** The instants of an envelope as a set: those that evidence stored for it vouches for. */
  lemma TrustedTimesExact(cfg: Config, s: State, sha: string, t: Time)
    ensures t in TrustedTimes(cfg, s, sha) <==>
            exists r <- s.evidence ::
              r.envelopeSha == sha && CountsAt(cfg.lib, cfg.root, r.evidence, sha, t)
  {
    hide VerifiedTime, CountsAt;
    var recs := Filter(StampsOf(sha), s.evidence);
    var evs := Map(Evidence(), recs);
    var stamps := Verified(cfg.lib, cfg.root, evs, sha);
    if t in TrustedTimes(cfg, s, sha) {
      var i :| 0 <= i < |stamps| && stamps[i].time == t;
      VerifiedExact(cfg.lib, cfg.root, evs, sha, stamps[i]);
      var j :| 0 <= j < |evs| && evs[j] == stamps[i].evidence;
      assert recs[j] in recs;
    }
    if r :| r in s.evidence && r.envelopeSha == sha && CountsAt(cfg.lib, cfg.root, r.evidence, sha, t) {
      assert r in recs;
      var j :| 0 <= j < |recs| && recs[j] == r;
      assert evs[j] == r.evidence;
      VerifiedExact(cfg.lib, cfg.root, evs, sha, Stamp(t, r.evidence));
      var i :| 0 <= i < |stamps| && stamps[i] == Stamp(t, r.evidence);
      assert TrustedTimes(cfg, s, sha)[i] == t;
    }
  }

  // ---- the code ----

  /** Loads the stored evidence of an envelope and re-verifies it. */
  method TrustedPoints(st: MemoryStore, cfg: Config, sha: string) returns (points: seq<Time>)
    ensures multiset(points) == multiset(TrustedTimes(cfg, st.View(), sha))
  {
    hide Verified;
    var recs := st.ListTimeEvidence(sha);
    var evs: seq<TimeEvidence> := [];
    for i := 0 to |recs|
      invariant evs == Map(Evidence(), recs[..i])
    {
      assert recs[..i + 1] == recs[..i] + [recs[i]];
      evs := evs + [recs[i].evidence];
    }
    assert recs[..|recs|] == recs;
    var verified := VerifyAll(cfg.lib, cfg.root, evs, sha);
    points := [];
    for i := 0 to |verified|
      invariant points == Map(StampTime(), verified[..i])
    {
      assert verified[..i + 1] == verified[..i] + [verified[i]];
      points := points + [verified[i].time];
    }
    assert verified[..|verified|] == verified;
    StableSortContents(Earlier, Verified(cfg.lib, cfg.root, evs, sha));
    MapPermutation(StampTime(), verified, Verified(cfg.lib, cfg.root, evs, sha));
    TimesPermutation(cfg, recs, Filter(StampsOf(sha), st.trustedTimeEvidence), sha);
  }

  /** The loop body of reviewOne. */
  method ReviewRecord(st: MemoryStore, cfg: Config, rec: AttestationRecord) returns (ar: AttReview)
    ensures ar == ReviewAttestation(cfg, st.View(), rec)
  {
    hide TrustedTimes, Earliest;
    var sha := cfg.lib.envelopeSha(rec.envelopeJson);
    ar := AttReview(rec.id, sha, false, false, "", false, 0, None, Insufficient);
    var env := cfg.lib.parseEnvelope(rec.envelopeJson);
    if env.Some? {
      var sig := cfg.lib.verifyEnvelope(env.value, cfg.root.pubById);
      ar := ar.(signatureValid := sig.Valid?, signingKeyId := sig.keyId);
      if sig.Valid? && sig.keyId in cfg.root.byId {
        ar := ar.(rootAnchored := true);
      }
    }
    if ar.signatureValid {
      var points := TrustedPoints(st, cfg, sha);
      SameInstants(points, TrustedTimes(cfg, st.View(), sha));
      var c := Classify(cfg.rev, ar.signingKeyId, points);
      ar := ar.(trustedCount := |points|, keyRevoked := Revoked(cfg.rev, ar.signingKeyId),
                cls := c.cls, earliestTrusted := c.trustedEarliest);
    } else {
      ar := ar.(cls := Insufficient);
    }
  }

  /** reviewOne. */
  method ReviewOne(st: MemoryStore, cfg: Config, id: int) returns (atts: seq<AttReview>)
    ensures atts == ReviewsOf(cfg, st.View(), id)
  {
    hide ReviewAttestation;
    var recs := st.ListAttestations(id);
    atts := [];
    for i := 0 to |recs|
      invariant atts == Map(Reviewing(cfg, st.View()), recs[..i])
    {
      assert recs[..i + 1] == recs[..i] + [recs[i]];
      var ar := ReviewRecord(st, cfg, recs[i]);
      atts := atts + [ar];
    }
    assert recs[..|recs|] == recs;
  }

  predicate RecordIdLess(a: AttestationRecord, b: AttestationRecord) {
    a.id < b.id
  }

  /** The reviews come out in the order of their ids, so sorting them by id moves nothing. */
  lemma ReviewsInIdOrder(cfg: Config, s: State, id: int)
    requires WellFormed(s)
    ensures var atts := ReviewsOf(cfg, s, id);
            forall i, j :: 0 <= i < j < |atts| ==> atts[i].storedId <= atts[j].storedId
  {
    assert Sorted(RecordIdLess, s.attestations);
    FilterSorted(RecordIdLess, AttestedFor(id), s.attestations);
    var recs := AttestationsOf(s, id);
    forall i, j | 0 <= i < j < |recs| ensures recs[i].id <= recs[j].id {
      assert !RecordIdLess(recs[j], recs[i]);
    }
  }

  function Severity(c: Class): nat {
    match c
    case Unaffected => 1
    case Insufficient => 2
    case Affected => 3
  }

  /** aggregateAttestationClass: the worst class so far is kept in a variable that starts out empty. */
  method Aggregate(atts: seq<AttReview>) returns (c: Class)
    ensures c == Own(atts)
  {
    var hasValid, worst: Option<Class> := false, None;
    for i := 0 to |atts|
      invariant hasValid <==> exists k :: 0 <= k < i && atts[k].signatureValid
      invariant worst.Some? <==> hasValid
      invariant worst.Some? ==> exists k :: 0 <= k < i && atts[k].signatureValid && atts[k].cls == worst.value
      invariant forall k :: 0 <= k < i && atts[k].signatureValid ==> Severity(atts[k].cls) <= Severity(worst.value)
    {
      if !atts[i].signatureValid {
        continue;
      }
      hasValid := true;
      if worst.None? || Severity(atts[i].cls) > Severity(worst.value) {
        worst := Some(atts[i].cls);
      }
    }
    assert forall a :: a in atts <==> exists k :: 0 <= k < |atts| && atts[k] == a;
    if !hasValid {
      return Insufficient;
    }
    c := worst.value;
  }

  /** earliestReference. */
  method EarliestReference(atts: seq<AttReview>) returns (best: Option<Time>)
    ensures IsReference(atts, best)
  {
    best := None;
    for i := 0 to |atts|
      invariant best.None? ==> forall k :: 0 <= k < i ==> atts[k].earliestTrusted.None?
      invariant best.Some? ==> exists k :: 0 <= k < i && atts[k].earliestTrusted == best
      invariant best.Some? ==>
                  forall k :: 0 <= k < i && atts[k].earliestTrusted.Some? ==>
                    best.value <= atts[k].earliestTrusted.value
    {
      if atts[i].earliestTrusted.Some? {
        if best.None? || atts[i].earliestTrusted.value < best.value {
          best := atts[i].earliestTrusted;
        }
      }
    }
  }
}
