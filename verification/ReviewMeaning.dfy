/** What a historical review's report and records mean: for the envelopes, keys, edges and time evidence on file. */
module ReviewMeaning {
  import opened Base
  import opened Model
  import opened Tables
  import opened Check
  import opened Graph
  import opened Revoke
  import opened Stamps
  import opened Reclassify
  import opened Propagation
  import opened Review
  import Text
  import TrustMaterial

  // ---- one stored attestation ----

  /** Evidence on file for the envelope vouches for this instant, and the instant carries information. */
  ghost predicate SeenAt(cfg: Config, s: State, sha: string, t: Time) {
    t != ZERO_TIME && exists r <- s.evidence :: r.envelopeSha == sha && CountsAt(cfg.lib, cfg.root, r.evidence, sha, t)
  }

  /** The stored envelope is signed by this key. */
  ghost predicate SignedBy(cfg: Config, rec: AttestationRecord, key: string) {
    SignedWith(cfg, rec.envelopeJson, key)
  }

  ghost predicate Signed(cfg: Config, rec: AttestationRecord) {
    exists key :: SignedBy(cfg, rec, key)
  }

  /** Signed by a key that the trust root anchors. */
  ghost predicate Anchored(cfg: Config, rec: AttestationRecord) {
    exists key <- cfg.root.byId.Keys :: SignedBy(cfg, rec, key)
  }

  /** Signed by a key compromised at comp. */
  ghost predicate Compromised(cfg: Config, rec: AttestationRecord, comp: Time) {
    exists key :: SignedBy(cfg, rec, key) && !Unrevoked(cfg.rev, key) && cfg.rev.value.events[key].compromisedAt == comp
  }

  /** Seen, but never before its key was compromised. */
  ghost predicate SeenOnlyAfter(cfg: Config, s: State, rec: AttestationRecord) {
    var sha := cfg.lib.envelopeSha(rec.envelopeJson);
    exists comp :: Compromised(cfg, rec, comp)
                   && (exists t :: SeenAt(cfg, s, sha, t)) && (forall t :: SeenAt(cfg, s, sha, t) ==> comp <= t)
  }

  /** Signed by a compromised key, and never seen. */
  ghost predicate NeverSeen(cfg: Config, s: State, rec: AttestationRecord) {
    && (exists comp :: Compromised(cfg, rec, comp))
    && forall t :: !SeenAt(cfg, s, cfg.lib.envelopeSha(rec.envelopeJson), t)
  }

  /** Signed by a compromised key, and seen at t and never before. */
  ghost predicate SeenFirstAt(cfg: Config, s: State, rec: AttestationRecord, t: Time) {
    var sha := cfg.lib.envelopeSha(rec.envelopeJson);
    && (exists comp :: Compromised(cfg, rec, comp))
    && SeenAt(cfg, s, sha, t) && forall u :: SeenAt(cfg, s, sha, u) ==> t <= u
  }

  lemma InstantsSeen(cfg: Config, s: State, sha: string, t: Time)
    ensures t in TrustedTimes(cfg, s, sha) && t != ZERO_TIME <==> SeenAt(cfg, s, sha, t)
  {
    hide TrustedTimes, CountsAt;
    TrustedTimesExact(cfg, s, sha, t);
  }

  /** The class of an envelope by when it was seen. */
  lemma ClassBySight(cfg: Config, s: State, sha: string, key: string)
    requires !Unrevoked(cfg.rev, key)
    ensures var c, comp := ClassOf(cfg.rev, key, Earliest(TrustedTimes(cfg, s, sha))),
                           cfg.rev.value.events[key].compromisedAt;
            && (c == Unaffected <==> exists t :: SeenAt(cfg, s, sha, t) && t < comp)
            && (c == Insufficient <==> forall t :: !SeenAt(cfg, s, sha, t))
  {
    var points := TrustedTimes(cfg, s, sha);
    LateStampsNeverClear(cfg.rev, key, points);
    hide TrustedTimes, Earliest, ClassOf, SeenAt;
    forall t ensures t in points && t != ZERO_TIME <==> SeenAt(cfg, s, sha, t) {
      InstantsSeen(cfg, s, sha, t);
    }
  }

  /** What a review says of one stored attestation. */
  lemma AttestationExact(cfg: Config, s: State, rec: AttestationRecord)
    ensures var a := ReviewAttestation(cfg, s, rec);
            && a.storedId == rec.id
            && (a.signatureValid <==> Signed(cfg, rec)) && (a.rootAnchored <==> Anchored(cfg, rec))
            && (forall key :: SignedBy(cfg, rec, key) ==> a.signingKeyId == key)
            && (a.keyRevoked <==> exists comp :: Compromised(cfg, rec, comp))
            && (a.signatureValid && a.cls == Affected <==> SeenOnlyAfter(cfg, s, rec))
            && (a.signatureValid && a.cls == Insufficient <==> NeverSeen(cfg, s, rec))
  {
    hide TrustedTimes, Earliest, ClassOf, SeenAt;
    var sha := cfg.lib.envelopeSha(rec.envelopeJson);
    var a := ReviewAttestation(cfg, s, rec);
    if a.signatureValid {
      var key := a.signingKeyId;
      assert SignedBy(cfg, rec, key);
      if Unrevoked(cfg.rev, key) {
        UnrevokedIsUnaffected(cfg.rev, key, Earliest(TrustedTimes(cfg, s, sha)));
      } else {
        var comp := cfg.rev.value.events[key].compromisedAt;
        assert Compromised(cfg, rec, comp);
        ClassBySight(cfg, s, sha, key);
      }
    }
  }

  lemma UnrevokedIsUnaffected(rev: Option<RevList>, key: string, earliest: Option<Time>)
    requires Unrevoked(rev, key)
    ensures ClassOf(rev, key, earliest) == Unaffected
  {
  }

  /** The earliest instant is shown for a revoked key, and it is the earliest at which the envelope was seen. */
  lemma EarliestExact(cfg: Config, s: State, rec: AttestationRecord, t: Time)
    ensures ReviewAttestation(cfg, s, rec).earliestTrusted == Some(t) <==> SeenFirstAt(cfg, s, rec, t)
  {
    hide TrustedTimes, Earliest, ClassOf, SeenAt;
    var sha := cfg.lib.envelopeSha(rec.envelopeJson);
    AttestationExact(cfg, s, rec);
    EarliestCorrect(TrustedTimes(cfg, s, sha));
    forall u ensures u in ToSet(TrustedTimes(cfg, s, sha)) && u != ZERO_TIME <==> SeenAt(cfg, s, sha, u) {
      InstantsSeen(cfg, s, sha, u);
    }
    hide Compromised;
  }

  /** From the feed's text: the class of an envelope signed by the key of an event. */
  lemma ClassFromFeed(ps: TrustMaterial.Parsers, rootText: string, policyText: string, feedText: string, s: State,
                      rec: AttestationRecord, e: FeedEvent)
    requires TrustMaterial.Loaded(ps, rootText, policyText, feedText).Some?
    requires e in ps.feed(feedText).value.events && ps.lib.parseTime(e.compromisedAt).Some?
    requires SignedBy(TrustMaterial.Loaded(ps, rootText, policyText, feedText).value, rec, e.keyId)
    ensures var cfg := TrustMaterial.Loaded(ps, rootText, policyText, feedText).value;
            var a, sha := ReviewAttestation(cfg, s, rec), ps.lib.envelopeSha(rec.envelopeJson);
            var comp := ps.lib.parseTime(e.compromisedAt).value;
            && a.keyRevoked
            && (a.cls == Unaffected <==> exists t :: SeenAt(cfg, s, sha, t) && t < comp)
            && (a.cls == Insufficient <==> forall t :: !SeenAt(cfg, s, sha, t))
  {
    var cfg := TrustMaterial.Loaded(ps, rootText, policyText, feedText).value;
    TrustMaterial.LoadedIsSound(ps, rootText, policyText, feedText);
    assert Filed(cfg.lib, cfg.rev.value, e);
    hide TrustMaterial.Loaded, TrustedTimes, Earliest, ClassOf, SeenAt;
    ClassBySight(cfg, s, cfg.lib.envelopeSha(rec.envelopeJson), e.keyId);
  }

  // ---- what carries contamination ----

  /** A stored envelope of the edge's artifact declared it, under a key the trust root anchors. */
  ghost predicate DeclaredUnderRoot(cfg: Config, s: State, e: DependencyEdge) {
    exists rec <- s.attestations :: rec.artifactId == e.artifactId && rec.id == e.attestationId && Anchored(cfg, rec)
  }

  lemma InFindings(cfg: Config, s: State, n: int, a: AttReview)
    ensures a in FindingsOf(cfg, s)(n) <==>
            exists rec <- s.attestations :: rec.artifactId == n && a == ReviewAttestation(cfg, s, rec)
  {
    hide ReviewAttestation;
    var recs := AttestationsOf(s, n);
    var atts := FindingsOf(cfg, s)(n);
    if a in atts {
      var i :| 0 <= i < |atts| && atts[i] == a;
      assert recs[i] in recs;
    }
    if rec :| rec in s.attestations && rec.artifactId == n && a == ReviewAttestation(cfg, s, rec) {
      assert rec in recs;
      var i :| 0 <= i < |recs| && recs[i] == rec;
      assert atts[i] == a;
    }
  }

  lemma TrustedEdgeExact(cfg: Config, s: State, e: DependencyEdge)
    ensures TrustedEdge(FindingsOf(cfg, s), e) <==> DeclaredUnderRoot(cfg, s, e)
  {
    hide ReviewAttestation, Anchored, FindingsOf, SeenOnlyAfter, NeverSeen;
    if TrustedEdge(FindingsOf(cfg, s), e) {
      var a :| a in FindingsOf(cfg, s)(e.artifactId) && a.storedId == e.attestationId && a.signatureValid
               && a.rootAnchored;
      InFindings(cfg, s, e.artifactId, a);
      var rec :| rec in s.attestations && rec.artifactId == e.artifactId && a == ReviewAttestation(cfg, s, rec);
      AttestationExact(cfg, s, rec);
    }
    if rec :| rec in s.attestations && rec.artifactId == e.artifactId && rec.id == e.attestationId
              && Anchored(cfg, rec)
    {
      AttestationExact(cfg, s, rec);
      AnchoredIsSigned(cfg, rec);
      InFindings(cfg, s, e.artifactId, ReviewAttestation(cfg, s, rec));
    }
  }

  lemma AnchoredIsSigned(cfg: Config, rec: AttestationRecord)
    requires Anchored(cfg, rec)
    ensures Signed(cfg, rec)
  {
  }

  /** Some stored envelope of the artifact was seen only after its key was compromised. */
  ghost predicate Leaked(cfg: Config, s: State, n: int) {
    exists rec <- s.attestations :: rec.artifactId == n && SeenOnlyAfter(cfg, s, rec)
  }

  /** No stored envelope of the artifact is signed, or some signed one cannot be placed in time. */
  ghost predicate Undecided(cfg: Config, s: State, n: int) {
    (forall rec <- s.attestations :: rec.artifactId == n ==> !Signed(cfg, rec))
    || exists rec <- s.attestations :: rec.artifactId == n && NeverSeen(cfg, s, rec)
  }

  /** The class of an artifact by its own evidence. */
  lemma OwnExact(cfg: Config, s: State, n: int)
    ensures OwnAffected(FindingsOf(cfg, s), n) <==> Leaked(cfg, s, n)
    ensures OwnClass(FindingsOf(cfg, s), n) == Insufficient <==> !Leaked(cfg, s, n) && Undecided(cfg, s, n)
  {
    hide ReviewAttestation, Anchored, FindingsOf, SeenOnlyAfter, NeverSeen, Signed;
    var atts := FindingsOf(cfg, s)(n);
    forall a ensures a in atts <==>
                     exists rec <- s.attestations :: rec.artifactId == n && a == ReviewAttestation(cfg, s, rec)
    {
      InFindings(cfg, s, n, a);
    }
    forall rec <- s.attestations
      ensures var a := ReviewAttestation(cfg, s, rec);
              && (rec.artifactId == n ==> a in atts) && (a.signatureValid <==> Signed(cfg, rec))
              && (a.signatureValid && a.cls == Affected <==> SeenOnlyAfter(cfg, s, rec))
              && (a.signatureValid && a.cls == Insufficient <==> NeverSeen(cfg, s, rec))
    {
      AttestationExact(cfg, s, rec);
    }
  }

  /** An edge in scope, declared under an anchored key, leads from n to t. */
  ghost predicate Carries(cfg: Config, s: State, scope: set<DependencyEdge>, n: int, t: int) {
    exists e <- scope :: Links(s, e, n, t) && DeclaredUnderRoot(cfg, s, e)
  }

  /** Along edges declared under anchored keys to an artifact with a leaked envelope. */
  ghost predicate LeakTrail(cfg: Config, s: State, scope: set<DependencyEdge>, p: seq<int>) {
    && p != []
    && (forall i, j :: 0 <= i < j < |p| && j == i + 1 ==> Carries(cfg, s, scope, p[i], p[j]))
    && Leaked(cfg, s, p[|p| - 1])
  }

  lemma SpreadsExact(cfg: Config, s: State, scope: set<DependencyEdge>, n: int, t: int)
    ensures Spreads(FindingsOf(cfg, s), s, scope, n, t) <==> Carries(cfg, s, scope, n, t)
  {
    hide TrustedEdge, Links, FindingsOf, DeclaredUnderRoot;
    forall e ensures TrustedEdge(FindingsOf(cfg, s), e) <==> DeclaredUnderRoot(cfg, s, e) {
      TrustedEdgeExact(cfg, s, e);
    }
  }

  lemma TrailExact(cfg: Config, s: State, scope: set<DependencyEdge>, p: seq<int>)
    ensures TaintPath(FindingsOf(cfg, s), s, scope, p) <==> LeakTrail(cfg, s, scope, p)
  {
    hide Spreads, Carries, OwnAffected, Leaked, FindingsOf;
    if p != [] {
      OwnExact(cfg, s, p[|p| - 1]);
      forall i | 0 <= i < |p| - 1
        ensures Spreads(FindingsOf(cfg, s), s, scope, p[i], p[i + 1]) <==> Carries(cfg, s, scope, p[i], p[i + 1])
      {
        SpreadsExact(cfg, s, scope, p[i], p[i + 1]);
      }
    }
  }

  // ---- the report ----

  /** A reported artifact is affected exactly when a trail of edges the walk files, each declared under an anchored key,
      leads to an artifact with a leaked envelope; otherwise it is insufficient exactly when its own envelopes leave it
      undecided. */
  lemma ReportExact(cfg: Config, s: State, root: int, arts: seq<ArtifactReview>, a: ArtifactReview)
    requires IsReport(FindingsOf(cfg, s), s, root, arts) && a in arts
    ensures a.cls == Affected <==> exists p :: LeakTrail(cfg, s, ScopeOf(s, root), p) && p[0] == a.id
    ensures a.cls == Insufficient <==> a.cls != Affected && Undecided(cfg, s, a.id)
  {
    hide FindingsOf, OwnClass, Undecided, ScopeOf, ShortestVia, IsReference, Reached, Spreads, Carries, Leaked;
    var fd, scope := FindingsOf(cfg, s), ScopeOf(s, root);
    assert EntryOk(fd, s, root, a);
    ClassFromAffected(fd, s, scope, a.id);
    OwnExact(cfg, s, a.id);
    forall p ensures TaintPath(fd, s, scope, p) <==> LeakTrail(cfg, s, scope, p) {
      TrailExact(cfg, s, scope, p);
    }
    if Leaked(cfg, s, a.id) {
      assert LeakTrail(cfg, s, scope, [a.id]);
    }
  }

  ghost function UnderRoot(cfg: Config, s: State, scope: set<DependencyEdge>): set<DependencyEdge> {
    set e <- scope | DeclaredUnderRoot(cfg, s, e)
  }

  /** Edges declared under keys the root does not anchor are idle: without them every class is the same. */
  lemma UnanchoredEdgesAreIdle(cfg: Config, s: State, scope: set<DependencyEdge>, n: int)
    ensures ReviewClass(FindingsOf(cfg, s), s, scope, n) ==
              ReviewClass(FindingsOf(cfg, s), s, UnderRoot(cfg, s, scope), n)
  {
    var fd, rest := FindingsOf(cfg, s), UnderRoot(cfg, s, scope);
    hide FindingsOf, OwnClass, DeclaredUnderRoot, Links;
    forall p ensures TaintPath(fd, s, scope, p) <==> TaintPath(fd, s, rest, p) {
      TrailExact(cfg, s, scope, p);
      TrailExact(cfg, s, rest, p);
      assert forall i, j :: Carries(cfg, s, scope, i, j) <==> Carries(cfg, s, rest, i, j);
      hide Carries, Leaked, TaintPath;
    }
    hide TaintPath;
  }

  /** An inherited class comes with a stored envelope of that artifact, signed by a key the root anchors, that declared
      an edge to the upstream named. */
  lemma InheritedUnderRoot(cfg: Config, s: State, root: int, arts: seq<ArtifactReview>, a: ArtifactReview)
    returns (e: DependencyEdge, rec: AttestationRecord, key: string)
    requires Explains(FindingsOf(cfg, s), s, root, arts) && a in arts && a.inheritedFrom.Some?
    ensures e in ScopeOf(s, root) && Links(s, e, a.id, a.inheritedFrom.value.id) && e.attestationId == rec.id
    ensures rec in s.attestations && rec.artifactId == a.id && SignedBy(cfg, rec, key) && key in cfg.root.byId
  {
    hide FindingsOf, Links, ScopeOf, Trail, OwnAffected;
    var t := a.inheritedFrom.value.id;
    SpreadsExact(cfg, s, ScopeOf(s, root), a.id, t);
    e :| e in ScopeOf(s, root) && Links(s, e, a.id, t) && DeclaredUnderRoot(cfg, s, e);
    rec :| rec in s.attestations && rec.artifactId == e.artifactId && rec.id == e.attestationId && Anchored(cfg, rec);
    key :| key in cfg.root.byId.Keys && SignedBy(cfg, rec, key);
    assert e.artifactId == a.id by {
      LinkOwner(s, e, a.id, t);
    }
  }

  lemma LinkOwner(s: State, e: DependencyEdge, n: int, t: int)
    requires Links(s, e, n, t)
    ensures e.artifactId == n
  {
  }

  /** Entries stand in order of the length of their paths, and for one length in order of names. */
  lemma ReportOrder(fd: Findings, s: State, root: int, arts: seq<ArtifactReview>, i: nat, j: nat)
    requires IsReport(fd, s, root, arts) && i < j < |arts|
    ensures |arts[i].reachedVia| <= |arts[j].reachedVia|
    ensures |arts[i].reachedVia| == |arts[j].reachedVia| ==>
              arts[i].name == arts[j].name || Text.Less(arts[i].name, arts[j].name)
  {
    hide EntryOk, Reached;
    assert !ReportLess(arts[j], arts[i]);
    Text.LessTotal(arts[i].name, arts[j].name);
  }

  /** A stored envelope of the artifact, by a compromised key, was first seen at t. */
  ghost predicate FirstSeen(cfg: Config, s: State, n: int, t: Time) {
    exists rec <- s.attestations :: rec.artifactId == n && SeenFirstAt(cfg, s, rec, t)
  }

  lemma FirstSeenExact(cfg: Config, s: State, n: int, t: Time)
    ensures FirstSeen(cfg, s, n, t) <==> exists a <- FindingsOf(cfg, s)(n) :: a.earliestTrusted == Some(t)
  {
    hide ReviewAttestation, FindingsOf, SeenAt, Compromised;
    if a :| a in FindingsOf(cfg, s)(n) && a.earliestTrusted == Some(t) {
      InFindings(cfg, s, n, a);
      var rec :| rec in s.attestations && rec.artifactId == n && a == ReviewAttestation(cfg, s, rec);
      EarliestExact(cfg, s, rec, t);
    }
    if rec :| rec in s.attestations && rec.artifactId == n && SeenFirstAt(cfg, s, rec, t) {
      EarliestExact(cfg, s, rec, t);
      InFindings(cfg, s, n, ReviewAttestation(cfg, s, rec));
    }
  }

  /** The reference time shown for an artifact is the earliest at which an envelope of it, by a compromised key, was
      first seen; none is shown for an insufficient one. */
  lemma ReferenceExact(cfg: Config, s: State, root: int, arts: seq<ArtifactReview>, a: ArtifactReview, t: Time)
    requires IsReport(FindingsOf(cfg, s), s, root, arts) && a in arts
    ensures a.referenceTime == Some(t) <==>
            a.cls != Insufficient && FirstSeen(cfg, s, a.id, t) && forall u :: FirstSeen(cfg, s, a.id, u) ==> t <= u
  {
    hide FindingsOf, ScopeOf, ShortestVia, Reached, ReviewClass, FirstSeen;
    var fd := FindingsOf(cfg, s);
    assert EntryOk(fd, s, root, a);
    forall u ensures FirstSeen(cfg, s, a.id, u) <==> exists x <- fd(a.id) :: x.earliestTrusted == Some(u) {
      FirstSeenExact(cfg, s, a.id, u);
    }
  }

  /** What is shown of the way to an artifact: the names along a shortest walk from the root. */
  lemma PathExact(cfg: Config, s: State, root: int, arts: seq<ArtifactReview>, a: ArtifactReview) returns (p: seq<int>)
    requires IsReport(FindingsOf(cfg, s), s, root, arts) && a in arts
    ensures WalkFromTo(s, p, root, a.id) && |p| == |a.reachedVia|
    ensures forall q :: WalkFromTo(s, q, root, a.id) ==> |p| <= |q|
    ensures forall i :: 0 <= i < |p| && 1 <= p[i] <= |s.artifacts| ==> a.reachedVia[i] == s.artifacts[p[i] - 1].name
  {
    hide FindingsOf, ScopeOf, Reached, ReviewClass, IsReference, WalkFromTo;
    assert EntryOk(FindingsOf(cfg, s), s, root, a);
    p :| WalkFromTo(s, p, root, a.id) && a.reachedVia == NamesOf(s, p);
  }

  // ---- the records ----

  /** The record written for an entry: deny for affected, allow for unaffected, review for insufficient. */
  ghost predicate RecordSays(cfg: Config, s: State, ar: ArtifactReview, now: Time, v: Verification) {
    && v.id == ar.recordId && v.artifactId == ar.id && v.reviewKind == "review" && v.evaluatedAt == now
    && v.classification == Some(ar.cls) && v.referenceTime == ar.referenceTime
    && (v.decision == Deny <==> ar.cls == Affected) && (v.decision == Allow <==> ar.cls == Unaffected)
    && (v.policyAllowed <==> ar.cls != Affected) && v.digestMatch
    && (v.signatureValid <==> exists rec <- s.attestations :: rec.artifactId == ar.id && Signed(cfg, rec))
    && (v.issuerTrusted <==> v.signatureValid)
  }

  lemma SignedExact(cfg: Config, s: State, n: int)
    ensures (exists a <- FindingsOf(cfg, s)(n) :: a.signatureValid) <==>
            exists rec <- s.attestations :: rec.artifactId == n && Signed(cfg, rec)
  {
    hide FindingsOf, Signed, ReviewAttestation, Anchored, SeenOnlyAfter, NeverSeen, Compromised;
    if a :| a in FindingsOf(cfg, s)(n) && a.signatureValid {
      InFindings(cfg, s, n, a);
      var rec :| rec in s.attestations && rec.artifactId == n && a == ReviewAttestation(cfg, s, rec);
      AttestationExact(cfg, s, rec);
    }
    if rec :| rec in s.attestations && rec.artifactId == n && Signed(cfg, rec) {
      AttestationExact(cfg, s, rec);
      InFindings(cfg, s, n, ReviewAttestation(cfg, s, rec));
    }
  }

  lemma RecordFound(s: State, s': State, arts: seq<ArtifactReview>, now: Time, ar: ArtifactReview)
    requires OneRecordEach(s, s', arts, now) && ar in arts
    ensures ar.recordId > |s.verifs| && RecordMatches(s', ar, now)
  {
  }

  lemma RecordExact(cfg: Config, s: State, s': State, root: int, arts: seq<ArtifactReview>, now: Time,
                    ar: ArtifactReview)
    returns (v: Verification)
    requires IsReport(FindingsOf(cfg, s), s, root, arts) && OneRecordEach(s, s', arts, now) && ar in arts
    ensures v in s'.verifs && v.id > |s.verifs| && RecordSays(cfg, s, ar, now, v)
  {
    hide FindingsOf, ScopeOf, ShortestVia, Reached, IsReference, Extends, ReviewClass, Signed;
    hide OwnClass, ReportLess, ReportedIds, OnlyVerdictsAppended, OneRecordEach;
    SignedExact(cfg, s, ar.id);
    RecordFound(s, s', arts, now, ar);
    assert EntryOk(FindingsOf(cfg, s), s, root, ar);
    v := s'.verifs[ar.recordId - 1];
  }
}
