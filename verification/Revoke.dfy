/** internal/revocation/revocation.go: the revocation list, the download gate, the historical classes. */
module Revoke {
  import opened Base
  import opened Model
  import Trust

  /** A feed entry after JSON decoding; times are still text. */
  datatype FeedEvent = FeedEvent(keyId: string, compromisedAt: string, revokedAt: string, publicKeyPem: string)

  ghost predicate GoodEvent(lib: Library, e: FeedEvent) {
    && e.keyId != "" && e.compromisedAt != "" && e.revokedAt != ""
    && lib.parseTime(e.compromisedAt).Some? && lib.parseTime(e.revokedAt).Some?
    && lib.parseTime(e.compromisedAt).value <= lib.parseTime(e.revokedAt).value
    && (e.publicKeyPem != "" ==> Trust.Fingerprinted(lib, e.publicKeyPem, e.keyId))
  }

  ghost predicate GoodFeed(lib: Library, events: seq<FeedEvent>) {
    && (forall e <- events :: GoodEvent(lib, e))
    && (forall i, j :: 0 <= i < j < |events| ==> events[i].keyId != events[j].keyId)
  }

  /** The entry of a good event. */
  function EventOf(lib: Library, e: FeedEvent): Revocation {
    var comp, rev := lib.parseTime(e.compromisedAt), lib.parseTime(e.revokedAt);
    Revocation(e.keyId, if comp.Some? then comp.value else ZERO_TIME, if rev.Some? then rev.value else ZERO_TIME,
               e.publicKeyPem)
  }

  function EventIndex(lib: Library, events: seq<FeedEvent>): map<string, Revocation> {
    if events == [] then map[]
    else
      var n := |events| - 1;
      EventIndex(lib, events[..n])[events[n].keyId := EventOf(lib, events[n])]
  }

  /** The list a feed amounts to. */
  ghost function ListOf(lib: Library, version: int, events: seq<FeedEvent>): RevList {
    RevList(version, EventIndex(lib, events), KeyIds(events))
  }

  /** The list holds the event: the instants its two texts stand for, and its key's text. */
  ghost predicate Filed(lib: Library, l: RevList, e: FeedEvent) {
    && e.keyId in l.events && l.events[e.keyId].keyId == e.keyId
    && lib.parseTime(e.compromisedAt) == Some(l.events[e.keyId].compromisedAt)
    && lib.parseTime(e.revokedAt) == Some(l.events[e.keyId].revokedAt)
    && l.events[e.keyId].publicKeyPem == e.publicKeyPem
  }

  ghost function KeyIds(events: seq<FeedEvent>): seq<string> {
    seq(|events|, i requires 0 <= i < |events| => events[i].keyId)
  }

  lemma {:induction false} EventKeys(lib: Library, events: seq<FeedEvent>)
    ensures EventIndex(lib, events).Keys == set e <- events :: e.keyId
  {
    hide EventOf;
    if events != [] {
      var n := |events| - 1;
      EventKeys(lib, events[..n]);
      assert events == events[..n] + [events[n]];
    }
  }

  lemma {:induction false} EventEntry(lib: Library, events: seq<FeedEvent>, i: nat)
    requires GoodFeed(lib, events) && i < |events|
    ensures events[i].keyId in EventIndex(lib, events)
    ensures EventIndex(lib, events)[events[i].keyId] == EventOf(lib, events[i])
  {
    hide GoodEvent, EventOf;
    var n := |events| - 1;
    if i < n {
      assert events[i].keyId != events[n].keyId;
      assert forall e <- events[..n] :: e in events;
      EventEntry(lib, events[..n], i);
    }
  }

  lemma EventIndexed(lib: Library, events: seq<FeedEvent>)
    requires GoodFeed(lib, events)
    ensures EventIndex(lib, events).Keys == set e <- events :: e.keyId
    ensures forall e <- events ::
              e.keyId in EventIndex(lib, events) && EventIndex(lib, events)[e.keyId] == EventOf(lib, e)
  {
    hide GoodFeed, EventOf, EventIndex;
    EventKeys(lib, events);
    forall e <- events
      ensures e.keyId in EventIndex(lib, events) && EventIndex(lib, events)[e.keyId] == EventOf(lib, e)
    {
      var i :| 0 <= i < |events| && events[i] == e;
      EventEntry(lib, events, i);
    }
  }

  lemma FeedSnoc(lib: Library, events: seq<FeedEvent>, i: nat)
    requires i < |events| && GoodFeed(lib, events[..i]) && GoodEvent(lib, events[i])
    requires events[i].keyId !in EventIndex(lib, events[..i])
    ensures GoodFeed(lib, events[..i + 1])
    ensures ListOf(lib, 0, events[..i + 1]).keyOrder == ListOf(lib, 0, events[..i]).keyOrder + [events[i].keyId]
    ensures EventIndex(lib, events[..i + 1]) ==
              EventIndex(lib, events[..i])[events[i].keyId := EventOf(lib, events[i])]
  {
    hide GoodEvent, EventOf;
    EventIndexed(lib, events[..i]);
    assert events[..i + 1] == events[..i] + [events[i]];
    assert forall x <- events[..i] :: x.keyId != events[i].keyId;
  }

  lemma DuplicateIsBad(lib: Library, events: seq<FeedEvent>, i: nat)
    requires i < |events| && GoodFeed(lib, events[..i]) && events[i].keyId in EventIndex(lib, events[..i])
    ensures !GoodFeed(lib, events)
  {
    hide GoodEvent, EventOf;
    EventIndexed(lib, events[..i]);
    var x :| x in events[..i] && x.keyId == events[i].keyId;
    var j :| 0 <= j < i && events[j] == x;
  }

  /** ParseFeed accepts exactly the good feeds, files every event and lists the keys in feed order. */
  method ParseFeed(lib: Library, version: int, events: seq<FeedEvent>) returns (r: Result<RevList>)
    ensures r.Ok? <==> GoodFeed(lib, events)
    ensures r.Ok? ==> r.value == ListOf(lib, version, events)
    ensures r.Ok? ==> r.value.events.Keys == set e <- events :: e.keyId
    ensures r.Ok? ==> forall e <- events :: Filed(lib, r.value, e)
    ensures r.Ok? ==> forall id <- r.value.events.Keys ::
                        r.value.events[id].compromisedAt <= r.value.events[id].revokedAt
  {
    hide GoodFeed, EventIndex, KeyIds;
    assert events[..0] == [];
    var l := RevList(version, map[], []);
    NothingFiled(lib);
    for i := 0 to |events|
      invariant l == ListOf(lib, version, events[..i]) && GoodFeed(lib, events[..i])
    {
      var e := events[i];
      if e.keyId == "" || e.compromisedAt == "" || e.revokedAt == "" {
        OneBad(lib, events, i);
        return Err("incomplete event");
      }
      var comp := lib.parseTime(e.compromisedAt);
      if comp.None? {
        OneBad(lib, events, i);
        return Err("compromisedAt");
      }
      var rev := lib.parseTime(e.revokedAt);
      if rev.None? {
        OneBad(lib, events, i);
        return Err("revokedAt");
      }
      if rev.value < comp.value {
        OneBad(lib, events, i);
        return Err("revoked before compromised");
      }
      if e.publicKeyPem != "" {
        var pub := lib.parsePem(e.publicKeyPem);
        if pub.None? {
          OneBad(lib, events, i);
          return Err("public key");
        }
        if lib.fingerprint(pub.value) != e.keyId {
          OneBad(lib, events, i);
          return Err("key id is not the fingerprint");
        }
      }
      if e.keyId in l.events {
        DuplicateIsBad(lib, events, i);
        return Err("duplicate key");
      }
      FeedSnoc(lib, events, i);
      l := l.(events := l.events[e.keyId := Revocation(e.keyId, comp.value, rev.value, e.publicKeyPem)],
              keyOrder := l.keyOrder + [e.keyId]);
    }
    assert events[..|events|] == events;
    AllFiled(lib, version, events);
    EventKeys(lib, events);
    r := Ok(l);
  }

  /** In the list of an accepted feed every event is filed, and no key is revoked before it was compromised. */
  lemma AllFiled(lib: Library, version: int, events: seq<FeedEvent>)
    requires GoodFeed(lib, events)
    ensures var l := ListOf(lib, version, events);
            && (forall e <- events :: Filed(lib, l, e))
            && (forall id <- l.events.Keys :: l.events[id].compromisedAt <= l.events[id].revokedAt)
  {
    EventIndexed(lib, events);
    hide EventIndex;
    var l := ListOf(lib, version, events);
    forall id <- l.events.Keys ensures l.events[id].compromisedAt <= l.events[id].revokedAt {
      var e :| e in events && e.keyId == id;
      assert GoodEvent(lib, e);
    }
  }

  lemma NothingFiled(lib: Library)
    ensures EventIndex(lib, []) == map[] && KeyIds([]) == [] && GoodFeed(lib, [])
  {
  }

  lemma OneBad(lib: Library, events: seq<FeedEvent>, i: nat)
    requires i < |events| && !GoodEvent(lib, events[i])
    ensures !GoodFeed(lib, events)
  {
  }

  // ---- revoked keys that signatures can still be checked with ----

  /** The public keys the entries carry, by key id; entries without one are passed over. */
  function CarriedKeys(lib: Library, l: RevList, ids: seq<string>): map<string, string> {
    if ids == [] then map[]
    else
      var n := |ids| - 1;
      var before := CarriedKeys(lib, l, ids[..n]);
      if ids[n] !in l.events || l.events[ids[n]].publicKeyPem == "" then before
      else match lib.parsePem(l.events[ids[n]].publicKeyPem)
        case Some(pub) => before[ids[n] := pub]
        case None => before
  }

  ghost predicate PemParses(lib: Library, l: RevList, id: string) {
    id in l.events && l.events[id].publicKeyPem != "" ==> lib.parsePem(l.events[id].publicKeyPem).Some?
  }

  ghost predicate PemsParse(lib: Library, l: RevList) {
    forall id <- l.keyOrder :: PemParses(lib, l, id)
  }

  /** KnownRevocationPublicKeys. */
  method KnownPublicKeys(lib: Library, l: RevList) returns (r: Option<map<string, string>>)
    ensures r == if PemsParse(lib, l) then Some(CarriedKeys(lib, l, l.keyOrder)) else None
  {
    var out: map<string, string> := map[];
    for i := 0 to |l.keyOrder|
      invariant out == CarriedKeys(lib, l, l.keyOrder[..i])
      invariant forall id <- l.keyOrder[..i] :: PemParses(lib, l, id)
    {
      var id := l.keyOrder[i];
      assert id in l.keyOrder && l.keyOrder[..i + 1][..i] == l.keyOrder[..i];
      assert l.keyOrder[..i + 1] == l.keyOrder[..i] + [id];
      if id !in l.events || l.events[id].publicKeyPem == "" {
        continue;
      }
      var pub := lib.parsePem(l.events[id].publicKeyPem);
      if pub.None? {
        return None;
      }
      out := out[id := pub.value];
    }
    assert l.keyOrder[..|l.keyOrder|] == l.keyOrder;
    r := Some(out);
  }

  lemma CarriedEntry(lib: Library, version: int, events: seq<FeedEvent>, i: nat)
    requires GoodFeed(lib, events) && i < |events|
    ensures var l, id := ListOf(lib, version, events), events[i].keyId;
            && id in l.events && l.events[id].publicKeyPem == events[i].publicKeyPem
            && (events[i].publicKeyPem != "" ==> Trust.Fingerprinted(lib, events[i].publicKeyPem, id))
  {
    EventIndexed(lib, events);
    assert events[i] in events;
  }

  /** In an accepted feed every public key parses. */
  lemma GoodPemsParse(lib: Library, version: int, events: seq<FeedEvent>)
    requires GoodFeed(lib, events)
    ensures PemsParse(lib, ListOf(lib, version, events))
  {
    hide GoodFeed, EventIndex;
    var l := ListOf(lib, version, events);
    forall id <- l.keyOrder
      ensures PemParses(lib, l, id)
    {
      var i :| 0 <= i < |events| && events[i].keyId == id;
      CarriedEntry(lib, version, events, i);
    }
  }

  ghost predicate UnderFingerprint(lib: Library, keys: map<string, string>) {
    forall id <- keys.Keys :: lib.fingerprint(keys[id]) == id
  }

  /** And every key carried is filed under its fingerprint. */
  lemma {:induction false} CarriedAreFingerprinted(lib: Library, version: int, events: seq<FeedEvent>, n: nat)
    requires GoodFeed(lib, events) && n <= |events|
    ensures var l := ListOf(lib, version, events);
            var keys := CarriedKeys(lib, l, l.keyOrder[..n]);
            && UnderFingerprint(lib, keys)
            && keys.Keys == set e <- events[..n] | e.publicKeyPem != "" :: e.keyId
  {
    hide GoodFeed, EventIndex;
    if n > 0 {
      var l := ListOf(lib, version, events);
      CarriedAreFingerprinted(lib, version, events, n - 1);
      CarriedEntry(lib, version, events, n - 1);
      assert l.keyOrder[..n][..n - 1] == l.keyOrder[..n - 1];
      assert events[..n] == events[..n - 1] + [events[n - 1]];
    }
  }

  // ---- the download gate ----

  /** IsRevoked and Gate; a missing list revokes nothing. */
  predicate Revoked(rev: Option<RevList>, keyId: string) {
    rev.Some? && keyId in rev.value.events
  }

  // ---- the historical classes ----

  /** The earliest trusted instant; zero instants carry no information. */
  function Earliest(points: seq<Time>): Option<Time> {
    if points == [] then None
    else
      var n := |points| - 1;
      var e := Earliest(points[..n]);
      if points[n] == ZERO_TIME then e
      else if e.None? || points[n] < e.value then Some(points[n])
      else e
  }

  /** What an instant is the earliest of. */
  ghost predicate IsEarliest(points: set<Time>, r: Option<Time>) {
    match r
    case None => forall p <- points :: p == ZERO_TIME
    case Some(t) => t in points && t != ZERO_TIME && forall p <- points :: p == ZERO_TIME || t <= p
  }

  function ClassOf(rev: Option<RevList>, keyId: string, earliest: Option<Time>): Class {
    if !Revoked(rev, keyId) then Unaffected
    else if earliest.None? then Insufficient
    else if earliest.value < rev.value.events[keyId].compromisedAt then Unaffected
    else Affected
  }

  /** How many instants carry information. */
  function Informative(points: seq<Time>): nat {
    if points == [] then 0
    else Informative(points[..|points| - 1]) + if points[|points| - 1] == ZERO_TIME then 0 else 1
  }

  datatype Classification = Classification(cls: Class, trustedEarliest: Option<Time>, pointsCount: nat)

  function ToSet(points: seq<Time>): set<Time> {
    set p <- points
  }

  lemma {:induction false} EarliestCorrect(points: seq<Time>)
    ensures IsEarliest(ToSet(points), Earliest(points))
  {
    if points != [] {
      var n := |points| - 1;
      EarliestCorrect(points[..n]);
      assert points == points[..n] + [points[n]];
      assert ToSet(points) == ToSet(points[..n]) + {points[n]};
    }
  }

  /** The class depends on the instants only as a set: order and repetition are irrelevant. */
  lemma ClassDependsOnSet(rev: Option<RevList>, keyId: string, p: seq<Time>, q: seq<Time>)
    requires ToSet(p) == ToSet(q)
    ensures Earliest(p) == Earliest(q)
    ensures ClassOf(rev, keyId, Earliest(p)) == ClassOf(rev, keyId, Earliest(q))
  {
    EarliestCorrect(p);
    EarliestCorrect(q);
  }

  /** The order in which further evidence can move a class. */
  function Rank(c: Class): nat {
    match c
    case Insufficient => 0
    case Affected => 1
    case Unaffected => 2
  }

  /** More instants move a class only forward along insufficient, affected, unaffected. */
  lemma MoreEvidenceMovesForward(rev: Option<RevList>, keyId: string, p: seq<Time>, q: seq<Time>)
    requires ToSet(p) <= ToSet(q)
    ensures Rank(ClassOf(rev, keyId, Earliest(p))) <= Rank(ClassOf(rev, keyId, Earliest(q)))
  {
    EarliestCorrect(p);
    EarliestCorrect(q);
  }

  /** Stamps from the compromise onwards never clear a revoked key. */
  lemma LateStampsNeverClear(rev: Option<RevList>, keyId: string, points: seq<Time>)
    requires Revoked(rev, keyId)
    ensures ClassOf(rev, keyId, Earliest(points)) == Unaffected <==>
            exists p <- points :: p != ZERO_TIME && p < rev.value.events[keyId].compromisedAt
    ensures ClassOf(rev, keyId, Earliest(points)) == Insufficient <==> forall p <- points :: p == ZERO_TIME
  {
    EarliestCorrect(points);
    assert forall p :: p in points <==> p in ToSet(points);
  }

  /** Classify: one pass that keeps the minimum in a variable whose zero value means none yet. */
  method Classify(rev: Option<RevList>, keyId: string, points: seq<Time>) returns (c: Classification)
    ensures c.cls == ClassOf(rev, keyId, Earliest(points))
    ensures c.trustedEarliest == if Revoked(rev, keyId) then Earliest(points) else None
    ensures c.pointsCount == if Revoked(rev, keyId) then Informative(points) else 0
  {
    if !Revoked(rev, keyId) {
      return Classification(Unaffected, None, 0);
    }
    var comp := rev.value.events[keyId].compromisedAt;
    var earliest, count := ZERO_TIME, 0;
    for i := 0 to |points|
      invariant count == Informative(points[..i])
      invariant earliest == ZERO_TIME <==> Earliest(points[..i]).None?
      invariant earliest != ZERO_TIME ==> Earliest(points[..i]) == Some(earliest)
    {
      assert points[..i + 1][..i] == points[..i];
      if points[i] != ZERO_TIME {
        count := count + 1;
        if earliest == ZERO_TIME || points[i] < earliest {
          earliest := points[i];
        }
      }
    }
    assert points[..|points|] == points;
    if earliest == ZERO_TIME {
      return Classification(Insufficient, None, count);
    }
    if earliest < comp {
      return Classification(Unaffected, Some(earliest), count);
    }
    return Classification(Affected, Some(earliest), count);
  }
}
