/** internal/review/service.go: the service, over the mutable store. */
module Service {
  import opened Base
  import opened Model
  import opened Lists
  import opened Tables
  import opened Memory
  import opened Graph
  import opened Closure
  import opened Reclassify
  import opened Propagation
  import opened Review
  import Stamps
  import Steps

  /** The later of now and every revocation instant listed. */
  ghost predicate IsCutoff(rev: Option<RevList>, now: Time, c: Time) {
    && now <= c
    && (rev.Some? ==> forall k <- rev.value.keyOrder :: k in rev.value.events ==> rev.value.events[k].revokedAt <= c)
    && (c == now ||
        (rev.Some? && exists k <- rev.value.keyOrder :: k in rev.value.events && rev.value.events[k].revokedAt == c))
  }

  /** The loop of NewService. */
  method ComputeCutoff(rev: Option<RevList>, now: Time) returns (c: Time)
    ensures IsCutoff(rev, now, c)
  {
    c := now;
    if rev.Some? {
      var l := rev.value;
      for i := 0 to |l.keyOrder|
        invariant now <= c
        invariant forall k :: 0 <= k < i && l.keyOrder[k] in l.events ==> l.events[l.keyOrder[k]].revokedAt <= c
        invariant c == now ||
                  exists k :: 0 <= k < i && l.keyOrder[k] in l.events && l.events[l.keyOrder[k]].revokedAt == c
      {
        var id := l.keyOrder[i];
        if id in l.events && l.events[id].revokedAt > c {
          c := l.events[id].revokedAt;
        }
      }
    }
  }

  class ReviewService {
    const cfg: Config
    const st: MemoryStore
    const now: Time
    var cutoff: Time

    constructor (cfg: Config, st: MemoryStore, now: Time)
      ensures this.cfg == cfg && this.st == st && this.now == now
      ensures IsCutoff(cfg.rev, now, cutoff)
    {
      this.cfg, this.st, this.now := cfg, st, now;
      var c := ComputeCutoff(cfg.rev, now);
      cutoff := c;
    }

    /** Stores time evidence that verifies for the given envelope digest, and nothing else. */
    method IngestTimeEvidence(envelopeSha: string, ev: TimeEvidence) returns (r: Result<int>)
      requires st.Valid()
      modifies st
      ensures st.Valid() && Extends(old(st.View()), st.View())
      ensures r.Ok? <==> exists t :: Stamps.CountsAt(cfg.lib, cfg.root, ev, envelopeSha, t)
      ensures r.Err? ==> st.View() == old(st.View())
      ensures r.Ok? ==> exists e <- st.View().evidence ::
                          e.id == r.value && Stamps.CountsAt(cfg.lib, cfg.root, ev, envelopeSha, e.trustedTimestamp)
                          && e.envelopeSha == envelopeSha && e.tsaKeyId == ev.tsaKeyId
      ensures st.View() == Steps.Ingested(cfg, old(st.View()), envelopeSha, ev)
    {
      forall t ensures Stamps.VerifiedTime(cfg.lib, cfg.root, ev, envelopeSha) == Some(t) <==>
                       Stamps.CountsAt(cfg.lib, cfg.root, ev, envelopeSha, t)
      {
        Stamps.VerifiedTimeExact(cfg.lib, cfg.root, ev, envelopeSha, t);
      }
      hide Stamps.CountsAt;
      var v := Stamps.VerifiedTime(cfg.lib, cfg.root, ev, envelopeSha);
      if v.None? {
        return Err("evidence does not verify");
      }
      var id := st.IngestTimeEvidence(cfg.lib.parseTime, envelopeSha, ev);
      r := Ok(id);
    }

    /** Phase 2: every artifact of the closure is reviewed by its own evidence. */
    method ReviewAll(order: seq<Artifact>, ghost fd: Findings)
      returns (reviews: Reviews, ownClass: map<int, Class>, ownRef: map<int, Option<Time>>)
      requires fd == FindingsOf(cfg, st.View())
      ensures ReviewsReady(fd, order, reviews)
      ensures forall a <- order :: a.id in ownClass && ownClass[a.id] == OwnClass(fd, a.id)
      ensures forall a <- order :: a.id in ownRef && IsReference(fd(a.id), ownRef[a.id])
    {
      hide ReviewsOf, Own, IsReference;
      reviews, ownClass, ownRef := map[], map[], map[];
      for i := 0 to |order|
        invariant forall k :: 0 <= k < i ==>
                    order[k].id in reviews && reviews[order[k].id] == fd(order[k].id)
        invariant forall k :: 0 <= k < i ==>
                    order[k].id in ownClass && ownClass[order[k].id] == OwnClass(fd, order[k].id)
        invariant forall k :: 0 <= k < i ==>
                    order[k].id in ownRef && IsReference(fd(order[k].id), ownRef[order[k].id])
      {
        var id := order[i].id;
        var atts := ReviewOne(st, cfg, id);
        var c := Aggregate(atts);
        var ref := EarliestReference(atts);
        reviews, ownClass, ownRef := reviews[id := atts], ownClass[id := c], ownRef[id := ref];
      }
    }

    /** The switch of phase 4. */
    method Summarize(a: Artifact, atts: seq<AttReview>, own: Class, ref: Option<Time>, path: seq<int>,
                     ghost paths: map<int, seq<int>>, affected: set<int>, blame: Blame, ghost fd: Findings,
                     ghost s: State)
      returns (ar: ArtifactReview)
      requires st.artifacts == s.artifacts && a.id in paths && paths[a.id] == path
      requires atts == fd(a.id) && own == Own(atts) && IsReference(atts, ref)
      ensures Summarized(fd, s, a, paths, affected, ar) && NamesBlame(fd, affected, blame, ar)
    {
      hide ReviewsOf, Own, IsReference;
      ar := ArtifactReview(a.id, a.name, a.sha256, Unaffected, None, 0, atts, [], None);
      var via: seq<string> := [];
      for i := 0 to |path|
        invariant via == NamesOf(s, path[..i])
      {
        assert path[..i + 1] == path[..i] + [path[i]];
        via := via + [if 1 <= path[i] <= |st.artifacts| then st.artifacts[path[i] - 1].name else ""];
      }
      assert path[..|path|] == path;
      ar := ar.(reachedVia := via);
      if a.id in affected {
        ar := ar.(cls := Affected, referenceTime := ref);
        if own != Affected && a.id in blame {
          ar := ar.(inheritedFrom := Some(blame[a.id]));
        }
      } else if own == Insufficient {
        ar := ar.(cls := Insufficient);
      } else {
        ar := ar.(cls := Unaffected, referenceTime := ref);
      }
    }

    /** persistReview: appends one review record; nothing stored before is touched. */
    method PersistReview(ar: ArtifactReview) returns (id: int)
      requires st.Valid() && HasArtifact(st.View(), ar.id)
      modifies st
      ensures st.Valid()
      ensures st.View() == SaveVerification(old(st.View()), ar.id, RecordFor(ar, now), [])
      ensures id == |old(st.View()).verifs| + 1
    {
      var anySig := false;
      for i := 0 to |ar.attestations|
        invariant anySig <==> exists k :: 0 <= k < i && ar.attestations[k].signatureValid
      {
        if ar.attestations[i].signatureValid {
          anySig := true;
        }
      }
      assert anySig == AnyValid(ar.attestations);
      var decision := NeedsReview;
      if ar.cls == Unaffected {
        decision := Allow;
      }
      if ar.cls == Affected {
        decision := Deny;
      }
      var v := Verification(0, 0, decision, anySig, anySig, ar.cls != Affected, true, now, "review",
                            Some(ar.cls), ar.referenceTime);
      id := st.SaveVerification(ar.id, v, []);
    }

    /** Phase 4: summarises and persists the artifacts one by one. */
    method SummarizeAll(order: seq<Artifact>, paths: map<int, seq<int>>, affected: set<int>, blame: Blame,
                        reviews: Reviews, ownClass: map<int, Class>, ownRef: map<int, Option<Time>>,
                        ghost fd: Findings)
      returns (arts: seq<ArtifactReview>)
      requires st.Valid() && forall a <- order :: HasArtifact(st.View(), a.id) && a.id in paths
      requires ReviewsReady(fd, order, reviews)
      requires forall a <- order :: a.id in ownClass && ownClass[a.id] == OwnClass(fd, a.id)
      requires forall a <- order :: a.id in ownRef && IsReference(fd(a.id), ownRef[a.id])
      modifies st
      ensures st.Valid() && Appended(old(st.View()), st.View(), arts, now)
      ensures |arts| == |order| && AllSummarized(fd, old(st.View()), order, paths, affected, arts)
      ensures AllNameBlame(fd, affected, blame, arts)
    {
      hide Own, IsReference, WellFormed, Summarized, NamesBlame;
      ghost var s := st.View();
      arts := [];
      NothingAppended(s, now);
      for i := 0 to |order|
        invariant st.Valid() && Appended(s, st.View(), arts, now)
        invariant |arts| == i && AllSummarized(fd, s, order, paths, affected, arts)
        invariant AllNameBlame(fd, affected, blame, arts)
      {
        var a := order[i];
        assert a in order;
        ghost var s1 := st.View();
        var ar := Summarize(a, reviews[a.id], ownClass[a.id], ownRef[a.id], paths[a.id], paths, affected, blame, fd, s);
        SummarizedId(fd, s, a, paths, affected, ar);
        var recId := PersistReview(ar);
        var entry := ar.(recordId := recId);
        SummarizedWithRecord(fd, s, a, paths, affected, blame, ar, recId);
        AppendedSnoc(s, s1, st.View(), arts, entry, now);
        arts := arts + [entry];
      }
    }

    /** Review: reports on what the root's walk reaches and appends one review record for each artifact reported. */
    method Review(rootName: string, rootSha: string) returns (r: Result<Report>)
      requires st.Valid()
      modifies st
      ensures st.Valid()
      ensures r.Ok? <==> FindArtifact(old(st.View()).artifacts, rootName, rootSha).Some?
      ensures r.Err? ==> st.View() == old(st.View())
      ensures r.Ok? ==>
                && OneRecordEach(old(st.View()), st.View(), r.value.artifacts, now)
                && r.value.generatedAt == now && r.value.cutoff == cutoff && !r.value.realTimeValid
                && r.value.feedVersion == (if cfg.rev.Some? then cfg.rev.value.version else 0)
                && var s := old(st.View());
                   var fd, root := FindingsOf(cfg, s), FindArtifact(s.artifacts, rootName, rootSha).value.id;
                   IsReport(fd, s, root, r.value.artifacts) && Explains(fd, s, root, r.value.artifacts)
    {
      hide FindingsOf, WellFormed, IsClosure, ReviewsReady, OwnClass, FixOk, QuietUpTo, IsReport, Explains;
      hide OneRecordEach, Appended, AllSummarized, AllNameBlame, IsReference, Ordering;
      ghost var s, fd := st.View(), FindingsOf(cfg, st.View());
      var found := st.GetArtifact(rootName, rootSha);
      if found.None? {
        return Err("root artifact not found");
      }
      var root := found.value;
      StoredIsNode(s, root);
      var order, paths, owned := BuildClosure(st, root);
      ClosureFacts(s, root, order, paths, owned);
      var reviews, ownClass, ownRef := ReviewAll(order, fd);
      ghost var history, passes;
      var affected: set<int>;
      var blame: Blame;
      affected, blame, history, passes := Propagate(order, owned, ownClass, reviews, fd, s);
      var arts := SummarizeAll(order, paths, affected, blame, reviews, ownClass, ownRef, fd);
      StableSortContents(ReportLess, arts);
      ReportOrdering();
      StableSortSorted(ReportLess, arts);
      var sorted := StableSort(ReportLess, arts);
      AppendedIsOneEach(s, st.View(), arts, sorted, now);
      EntriesMakeReport(fd, s, root, order, paths, owned, affected, blame, history, arts, sorted);
      EntriesExplain(fd, s, root, order, paths, owned, affected, blame, history, arts, sorted);
      r := Ok(Report(now, if cfg.rev.Some? then cfg.rev.value.version else 0, cutoff, false, sorted));
    }
  }
}
