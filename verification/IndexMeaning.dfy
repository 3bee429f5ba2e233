/** What the dependency table holds: exactly what the provenance of stored envelopes declares. */
module IndexMeaning {
  import opened Base
  import opened Model
  import opened Lists
  import opened Tables
  import opened Check
  import opened Runs
  import opened RunLaws
  import Graph

  /** The envelope carries a provenance that lists a dependency of this name, pinned at this digest. */
  ghost predicate DeclaresPin(cfg: Config, json: string, name: string, sha: string) {
    name != "" &&
    exists env, key, st, prov ::
      Presents(cfg, json, env, key, st) && Claims(cfg.lib, st, prov) && PinsTo(prov.dependencies, name, sha)
  }

  /** Unnamed and unpinned resources apart, the dependencies recorded pin what the provenance pins. */
  lemma RecordedPins(deps: seq<Resource>, name: string, sha: string)
    ensures PinsTo(Filter(Pinned(), deps), name, sha) <==> name != "" && PinsTo(deps, name, sha)
  {
    hide PinnedAt;
    forall d <- deps ensures PinnedAt(d.digest, sha) ==> d.digest != map[] {
      NothingPins(sha);
    }
  }

  lemma NothingPins(sha: string)
    ensures !PinnedAt(map[], sha)
  {
  }

  lemma DeclaredExact(cfg: Config, json: string, name: string, sha: string)
    ensures PinsTo(DeclaredDependencies(cfg, json), name, sha) <==> DeclaresPin(cfg, json, name, sha)
  {
    hide PinsTo;
    var parsed := cfg.lib.parseEnvelope(json);
    if parsed.Some? {
      var sig := cfg.lib.verifyEnvelope(parsed.value, cfg.root.pubById);
      if sig.Payload().Some? {
        var st := sig.statement.value;
        assert Presents(cfg, json, parsed.value, sig.keyId, st);
        if ProvenanceOf(cfg.lib, st).Some? {
          var prov := ProvenanceOf(cfg.lib, st).value;
          assert Claims(cfg.lib, st, prov);
          RecordedPins(prov.dependencies, name, sha);
        }
      }
    }
    NoPins(name, sha);
  }

  lemma NoPins(name: string, sha: string)
    ensures !PinsTo([], name, sha)
  {
  }

  /** The edge is one that this stored envelope declares, for the artifact it was submitted for. */
  ghost predicate DeclaredIn(cfg: Config, rec: AttestationRecord, e: DependencyEdge) {
    && e.artifactId == rec.artifactId && e.attestationId == rec.id
    && DeclaresPin(cfg, rec.envelopeJson, e.depName, e.depSha)
  }

  lemma DerivedExact(cfg: Config, rec: AttestationRecord, e: DependencyEdge)
    ensures Declared(Derived(cfg, rec), e) <==> DeclaredIn(cfg, rec, e)
  {
    var deps := DeclaredDependencies(cfg, rec.envelopeJson);
    EdgesForOwn(rec.artifactId, rec.id, deps);
    EdgesForExact(rec.artifactId, rec.id, deps, e.depName, e.depSha);
    DeclaredExact(cfg, rec.envelopeJson, e.depName, e.depSha);
    hide EdgesFor, PinsTo, DeclaresPin, DeclaredDependencies;
    if DeclaredIn(cfg, rec, e) {
      var x :| x in EdgesFor(rec.artifactId, rec.id, deps) && x.depName == e.depName && x.depSha == e.depSha;
      assert x in Derived(cfg, rec) && SameEdge(x, e);
    }
  }

  /** In every reachable state each edge on file is declared in a stored envelope of its artifact; and when nothing is
      being filed, whatever a stored envelope declares is on file. */
  lemma TableExact(cfg: Config, events: seq<Event>, e: DependencyEdge)
    ensures var sys := Run(cfg, INITIAL, events);
            && (Declared(sys.store.deps, e) ==> exists rec <- sys.store.attestations :: DeclaredIn(cfg, rec, e))
            && (NoneFiling(sys) ==>
                  (Declared(sys.store.deps, e) <==> exists rec <- sys.store.attestations :: DeclaredIn(cfg, rec, e)))
  {
    hide Run, DeclaredIn, Derived, Declared;
    IndexAgreement(cfg, events, e);
    forall rec ensures Declared(Derived(cfg, rec), e) <==> DeclaredIn(cfg, rec, e) {
      DerivedExact(cfg, rec, e);
    }
  }

  /** A dependency whose pinned digest is that of a registered artifact of its name leads the walk from that artifact to
      the declaring one, and back unless another edge of the same key displaces it. */
  lemma DependencyIsLinked(cfg: Config, events: seq<Event>, rec: AttestationRecord, a: Artifact)
    returns (e: DependencyEdge)
    requires NoneFiling(Run(cfg, INITIAL, events))
    requires var s := Run(cfg, INITIAL, events).store; rec in s.attestations && a in s.artifacts
    requires DeclaresPin(cfg, rec.envelopeJson, a.name, a.sha256)
    ensures var s := Run(cfg, INITIAL, events).store;
            && Graph.Links(s, e, rec.artifactId, a.id) && e.attestationId == rec.id && Graph.Resolve(s, e) == Some(a)
            && Graph.Hop(s, a.id, rec.artifactId)
            && (Graph.Kept(s, e) ==> Graph.Hop(s, rec.artifactId, a.id))
  {
    hide Run, DeclaresPin, ProcOk, IndexOk;
    var s := Run(cfg, INITIAL, events).store;
    InitialOk(cfg);
    RunKeeps(cfg, INITIAL, events);
    var x := DependencyEdge(0, rec.artifactId, rec.id, a.name, a.sha256);
    TableExact(cfg, events, x);
    assert DeclaredIn(cfg, rec, x);
    e :| e in s.deps && SameEdge(e, x);
    FindExact(s, a);
    hide WellFormed, Graph.Kept;
    assert Graph.Links(s, e, rec.artifactId, a.id);
    hide Graph.Links;
    assert Graph.DownHop(s, a.id, rec.artifactId);
    assert Graph.Kept(s, e) ==> Graph.UpHop(s, rec.artifactId, a.id);
  }
}
