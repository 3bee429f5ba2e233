/** internal/store/memory.go and memory_revocation.go: the tables updated in place. */
module Memory {
  import opened Base
  import opened Model
  import opened Lists
  import opened Tables

  /** MemoryStore; every method runs under its mutex, so each is one atomic step. */
  class MemoryStore {
    var artifactSeq: int
    var attestSeq: int
    var verifSeq: int
    var tteSeq: int
    var depSeq: int
    var artifacts: seq<Artifact>
    var attestations: seq<AttestationRecord>
    var verifs: seq<Verification>
    var verifAttests: map<int, seq<Verdict>>
    var trustedTimeEvidence: seq<EvidenceRecord>
    var dependencies: seq<DependencyEdge>

    ghost function View(): State
      reads this
    {
      State(artifacts, attestations, verifs, verifAttests, trustedTimeEvidence, dependencies)
    }

    /** What the store guarantees by itself. */
    ghost predicate Counted()
      reads this
    {
      && Tidy(View())
      && artifactSeq == |artifacts| && attestSeq == |attestations| && verifSeq == |verifs|
      && tteSeq == |trustedTimeEvidence| && depSeq == |dependencies|
    }

    /** And what it keeps for callers that pass ids of existing rows. */
    ghost predicate Valid()
      reads this
    {
      Counted() && WellFormed(View())
    }

    constructor ()
      ensures Valid() && View() == EMPTY
    {
      artifactSeq, attestSeq, verifSeq, tteSeq, depSeq := 0, 0, 0, 0, 0;
      artifacts, attestations, verifs, verifAttests := [], [], [], map[];
      trustedTimeEvidence, dependencies := [], [];
    }

    method EnsureArtifact(a: Artifact) returns (id: int)
      requires Counted()
      modifies this
      ensures Counted() && Extends(old(View()), View())
      ensures old(Valid()) ==> Valid()
      ensures (View(), id) == Tables.EnsureArtifact(old(View()), a)
      ensures HasArtifact(View(), id) && artifacts[id - 1].name == a.name && artifacts[id - 1].sha256 == a.sha256
    {
      hide Tidy, WellFormed;
      EnsureArtifactKeeps(View(), a);
      for i := 0 to |artifacts|
        invariant FindArtifact(artifacts, a.name, a.sha256) == FindArtifact(artifacts[i..], a.name, a.sha256)
      {
        assert artifacts[i..][1..] == artifacts[i + 1..];
        if artifacts[i].name == a.name && artifacts[i].sha256 == a.sha256 {
          return artifacts[i].id;
        }
      }
      artifactSeq := artifactSeq + 1;
      artifacts := artifacts + [a.(id := artifactSeq)];
      id := artifactSeq;
    }

    method AddAttestation(rec: AttestationRecord) returns (id: int)
      requires Counted()
      modifies this
      ensures Counted() && Extends(old(View()), View())
      ensures old(Valid() && HasArtifact(View(), rec.artifactId)) ==> Valid()
      ensures View() == Tables.AddAttestation(old(View()), rec) && id == |attestations|
      ensures HasAttestation(View(), rec.artifactId, id)
    {
      hide Tidy, WellFormed;
      AddAttestationKeeps(View(), rec);
      attestSeq := attestSeq + 1;
      attestations := attestations + [rec.(id := attestSeq)];
      id := attestSeq;
    }

    method AddDependencyEdges(edges: seq<DependencyEdge>)
      requires Counted()
      modifies this
      ensures Counted() && Extends(old(View()), View())
      ensures old(Valid() && forall e <- edges :: Attributed(View(), e)) ==> Valid()
      ensures View() == Tables.AddDependencyEdges(old(View()), edges)
    {
      hide Tidy, WellFormed, Extends, Declared, Attributed;
      AddDependencyEdgesKeeps(View(), edges);
      ghost var before := dependencies;
      for k := 0 to |edges|
        invariant dependencies == AddEdges(before, edges[..k]) && depSeq == |dependencies|
        invariant unchanged(`artifactSeq) && unchanged(`attestSeq) && unchanged(`verifSeq) && unchanged(`tteSeq)
        invariant unchanged(`artifacts) && unchanged(`attestations) && unchanged(`verifs)
        invariant unchanged(`verifAttests) && unchanged(`trustedTimeEvidence)
      {
        assert edges[..k + 1][..k] == edges[..k];
        var dup := HasEdge(edges[k]);
        if !dup {
          depSeq := depSeq + 1;
          dependencies := dependencies + [edges[k].(id := depSeq)];
        }
      }
      assert edges[..|edges|] == edges;
    }

    /** The inner scan for an edge already on file. */
    method HasEdge(e: DependencyEdge) returns (dup: bool)
      ensures dup <==> Declared(dependencies, e)
    {
      for j := 0 to |dependencies|
        invariant forall x <- dependencies[..j] :: !SameEdge(x, e)
      {
        if SameEdge(dependencies[j], e) {
          return true;
        }
      }
      assert dependencies[..|dependencies|] == dependencies;
      dup := false;
    }

    method SaveVerification(artifactId: int, v: Verification, verdicts: seq<Verdict>) returns (id: int)
      requires Counted()
      modifies this
      ensures Counted() && Extends(old(View()), View())
      ensures old(Valid() && HasArtifact(View(), artifactId)
                  && forall w <- verdicts :: VerdictNames(View(), artifactId, w)) ==>
                Valid()
      ensures View() == Tables.SaveVerification(old(View()), artifactId, v, verdicts) && id == |verifs|
    {
      hide Tidy, WellFormed, VerdictNames;
      SaveVerificationKeeps(View(), artifactId, v, verdicts);
      verifSeq := verifSeq + 1;
      var kind := if v.reviewKind == "" then "gate" else v.reviewKind;
      verifs := verifs + [v.(id := verifSeq, artifactId := artifactId, reviewKind := kind)];
      verifAttests := verifAttests[verifSeq := verdicts];
      id := verifSeq;
    }

    method IngestTimeEvidence(parse: string -> Option<Time>, sha: string, ev: TimeEvidence) returns (id: int)
      requires Counted()
      modifies this
      ensures Counted() && Extends(old(View()), View())
      ensures old(Valid()) ==> Valid()
      ensures View() == IngestEvidence(old(View()), parse, sha, ev)
      ensures exists e <- trustedTimeEvidence ::
                e.id == id && SameStamp(e, sha, ev.tsaKeyId, ProbeTime(parse, ev))
    {
      hide Tidy, WellFormed;
      IngestEvidenceKeeps(View(), parse, sha, ev);
      var t := ProbeTime(parse, ev);
      for i := 0 to |trustedTimeEvidence|
        invariant forall e <- trustedTimeEvidence[..i] :: !SameStamp(e, sha, ev.tsaKeyId, t)
      {
        if SameStamp(trustedTimeEvidence[i], sha, ev.tsaKeyId, t) {
          return trustedTimeEvidence[i].id;
        }
      }
      assert trustedTimeEvidence[..|trustedTimeEvidence|] == trustedTimeEvidence;
      tteSeq := tteSeq + 1;
      trustedTimeEvidence := trustedTimeEvidence + [EvidenceRecord(tteSeq, sha, ev.tsaKeyId, t, ev)];
      id := tteSeq;
      assert trustedTimeEvidence[tteSeq - 1] in trustedTimeEvidence;
    }

    method GetArtifact(name: string, sha: string) returns (r: Option<Artifact>)
      ensures r == FindArtifact(artifacts, name, sha)
    {
      for i := 0 to |artifacts|
        invariant FindArtifact(artifacts, name, sha) == FindArtifact(artifacts[i..], name, sha)
      {
        assert artifacts[i..][1..] == artifacts[i + 1..];
        if artifacts[i].name == name && artifacts[i].sha256 == sha {
          return Some(artifacts[i]);
        }
      }
      return None;
    }

    method GetArtifactById(id: int) returns (r: Option<Artifact>)
      requires Counted()
      ensures r == if 1 <= id <= |artifacts| then Some(artifacts[id - 1]) else None
    {
      for i := 0 to |artifacts|
        invariant !(1 <= id <= i)
      {
        if artifacts[i].id == id {
          return Some(artifacts[i]);
        }
      }
      return None;
    }

    method ListAttestations(artifactId: int) returns (out: seq<AttestationRecord>)
      ensures out == AttestationsOf(View(), artifactId)
    {
      out := [];
      for i := 0 to |attestations|
        invariant out == Filter(AttestedFor(artifactId), attestations[..i])
      {
        assert attestations[..i + 1][..i] == attestations[..i];
        if attestations[i].artifactId == artifactId {
          out := out + [attestations[i]];
        }
      }
      assert attestations[..|attestations|] == attestations;
    }

    method ListVerifications(artifactId: int) returns (out: seq<Verification>)
      ensures out == Filter(VerifiedFor(artifactId), verifs)
    {
      out := [];
      for i := 0 to |verifs|
        invariant out == Filter(VerifiedFor(artifactId), verifs[..i])
      {
        assert verifs[..i + 1][..i] == verifs[..i];
        if verifs[i].artifactId == artifactId {
          out := out + [verifs[i]];
        }
      }
      assert verifs[..|verifs|] == verifs;
    }

    method ListTimeEvidence(sha: string) returns (out: seq<EvidenceRecord>)
      ensures Sorted(StampLess, out)
      ensures forall i, j :: 0 <= i < j < |out| ==> out[i].trustedTimestamp <= out[j].trustedTimestamp
      ensures multiset(out) == multiset(Filter(StampsOf(sha), trustedTimeEvidence))
    {
      out := [];
      for i := 0 to |trustedTimeEvidence|
        invariant out == Filter(StampsOf(sha), trustedTimeEvidence[..i])
      {
        assert trustedTimeEvidence[..i + 1][..i] == trustedTimeEvidence[..i];
        if trustedTimeEvidence[i].envelopeSha == sha {
          out := out + [trustedTimeEvidence[i]];
        }
      }
      assert trustedTimeEvidence[..|trustedTimeEvidence|] == trustedTimeEvidence;
      out := SortSlice(StampLess, out);
      assert forall i, j :: 0 <= i < j < |out| ==> !StampLess(out[j], out[i]);
    }

    method ListDependencyEdges(artifactId: int) returns (out: seq<DependencyEdge>)
      ensures Sorted(EdgeLess, out)
      ensures forall i, j :: 0 <= i < j < |out| ==> EdgeInOrder(out[i], out[j])
      ensures multiset(out) == multiset(Filter(DeclaredBy(artifactId), dependencies))
    {
      out := [];
      for i := 0 to |dependencies|
        invariant out == Filter(DeclaredBy(artifactId), dependencies[..i])
      {
        assert dependencies[..i + 1][..i] == dependencies[..i];
        if dependencies[i].artifactId == artifactId {
          out := out + [dependencies[i]];
        }
      }
      assert dependencies[..|dependencies|] == dependencies;
      EdgeOrdering();
      out := SortSlice(EdgeLess, out);
      forall i, j | 0 <= i < j < |out| ensures EdgeInOrder(out[i], out[j]) {
        assert !EdgeLess(out[j], out[i]);
        NotLessInOrder(out[i], out[j]);
      }
    }

    method ListDependentEdges(depName: string, depSha: string) returns (out: seq<DependencyEdge>)
      ensures Sorted(IdLess, out)
      ensures forall i, j :: 0 <= i < j < |out| ==> out[i].id <= out[j].id
      ensures multiset(out) == multiset(Filter(PointsAt(depName, depSha), dependencies))
    {
      out := [];
      for i := 0 to |dependencies|
        invariant out == Filter(PointsAt(depName, depSha), dependencies[..i])
      {
        assert dependencies[..i + 1][..i] == dependencies[..i];
        if dependencies[i].depName == depName && dependencies[i].depSha == depSha {
          out := out + [dependencies[i]];
        }
      }
      assert dependencies[..|dependencies|] == dependencies;
      out := SortSlice(IdLess, out);
      assert forall i, j :: 0 <= i < j < |out| ==> !IdLess(out[j], out[i]);
    }
  }
}
