# Supply-chain verification: a Dafny model of scbverify

scbverify decides whether a build artifact may be downloaded, records the evidence the decision rests on, and
later works out which stored artifacts a leaked signing key has tainted. This project models that logic and proves
what it guarantees: over single calls, over whole runs of interleaved calls, and across the three parts that have
to agree with each other (the download gate, the historical review, the offline gate).

| file | what it models |
|---|---|
| `Model.dfy` | the records, the configuration, and parsing, hashing and signature checking as opaque functions |
| `Base.dfy`, `Text.dfy`, `Lists.dfy`, `Keys.dfy` | results, string order, sorting, sorted map keys |
| `Tables.dfy`, `MemoryStore.dfy` | `internal/store`: the tables as a value with the step on it each method makes, and the store object that makes these steps in place |
| `Trust.dfy`, `Revoke.dfy`, `TrustMaterial.dfy`, `Stamps.dfy`, `Digest.dfy`, `Policy.dfy` | trust root, revocation feed and classes, the configuration both amount to, time evidence, subject digests, the shipped policy |
| `Check.dfy`, `ConflictKey.dfy`, `Grouping.dfy`, `Decision.dfy`, `Steps.dfy`, `Verifier.dfy` | `internal/verifier`: one attestation, conflict keys and groups, the decision, what a whole check stores |
| `Runs.dfy`, `RunLaws.dfy`, `Growth.dfy`, `Persistence.dfy`, `Ingestion.dfy` | checks, ingestion and review writes interleaved store call by store call |
| `GateMeaning.dfy`, `IndexMeaning.dfy`, `ReviewMeaning.dfy`, `BundleMeaning.dfy` | what decisions, the dependency table, reports and bundles mean, written out over envelopes, provenances, the trust root's entries, feed events and files |
| `Graph.dfy`, `Closure.dfy`, `Reclassify.dfy`, `Propagation.dfy`, `Review.dfy`, `ReviewService.dfy`, `ReviewLaws.dfy`, `Collision.dfy` | `internal/review`: the four phases of a historical review, the service, what its report means |
| `OfflineGate.dfy`, `Bundle.dfy`, `OfflineCheck.dfy`, `Copies.dfy` | `internal/offline`: the gate, building a bundle, checking a bundle on disk, what copies of a bundle can differ in |

Code that updates state keeps that form: the store, the verifier, the review service, the trust root and the
disk are classes, the loops are loops, and `sortByTime` swaps in an array. Each such method is proved equal to a
function of its inputs or of the old state, or to meet a declarative specification; the theorems are about those. The
`*Meaning` modules then say what these functions come to without naming them: which key signed an envelope, what the
trust root binds that key to, when the envelope was seen, which source file stands where.
Times are integers with one of them, not the smallest, standing for Go's zero time. Strings are character
sequences in Go's byte order.

## Main results

* **Review.** For every well-formed store and every configuration, `Service.ReviewService.Review` reports exactly the
  artifacts its walk reaches, once each, with shortest paths, and marks an artifact affected exactly when a directed
  path of trusted edges the walk files leads to an artifact affected by its own evidence (the least fixpoint); it
  appends one record per artifact and touches nothing else. Every inherited class names an upstream, and following
  the upstreams named ends at an artifact affected by its own evidence. `Closure.OwnershipExact` says which edges are
  filed, in terms of the two dedups of the code. The report is the whole weakly connected component with the classes
  of the whole store exactly when no edge leaves what was reached and no edge left out brings a contamination the
  filed ones do not (`Review.TellsAllIff`); so it is when the dedups drop nothing (`Review.ReportTellsAll`), in
  particular when no dependency digest contains `@` (`Graph.NoAtMeansAllKept`, `Review.KeptReportTellsAll`), and then it
  is the same from every root (`ReviewLaws.KeptRootIndependence`). Whatever is dropped, two reviews of one store
  agree exactly when each reports the other's root (`ReviewLaws.RootsAgreeIff`).
  In terms of what is stored: an attestation is anchored exactly when its envelope is signed by a key of the root
  file, affected exactly when it was seen but never before its key was compromised, and contamination spreads only along
  edges that an envelope under an anchored key declared (`ReviewMeaning.AttestationExact`, `ReviewMeaning.ReportExact`,
  `ReviewMeaning.UnanchoredEdgesAreIdle`).
* **Runs.** Under every interleaving the tables stay well formed and only grow, the dependency table agrees with the
  stored envelopes, every finished check has left the decision its own evidence gives, and as long as no time
  evidence is ingested an artifact reported as affected is reported as affected by every later review of the same
  root, whatever the dedups drop (`Persistence.ReportedAffectedPersists`). The dependency table holds exactly what the
  provenances of stored envelopes pin (`IndexMeaning.TableExact`), and no review uses an instant that its evidence binds
  to another envelope (`Ingestion.InstantsAreBound`).
* **Gate.** The decision is characterised in terms of the evidence submitted; no order or repetition of the evidence
  matters; any decision other than deny vouches for every envelope submitted. `GateMeaning.DecisionExact` separates the
  three decisions, and allow means that some envelope is signed by a key that the root file binds to exactly the
  builder its provenance claims, with no event of the feed naming the key (`GateMeaning.AllowIsBound`).
* **Offline.** Offline allow means that there is evidence and every piece of it fully passes online for the file of
  its artifact; online then denies exactly when some of it makes a claim under a named algorithm other than sha256.
  The trust material is read from where the manifest says. All intact copies of a bundle lead to one conclusion
  exactly when every file opened is listed with a digest (`Copies.PinnedIff`); every bundle that `Build` writes is of
  this kind (`OfflineCheck.BuiltBundleReadable`). A bundle reads back as the files it was built from, and is allowed
  exactly when the sources pass (`BundleMeaning.BuiltReadsBack`, `BundleMeaning.BuiltAllowExact`).

## Where the code and its comments differ

The model follows the code.

* `internal/artifact/digest.go:43-45` says every same-named subject needs a matching digest. The code accepts when one
  matches and none contradicts: `Digest.DocumentedIffAllClaimSha256` gives the exact condition under which the two
  agree, `Digest.MatchedDespiteUnconfirmedSubject` an input on which they do not.
* `internal/verifier/verifier.go:230` means to count only mismatches of an explicitly named algorithm. It also counts a
  non-empty claim under any unsupported named algorithm, since the actual digest of such a row is empty:
  `Digest.MismatchExact`. Offline does not, so the gates can differ: `Offline.ForeignClaimSplitsTheGates`.
* `internal/review/service.go:96` calls the cutoff the earlier of now and the latest revocation. The code takes the later:
  `Service.ComputeCutoff`.
* `internal/review/service.go:208` dedups upstream edges by the text `name@sha#attestation`. With an `@` in a digest two
  edges can share the text and one is dropped: `Collision.ReviewMissesHiddenUpstream` is about a store that two checks
  and one ingestion lead to (`Collision.StoreIsReached`), in which a review of a contaminated artifact reports no
  contamination. `Review.TellsAllIff` gives the exact condition.
* `internal/review/service.go:333` announces an order by internal id. The code sorts by path length and name:
  `ReviewLaws.BuiltInLayers` shows that entries move only within a layer.
* `internal/verifier/verifier.go:478-493` groups evidence by a text that joins builder, source and digests. The text can be
  decoded only when no separator occurs in the parts: `ConflictKey.DecodeKey`, and
  `ConflictKey.SeparatorInValueCollides` for two digest maps with one text.
* `internal/offline/bundle.go:227-228` promises that tampered trust material is rejected. The code checks the files the
  manifest lists, and reads those its path fields name (`internal/offline/verify.go:83-91`). With a path field that is
  not listed, `Copies.UnlistedTrustRootDecides` shows two intact copies of which one allows what the other denies;
  `Copies.PinnedIff` is the exact condition.
* `internal/offline/bundle.go:130` copies attestations by base name. `Bundle.OneAttestationIsLost` is a specification
  under which one of them is lost, and `Bundle.PreservedIffBaseNamesAgree` says exactly when none is.

## Model

| member | source | states |
|---|---|---|
| Service.ReviewService.Review | internal/review/service.go:155-341 | fails exactly when the root is not registered, and then changes nothing; otherwise the report covers exactly what the walk reaches, with class, reference time and shortest path of each artifact; an upstream is named exactly for an inherited class, and what is named leads to an artifact affected by itself; one review record per entry is appended and nothing else changes |
| ReviewMeaning.ReportExact | internal/review/service.go:270-324 | a reported artifact is affected if and only if a path of filed edges, each declared by a stored envelope of its artifact under an anchored key, leads to an artifact of which an envelope was seen only after its key was compromised; otherwise it is insufficient exactly when none of its envelopes is signed or a signed one of a compromised key was never seen |
| ReviewMeaning.AttestationExact | internal/review/service.go:375-457 | an attestation is valid exactly when a known key signs it, anchored exactly when that key is in the root, affected exactly when it was seen but never before the key was compromised, insufficient exactly when the key is compromised and it was never seen |
| ReviewMeaning.ClassFromFeed | internal/revocation/revocation.go:195-242 | with the key of a feed event: unaffected if and only if evidence saw the envelope before the instant that the event's text states, insufficient if and only if none saw it |
| ReviewMeaning.UnanchoredEdgesAreIdle | internal/review/service.go:345-356 | leaving out the edges that no envelope under an anchored key declared changes no class |
| ReviewMeaning.TrustedEdgeExact | internal/review/service.go:345-356 | an edge carries contamination if and only if a stored envelope of its artifact, signed by an anchored key, declared it |
| ReviewMeaning.InheritedUnderRoot | internal/review/service.go:289-298 | an inherited class comes with such an envelope, its anchored key, and its edge to the upstream named |
| ReviewMeaning.OwnExact | internal/review/service.go:507-527 | the class an artifact has by its own evidence, over its stored envelopes |
| ReviewMeaning.ReferenceExact | internal/review/service.go:529-540 | the reference time is the earliest at which an envelope of the artifact, by a compromised key, was first seen; none for an insufficient one |
| ReviewMeaning.PathExact | internal/review/service.go:301-332 | the way shown is the artifacts' names along a shortest walk from the root |
| ReviewMeaning.ReportOrder | internal/review/service.go:334-339 | entries stand in order of path length, then of name |
| ReviewMeaning.RecordExact | internal/review/service.go:466-498 | each entry's record says deny for affected, allow for unaffected, review for insufficient, with the signature flag set exactly when some stored envelope is signed |
| Closure.BuildClosure | internal/review/service.go:182-250 | the walk ends, lists each artifact reached once starting at the root, in layers, with a shortest walk to each, and files only genuine edges; termination by unvisited artifacts, then queue length |
| Closure.OwnUpstream | internal/review/service.go:202-217 | after the dedup of the upstream list every kept edge of the artifact is filed, and nothing but kept edges is added |
| Closure.VisitDependents | internal/review/service.go:227-249 | every artifact that pins the current one is found, and the lowest edge by which each does is filed, although only one edge per dependent is looked at |
| Closure.FirstIffKept | internal/review/service.go:207-212 | in the sorted list, an edge that passes the dedup is one no edge of the same artifact and key sorts before |
| Closure.ClosureIsReached | internal/review/service.go:196-250 | the artifacts listed are exactly those a chain of steps leads to |
| Closure.OwnershipExact | internal/review/service.go:186-245 | as a set, an artifact's filed edges are those that either dedup lets through and whose upstream is reached |
| Closure.OwnsEverythingIff | internal/review/service.go:206-245 | every resolvable edge of every artifact reached is filed if and only if each is kept, or is the lowest of its artifact to its upstream, with the upstream reached |
| Graph.KeyInjective | internal/review/service.go:208 | without `@` in the digests, equal dedup keys mean the same name, digest and attestation |
| Graph.NoAtMeansAllKept | internal/review/service.go:206-217 | without `@` in the digests the dedup drops no edge |
| Graph.ReachesIsConnected | internal/review/service.go:196-250 | the walk stays in the root's component, and covers it when every resolvable edge is kept |
| Review.CoversComponentIff | internal/review/service.go:182-250 | the walk covers the root's weakly connected component if and only if no resolvable edge leads from an artifact reached to one not reached |
| Review.TellsAllIff | internal/review/service.go:155-341 | the report is the whole component with the classes of the whole store if and only if no edge leaves what was reached and no edge left out brings a contamination the filed edges do not bring |
| Review.ReportTellsAll | internal/review/service.go:155-341 | when nothing is hidden from the dedups, the report is the component, classified along all edges of the store |
| Review.KeptReportTellsAll | internal/review/service.go:182-339 | when every resolvable edge is kept, moreover, each path shown is a shortest chain of dependency edges taken in either direction |
| Review.ShortestChainsIff | internal/review/service.go:182-339 | where no edge leaves what was reached, the paths shown are shortest chains of dependency edges if and only if they grow by at most one step across every such edge |
| Review.ScopeSuffices | internal/review/service.go:270-299 | when nothing is hidden, spreading along the filed edges gives each artifact reached the class that spreading along all edges gives it |
| Review.EntriesExplain | internal/review/service.go:270-324 | an entry names an upstream exactly when its class is inherited, and following the upstreams named ends at an artifact affected by its own evidence |
| ReviewLaws.RootIndependence | internal/review/service.go:155-341 | reports that tell all, from any two roots of a component over the same graph and findings, cover the same artifacts with the same classes and attestation reviews |
| ReviewLaws.KeptRootIndependence | internal/review/service.go:155-341 | when every resolvable edge is kept, reviews from any two roots of a component over the same graph and findings agree |
| ReviewLaws.RootsAgreeIff | internal/review/service.go:182-332 | whatever the dedups drop, two reviews of one store cover the same artifacts with the same classes if and only if each reports the other's root |
| ReviewLaws.ReviewIsRepeatable | internal/review/service.go:155-341 | two reports of one root over the same graph and findings agree, whatever the dedups drop |
| ReviewLaws.SameReviews | internal/review/service.go:375-463 | what is concluded about stored attestations depends on nothing a review writes |
| ReviewLaws.SecondReviewAgrees | internal/review/service.go:301-332 | a review over the store an earlier one left finds what that one found |
| ReviewLaws.ClassIsLeastFixpoint | internal/review/service.go:270-324 | a reported class is affected exactly inside the least set closed under spreading, and the class of the own evidence otherwise |
| ReviewLaws.ReportIsSound | internal/review/service.go:155-341 | whatever the dedups drop, only artifacts of the component are reported and only contaminated ones as affected |
| ReviewLaws.BuiltInLayers | internal/review/service.go:334-339 | the final stable sort rearranges entries only inside a layer of equal distance |
| ReviewLaws.SortStaysInLayers | internal/review/service.go:334-339 | sorting entries of non-decreasing path length leaves the length at each position |
| Collision.ReviewMissesHiddenUpstream | internal/review/service.go:206-213 | in a store of concrete tables, whatever decisions it records, a contaminated root is reported alone and not as affected, because two keys collide |
| Collision.StoreIsReached | internal/verifier/verifier.go:149-339 | two checks whose statements parse, the provenance of the first declaring the two edges, and one ingestion lead to such a store |
| Propagation.Propagate | internal/review/service.go:270-299 | the fixpoint ends after at most one pass more than artifacts were turned, is quiet, and every artifact turned is blamed on one turned before |
| Propagation.Pass | internal/review/service.go:279-299 | one pass only adds artifacts, each with a filed trusted edge into one already affected, and reports a change exactly when it added one |
| Propagation.Seed | internal/review/service.go:274-278 | the initial marking is exactly what is affected by its own evidence |
| Propagation.BlameEnds | internal/review/service.go:272-298 | following recorded upstreams never circles: it ends at an artifact affected by its own evidence, along trusted edges |
| Propagation.ContaminatedIsLeast | internal/review/service.go:270-299 | being at the start of a path of spreading edges to an affected artifact is the least fixpoint of spreading, cycles included |
| Propagation.AffectedIsContaminated | internal/review/service.go:270-299 | the fixpoint marks an artifact if and only if it is contaminated along the filed edges |
| Propagation.EdgeTrusted | internal/review/service.go:345-356 | an edge counts exactly when a valid, root-anchored attestation of its artifact declared it |
| Reclassify.ReviewOne | internal/review/service.go:375-463 | the reviews of an artifact are those of its stored attestations, in order |
| Reclassify.ReviewRecord | internal/review/service.go:386-457 | one attestation's review: validity, anchoring, trusted instants counted, class from the earliest of them |
| Reclassify.TrustedPoints | internal/review/service.go:416-441 | the instants used are, with multiplicity, those of the stored evidence that verifies again for the envelope |
| Reclassify.TrustedTimesExact | internal/review/service.go:416-441 | an instant counts if and only if stored evidence for the envelope is complete, of the right kind, bound to it, stamped with that instant and accepted by an authority filed under its fingerprint |
| Reclassify.ReviewsInIdOrder | internal/review/service.go:459-461 | the reviews are built in order of their ids, so sorting them by id moves nothing |
| Reclassify.Aggregate | internal/review/service.go:507-527 | the worst class among valid attestations, insufficient without any |
| Reclassify.EarliestReference | internal/review/service.go:529-540 | the least of the earliest instants, none without any |
| Service.ComputeCutoff | internal/review/service.go:101-117 | the cutoff is the latest of now and all listed revocation instants |
| Service.ReviewService.IngestTimeEvidence | internal/review/service.go:124-143 | accepted if and only if the evidence is complete, of the right kind, bound to the given envelope and accepted by an authority filed under its fingerprint; it is then on file under that envelope, and otherwise nothing changes |
| Service.ReviewService.PersistReview | internal/review/service.go:466-498 | appends one review record with the decision the class maps to |
| Service.ReviewService.SummarizeAll | internal/review/service.go:301-332 | one entry per artifact with the class the marking and the own evidence give, each with the next fresh record |
| Service.ReviewService.ReviewAll | internal/review/service.go:252-268 | own reviews, own class and reference time of every artifact of the closure |
| Runs.RunKeeps | internal/store/memory.go:36-93 | under every interleaving of checks, ingestion and review writes the tables keep unique ids, unique (name, digest), referential integrity and the index invariant, and only grow |
| Runs.StepKeeps | internal/verifier/verifier.go:173-211 | each single store call of any of them keeps that invariant and extends the tables |
| Runs.AdvanceKeepsIndex | internal/verifier/verifier.go:205-210 | between storing an envelope and filing its edges exactly those edges are outstanding, and none of them is on file |
| RunLaws.IndexAgreement | internal/verifier/verifier.go:588-611 | in every reachable state the dependency table holds only edges re-derivable from stored envelopes, and all of them when no check is between the two calls |
| RunLaws.EdgeListsInverse | internal/store/memory_revocation.go:105-146 | the edges from an artifact to a (name, digest) are the same, with multiplicity, read from either listing |
| RunLaws.SavedDecision | internal/verifier/verifier.go:213-338 | whatever other calls did in between, a check's last step appends a gate record with the decision its own evidence gives, flags that sum up its results, and verdicts and conflict lists on attestations holding the submitted envelopes |
| RunLaws.DecisionsUndisturbed | internal/verifier/verifier.go:149-339 | in every reachable state every finished check has such a record |
| RunLaws.SequentialIsASchedule | internal/verifier/verifier.go:173-339 | the sequential check proved of the method is one schedule of the interleaved machine |
| Persistence.FindingsPersist | internal/review/service.go:375-463 | through every run of checks and reviews without ingestion, what was concluded about a stored attestation is concluded again |
| Growth.ContaminationPersists | internal/review/service.go:270-299 | when tables, findings and the edges in scope only grow, what is contaminated stays so |
| Growth.KeptPersists | internal/review/service.go:206-213 | an edge the dedup keeps stays kept, since only an edge of the same attestation could displace it |
| Growth.ScopePersists | internal/review/service.go:182-250 | every edge a review files, a later review of the same root files again |
| Persistence.AffectedPersists | internal/review/service.go:507-527 | what is contaminated along the edges of the store stays so through every run of checks and reviews without ingestion |
| Persistence.RunGrows | internal/verifier/verifier.go:205-210 | in every run an attestation with an edge on file gets no further edge |
| Persistence.ReportedAffectedPersists | internal/review/service.go:155-341 | through every interleaving of checks and reviews without ingestion, what one report calls affected every later report of the same root calls affected, whatever the dedups drop |
| Persistence.LetThroughIsUnaffected | internal/review/service.go:391-457 | evidence in a request that was not denied is found valid, of an unrevoked key and unaffected by a review under the same list, and anchored if it fully passed |
| Persistence.ClassMovesForward | internal/review/service.go:417-447 | through any run a stored attestation's own class moves only forward along insufficient, affected, unaffected |
| Ingestion.RunKeepsVerified | internal/review/service.go:124-143 | in every run stored evidence verifies for its envelope at the instant it is filed under |
| Ingestion.InstantsAreBound | internal/timestampevidence/evidence.go:133-137 | in every run the instants a review uses for an envelope are those of the evidence stored for it, and all of that evidence is bound to this envelope |
| Ingestion.IngestionExact | internal/store/memory_revocation.go:36-66 | the instants of an envelope after ingestion are the old ones and those of the verified submissions, although equal keys are stored once |
| Ingestion.OrderAndRepetitionIrrelevant | internal/store/memory_revocation.go:52-66 | submitting the same evidence in another order or repeatedly leaves every attestation's review, count included, unchanged |
| Ingestion.TimesFromKeys | internal/store/memory_revocation.go:52-80 | the instants a review sees, and how many, are determined by the keys on file |
| Gate.Verifier.Verify | internal/verifier/verifier.go:149-339 | fails exactly on an empty request, changing nothing; otherwise stores artifact, envelopes, edges and one gate record, and decides as its evidence alone determines |
| GateMeaning.FullyPassedExact | internal/verifier/verifier.go:342-448 | an envelope fully passes if and only if it parses and verifies under a known key, states a provenance whose builder the root binds that key to, the key is unrevoked, the statement bears out the file, and the policy allows what it states |
| GateMeaning.ConclusionExact | internal/verifier/verifier.go:342-425 | signature, digest and revocation verdicts, over the envelope, its statement and the list |
| GateMeaning.PolicyExact | internal/verifier/verifier.go:402-447 | the policy is asked about exactly the predicate type, builder, source and verdicts of the envelope, and its answer is the conclusion |
| GateMeaning.DecisionExact | internal/verifier/verifier.go:253-270 | deny if and only if some evidence is unclean or nothing passes; otherwise review if two passing envelopes disagree on builder and source, and allow if not |
| GateMeaning.CleanExact | internal/verifier/verifier.go:342-425 | evidence raises no veto exactly when its envelope carries a verified statement of an unrevoked key that bears out the file and makes no foreign claim |
| GateMeaning.AllowIsBound | internal/trust/root.go:187-214 | allow means some envelope submitted passes with a key that an entry of the root file binds to exactly the builder its provenance claims, and that no event of the feed names |
| GateMeaning.BoundByFile | internal/trust/root.go:72-124 | under loaded files a key is bound to a builder if and only if an entry of the root file says so and no event of the feed names the key |
| GateMeaning.ShippedPassExact | policies/trust_policy.rego:40-92 | under the shipped policy an envelope passes if and only if, besides the other three checks, its type, builder, source and commit are as listed and the time is in 2026 |
| Gate.Summarize | internal/verifier/verifier.go:213-239 | each summary flag holds exactly when some result has the property |
| Gate.GroupConflicting | internal/verifier/verifier.go:474-512 | the map-and-sort computation yields the groups by key in key order, none below two keys |
| Gate.BuildVerdicts | internal/verifier/verifier.go:281-316 | each verdict lists, sorted, the stored ids of the passing evidence with another key |
| Steps.StoreAllKeeps | internal/verifier/verifier.go:183-211 | the evidence loop stores one envelope per input under increasing ids, whatever is concluded, and keeps the tables well formed |
| Steps.RecordKeeps | internal/verifier/verifier.go:301-333 | verdicts and their conflict lists name attestations of the artifact, and storing does not change the decision |
| Steps.EffectRegisters | internal/verifier/verifier.go:160-195 | a check registers the file under its name, digest, size and time unless that name and digest are on file, and stores its envelopes under its time |
| Check.VerifyOne | internal/verifier/verifier.go:342-448 | the four conclusions about one attestation, with every early exit; the issuer is trusted if and only if the signing key is one the root binds to exactly the builder the provenance names, and is not revoked |
| Check.IssuerExact | internal/trust/root.go:187-214 | over the indexes: trusted exactly when the key is anchored, unrevoked, and bound to the non-empty builder claimed |
| Check.CheckedDependencies | internal/verifier/verifier.go:392-400 | the dependencies recorded are those re-derivable from the stored envelope |
| Check.DependencyEdges | internal/verifier/verifier.go:588-611 | an edge (name, digest) is made if and only if some dependency of that name has this non-empty sha256, or has none and this is its least algorithm, a colon and its value |
| Check.EdgesForExact | internal/verifier/verifier.go:588-611 | the same of the list of edges that the theorems over runs speak of |
| IndexMeaning.TableExact | internal/verifier/verifier.go:183-211 | in every reachable state an edge on file was declared by the provenance of a stored envelope of its artifact, named and pinned; and when no check is between two calls, whatever a stored provenance declares is on file |
| IndexMeaning.DependencyIsLinked | internal/review/service.go:196-250 | a dependency pinned at the digest of a registered artifact of its name resolves to it: a review of that artifact steps to the declaring one, and back unless the dedup drops the edge |
| Decision.AllowExact | internal/verifier/verifier.go:213-270 | allow if and only if all evidence is clean, some fully passes, and what passes has one key |
| Decision.CleanIffNoVeto | internal/verifier/verifier.go:342-425 | one attestation raises no veto exactly when it parses, verifies, carries a statement, has an unrevoked key, matches the file and makes no foreign claim |
| Decision.UniversalVeto | internal/verifier/verifier.go:253-260 | any decision but deny vouches for every envelope submitted |
| Decision.VetoIsPermanent | internal/verifier/verifier.go:253-260 | further evidence never lifts a revocation or digest deny |
| Decision.OrderIndependence | internal/verifier/verifier.go:183-270 | neither order nor repetition of the evidence changes the decision |
| Decision.MoreRevocationsOnlyDeny | internal/verifier/verifier.go:213-270 | a revocation list that revokes more keys turns a decision into deny or leaves it as it was |
| Decision.SameDecision | internal/verifier/verifier.go:213-270 | the decision depends only on the set of conclusions |
| Decision.GroupsPartition | internal/verifier/verifier.go:243-251 | there are groups exactly when passing evidence conflicts; they are then non-empty, disjoint, one per key, and cover the passing indices |
| Decision.ConflictWithExact | internal/verifier/verifier.go:284-316 | a verdict lists exactly the passing evidence with a different key |
| Decision.ConflictSymmetric | internal/verifier/verifier.go:284-316 | being in conflict is symmetric and irreflexive, and the ids are sorted |
| Grouping.ConflictPartners | internal/verifier/verifier.go:284-299 | the nested loops over groups compute for each member the sorted members of all other groups |
| ConflictKey.DecodeKey | internal/verifier/verifier.go:478-493 | cutting a key at its separators gives back builder, source and digest map if and only if no separator occurs in the parts, with and without a source |
| ConflictKey.KeysEqualIffFactsEqual | internal/verifier/verifier.go:478-493 | without separators in the parts, equal keys mean equal facts |
| ConflictKey.SeparatorInValueCollides | internal/verifier/verifier.go:486-490 | two different digest maps with one key |
| ConflictKey.ComputeKey | internal/verifier/verifier.go:478-522 | ranging over the digest map in any order yields one key |
| Digest.VerifySubjectDigest | internal/artifact/digest.go:83-178 | the flags and rows of the loops amount to: some target subject confirms the file and none contradicts it |
| Digest.MatchesFromTargets | internal/artifact/digest.go:160-176 | a match seen and no mismatch seen mean just that |
| Digest.MismatchExact | internal/verifier/verifier.go:228-238 | the gate reads a digest failure exactly when the target is not matched or carries a non-empty claim under a named algorithm other than sha256 |
| Digest.DocumentedIffAllClaimSha256 | internal/artifact/digest.go:43-45 | a match has its documented meaning if and only if every target subject states a sha256 |
| Digest.MatchedDespiteUnconfirmedSubject | internal/artifact/digest.go:160-176 | for every target and digest a statement the parser accepts that is matched without it |
| Digest.NormalizeHex | internal/artifact/digest.go:189-201 | lower-cases the hex letters, character by character |
| Digest.ClaimExact | internal/artifact/digest.go:83-201 | against a lower-case digest a sha256 claim confirms the file exactly when it is that digest up to the case of the six hex letters, and contradicts it otherwise |
| Revoke.ParseFeed | internal/revocation/revocation.go:81-122 | a feed is accepted if and only if every event is complete, in order of time, fingerprinted and of a new key; every event is then filed under its key with the instants its two texts stand for, in feed order, none revoked before it was compromised |
| Revoke.AllFiled | internal/revocation/revocation.go:81-122 | the same of the list as a value, for the theorems over loaded configurations |
| Revoke.KnownPublicKeys | internal/revocation/revocation.go:256-273 | the public keys the entries carry, or none at all when one does not parse |
| Revoke.CarriedAreFingerprinted | internal/revocation/revocation.go:100-117 | in an accepted feed every key carried is filed under its fingerprint |
| Revoke.Classify | internal/revocation/revocation.go:202-242 | the sentinel-guarded loop finds the earliest non-zero instant, counts the non-zero ones, and the class follows from the former |
| Revoke.EarliestCorrect | internal/revocation/revocation.go:211-221 | it is the least non-zero instant, also below the sentinel, and none when there is none |
| Revoke.ClassDependsOnSet | internal/revocation/revocation.go:202-242 | order and repetition of instants do not matter |
| Revoke.MoreEvidenceMovesForward | internal/revocation/revocation.go:195-201 | more instants move a class only forward |
| Revoke.LateStampsNeverClear | internal/revocation/revocation.go:200-201 | a revoked key is cleared if and only if some instant lies before the compromise, and left open only without instants |
| Stamps.SortByTime | internal/timestampevidence/evidence.go:197-203 | the in-place swaps produce the stable sort of the slice |
| Stamps.VerifyAll | internal/timestampevidence/evidence.go:181-195 | returns the stably sorted verified evidence |
| Stamps.VerifyAllLaw | internal/timestampevidence/evidence.go:179-195 | ascending, same contents, and evidence of one instant in the order submitted |
| Stamps.VerifiedExact | internal/timestampevidence/evidence.go:120-195 | a piece is reported with an instant exactly when it was submitted, is of the right kind and complete, bound to the envelope, stamped with that instant, and accepted by an authority of the root filed under its fingerprint |
| Stamps.VerifiedTimeExact | internal/timestampevidence/evidence.go:120-177 | the same of one piece of evidence |
| Trust.ParseRoot | internal/trust/root.go:72-124 | a root is accepted if and only if it has keys and every key and authority is complete and fingerprinted, keys without repetition; the indexes then hold exactly its entries, of two authorities with one fingerprint the later |
| Trust.IndexKeys | internal/trust/root.go:84-104 | the key loop succeeds exactly on acceptable keys and indexes each under its fingerprint |
| Trust.IndexTsas | internal/trust/root.go:105-122 | likewise for time-stamping authorities |
| Trust.TrustRoot.AddKnownButUntrustedKey | internal/trust/root.go:129-138 | adds a key for signature checking without touching anchors, and never replaces one |
| Trust.TrustRoot.KnownKeys | internal/trust/root.go:141-147 | copying the key map entry by entry yields the map |
| TrustMaterial.Load | internal/offline/verify.go:83-104 | yields the configuration exactly when trust root, policy and feed are all acceptable: the file's anchors, its keys together with those the feed carries, and the feed's list |
| TrustMaterial.RegisterAll | internal/offline/verify.go:100-104 | registering keys in any order adds each under its fingerprint and replaces none |
| TrustMaterial.LoadedIsSound | internal/offline/verify.go:83-104 | a loaded configuration holds every event of the feed with the instants its texts state, indexes filed by fingerprint, exactly the file's keys as anchors with their issuers, and its authorities |
| TrustMaterial.ListedExact | internal/offline/verify.go:83-104 | a key is revoked if and only if an event of the feed names it |
| TrustMaterial.RevokedKeysStayKnown | internal/offline/verify.go:99-104 | a key revoked together with its public key stays known for checking signatures, and is refused |
| Policy.ShippedAllows | policies/trust_policy.rego:40-92 | allowed if and only if the three earlier gates passed, payload and predicate types are right, the builder is one of two, the repository the one listed at a non-empty sha1 or gitCommit, and the time in 2026 |
| Memory.MemoryStore.EnsureArtifact | internal/store/memory.go:36-51 | idempotent per (name, digest); otherwise appends under the next id |
| Memory.MemoryStore.AddAttestation | internal/store/memory.go:53-63 | appends the envelope under the next id, nothing else changes |
| Memory.MemoryStore.SaveVerification | internal/store/memory.go:75-93 | appends one record with its verdicts, of kind gate unless stated |
| Memory.MemoryStore.IngestTimeEvidence | internal/store/memory_revocation.go:36-66 | returns the id of the record with this key, appended only when there was none |
| Memory.MemoryStore.AddDependencyEdges | internal/store/memory_revocation.go:83-103 | appends the edges that are not on file yet, under fresh numbers |
| Memory.MemoryStore.GetArtifact | internal/store/memory.go:95-105 | the first artifact of that name and digest, none if there is none |
| Memory.MemoryStore.GetArtifactById | internal/store/memory.go:107-117 | the artifact at that id exactly for ids in use |
| Memory.MemoryStore.ListAttestations | internal/store/memory.go:119-129 | the artifact's attestations in order of storing |
| Memory.MemoryStore.ListVerifications | internal/store/memory.go:131-143 | the artifact's records in order of storing |
| Memory.MemoryStore.ListTimeEvidence | internal/store/memory_revocation.go:68-81 | the envelope's evidence, sorted by time |
| Memory.MemoryStore.ListDependencyEdges | internal/store/memory_revocation.go:105-121 | the artifact's edges, sorted by name and digest |
| Memory.MemoryStore.ListDependentEdges | internal/store/memory_revocation.go:135-146 | the edges to a (name, digest), sorted by number |
| Tables.EnsureArtifactKeeps | internal/store/memory.go:36-51 | registering keeps ids and uniqueness, keeps references, and the id names an artifact with that name and digest |
| Tables.AddAttestationKeeps | internal/store/memory.go:53-63 | storing an envelope keeps ids and uniqueness, and references when the artifact exists |
| Tables.AddDependencyEdgesKeeps | internal/store/memory_revocation.go:83-103 | filing edges keeps ids and never duplicates a row, and keeps references when the edges name existing rows |
| Tables.AddEdgesContents | internal/store/memory_revocation.go:86-101 | up to numbering the table afterwards holds the old edges and the added ones |
| Tables.IngestEvidenceKeeps | internal/store/memory_revocation.go:36-66 | ingestion keeps ids, references, and one row per key |
| Tables.SaveVerificationKeeps | internal/store/memory.go:75-93 | saving keeps ids, and references when the verdicts name attestations of the artifact |
| Offline.VerifyPieces | internal/offline/verify.go:112-273 | ends with an error exactly when some piece does; otherwise concludes on every piece in order, and opens exactly when there is evidence and all of it passes |
| Offline.ConcludePiece | internal/offline/verify.go:121-262 | the loop body: early exits, fail-closed issuer, local digest, policy, historical class |
| Offline.PassesIffFullyPassed | internal/offline/verify.go:191-255 | a piece passes offline if and only if the file of its artifact is at hand and it fully passes online for that file |
| Offline.OfflineAllowExact | internal/offline/verify.go:118-272 | allow if and only if there is evidence and every piece of it fully passes online for the file of its artifact, however many artifacts there are |
| Offline.OneArtifactAllowExact | internal/offline/verify.go:118-272 | for one artifact, allow if and only if there is evidence and every online result fully passes |
| Offline.OfflineRefinesOnline | internal/offline/verify.go:118-272 | of each artifact in an allowed bundle the file is at hand, and online denies exactly when some of its evidence carries a foreign claim, and holds for review exactly when otherwise its evidence disagrees |
| Offline.ForeignClaimSplitsTheGates | internal/verifier/verifier.go:228-235 | a concrete bundle allowed offline and denied online |
| Offline.PolicyDecidesAlone | policies/trust_policy.rego:40-92 | under the shipped policy, allowed by policy and fully passed are the same |
| Offline.HistoricalClassAgrees | internal/offline/verify.go:247-259 | the class given offline is the one a review gives over a store with the same instants |
| Bundle.Disk.Build | internal/offline/bundle.go:103-196 | succeeds exactly when every source can be copied in turn; the bundle is then intact and its manifest lists every file it names, each once |
| Bundle.Disk.VerifyIntegrity | internal/offline/bundle.go:229-240 | succeeds exactly when every listed file is present with the listed digest |
| Bundle.Disk.LoadManifest | internal/offline/bundle.go:212-225 | yields the manifest exactly when it is present, well formed and of this version |
| Bundle.Dedup | internal/offline/bundle.go:198-209 | same contents without repetition, and order kept |
| Bundle.ListDataFiles | internal/offline/bundle.go:168-177 | sorting and dedup list exactly the files the manifest's path fields and its evidence name |
| Bundle.AttestationCopied | internal/offline/bundle.go:128-146 | in the bundle an attestation's place holds the last source of that base name |
| Bundle.PreservedIffBaseNamesAgree | internal/offline/bundle.go:128-146 | no attestation's bytes are lost if and only if sources of one base name have the same bytes |
| Bundle.OneAttestationIsLost | internal/offline/bundle.go:128-146 | two attestations of one base name of which the bundle keeps only the second |
| BundleMeaning.TrustMaterialPlace | internal/offline/bundle.go:103-126 | the policy, trust root and feed of the specification stand under their three fixed names |
| BundleMeaning.AttestationPlace | internal/offline/bundle.go:128-146 | under `attestations/` and its base name stands the text of the last attestation of that base name |
| BundleMeaning.TimestampPlace | internal/offline/bundle.go:136-146 | likewise for time evidence under `timestamps/` |
| BundleMeaning.TimesDecoded | internal/offline/verify.go:148-161 | the time evidence read is what the texts decode to, in order; exactly the texts that do not decode are left out |
| BundleMeaning.BuiltReadsBack | internal/offline/bundle.go:103-196 | the configuration read from a built bundle is that of the source files, and its pieces are one for each attestation in order of paths, with the text in its place, the artifact name given for it or the default, and all time evidence that decodes |
| OfflineCheck.Verify | internal/offline/verify.go:70-274 | concludes exactly when manifest, integrity, cutoff, the trust material at the manifest's paths and the evidence can be read and concluded on, and only reads the disk |
| OfflineCheck.ManifestPinsConclusion | internal/offline/bundle.go:227-240 | two intact copies under one manifest that has a digest for every file it names lead to the same configuration and evidence, hence the same conclusion, short of a hash collision |
| OfflineCheck.BuiltBundleReadable | internal/offline/bundle.go:163-195 | a freshly built bundle covers and holds every file it names; only a cutoff or trust material that does not parse keeps it from being concluded on |
| OfflineCheck.BundleAllowExact | internal/offline/verify.go:70-274 | a bundle on disk is allowed if and only if it holds evidence and all of it fully passes online under the trust material of the bundle |
| BundleMeaning.BuiltAllowExact | internal/offline/verify.go:70-274 | a built bundle is allowed if and only if it was built from some attestation and what stands in the place of each is passed, under the trust material it was built from, for the file of the artifact it was filed for |
| BundleMeaning.ConclusionExact | internal/offline/verify.go:147-262 | offline, a signed piece under a revoked key is unaffected if and only if its own evidence saw it before the compromise, insufficient if and only if none saw it |
| BundleMeaning.VerdictsExact | internal/offline/verify.go:191-219 | offline, the issuer is trusted if and only if the root binds the signing key, unrevoked, to the builder claimed; the digest matches if and only if the statement bears out the file at the path given last |
| BundleMeaning.UnsignedConclusion | internal/offline/verify.go:135-262 | an envelope no key signs is concluded on as insufficient and fails every check on its key |
| BundleMeaning.PieceExact | internal/offline/verify.go:191-255 | a piece fully passes for the file of its artifact exactly when the path given last for the name is readable and the envelope passes all four checks for its digest |
| Copies.PinnedIff | internal/offline/verify.go:83-137 | all intact copies of a bundle that can be concluded on are concluded on alike if and only if every file opened is listed with a digest, the manifest itself apart |
| Copies.UnlistedTrustRootIsFree | internal/offline/verify.go:83-86 | exchanging a trust root that is named but not listed goes unnoticed and replaces the configuration, and nothing else |
| Copies.UnlistedTrustRootDecides | internal/offline/verify.go:83-86 | two concrete intact copies, alike but for such a trust root, of which one allows what the other denies |

## Left out

- `PostgresStore`, the HTTP handlers, the command line, server wiring, vector generation and the demo scripts: input and output around the same logic.
- Signature checking, hashing, PEM, DSSE, base64, JSON, RFC 3339 and policy evaluation: opaque deterministic functions of their inputs (`Model.Library`, `TrustMaterial.Parsers`); a statement comes only with a valid signature. Encoding a value and decoding it again is taken to give the value back.
- The bytes of an artifact file and reading it: its digest and size are inputs; offline, a file that cannot be read is an error.
- `time.Now()` for records whose time is zero, and fractions of a second: times are given integers.
- The policy version table, the revocation event table and their methods: plain upserts no decision reads.
- Fields only shown to people: reasons, self-reported times, declared dependencies in a review, TSA names, the earliest time as text in an offline conclusion, the cutoff and versions it repeats from the manifest, and the JSON detail of a record. The upstream named in a reason is kept as a field of the entry.
- `resolveUpstream` and `hasAlgorithmPrefix`: not called by a review.
- Paths are joined without cleaning; a base name is the text after the last `/`.
- Digest strings outside ASCII: `normalizeHex` works on bytes there.
- A review reads one snapshot. Its record writes may interleave with anything; that its reads may as well is not modelled.
- The walk keeps its paths as artifact ids; the report shows the names along them.
- Bundle.AttestationCopied: for sources that lie outside the bundle directory; a source inside it may be overwritten before it is read.
- Bundle.PreservedIffBaseNamesAgree: likewise.
- BundleMeaning.BuiltReadsBack: likewise, and with the manifest's encoding taken to decode to the manifest.
- BundleMeaning.BuiltAllowExact: likewise.
- Offline.OfflineAllowExact: takes it that an envelope that parses also decodes; both readings begin by decoding the same JSON (`internal/attestation/dsse.go:157-184`).
- Offline.OfflineRefinesOnline: likewise.
- OfflineCheck.ManifestPinsConclusion: the manifest itself is taken as given; nothing in a bundle authenticates it.
- Copies.PinnedIff: likewise, for copies with one manifest file.
- Decision.AllowExact: for feeds without an empty key id, which `Revoke.ParseFeed` guarantees of every feed it accepts; so for the other theorems about clean evidence.
- Review.KeptReportTellsAll: the converse, that chains shown as shortest imply that nothing was dropped, does not hold, since a dropped edge may have a detour of the same length; `Review.ShortestChainsIff` is the exact condition.
