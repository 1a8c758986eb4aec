# Verified models of the release and gate scripts

The `scripts/` directory of the SMS platform decides what may be merged, what is released and how it
reaches a host. This project models the scripts among them whose logic is hardest to see through,
and proves what they promise.

* **SBOM canonicaliser** (`Sbom*.dfy`, `Json*.dfy`): JSON documents with the text `json.dumps` prints,
  the normal form that sorts every list by that text, the stable names for random UUIDs. The
  canonical form is sound and complete: two documents share it exactly when they differ in the serial
  number, the time stamp, the order of lists and the choice of UUIDs. Blindness to UUIDs and idempotence
  have exact conditions, with documents that break each; what is dropped, rewritten and refused is said
  place by place; the prefix kept for generated names cannot be
  given up (`SbomExactness.ReservedPrefixNeeded`).
* **Remote release driver** (`Release*.dfy`, `InventoryText.dfy`): an imperative model against a host
  on which every command may fail, succeed, or take effect and be reported as failed. The statements
  range over any number of runs, each cut off anywhere, with arbitrary changes of the release store
  between them. They include recovery, exactly: whatever earlier runs have left in the staging directory
  and in Git, a run in which nothing fails completes the release if and only if the release manager
  still accepts `prepare`. That is decided by the release state and, on a production host, by the
  metadata stored with the release and by what is stored beside it. After an activation that took effect
  while the driver was lost it does not accept, and no later run of the driver completes the release or
  restarts the agent. On a production host it does not either after a `prepare` that was cut off inside the
  creation of the release, or between the creation and the binding of its metadata
  (`ReleaseStates.LostCreation`, `ReleaseStates.LostStaging`): trying again never helps. A completed run
  has gone through every step of a release, in order (`ReleaseDriver.ReleaseSteps`).
* **Open-loop load generator** (`OpenLoop.dfy`): producer and workers as every interleaving of their
  atomic steps; bounds on what is in flight, no leak, no deadlock, what every figure of a measurement
  says about the run, and what a valid one certifies.
* **Rank AUC** (`RankAuc.dfy`): the one-pass rank loop equals counting all pairs.
* **Sharded test evidence** (`Test*.dfy`, `Counting.dfy`): which tests share a shard, and acceptance
  characterised without the two checks that turn out to be redundant.
* **Contract comparison** (`JsonPointer.dfy`, `Contract*.dfy`): following JSON Pointers (RFC 6901),
  when resolving references comes to an end, what comparing normal forms means, exactly when the order
  of `required` and `enum` lists shows all the same, and exactly when normalising twice is normalising
  once.
* **Call order** (`CallOrder.dfy`), **migration head** (`SchemaHead.dfy`), **gate cache**
  (`Gate*.dfy`), **unicode ranges** (`UnicodeRange.dfy`), **Git streams** (`BlobStream.dfy`,
  `ChangePaths.dfy`): fixpoints, worklists, a cache protocol, printers with their parsers.

Shared foundations are `Sorting.dfy` (stable sorting as Python's `sorted`) and `Text.dfy` (code-point
order, splitting, joining, numerals). `dafny verify dfyconfig.toml` checks the project.

Conventions. A Python exception is `None`, `Err` or `false`; which exception is not distinguished
unless the type says so. SHA-256 is a function parameter; only statements that need it require it to
be free of collisions. A JSON number is carried by the text that `json.dumps` prints for it. Times and
rates are real numbers. Python dictionaries are maps, and where the code iterates over one the model
takes the keys in an arbitrary order. Resolving references may not come to an end, so it carries a bound
on their nesting; the result does not depend on the bound (`ContractReferences.ResolveMore`), and a call
returns when some bound is enough.

Where code and documentation disagree, the model follows the code: `schema_head` speaks of a cyclic
graph in its error text but accepts a cycle below the head (`SchemaHead.CycleAccepted`, `SchemaHead.CycleBesideRootAccepted`).
The deployment guide (deploy/README.md:1060) says that a retry of the same release still recognises that
the agent has to be reloaded. Every run does take the same decision, but a retry gets as far as reloading
only while `prepare` accepts the release, and no longer after an activation that took effect. The store
calls a second `create` with the same manifest idempotent (deploy/scripts/release_store.py:314); on a production
host a `prepare` cut off right after it is not repeatable all the same.

## Model

| member | source | states |
|---|---|---|
| Json.DumpsInjective | scripts/canonicalize_sbom.py:73-78 | the sorted-key JSON text determines the document, for every separator and escaping style used |
| JsonText.TextOfString | scripts/canonicalize_sbom.py:73-78 | a string is printed as its characters between quotes |
| JsonText.CharacterText | scripts/canonicalize_sbom.py:73-78 | every character is printed so that section 7 of RFC 8259 reads it as itself, unescaped wherever the style allows |
| JsonText.TextOfList | scripts/canonicalize_sbom.py:73-78 | a list is printed as its items between brackets with commas, blanks by style |
| JsonText.TextOfObject | scripts/canonicalize_sbom.py:73-78 | an object is printed as its members, sorted by key, between braces, with colons and commas by style |
| SbomNormalForm.NormalizeComplete | scripts/canonicalize_sbom.py:66-80 | two documents normalise alike exactly when one is the other with lists permuted at some depths |
| SbomNormalForm.NormalizeIdempotent | scripts/canonicalize_sbom.py:66-80 | normalising twice is normalising once |
| SbomNormalForm.NormalizeReorders | scripts/canonicalize_sbom.py:66-80 | a normalised document is a reordering of the original, so nothing is lost or added |
| SbomReferences.SubstituteCompose | scripts/canonicalize_sbom.py:46-55 | two rewrites in a row are one rewrite, decided reference by reference |
| SbomReferences.ReferencesSubstituted | scripts/canonicalize_sbom.py:46-55 | a rewrite changes exactly the references, each to its image |
| SbomReferences.ReorderedEntries | scripts/canonicalize_sbom.py:26-44 | reordering lists keeps the definitions that the walk meets, with their contents |
| SbomReferences.EntriesSubstituted | scripts/canonicalize_sbom.py:26-44 | the definitions of a rewritten document are the rewritten definitions |
| SbomPlaces.SubstituteByPlace | scripts/canonicalize_sbom.py:46-55 | at every path a rewrite keeps kinds, keys, lengths and scalars, and replaces a string exactly if its innermost key is `bom-ref`, `ref`, `dependsOn` or `provides` |
| SbomPlaces.ReferenceHasPlace | scripts/canonicalize_sbom.py:46-55 | every reference stands at a path whose innermost key is one of the four |
| SbomPlaces.PlaceIsReference | scripts/canonicalize_sbom.py:46-55 | and every string at such a path is a reference |
| SbomPlaces.UuidShape | scripts/canonicalize_sbom.py:18-18 | a UUID reference is hexadecimal blocks of 8, 4, 4, 4 and 12 digits, possibly behind `urn:uuid:` in any case |
| SbomCanonical.CanonicalizeReordered | scripts/canonicalize_sbom.py:21-100 | reordering any lists at any depth changes neither the canonical form nor the rejection |
| SbomCanonical.CanonicalizeRenamed | scripts/canonicalize_sbom.py:21-100 | renaming UUID references consistently and injectively changes neither, if no UUID component mentions a UUID |
| SbomExactness.CanonicalFormDetermines | scripts/canonicalize_sbom.py:21-100 | equal canonical forms: the documents differ only in serial number, time stamp, list order and UUIDs |
| SbomExactness.SameCanonicalForm | scripts/canonicalize_sbom.py:21-100 | both directions: equal canonical forms exactly when a renaming and a reordering lead from one to the other |
| SbomExactness.BlindExactlyWhenSelfContained | scripts/canonicalize_sbom.py:33-39 | for every accepted document and a UUID it does not use: the result is blind to the choice of UUIDs exactly when no UUID component mentions a UUID |
| SbomExactness.MovedReferenceShows | scripts/canonicalize_sbom.py:33-39 | if one does, renaming the UUID it mentions to an unused one changes the result, whatever literal names the document contains |
| SbomOccurrences.OccursSubstituted | scripts/canonicalize_sbom.py:46-55 | the places that hold given strings after a rewrite are those whose image is one of them, counted with repetition |
| SbomOccurrences.OccursReordered | scripts/canonicalize_sbom.py:66-80 | reordering lists keeps how often each reference occurs |
| SbomExactness.CanonicalizeTwice | scripts/canonicalize_sbom.py:83-100 | canonicalising a canonical form returns it unless a literal reference clashes with a generated name, then it is rejected |
| SbomExactness.CanonicalizeIdempotent | scripts/canonicalize_sbom.py:83-100 | idempotence for every document without the reserved prefix |
| SbomExactness.ReservedPrefixNeeded | scripts/canonicalize_sbom.py:33-39 | a document with a UUID and its own canonical form share it, although no renaming and reordering relates them |
| SbomTable.ReferenceTable.Define | scripts/canonicalize_sbom.py:28-39 | records the definition an object makes, or finds its name taken |
| SbomTable.ReferenceTable.Visit | scripts/canonicalize_sbom.py:26-44 | walks every definition exactly once, in whatever order dictionaries are read, and stops only at a name met before |
| SbomTable.FewerValues | scripts/canonicalize_sbom.py:58-59 | comparing the number of values with the number of keys is the injectivity test |
| SbomTable.CollectNames | scripts/canonicalize_sbom.py:57-59 | the finished table is the set of stable names, independent of the order of the walk |
| SbomTable.StableReferences | scripts/canonicalize_sbom.py:21-63 | the document with every UUID reference replaced by its stable name, or the error the specification gives |
| SbomTable.CanonicalizeDocument | scripts/canonicalize_sbom.py:83-100 | the code computes the canonical form that the theorems are about |
| SbomPlaces.StripByPlace | scripts/canonicalize_sbom.py:88-96 | the serial number and the time stamp of the metadata are dropped and every other path keeps its value |
| SbomPlaces.VerdictExactly | scripts/canonicalize_sbom.py:26-63 | each error exactly when: bad root; a name defined at two paths; two UUIDs defining the same up to list order; a UUID under one of the four keys defined nowhere |
| SbomPlaces.CanonicalByPlace | scripts/canonicalize_sbom.py:83-100 | the result is the document with each defined UUID replaced by `urn:sms-sbom:` and the digest of the rest of its component, path by path, then sorted |
| SbomPlaces.NoUuidLeft | scripts/canonicalize_sbom.py:46-55 | no string under the four keys of a canonical form is a UUID |
| SbomPlaces.ListsSorted | scripts/canonicalize_sbom.py:66-80 | every list at any depth is sorted by the compact text of its items |
| SbomPlaces.SameName | scripts/canonicalize_sbom.py:33-39 | stable names agree exactly if the components differ only in `bom-ref` and list order |
| SbomCounterexamples.LiteralNameBreaksIdempotence | scripts/canonicalize_sbom.py:83-100 | a document with a literal reserved name whose canonical form is rejected |
| SbomCounterexamples.NestedUuidShows | scripts/canonicalize_sbom.py:33-39 | a document with a nested UUID component whose canonical form depends on the UUID |
| InventoryText.ParseInventory | scripts/deploy_release_remote.py:926-937 | the loop reads the NUL-separated inventory or rejects it as the specification does |
| InventoryText.InventoryRoundTrip | scripts/deploy_release_remote.py:912-937 | reading an inventory printed in any order gives back every entry with kind, owner, mode and links |
| ReleaseTrace.PreparedBy | scripts/deploy_release_remote.py:1350-1364 | a prepared run has accepted the closed bundle, then fast-forwarded, then prepared |
| ReleaseTrace.ActivateOnlyWhenPrepared | scripts/deploy_release_remote.py:1350-1373 | `activate` is sent only after bundle check, fast-forward and `prepare` of the same run have succeeded, in that order |
| ReleaseTrace.RemoveOnlyWhenPrepared | scripts/deploy_release_remote.py:1355-1368 | staged files are removed only after `prepare` has succeeded |
| ReleaseTrace.RestartOnlyWhenSucceeded | scripts/deploy_release_remote.py:1374-1386 | the agent is restarted only after the state `succeeded` has been read |
| ReleaseTrace.ReloadedBy | scripts/deploy_release_remote.py:1369-1386 | a reloaded run has activated, then read `succeeded`, then restarted the agent |
| ReleaseTrace.NothingSentEarly | scripts/deploy_release_remote.py:1355-1386 | a run that ends before it is prepared has sent no activation, no restart and no removal |
| ReleaseTrace.ActivationShows | scripts/deploy_release_remote.py:1369-1386 | a run that has activated the release ends activated, succeeded or reloaded |
| ReleaseTrace.IncludedAt | scripts/deploy_release_remote.py:1345-1414 | included steps stand at increasing positions of the trace |
| ReleaseStates.PastForGood | deploy/scripts/release_store.py:33-50 | no sequence of transitions leads back to a state that can be prepared |
| ReleaseStates.TableBackwards | deploy/scripts/release_store.py:33-50 | the table of transitions read backwards |
| ReleaseStates.SucceededBy | deploy/scripts/release_store.py:33-50 | a history that reaches `succeeded` went through `prepared` and `activating` |
| ReleaseStates.CommandsFollowTable | deploy/scripts/release_manager.py:3398-3467 | `prepare` and `activate` move the state along the table of transitions |
| ReleaseStates.PrepareExactly | deploy/scripts/release_manager.py:3379-3467 | without failures `prepare` succeeds exactly on an absent, staged or prepared release whose stored metadata, in production, are its own and beside which nothing stands in the way; what it refuses it does not make acceptable |
| ReleaseStates.RefusedForGood | deploy/scripts/release_manager.py:3379-3467 | of any number of attempts to prepare none succeeds once one finds the release unacceptable |
| ReleaseStates.LostStaging | deploy/scripts/release_manager.py:3396-3408 | in production a `prepare` cut off between `create` and the checkpoint leaves a staged release that no later attempt prepares and that a faultless one marks as failed |
| ReleaseStates.LostCreation | deploy/scripts/release_store.py:326-334 | in production a `create` cut off before its rename leaves an entry because of which every later attempt fails and changes nothing |
| ReleaseStates.LostActivation | deploy/scripts/release_manager.py:6918-6982 | an activation that took effect leaves a state that cannot be prepared, even if it is reported as failed |
| ReleaseHost.Host.InstallDirectory | scripts/deploy_release_remote.py:1019-1023 | success leaves a private directory of the user; one that somebody else owns is refused |
| ReleaseHost.Host.Upload | scripts/deploy_release_remote.py:587-602 | an upload changes only the partial file; success means it is there with owner and mode as sent |
| ReleaseHost.Host.MoveToFinal | scripts/deploy_release_remote.py:1043-1043 | the rename moves the partial file to its final name or does nothing, whatever is reported |
| ReleaseHost.Host.CreateRollbackRef | scripts/deploy_release_remote.py:1160-1174 | a rollback ref that exists is never overwritten |
| ReleaseHost.Host.MergeFastForward | scripts/deploy_release_remote.py:1197-1201 | HEAD stays or becomes the release commit; success means it contains the release |
| ReleaseHost.Host.PrepareRelease | deploy/scripts/release_manager.py:3379-3467 | `prepare` refuses outside absent, staged and prepared and, in production, foreign metadata or an obstructed history; it marks a staged release with foreign metadata as failed; what it accepts it prepares, or stops on the way, fails or is lost |
| ReleaseHost.Host.ActivateRelease | deploy/scripts/release_manager.py:6918-6982 | `activate` refuses unless prepared; otherwise it may end anywhere behind activating, whatever is reported |
| ReleaseDriver.UploadPartial | scripts/deploy_release_remote.py:1034-1040 | attempts on one partial file until one succeeds, three if none does; the staging invariant is kept |
| ReleaseDriver.UploadFile | scripts/deploy_release_remote.py:1024-1043 | a final name is only ever given to the local content, and never beside a partial copy; success means it is there |
| ReleaseDriver.UploadFiles | scripts/deploy_release_remote.py:1024-1043 | from any resumable directory the loop keeps it resumable, and its success completes the bundle |
| ReleaseDriver.UploadBundle | scripts/deploy_release_remote.py:1005-1044 | normal return means that the directory is exactly the closed bundle; without failures it returns normally |
| ReleaseDriver.ValidateRemoteBundle | scripts/deploy_release_remote.py:903-949 | accepts the closed bundle and nothing else: names, content, owner, mode 600, one link, directory mode 700 |
| ReleaseDriver.ResumableComplete | scripts/deploy_release_remote.py:1024-1044 | a resumable directory in which every file has arrived is the closed bundle |
| ReleaseDriver.InspectRemoteGit | scripts/deploy_release_remote.py:1054-1116 | success means a clean checkout, a fetch, the fetched ref equal to the release commit, and HEAD as read behind it |
| ReleaseDriver.SecureRollback | scripts/deploy_release_remote.py:1117-1176 | the ref is left alone or created at HEAD; before HEAD has moved it names HEAD; it is an ancestor of the release |
| ReleaseDriver.CompareAgent | scripts/deploy_release_remote.py:1177-1196 | the agent decision compares the rollback commit with the release, on development hosts only |
| ReleaseDriver.SwitchHead | scripts/deploy_release_remote.py:1197-1204 | success means that HEAD is the release commit |
| ReleaseDriver.PrepareRemoteGit | scripts/deploy_release_remote.py:1047-1205 | the rollback ref is written at most once, with HEAD from before it moves, and only then HEAD moves; success has gone through the inspection and, on registry hosts, host control, in order |
| ReleaseDriver.CleanUp | scripts/deploy_release_remote.py:1365-1368 | success empties the directory; wherever it stops the directory stays resumable |
| ReleaseDriver.Finish | scripts/deploy_release_remote.py:1385-1414 | success means that the agent was restarted and found active exactly if its files changed, then the service, every public address and the final Git status, in this order |
| ReleaseDriver.Launch | scripts/deploy_release_remote.py:1355-1414 | prepare, removal of every file, activation, `succeeded` and the closing checks in this order; without failures it succeeds exactly if `prepare` accepts what is stored, and marks a staged release with foreign metadata as failed |
| ReleaseDriver.Proceed | scripts/deploy_release_remote.py:1353-1414 | everything after staging keeps directory and Git ready for another run; a release that `prepare` refuses is not completed and not made acceptable |
| ReleaseDriver.DeployRelease | scripts/deploy_release_remote.py:1345-1414 | one run from any state: what a release, a staged bundle and a failure leave behind; a completed run includes every step of a release in order and ends with a clean status; from a recoverable host a run without failures completes exactly if `prepare` accepts what is stored; without the local checks nothing is sent |
| ReleaseDriver.RunRelease | scripts/deploy_release_remote.py:1005-1414 | over any number of runs: write-once rollback ref, HEAD old or target and the target once a run has completed, one agent decision, event order, every step in a completed run, completion without failures exactly if `prepare` accepts what is stored, and none after any activation |
| OpenLoop.InFlightBounded | scripts/perf_smoke.py:271-329 | in every interleaving: in flight and peak at most `max_workers`, completions at most starts at most submissions |
| OpenLoop.Drained | scripts/perf_smoke.py:308-329 | at the end starts, completions and submissions agree; uninterrupted, all permits are back |
| OpenLoop.StepsBounded | scripts/perf_smoke.py:308-329 | no interleaving has more than 9n + 5 steps |
| OpenLoop.NextStep | scripts/perf_smoke.py:308-329 | no reachable state before the end is stuck |
| OpenLoop.RecordsComplete | scripts/perf_smoke.py:284-306 | the records are exactly the starts, completions, outcomes and interrupts of the run |
| OpenLoop.MeasuresTheRun | scripts/perf_smoke.py:330-354 | windows cover the plan and every start or completion and are attained, rates are counts over windows, the lag is the largest delay, and valid is an equivalence |
| OpenLoop.NeverAbovePeak | scripts/perf_smoke.py:316-318 | in flight never exceeds the reported peak, except for what an interrupt strands |
| OpenLoop.PeakReached | scripts/perf_smoke.py:316-318 | the reported peak was reached |
| OpenLoop.LateStops | scripts/perf_smoke.py:288-314 | after a late start at most the request already let through is submitted |
| OpenLoop.StopsOnlyFor | scripts/perf_smoke.py:308-319 | without an interrupt requests are left out only after a late start or for want of a free worker |
| OpenLoop.RatesAtMostTarget | scripts/perf_smoke.py:330-347 | reported started and completed rates never exceed the target, in any run |
| OpenLoop.ValidLoadWasOffered | scripts/perf_smoke.py:289-292 | a valid measurement has a started rate of at least target times planned over planned plus lag limit |
| OpenLoop.OneResultPerEvent | scripts/perf_smoke.py:319-358 | a normal return holds exactly one handler result per event, in event order |
| RankAuc.ScoresComplement | scripts/auth_timing_report.py:27-41 | pairs won by one side and by the other add up to all pairs |
| RankAuc.GroupRank | scripts/auth_timing_report.py:33-38 | the rank given to a group of ties is the mean rank of its members |
| RankAuc.PoolRankSum | scripts/auth_timing_report.py:30-40 | the rank sum counts the pairs, plus a constant |
| RankAuc.SumRanks | scripts/auth_timing_report.py:31-38 | the grouped loop computes the rank sum of the pooled samples |
| RankAuc.RankAuc | scripts/auth_timing_report.py:27-41 | the result is (wins plus half the ties) over n times m, folded; an empty sample is an error |
| RankAuc.FoldedAucSymmetric | scripts/auth_timing_report.py:27-41 | swapping the samples does not change it, and it lies between 1/2 and 1 |
| TestPartition.PartitionIndex | scripts/gate_policy.py:211-223 | the index lies between 1 and the number of shards |
| TestPartition.ModuleMeaning | scripts/gate_policy.py:214-214 | the module is the text before the first `::` |
| TestPartition.ModuleTogether | scripts/gate_policy.py:211-223 | database tests of one module share a shard |
| TestPartition.IndexExactly | scripts/gate_policy.py:211-223 | the costly test of five unit shards and the costly module of four database shards have the last shard; the others follow the digest of their key |
| TestPartition.SameShardExactly | scripts/gate_policy.py:211-223 | two tests share a shard exactly if both have their own or their digests leave the same remainder |
| TestPartition.NameInjective | scripts/gate_policy.py:204-208 | different shards of a run have different names |
| TestEvidence.CheckPart | scripts/check_coverage_gates.py:174-203 | one part passes exactly if it fits its shard and does not overlap what was seen |
| TestEvidence.CheckParts | scripts/check_coverage_gates.py:174-205 | the loop and the cover test decide whether the parts are good |
| TestEvidence.VerifyTestEvidence | scripts/check_coverage_gates.py:145-212 | accepted exactly if acceptable, where acceptable mentions neither the overlap nor the cover check |
| TestEvidence.PartReports | scripts/check_coverage_gates.py:154-162 | as many parts as shards and a part for each: every part is the evidence of a shard |
| TestEvidence.ReportedOnce | scripts/check_coverage_gates.py:154-162 | no shard is reported twice |
| TestEvidence.CollectedOnce | scripts/check_coverage_gates.py:191-195 | every test of the inventory is collected by exactly one part, the one for its shard |
| TestEvidence.NoOverlap | scripts/check_coverage_gates.py:183-190 | the overlap check never changes the verdict |
| TestEvidence.Covered | scripts/check_coverage_gates.py:202-205 | the final cover check never changes the verdict |
| TestEvidence.EveryNodeAccounted | scripts/check_coverage_gates.py:145-212 | if accepted, each test was collected in its shard only, and passed or was skipped for an allowed reason; isolated tests passed |
| TestEvidence.CriticalPassed | scripts/check_coverage_gates.py:206-212 | if accepted, every test of a critical category passed |
| TestEvidence.HonestRunAccepted | scripts/check_coverage_gates.py:145-212 | a run in which every shard has tests, runs what it should and passes is accepted |
| TestVerdict.AcceptedExactly | scripts/check_coverage_gates.py:117-212 | acceptance written out: keys, shard names, tests of each shard, known skips and their reasons, eleven for want of Lua, five critical categories |
| TestVerdict.SkipExactly | scripts/check_coverage_gates.py:126-143 | the skips that are known, with the reason each must contain |
| UnicodeRange.RunsCorrect | scripts/subset_fonts.py:197-208 | the ranges stand for exactly the list and are maximal |
| UnicodeRange.RunsHaveGaps | scripts/subset_fonts.py:197-208 | for an increasing list a gap separates neighbouring ranges |
| UnicodeRange.FormatRanges | scripts/subset_fonts.py:197-208 | the loop prints those ranges; an empty list is an error |
| UnicodeRange.ParseRanges | scripts/subset_fonts.py:187-194 | the loop reads every part or fails |
| UnicodeRange.ParsePrinted | scripts/subset_fonts.py:192-193 | a printed range is read back, hexadecimal included |
| UnicodeRange.ReadsLoosely | scripts/subset_fonts.py:187-194 | either prefix or none, digits in either case, blanks around, one number or two are read |
| UnicodeRange.RoundTrip | scripts/subset_fonts.py:187-208 | printing, reading and expanding gives back every nonempty list |
| UnicodeRange.AllocateFaces | scripts/subset_fonts.py:226-233 | every code point goes to the first face that covers it; faces are disjoint; what no face covers remains |
| JsonPointer.FollowReference | scripts/check_contract.py:40-44 | the loop follows a local reference to its target or fails |
| JsonPointer.PointerRoundTrip | scripts/check_contract.py:43-44 | a pointer printed as in section 3 of RFC 6901 is split and unescaped to the same keys |
| JsonPointer.PointerLeadsThere | scripts/check_contract.py:42-44 | it leads to the value at that path |
| ContractReferences.ResolvesExactly | scripts/check_contract.py:37-50 | the recursion returns exactly if the references are well-founded |
| ContractReferences.ResolveMore | scripts/check_contract.py:37-50 | the result does not depend on how deep references may nest |
| ContractReferences.ResolveLeavesNone | scripts/check_contract.py:37-50 | no lone `$ref` object is left anywhere |
| ContractReferences.ResolveIdempotent | scripts/check_contract.py:37-50 | resolving again, against any document, changes nothing |
| ContractPlaces.ResolveByPlace | scripts/check_contract.py:37-50 | at every path that passes no lone reference stands what stood there, resolved |
| ContractPlaces.FollowsPointer | scripts/check_contract.py:38-45 | a lone reference to a path is what stands at that path, resolved, or fails |
| ContractPlaces.FollowsLocalOnly | scripts/check_contract.py:40-41 | only texts that begin with `#/` are followed |
| ContractPlaces.NothingToFollow | scripts/check_contract.py:46-50 | a value in which every `$ref` has company is returned as it is |
| ContractNormalForm.Normalize | scripts/check_contract.py:53-70 | the recursion that resolves at every level computes resolving once and pruning |
| ContractNormalForm.NormalizeMembers | scripts/check_contract.py:55-67 | the loop over the members drops documentation and sorts unordered lists |
| ContractNormalForm.NormalComplete | scripts/check_contract.py:53-70 | normal forms agree exactly if the resolved values differ only in documentation and the order of `required` and `enum` |
| ContractPlaces.ObjectsExactly | scripts/check_contract.py:53-70 | objects normalise alike exactly if they have the same keys outside the eight that document, written out, with members that say the same; lists lose their order under `required` and `enum` only |
| ContractPlaces.DocumentationIsFree | scripts/check_contract.py:17-26 | adding, dropping or changing any of the eight members changes nothing |
| ContractPlaces.UnorderedSorted | scripts/check_contract.py:61-66 | the two lists come out sorted by text, with the same items |
| ContractPlaces.ListsExactly | scripts/check_contract.py:68-69 | other lists normalise alike exactly if their items do, one by one |
| ContractShuffle.ResolveNear | scripts/check_contract.py:37-50 | resolving reordered values in reordered documents succeeds or fails alike, and gives the same normal form from tame values |
| ContractShuffle.ShuffleInvariant | scripts/check_contract.py:53-70 | reordering `required` and `enum` lists at any depth, in the part and in the document, changes neither the normal form nor the failure, if every reference reached is tame |
| ContractSwap.SameElsewhere | scripts/check_contract.py:37-50 | swapping items of a list changes nothing for what resolves before the list does |
| ContractOrder.UntameShows | scripts/check_contract.py:53-70 | if a reached reference is not tame, some reordering of the document changes the normal form |
| ContractOrder.ShuffleExactly | scripts/check_contract.py:53-70 | the normal form is blind to the order of all `required` and `enum` lists of the document exactly if every reference reached is tame |
| ContractCounterexamples.ReferenceShowsOrder | scripts/check_contract.py:61-66 | with a reference to a `required` list of two different items the order shows |
| ContractIdempotence.PruneResolvedExactly | scripts/check_contract.py:57-60 | dropping documentation leaves no lone `$ref` exactly if no kept object keeps nothing but a `$ref` |
| ContractIdempotence.LeftOverExactly | scripts/check_contract.py:53-70 | the same said of the part and the document before normalising |
| ContractIdempotence.NormalTwice | scripts/check_contract.py:53-70 | normalising again changes nothing if no such object is reached |
| ContractIdempotence.ReferenceSettles | scripts/check_contract.py:37-70 | a lone reference normalises to itself exactly if it leads to its own documented form |
| ContractIdempotence.OnlyLeftOver | scripts/check_contract.py:61-66 | whether an unordered list normalises to itself is decided by the items from which a left-over reference is reached; all others drop out |
| ContractIdempotence.NormalTwiceExactly | scripts/check_contract.py:53-70 | normalising twice changes nothing exactly if every left-over reference leads to itself, or those items of an unordered list that contain one normalise to one another |
| ContractCounterexamples.NormalTwiceDiffers | scripts/check_contract.py:58-59 | a `$ref` beside a description becomes a lone one, and normalising again follows it |
| CallOrder.CallsByPosition | scripts/call_order.py:23-25 | the calls of a function, none lost, in source order |
| CallOrder.ChosenMeaning | scripts/call_order.py:41-44 | of several definitions the first with calls counts, or else the last |
| CallOrder.Functions | scripts/call_order.py:35-45 | the table holds that definition for every name |
| CallOrder.Sweep | scripts/call_order.py:52-56 | one pass in any order adds only functions with a path, and reports a change exactly if it adds one |
| CallOrder.Reaching | scripts/call_order.py:48-57 | exactly the functions with a call path to a marked call, whatever the iteration order |
| CallOrder.FirstLine | scripts/call_order.py:77-82 | the least line of a call that is marked or leads to a marked call |
| CallOrder.FirstReachPrecedes | scripts/call_order.py:60-86 | equals the path-based order of the two kinds of calls |
| GateCache.KeyBindsCandidate | scripts/gate_snapshot.py:59-70 | the cache key determines tree, base, arguments and tool versions |
| GateCache.AlwaysOrderly | scripts/gate_snapshot.py:126-171 | a check passes its stages in order, and all of them before it comes near the cache |
| GateCache.EntryWritten | scripts/gate_snapshot.py:183-184 | every entry holds what some check of a candidate with that key has written |
| GateCache.ReusedMeansChecked | scripts/gate_snapshot.py:105-187 | in every history a reused success follows a full check of the identical tree, base, arguments and versions |
| GateCache.ReusedRanSameStages | scripts/gate_snapshot.py:130-171 | that check had passed exactly the stages that the reusing check would have run |
| GateCache.CacheTouchedOnlyUnchanged | scripts/gate_snapshot.py:172-184 | the cache is opened or written only after all stages, an unchanged candidate and a clean status |
| GateCache.ChangedLeavesNoEntry | scripts/gate_snapshot.py:172-184 | a check whose candidate changed never opens or writes the cache |
| GateContents.StartedOn | scripts/gate_snapshot.py:95-111 | every check was started on the working content, the index or the pushed commit, by its mode, with accepted arguments and Node 24 |
| GateContents.CertifiedContent | scripts/gate_snapshot.py:172-181 | near the cache the same content was seen a second time |
| GateContents.StagesExactly | scripts/gate_snapshot.py:139-171 | which stages run, in which order |
| GateContents.HitExactly | scripts/gate_snapshot.py:113-117 | a hit is a file under the key that holds the tree and a line end |
| SchemaHead.GraphMeaning | scripts/release_metadata.py:78-93 | the graph holds every migration with no parent, the one or all those it names |
| SchemaHead.RevisionShape | scripts/release_metadata.py:22-22 | a revision is four digits, an underscore and a slug |
| SchemaHead.ReadMigrations | scripts/release_metadata.py:74-93 | the first loop builds the graph and the set of parents, or finds a malformed or repeated revision |
| SchemaHead.Ancestors | scripts/release_metadata.py:100-107 | the worklist collects exactly what can be reached through parents |
| SchemaHead.Head | scripts/release_metadata.py:73-110 | returns h exactly if all parents are known, h alone is no parent, and every revision is an ancestor of h |
| SchemaHead.AcceptedExactlyChains | scripts/release_metadata.py:94-110 | with at most one parent each and some root: accepted exactly if the revisions form one repeat-free chain |
| SchemaHead.AcyclicExactlyOrdered | scripts/release_metadata.py:94-110 | any graph, with or without merges, is acyclic exactly if its revisions can be listed once each, every revision before its parents |
| SchemaHead.AcyclicExactlyRooted | scripts/release_metadata.py:94-110 | an accepted graph without merges is acyclic exactly if it has a root, and then exactly if it is a chain |
| SchemaHead.CycleAccepted | scripts/release_metadata.py:108-109 | without a root a cycle below the head is accepted |
| SchemaHead.CycleBesideRootAccepted | scripts/release_metadata.py:108-109 | with a merge a cycle is accepted although there is a root |
| BlobStream.TreeFiles | scripts/governance_metrics.py:39-50 | the offset walk reads the bodies the specification gives, or fails |
| BlobStream.ReadsFrame | scripts/governance_metrics.py:42-45 | one step reads a body exactly, whatever bytes it contains |
| BlobStream.StreamRoundTrip | scripts/governance_metrics.py:39-50 | for any list of blobs every body is recovered and reading stops at the end of the stream |
| BlobStream.FileFound | scripts/governance_metrics.py:46-49 | with distinct paths a file is found exactly if its body is text |
| ChangePaths.PathsFromNameStatus | scripts/classify_ci_changes.py:204-227 | the index loop reads the paths the grammar gives, or fails |
| ChangePaths.NameStatusRoundTrip | scripts/classify_ci_changes.py:204-227 | every path on both sides of every change is read back, in order |
| ChangePaths.ReadExactly | scripts/classify_ci_changes.py:200-227 | a text is read exactly if it is such a list: one path after A, D, M, T, two after C, R |
| ChangePaths.ClassifyPaths | scripts/classify_ci_changes.py:152-197 | a job is on exactly if some path calls for it; an empty diff turns everything on |
| ChangePaths.UnsafeExactly | scripts/classify_ci_changes.py:168-171 | a path is unsafe if it is empty, begins at the root, or has a step `..` |
| ChangePaths.ClassifiedOnce | scripts/classify_ci_changes.py:165-197 | order and repetition of paths are irrelevant |
| ChangePaths.MorePathsMoreJobs | scripts/classify_ci_changes.py:165-197 | adding paths to a nonempty change never switches a job off |
| ChangePaths.DoubtRunsEverything | scripts/classify_ci_changes.py:154-172 | no path at all, or an unsafe one, runs every job |

## Left out

- UnicodeRange.ParseRanges: does not model the further spellings that `int(text, 16)` accepts (sign, underscores, `0x`, blanks between prefix and digits), which the printer never produces.
- BlobStream.TreeFiles: does not model the further spellings that `int()` accepts for the announced size; the text decoder is a parameter.
- ReleaseHost.Host.Upload: relies on `rsync --chmod` that reports success having set owner and mode; nothing is assumed about content or about uploads that fail.
- OpenLoop.Drained: for runs with a keyboard interrupt it states how many permits the interrupt can leave behind, not that none are.
- ChangePaths.ClassifyPaths: takes the rule table and the list of release-control paths as parameters; the tables themselves are finite case lists.
- The file system, SSH, Git, Docker and systemd behind the release driver: commands with the effects stated in `ReleaseHost.dfy`; of the release manager only the guards of `prepare` and `activate` on what it has stored (state, metadata, history of images, bootstrap) and the table of states are modelled; its other checks are failures that may happen at any time, or do not happen in a run without failures.
- Loading and validating the manifest, evidence and signatures before a release: the driver starts from distinct file names, none ending in `.part`.
- Lone surrogates in JSON strings, which `json.loads` accepts.
- Exceptions of the load generator's producer other than a keyboard interrupt.
- The count of cancelled requests in a load measurement, which decides nothing.
- Growth of the staging directory between runs other than by the driver itself.
- Non-string keys of YAML documents, and Python's equality of numbers that are printed differently, in the comparison of contracts.
- The sorted order in which `build_sans` lists code points, and font subsetting itself.
- Coverage thresholds, percentiles, event schedules and budgets: one-line arithmetic.
- Regular expressions, Python syntax trees and text decoding: their results are inputs.
- HTTP scenarios, browser and security acceptance scripts, file ownership checks of the release builder.
