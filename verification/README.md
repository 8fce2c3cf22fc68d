# Verified models of the release, sampling and dataset logic

This project models the parts of the repository in which several steps or several pieces of code
have to agree, and proves that they do. Each module stands for one source file or one job:

- **Release promotion.** `PromotionProtocol` is a state machine over directories and a pointer: any
  number of promoters under one lock, crashes between any two file-system primitives, removals that
  stop half way. `ProductionDirectory` is the same promotion as an object whose methods change its
  fields, with staging (`ReleaseStaging`, `Publisher`), evidence bundle, acceptance report, manifest
  and pointer documents and the validation that reads them back. `PromotionRuns` and
  `PromotionRefinement` tie the two together, `PromotionCompletes` says when a promotion is carried
  out, `FreshCommit` and `StrandedPointer` when the current release resolves, `EvidenceGate` and
  `CurrentRelease` what gate and resolution ask of the files themselves. `Reproducibility` is
  the evaluation whose report the gate recomputes; `SampleRelease` holds two failing releases.
- **Log rate limiting.** `RateLimit`: a bounded, self-pruning table against an unbounded one.
- **Sampling.** `HardNegatives` and `TaskBatches`, with `Batching` in common, `DistributedSampling`,
  and `DistributedBatches` for the former over the latter.
- **Dataset reading.** `RecordScan`, `DatasetIndex` and `JsonComplexity`.
- **Statistics and smaller state.** `PairedStatistics`, `ShutdownSequence`, `AugmentationRun`,
  `SplitAssignment`, `TextTruncation` and `AudioTimeline`.
- `Sorting`, `Text`, `Arithmetic` and `Options` hold shared definitions.

Code that changes things step by step is a method (or a class) proved against a specification
function or predicate; what the source promises is then proved about that specification.

## Where the code falls short of its promise

Each of these is stated with its exact condition and an input on which the code fails.

- A retry writes the pointer once the manifest validates, before the full validation. The manifest
  lists neither the checkpoint's checksum sidecar nor the serving files, so after an interrupted
  cleanup and a crash the pointer can name a release that does not resolve. Every promotion that
  would succeed can be interrupted that way (`StrandedPointer.EveryPromotionCanStrand`,
  `FreshCommit.LeftoverResolvesIff`).
- A manifest does not always validate right after it is written: an evidence path may be one the
  reader refuses, the manifest's own, or the one the acceptance report is written to, which is where
  a metrics file called `acceptance_report.json` is staged (`ReleaseManifest.WrittenManifestOkIff`,
  `PromotionCompletes.PromotionCompletesIff`, `SampleRelease.ReportReplacesEvidence`).
- A retry keeps a pointer that already names its directory, whatever else is wrong with it, and then
  fails over a directory in perfect order (`ProductionDirectory.RetrySucceedsIff`,
  `ProductionDirectory.StalePointerStays`). The promoters never leave such a pointer
  (`PromotionRefinement.RetryRestores`).
- The gate recomputes the reproducibility report and never asks whether it passed: a report of a
  failed campaign gets through when it is the right one (`ReleaseValidation.GatedReportPassesIff`,
  `SampleRelease.FailedReportPassesGate`, `SampleRelease.FailingSample`). The gate's documentation
  says that it derives the decision anew (`release/release_evidence_validation.py:343-352`).
- A reproducibility report computed under a policy that repeats a seed does not pass its own
  validation (`Reproducibility.ReportLoadsIff`, `Reproducibility.RepeatedSeedReportFails`).
- Release ids keep only the head of three digests (`ReleaseIdentity.ReleaseIdEqualIff`,
  `ReleaseIdentity.TwoCheckpointsOneId`).
- The curriculum puts scheduled tasks first only for schedules without repeats, because the rank of
  an unscheduled task is the number of distinct tasks (`TaskBatches.ScheduledFirstIff`,
  `TaskBatches.RepeatedTaskNotFirst`). The configuration refuses repeats; the sampler does not.
- `max_samples = 0` keeps the first usable record of the first file (`DatasetIndex.MaximumHeldIff`,
  `DatasetIndex.ZeroKeepsOne`). The configuration refuses zero
  (`config/multimodal/training_settings.py:154`); the dataset does not.
- With a negative tie tolerance an equal pair counts for the baseline whichever model is named first
  (`PairedStatistics.ExchangeMirrorsIff`, `PairedStatistics.EqualPairNotMirrored`), and the bootstrap
  quantiles are not symmetric for the default sample counts (`PairedStatistics.QuantilesMirrorIff`).
- The fence step leaves an odd number of fences when the only one starts the text
  (`TextTruncation.FencesClosedIff`, `TextTruncation.OnlyFenceStays`), and the cut that follows it
  can open a closed block again, when its place lies inside one
  (`TextTruncation.TruncationParity`, `TextTruncation.TruncationReopens`).

## Model

| member | source | states |
|---|---|---|
| PromotionProtocol.StepKeepsInv | release/model_release_publisher.py:304-464 | every file-system primitive of the lock holder, every refused attempt and every crash keeps the invariant: named releases are unchanged and valid, the pointer is absent or was written for a named one |
| PromotionProtocol.RunKeepsInv | release/model_release_publisher.py:304-553 | the invariant holds in every state of every run of any number of promoters, with crashes anywhere and removals cut short |
| PromotionProtocol.CurrentAlwaysOk | release/model_release_publisher.py:304-464 | in every reachable state the pointer is absent or names a directory whose manifest has the recorded digest and validates, every listed artifact present with its digest |
| PromotionProtocol.NamedNeverChanges | release/model_release_publisher.py:316-464 | a release the pointer has ever named is never changed or removed by any later step of any promoter |
| PromotionProtocol.TreeStep | release/model_release_publisher.py:453-464 | changing a directory that was never named keeps the invariant; the cleanup only touches such directories |
| PromotionProtocol.AnyoneMayCrash | release/model_release_publisher.py:304-329 | how strong the adversary is: any process may crash at any point and leaves the files as they are and the lock free, the holder may raise at any point, a second promoter is turned away, and whoever finds the lock free gets it |
| PromotionProtocol.AnyRemovalMayStop | release/model_release_publisher.py:453-464 | every removal may stop after any of its files: of an old staging directory, of the own one, and of a release that the pointer does not name |
| PromotionProtocol.AnythingMayBeWritten | release/model_release_publisher.py:338-440 | anything may be copied into the staging directory and written into or removed from a release being published |
| PromotionProtocol.DecisionsSay | release/model_release_publisher.py:441-452 | the holder goes on exactly when the manifest validates, or, after the commit, when the pointer resolves to its release |
| PromotionProtocol.NeverStuck | release/model_release_publisher.py:304-464 | in every state of the invariant two steps at most free the lock and leave the files as they are |
| PromotionRefinement.PromotionIsARun | release/model_release_publisher.py:304-464 | the directories and the pointer that one call of the promotion methods leaves at its end are those at the end of a run of the state machine by one promoter; end states only: a failing promotion is matched by a run that sweeps and raises, without its intermediate directories |
| PromotionRefinement.PromotionKeepsInv | release/model_release_publisher.py:304-464 | so what the promotion methods leave satisfies the invariant of the state machine and keeps every release ever named |
| PromotionRefinement.RetryLeads | release/model_release_publisher.py:316-329 | the path that finds its directory ends in exactly the directories and the pointer that the retry computes |
| PromotionRefinement.RetryRestores | release/model_release_publisher.py:494-530 | in every state of the protocol's invariant the retry of a directory in order with a report that loads succeeds, and the pointer then resolves to it |
| StrandedPointer.InterruptedCleanupStrandsPointer | release/model_release_publisher.py:453-530 | from any state with a completed but uncommitted directory, seven actions (exception, partial cleanup, crash, retry) lead to a pointer that names the release and does not resolve |
| StrandedPointer.EveryPromotionCanStrand | release/model_release_publisher.py:304-530 | such states are reachable: from every idle state that satisfies the invariant, every new promotion that is not refused has a run that keeps the invariant and ends in a pointer that names its release and does not resolve, unless evidence is itself staged as the checksum sidecar |
| PromotionCompletes.PromotionCompletesIff | release/model_release_publisher.py:331-440 | a fresh promotion is carried out exactly when every evidence file has a place of its own and fits into the candidate, each staged file is accepted for what it is with something deployable beside the model card, the checkpoint is the one that was hashed, the decision accepts, every evidence path can be listed, and no evidence stands where the bundle, the report or the manifest is written by another text |
| PromotionCompletes.UnacceptedIsRefused | release/model_release_publisher.py:350-357 | a promotion is refused when one staged file is not accepted for what it is: leakage report, receipts and their report, cards and metrics, or nothing deployable beside the model card |
| PromotionCompletes.AcceptedReportSays | release/model_release_publisher.py:404-428 | a published report lists each reference's file with its digest and the bundle, and nothing else |
| PromotionCompletes.StagedGateIff | release/model_release_publisher.py:350-357 | the gate on the staged copy accepts exactly that, said of the staged files |
| PromotionCompletes.CompletesIff | release/model_release_publisher.py:395-440 | a renamed directory whose bundle loads and passes the gate is completed exactly when the decision accepts and report and manifest spare the evidence; what results is determined |
| PromotionCompletes.LoadsAsStaged | release/model_release_publisher.py:363-403 | the bundle written for the final directory loads back as it was addressed, and passes the gate after the rename because it passed it before |
| PromotionCompletes.GateMoves | release/release_evidence_validation.py:336-495 | the gate looks at the files and not at the address of their directory |
| PromotionCompletes.MetricsCalledLikeReport | release/release_staging.py:37-50 | every promotion whose metrics file is called like the acceptance report is refused, unless the file is that very report |
| SampleRelease.ReportReplacesEvidence | release/model_release_publisher.py:410-440 | a failing input: a release that loads, is bound to its policy and passes the gate, with its evidence where staging puts it, every path listable and none the manifest's; its metrics file is called like the report, and the manifest written after the report does not validate, unless the two share a digest |
| SampleRelease.FailedReportPassesGate | release/release_evidence_validation.py:457-489 | a failing input: whenever the receipts are not a reproducible campaign, a release with the report computed from them loads, is bound to the policy and passes the gate, and its report says that it failed |
| SampleRelease.FailingSample | release/release_evidence_validation.py:404-489 | for every policy there is such evidence, each reader accepting its own file and no other |
| StrandedPointer.RemovalKeepsManifest | release/release_manifest.py:81-190 | removing a file that no manifest entry names keeps the manifest valid |
| FreshCommit.FreshCommitResolves | release/model_release_publisher.py:395-452 | on the fresh path the checks before the pointer write imply that the current release resolves after it, the policy being rebuilt from the manifest |
| FreshCommit.LeftoverResolvesIff | release/model_release_publisher.py:494-530 | the pointer a retry writes for the remains of a complete release resolves exactly when the checkpoint's checksum sidecar is still there and the serving check still passes on what is left of the serving files; no manifest lists either |
| FreshCommit.CheckedIsLeftover | release/model_release_publisher.py:395-440 | what a fresh promotion has checked is a complete, deployable release, so the above applies to its remains |
| FreshCommit.GateFrame | release/release_directory_validation.py:78-92 | the evidence gate depends only on the referenced files, the serving files and the policy up to the order of its seeds |
| FreshCommit.LoadFrame | release/release_evidence_bundle.py:270-382 | loading the bundle depends only on its own file and the referenced files |
| FreshCommit.EvidenceSurvives | release/release_manifest.py:140-190 | once a written manifest validates, every evidence file still has the content it was gated with |
| ReleaseValidation.WrittenPointerResolvesIff | release/current_release_pointer.py:24-88 | a pointer just written resolves to its release exactly when the directory passes full validation under the policy recorded in its own manifest, and to nothing otherwise |
| ReleaseValidation.PointerSelects | release/release_utilities.py:56-69 | a written pointer references its directory and no other |
| ReleaseValidation.WrittenPointerMeans | release/current_release_pointer.py:24-88 | a pointer written for a release references it and no other name; once the manifest validates it resolves to that release or to nothing, the former exactly when the directory is as valid as its manifest asks |
| ReleaseValidation.GatedReportPassesIff | release/release_evidence_validation.py:457-489 | behind the gate report and receipts are there and readable, and the report says `passed` exactly when the receipts are a reproducible campaign under the policy |
| EvidenceGate.GateIff | release/release_evidence_validation.py:336-531 | a model's bundle passes the gate exactly when every reference addresses its file with its digest, the leakage report is the bundle's own and clean, the report is what the receipts evaluate to, cards and metrics are clean, and the serving files beside the model card can be deployed |
| EvidenceGate.PlacedGateIff | release/release_evidence_validation.py:336-531 | the same for given places of the files |
| EvidenceGate.LesserGateIff | release/release_evidence_validation.py:336-531 | a smoke run always passes; a learning candidate passes exactly when its one reference addresses a clean leakage report that is the bundle's own |
| EvidenceGate.ServedSays | release/serving_artifacts.py:18-32 | what is looked at for deployment: the six files with these names in the model card's directory |
| CurrentRelease.ResolveIff | release/current_release_pointer.py:24-88 | the pointer resolves to a directory exactly when its version, name and relative path agree on it, it opens a manifest there by path and digest, and the directory is valid under the policy the manifest records |
| CurrentRelease.DirectoryOkIff | release/release_directory_validation.py:21-95 | a directory is valid exactly when its manifest validates, its bundle loads, is bound to the policy by name and digest and passes the gate, the checkpoint has its sidecar, and the report is that of an accepted model |
| CurrentRelease.ReferencesIff | release/release_utilities.py:56-69 | a pointer names exactly the release whose relative path it holds |
| ReleaseManifest.ValidateManifest | release/release_manifest.py:81-190 | the validating method accepts exactly the directories whose manifest has the right schema, identity, policy digest, artifact names, paths and digests |
| ReleaseManifest.ValidateArtifacts | release/release_manifest.py:140-190 | the artifact loop accepts exactly the lists without repeated names in which every required name occurs and every entry is a contained file with its digest |
| ReleaseManifest.HeaderOkIff | release/release_manifest.py:81-140 | the header is accepted exactly for the right schema, release and mode and a named policy with ordered seeds that has the recorded digest |
| ReleaseManifest.ArtifactsOkIff | release/release_manifest.py:140-190 | the list is accepted exactly when no name comes twice, the nine required ones occur, and each entry is the written form of a nameable path to a file with the recorded digest |
| ReleaseManifest.WrittenSays | release/release_manifest.py:21-80 | the written manifest has the promoted policy and, in the order of names, one entry for each reference with its path in the release and for the two documents |
| ReleaseManifest.PolicyRoundTrip | release/release_manifest.py:193-270 | the policy rebuilt from a manifest is the promoted policy with its seeds in order, and has the recorded digest and payload |
| ReleaseManifest.PolicyFromIff | release/release_manifest.py:216-270 | a policy is rebuilt from exactly the recorded contents with a name and a seed, member by member |
| ReleaseManifest.WrittenManifestOkIff | release/release_manifest.py:21-190 | for evidence as it is before the two late writes: the manifest written after the report validates exactly when every evidence path can be listed and neither the report nor the manifest replaces an evidence file by another text |
| ReleaseManifest.EntryOkIff | release/release_manifest.py:140-190 | the entry of a bound reference validates exactly when its path can be listed and its file still has the recorded digest |
| EvidenceBundle.BundleRoundTrip | release/release_evidence_bundle.py:248-382 | a bundle whose references are bound to files of its directory is loaded back unchanged from the document written for it |
| EvidenceBundle.LoadIff | release/release_evidence_bundle.py:270-382 | a bundle is loaded exactly from a document written as it, each of whose references has its file and digest below the release, with the leakage report behind the leakage reference |
| EvidenceBundle.BundleNames | release/release_evidence_bundle.py:159-196 | a well-formed bundle has exactly the evidence its mode asks for, each once |
| EvidenceBundle.LeakageOfIff | release/release_evidence_bundle.py:351-366 | the leakage report of a bundle is what is read behind its leakage reference, or none without one |
| EvidenceBundle.ReferenceValidIff | release/release_evidence_bundle.py:115-146 | a reference needs a name that is not blank, an absolute path and sixty-four characters that read as hexadecimal |
| Text.HexLiteralIff | release/release_evidence_bundle.py:413-420 | what passes for hexadecimal: white space around an optional sign, an optional prefix and groups of digits with single underscores between them |
| EvidenceBundle.LoadedIsBound | release/release_evidence_bundle.py:270-382 | every reference of a loaded bundle names a file of the directory with the recorded digest, and the bundle satisfies its constructor |
| AcceptanceReport.Build | release/acceptance_result.py:37-76 | the loop that sorts references and collects violations builds the specified report |
| AcceptanceReport.BuiltSays | release/acceptance_result.py:37-76 | a built report names each reason and each missing item once and nothing else, lists exactly the items found with the digests found, and keeps the decided status exactly when it names nothing |
| AcceptanceReport.EvidenceInOrder | release/acceptance_result.py:37-76 | its references come in the order of their names |
| AcceptanceReport.LoadIff | release/acceptance_result.py:78-161 | the documents that load are exactly the passed ones without violations whose status is their stage's own, with distinct reasons and well-formed evidence |
| AcceptanceReport.ReportRoundTrip | release/acceptance_result.py:78-161 | a written report is read back unchanged exactly when it is a well-formed passed report |
| AcceptanceReport.BuiltRoundTrip | release/acceptance_result.py:37-161 | a built report passes exactly when the decision gave no reason, nothing was missing and the status is the stage's; then and only then its file loads back as itself |
| ReleaseStore.LocateAbsolute | release/release_evidence_bundle.py:393-410 | the absolute path written for a file of a release leads back to that file |
| ReleaseStore.LocateIff | release/release_evidence_bundle.py:393-410 | exactly the absolute paths that lead below the release are located, at the place they lead to |
| ReleaseStore.NormaliseSays | release/release_evidence_bundle.py:393-410 | resolving goes segment by segment: empty and `.` stay, `..` goes up, the root is its own parent |
| ReleaseStore.ContainedRoundTrip | release/release_utilities.py:117-145 | a path survives being written relative and read as a contained path exactly when its segments are nameable |
| ReleaseStore.ContainedIff | release/release_utilities.py:117-145 | the texts accepted as contained paths are exactly the written forms of nameable ones |
| ReleaseIdentity.ReleaseIdIsName | release/model_release_publisher.py:467-491 | every release id is one clean directory segment that no staging cleanup can take for its own |
| ReleaseIdentity.ReleaseIdSays | release/model_release_publisher.py:467-491 | an id is the prefix and the heads of the checkpoint, metrics and evidence digests, of sixteen, twelve and twelve characters |
| ReleaseIdentity.ReleaseIdEqualIff | release/model_release_publisher.py:467-491 | two promotions share a release directory exactly when their digests agree on the characters the id keeps |
| ReleaseIdentity.TwoCheckpointsOneId | release/model_release_publisher.py:467-491 | a failing input: two checkpoint digests that differ in the last digit share an id |
| ReleaseStaging.StageEvidence | release/release_staging.py:24-59 | the staging loop answers what staging the references one by one answers, rejection included |
| ReleaseStaging.StagesIff | release/release_staging.py:24-116 | staging succeeds exactly when every reference has a place of its own, the checkpoint a sidecar with its digest, files at one place have one digest, and no new file stands where another needs a directory; what is new afterwards are exactly those files |
| ReleaseStaging.TargetSays | release/release_staging.py:37-59 | the checkpoint goes to the top, metrics beside the report, files of the candidate stay where they are, and anything else goes below a directory of its own name if that is a safe segment |
| ReleaseStaging.StageAllStaged | release/release_staging.py:24-116 | a staged candidate keeps every earlier file, has each reference at its own target with its source's digest, and shares no target |
| ReleaseStaging.CopyFile | release/release_staging.py:101-116 | a copy leaves the target with the source's digest and changes no other file |
| ReleaseStaging.CopyCheckpoint | release/release_staging.py:62-81 | the staged checkpoint has the digest of its source and its sidecar beside it |
| Publisher.Prepare | release/model_release_publisher.py:331-387 | from candidate to renamed directory: the outcome, ready or rejected, is the specified one |
| Publisher.IdSays | release/model_release_publisher.py:467-491 | a job's id names its checkpoint, metrics and evidence by the heads of their digests |
| Publisher.StagedPathsKnown | release/model_release_publisher.py:331-355 | whenever staging succeeds every reference of the bundle has a staged file, so the re-addressed bundle is defined |
| Publisher.PublishedCheckpoint | release/model_release_publisher.py:356-395 | the published bundle's checkpoint and checksum sidecar are where they were staged |
| Publisher.Finish | release/model_release_publisher.py:395-440 | loading, gating, report and manifest of the renamed directory: the outcome, complete or not, is the specified one |
| Publisher.CompleteIsAccepted | release/model_release_publisher.py:395-440 | what the specified steps complete was accepted by every check on the way |
| ProductionDirectory.ProductionDirectory.Sweep | release/release_utilities.py:48-53 | exactly the staging directories are removed |
| ProductionDirectory.ProductionDirectory.LoadExisting | release/model_release_publisher.py:494-530 | result and pointer of the retry, with no directory changed |
| ProductionDirectory.ProductionDirectory.WriteCurrentPointer | release/model_release_publisher.py:533-553 | afterwards the pointer references this release and no other name, and with a valid manifest it resolves exactly when the directory passes the whole validation under the policy its manifest records |
| ProductionDirectory.ProductionDirectory.Commit | release/model_release_publisher.py:441-452 | the promotion succeeds exactly when the directory passes the whole validation under the policy its manifest records; the pointer references the release and no other even when the promotion fails |
| ProductionDirectory.ProductionDirectory.Cleanup | release/model_release_publisher.py:453-464 | the staging directory goes, and the release directory goes exactly when the pointer does not reference it |
| ProductionDirectory.ProductionDirectory.PromoteFresh | release/model_release_publisher.py:331-464 | a fresh promotion succeeds exactly when neither staging nor completion refuses it; on failure directories and pointer are as found; on success the one new directory is complete and the pointer resolves to it (digests of its files not colliding) |
| ProductionDirectory.ProductionDirectory.Publish | release/model_release_publisher.py:388-464 | the part of the fresh promotion after the rename |
| ProductionDirectory.ProductionDirectory.PromoteUnderLock | release/model_release_publisher.py:304-464 | the whole promotion: sweep, then retry or fresh promotion, with the complete new state |
| ProductionDirectory.ProductionDirectory.PromoteTwice | release/model_release_publisher.py:304-530 | repeating a successful promotion returns an equal report and changes neither a file nor the pointer |
| ProductionDirectory.RepeatIsIdempotent | release/model_release_publisher.py:494-530 | a retry of a fresh promotion returns the report of the first time, read back from its file, and keeps the pointer |
| ProductionDirectory.RetryIsIdempotent | release/model_release_publisher.py:494-530 | a retry of a successful retry changes nothing |
| ProductionDirectory.RetrySettles | release/model_release_publisher.py:494-530 | a retry of a directory whose manifest and report can be read leaves a pointer that references it; it keeps a pointer that did so before and answers as that resolves, and otherwise writes one and answers as the directory is valid; a directory that cannot be read changes nothing |
| ProductionDirectory.RetrySucceedsIff | release/model_release_publisher.py:494-530 | over a directory in order the retry succeeds exactly when the pointer does not reference it yet or resolves to it |
| ProductionDirectory.StalePointerStays | release/model_release_publisher.py:516-529 | a failing input: a pointer of another version that names the directory is kept, and the retry of a directory in perfect order fails |
| Reproducibility.EvaluateReproducibility | evaluator/reproducibility.py:585-696 | the violation collector computes the specified report, its violations as a set, or rejects exactly the invalid receipts |
| Reproducibility.PassedIffReproducible | evaluator/reproducibility.py:585-696 | `passed` holds exactly when there is a receipt, policy seeds are distinct and are the receipt seeds, run ids are distinct, all receipts agree in each of the six identities, all six determinism settings are on where required, and every policy metric is present with all pairs of runs within tolerance |
| Reproducibility.ViolationsSay | evaluator/reproducibility.py:500-633 | each kind of violation is reported exactly when its cause is there; of each identity, exactly when two receipts differ in that field or there is none |
| Reproducibility.ReportSays | evaluator/reproducibility.py:634-696 | the report's seeds, requirement digest and identities, in terms of receipts and policy |
| Reproducibility.RunsListed | evaluator/reproducibility.py:634-696 | run ids and bindings follow the receipts one by one |
| Reproducibility.RequiredSeedsSay | evaluator/reproducibility.py:634-696 | the required seeds are the policy's, each once, in order |
| Reproducibility.MetricsSay | evaluator/reproducibility.py:514-557 | a metric is aggregated exactly when every run reports it, into mean, least, greatest and their gap |
| Reproducibility.ReceiptOrderIrrelevant | evaluator/reproducibility.py:585-696 | violations and `passed` do not depend on the order of the receipts |
| Reproducibility.PolicySeedOrderIrrelevant | evaluator/reproducibility.py:560-696 | the whole report does not depend on the order of the policy's seeds |
| Reproducibility.ReportLoadsIff | evaluator/reproducibility.py:699-806 | a computed report passes its own validation exactly when there is a receipt, the policy id is not blank and no policy seed is repeated |
| Reproducibility.ReportValidIff | evaluator/reproducibility.py:699-806 | a persisted report is accepted exactly when a passed one has no violations, every run has one binding with a digest, the identities are digests, and the requirement digest is that of the declared policy with its seeds in order |
| Reproducibility.RepeatedSeedReportFails | evaluator/reproducibility.py:699-806 | a failing input: a policy with one seed listed twice, whatever the receipts |
| Reproducibility.SpreadIsLargestGap | evaluator/reproducibility.py:544-556 | comparing the spread of a metric with its tolerance is comparing all pairs of runs |
| Reproducibility.CheckCampaign | evaluator/reproducibility.py:606-630 | the campaign checks collect exactly the violations of seeds and run ids |
| Reproducibility.CompareMetrics | evaluator/reproducibility.py:514-557 | the metric loop collects exactly the specified violations and aggregates |
| Reproducibility.RequireSame | evaluator/reproducibility.py:500-507 | one violation is appended exactly when two receipts differ in the field |
| Reproducibility.ValidateReceipts | evaluator/reproducibility.py:181-245 | the validation loop accepts exactly lists of valid receipts |
| Reproducibility.ReceiptValidIff | evaluator/reproducibility.py:181-245 | a receipt is valid exactly with its schema, names that are not blank, six digests, a metric and a value for each determinism setting |
| Reproducibility.DigestIff | evaluator/reproducibility.py:817-829 | a digest is sixty-four characters that read as hexadecimal, none upper case |
| RateLimit.PruningNeverMatters | logger/filters.py:46-129 | in every run the filter decides a record as an unbounded table would, unless the capacity bound pushed that record's key out earlier |
| RateLimit.SpacedUnlessEvicted | logger/filters.py:46-129 | two accepted records of one key are closer than its interval only if capacity pushed the key out in between |
| RateLimit.KeysAgreeIff | logger/filters.py:81-94 | two records share a key exactly when they have one event and each governed field is missing from both or has one value in both |
| RateLimit.IntervalIs | logger/filters.py:53-62 | the interval is that of the event's rule, or the default without one |
| RateLimit.NovelIsAccepted | logger/filters.py:46-94 | a record unlike every earlier one in event or governed fields is accepted |
| RateLimit.SuppressedBecause | logger/filters.py:46-94 | a record is suppressed only because an accepted earlier one agrees with it in event and governed fields, less than the interval ago |
| RateLimit.AlikeAreSpaced | logger/filters.py:46-129 | two accepted records alike in that sense and closer than the interval have a capacity eviction between them |
| RateLimit.EvictsIff | logger/filters.py:96-129 | capacity pushes a key out exactly when an accepted record leaves more than `max_entries` entries that are not stale |
| RateLimit.NeverEvictsIff | logger/filters.py:96-129 | over a whole run: capacity never pushes a key out exactly when the filter that never forgets never has more than `max_entries` keys let through within the stale window |
| RateLimit.FewKeysNeverMatter | logger/filters.py:96-129 | then the bounded filter decides every record like the filter that never forgets |
| RateLimit.RunKeepsTable | logger/filters.py:96-129 | in every run the table has at most `max_entries` entries, each key once, in time order |
| RateLimit.StepKeepsCoupling | logger/filters.py:46-129 | one call keeps the bounded table and the reference together: what the table has forgotten is too old to matter |
| RateLimit.EventRateLimitFilter.Filter | logger/filters.py:46-79 | decision and new table of one call; a record that already carries a decision gets it again and the table is not touched; in particular a record that differs from every earlier one in event or in a governed field is accepted |
| RateLimit.EventRateLimitFilter.Remember | logger/filters.py:96-106 | the key moves to the end with the new time, then the table is pruned if it is too large |
| RateLimit.EventRateLimitFilter.Prune | logger/filters.py:108-129 | the two removal loops drop the stale front and then the oldest entries |
| RateLimit.LargestInterval | logger/filters.py:109-118 | the largest of the default interval, the governed intervals and one second |
| HardNegatives.Batches | mmcrawler_datasets/sampling.py:51-86 | the pending-list loop yields the specified schedule |
| HardNegatives.NextBatch | mmcrawler_datasets/sampling.py:61-83 | one turn of the outer loop: anchor, unused negatives in order, then what is pending |
| HardNegatives.FillAppends | mmcrawler_datasets/sampling.py:67-83 | filling a batch appends new, distinct, unused members, marks exactly those used, and stops only when the batch is full or nothing is left |
| HardNegatives.EveryIndexOnce | mmcrawler_datasets/sampling.py:51-86 | without `drop_last` the batches hold each index exactly once, for every order and every negatives map |
| HardNegatives.FewDropped | mmcrawler_datasets/sampling.py:51-91 | with `drop_last` no index comes twice and the number left out is the remainder by the batch size |
| HardNegatives.LengthIsExact | mmcrawler_datasets/sampling.py:88-91 | the number of batches is `__len__`, for both settings of `drop_last` |
| HardNegatives.NegativesStayClose | mmcrawler_datasets/sampling.py:67-77 | all batches but the last are full; a negative that the map gives an anchor is missing from the anchor's batch only if an earlier batch took it or other negatives of the anchor filled the batch |
| HardNegatives.IndexNegatives | mmcrawler_datasets/sampling.py:96-118 | each supported record gets the other records its negative ids resolve to, once each, in order of first mention; all indices are in range |
| HardNegatives.IndexIds | mmcrawler_datasets/sampling.py:97-101 | an id resolves to the last record that carries it, as itself or as its positive |
| TaskBatches.Batches | mmcrawler_datasets/sampling.py:146-160 | the group loop yields the specified schedule; of the batches themselves: each holds one task and signature, scheduled tasks come by their last place in the schedule, before the unscheduled ones if it repeats none, unscheduled tasks in string order, and equal tasks in signature order |
| TaskBatches.GroupIndices | mmcrawler_datasets/sampling.py:178-186 | every key that occurs gets exactly its indices |
| TaskBatches.EveryIndexOnce | mmcrawler_datasets/sampling.py:146-160 | without `drop_last` the batches hold each index exactly once |
| TaskBatches.FewDropped | mmcrawler_datasets/sampling.py:145-186 | with `drop_last` no index comes twice and each group leaves out the remainder by the batch size |
| TaskBatches.BatchesFollowKeys | mmcrawler_datasets/sampling.py:146-160 | no batch mixes two (task, signature) keys, and the keys of successive batches follow the curriculum order |
| TaskBatches.TotalBatches | mmcrawler_datasets/sampling.py:164-173 | `__len__` is the sum over the groups, whatever order they are listed in |
| TaskBatches.LengthIsExact | mmcrawler_datasets/sampling.py:146-173 | the number of batches is `__len__`, for both settings of `drop_last` |
| TaskBatches.KeyOrderIgnoresShuffle | mmcrawler_datasets/sampling.py:424-445 | the group order is the one strictly increasing order under (rank, task, signature); the shuffle cannot change it |
| TaskBatches.BatchesInCurriculum | mmcrawler_datasets/sampling.py:146-160 | the batches of the specification come in that order, whatever the shuffle |
| TaskBatches.KeyLeSays | mmcrawler_datasets/sampling.py:431-445 | what the key order means for the places in the schedule, for the names of tasks and for signatures |
| TaskBatches.ScheduledFirstIff | mmcrawler_datasets/sampling.py:431-445 | scheduled tasks all rank before unscheduled ones exactly when the schedule repeats no task |
| TaskBatches.RepeatedTaskNotFirst | mmcrawler_datasets/sampling.py:431-445 | a failing input: under a schedule that repeats a task an unscheduled task ranks like it |
| DistributedSampling.RankItems | mmcrawler_datasets/sampling.py:301-327 | each rank receives exactly its items: `__len__` of them, the k-th being item rank + k * replicas, going round the source only without `drop_last` |
| DistributedSampling.Equalised | mmcrawler_datasets/sampling.py:301-310 | the padded or truncated list has the total size and its item i is source[i mod n] |
| DistributedSampling.RanksInterleave | mmcrawler_datasets/sampling.py:351-375 | taking the ranks in turn gives back the truncated source, or the source gone round until the ranks are equal |
| DistributedSampling.FairShares | mmcrawler_datasets/sampling.py:301-375 | without `drop_last` every item is handed out and copy counts differ by at most one; with it exactly the first total items are handed out, once |
| DistributedBatches.HardNegativeRanks | mmcrawler_datasets/sampling.py:332-375 | the hard-negative batches over ranks: every rank gets as many batches as the wrapper's length says of the records; with nothing dropped every record reaches some rank, and exactly once when the ranks divide the number of batches |
| DistributedBatches.TaskRanks | mmcrawler_datasets/sampling.py:332-375 | the same of the task batches, their number being the sum over the groups |
| RecordScan.ScanText | mmcrawler_datasets/dataset.py:506-538 | the offset loop with its bounded `readline` yields what a scan of the complete lines yields, errors included |
| RecordScan.BoundedRead | mmcrawler_datasets/dataset.py:509-518 | a bounded read is over the byte limit exactly when the complete line is, and otherwise is the complete line |
| RecordScan.LinesSay | mmcrawler_datasets/dataset.py:506-518 | the lines joined are the text; a newline stands at the end of every line but perhaps the last, and nowhere else |
| RecordScan.BytesSay | mmcrawler_datasets/dataset.py:512-518 | the byte count is one for a character and one more from U+0080, U+0800 and U+10000 on |
| RecordScan.ScanTextSays | mmcrawler_datasets/dataset.py:506-538 | a text yields exactly the rows of its lines up to the first one that is too long or no record, each with its number and the length of all earlier lines, and an error exactly when there is such a line |
| RecordScan.ScanTarSays | mmcrawler_datasets/dataset.py:463-504 | a tar file yields exactly the rows of its members up to the first that is not a legal, new, readable record within the limits, and an error exactly when there is one |
| RecordScan.ScanTar | mmcrawler_datasets/dataset.py:463-504 | the member loop yields one row per legal member in order and ends at the first illegal one |
| RecordScan.ReadTarRecord | mmcrawler_datasets/dataset.py:541-571 | the walk to the indexed position returns the member there exactly when it is still the indexed one and legal |
| RecordScan.ScanReadsBack | mmcrawler_datasets/dataset.py:98-107 | every scanned row, read back through its offset or tar position, is the scanned record; positions increase strictly |
| DatasetIndex.BuildIndex | mmcrawler_datasets/dataset.py:110-188 | the index built by the nested loops is the specified one, or an error exactly when the scan breaks before the maximum |
| DatasetIndex.ApplyTaskMinimums | mmcrawler_datasets/dataset.py:383-423 | exactly the refs of undercovered tasks are dropped, each with its logged reason |
| DatasetIndex.IndexSound | mmcrawler_datasets/dataset.py:110-188 | the index keeps the first usable row of each record id, in scan order, from a stretch of the scan cut short only by the maximum; seen = kept + rejected, every rejection logged; every kept ref reads back |
| DatasetIndex.MinimumsMet | mmcrawler_datasets/dataset.py:383-423 | after filtering, a task with a positive minimum is absent or at its minimum, other counts are unchanged, and the books still balance |
| DatasetIndex.MaximumHeldIff | mmcrawler_datasets/dataset.py:168-174 | the index respects `max_samples` exactly when it is positive or the first file holds no usable record |
| DatasetIndex.ZeroKeepsOne | mmcrawler_datasets/dataset.py:168-174 | a failing input: one usable record is kept under a maximum of zero |
| JsonComplexity.ValidateComplexity | mmcrawler_datasets/safe_io.py:166-179 | the explicit-stack loop accepts exactly the values whose recursive node count and depth are within the limits, and each error names an exceeded limit |
| JsonComplexity.AnyOrderAccepts | mmcrawler_datasets/safe_io.py:166-179 | the verdict is the same whatever order pending values are visited in |
| PairedStatistics.WilsonIsScoreInterval | evaluator/results.py:369-384 | the interval holds exactly the values the score test does not reject |
| PairedStatistics.WilsonEncloses | evaluator/results.py:369-384 | the unclamped bounds lie in [0, 1] and enclose the rate |
| PairedStatistics.WilsonMirrors | evaluator/results.py:369-384 | exchanging wins and losses mirrors the interval around one half |
| PairedStatistics.BootstrapInterval | evaluator/results.py:387-403 | too few samples or no seed is an error; otherwise the bounds are the two order statistics of all resampled means |
| PairedStatistics.BootstrapOrdered | evaluator/results.py:387-403 | the bootstrap bounds are probabilities in order |
| PairedStatistics.EstimateOfAll | evaluator/results.py:387-399 | a resample that draws every outcome once has the mean of the outcomes |
| PairedStatistics.EstimatesSay | evaluator/results.py:387-399 | for each seed and turn there is one resampled mean: of the outcomes at the positions that this seed's generator draws in this turn |
| PairedStatistics.QuantilesMirrorIff | evaluator/results.py:400-403 | the two quantile positions mirror each other exactly when 40 divides the last position, which the defaults do not meet |
| PairedStatistics.CountOutcomes | evaluator/results.py:184-210 | the loop's counters are the numbers of wins, ties and losses among the outcomes |
| PairedStatistics.FromScores | evaluator/results.py:173-234 | a comparison is built exactly for non-empty score vectors of one length, a capability, 100 samples and distinct seeds; it measures the scores, its bootstrap bounds are the two order statistics of all resampled means, and it passes its own checks |
| PairedStatistics.ConstantOutcomes | evaluator/results.py:211-233 | outcomes that are all alike give that value for both bootstrap bounds: losses throughout are a regression for every margin below one half, wins throughout are none for a margin of at least minus one half |
| PairedStatistics.QuantilePositions | evaluator/results.py:400-403 | the two positions are a fortieth and thirty-nine fortieths of the last index, rounded down |
| PairedStatistics.BuiltIsAccepted | evaluator/results.py:106-171 | a measured comparison meets every demand of `__post_init__` |
| PairedStatistics.ExchangeMirrorsIff | evaluator/results.py:201-210 | exchanging the models exchanges wins and losses exactly when the tie tolerance is not negative or no pair is equal |
| PairedStatistics.EqualPairNotMirrored | evaluator/results.py:201-210 | a failing input: two equal scores under a negative tolerance |
| PairedStatistics.ExchangeMirrorsInterval | evaluator/results.py:211-215 | then win rate and Wilson interval are mirrored |
| ShutdownSequence.ResourceShutdownManager.AddStep | orchestration/resource_shutdown.py:63-82 | the error in the order of the checks, or the step appended under its stripped, unique name |
| ShutdownSequence.ResourceShutdownManager.Close | orchestration/resource_shutdown.py:84-147 | started handlers are a prefix of reverse registration order, the errors are those of the steps, nothing stays registered, and a second close does nothing |
| ShutdownSequence.OneOutcomeEach | orchestration/resource_shutdown.py:96-142 | the errors name exactly the steps that failed, overran or were skipped, once each and in order |
| ShutdownSequence.ErrorsSay | orchestration/resource_shutdown.py:96-142 | each error blames a step that was not started, overran, could not be started or failed, with that cause, and every such step is blamed |
| ShutdownSequence.RaisesIffSomeFailed | orchestration/resource_shutdown.py:144-147 | an error is raised exactly when some step did not succeed |
| ShutdownSequence.StartedIffInTime | orchestration/resource_shutdown.py:96-108 | on a monotone clock a step is started exactly when the deadline has not passed at its turn, so skipping the rest at once skips nothing that had time |
| AugmentationRun.Augment | augmentation/training_dataset_augmenter.py:68-142 | input is a prefix of the output, followed by the added variants; the report is the one the run calls for; a disabled run changes nothing |
| AugmentationRun.AugmentationRunState.Claim | augmentation/augmentation_run_accumulator.py:43-48 | a sample is claimed exactly when it has an identity no original and no added variant has |
| AugmentationRun.AugmentationRunState.AddVariant | augmentation/augmentation_run_accumulator.py:50-70 | the five counters stay the counts of what was added |
| AugmentationRun.AugmentationRunState.RejectRow | augmentation/augmentation_run_accumulator.py:90-108 | the completed row is appended and both rejection counters stay its counts |
| AugmentationRun.EveryEventSettled | augmentation/training_dataset_augmenter.py:83-126 | every offered variant, given rejection and skipped sample ends as one added variant or one rejection row |
| AugmentationRun.AddedAreNovel | augmentation/training_dataset_augmenter.py:83-126 | a variant is added exactly when it is the first in the whole run with its identity and no original has it |
| AugmentationRun.AddedDistinct | augmentation/augmentation_run_accumulator.py:43-48 | added identities are distinct and differ from every original's |
| AugmentationRun.SameIdentityIff | augmentation/augmentation_run_accumulator.py:140-167 | two samples are the same variant exactly when both have text and agree in text identity, effective modality and task, label, source, operation and paths |
| AugmentationRun.RejectedRows | augmentation/training_dataset_augmenter.py:83-126 | the events that add nothing leave one row each, in order: skipped for their split, given by an augmenter, or duplicates under their reason |
| AugmentationRun.CompletedSays | augmentation/augmentation_run_accumulator.py:202-230 | a given row keeps what it says and gets the rest from the sample |
| AugmentationRun.RowSays | augmentation/augmentation_run_accumulator.py:174-200 | the row of a skipped sample or a duplicate has the sample's own data and the defaults of the report |
| AugmentationRun.SplitSays | augmentation/training_dataset_augmenter.py:36-39 | the split is the stripped lower-case metadata, and train when that is blank |
| AugmentationRun.CounterCounts | augmentation/augmentation_run_accumulator.py:170-171 | a counter has exactly the keys counted, each with its number of occurrences |
| AugmentationRun.CountedKeys | augmentation/augmentation_run_accumulator.py:50-108 | what each counter counts, variant by variant and row by row |
| AugmentationRun.ReportBalances | augmentation/augmentation_run_accumulator.py:110-137 | each variant counter sums to the variants added, both rejection counters to the rejection rows, and the sizes add up |
| SplitAssignment.Normalise | mmcrawler_datasets/schema.py:561-588 | negative ratios are refused; the others are scaled to sum to one, all-zero meaning train only |
| SplitAssignment.AssignMany | mmcrawler_datasets/schema.py:600-641 | the assignment is the slices of the ordered distinct keys: validation, test, train |
| SplitAssignment.Rebalance | mmcrawler_datasets/schema.py:621-628 | the rebalancing loop ends with the specified sizes |
| SplitAssignment.BalancedFits | mmcrawler_datasets/schema.py:621-628 | exactly enough is taken away to leave one train key, no split with a key is emptied from three keys on, and a split only shrinks while it is not the smaller one, test first: together these determine the sizes |
| SplitAssignment.AssignmentCovers | mmcrawler_datasets/schema.py:600-641 | exactly the given keys are assigned; any key leaves a train key; from three keys on every positive ratio keeps its split non-empty, and a ratio of zero keeps it empty |
| SplitAssignment.TargetSays | mmcrawler_datasets/schema.py:656-664 | a split is meant to get the whole keys in its share, and one key at least from three keys on unless its ratio is zero |
| SplitAssignment.SplitSizes | mmcrawler_datasets/schema.py:608-641 | validation and test get as many keys as the rebalanced targets say |
| SplitAssignment.SplitsFollowDigests | mmcrawler_datasets/schema.py:607-654 | keys go to validation, test and train in the order of their digests, and of the keys where digests agree |
| SplitAssignment.AssignmentBySet | mmcrawler_datasets/schema.py:607-641 | the assignment depends only on the set of keys |
| TextTruncation.TruncationIsPrefix | augmentation/text/text_variant_assembler.py:213-264 | a non-empty text without leading space is cut to a non-empty prefix of at most the maximum length |
| TextTruncation.PreparedFits | augmentation/text/text_variant_assembler.py:100-133 | rejected as empty, rejected as too long, kept whole or cut: each exactly when it should be, and what comes out is a non-empty prefix that fits |
| TextTruncation.BoundaryIsPreferred | augmentation/text/text_variant_assembler.py:230-241 | the cut falls on the last late occurrence of the first marker that occurs late enough; there is none exactly when no marker does |
| TextTruncation.MarksRank | augmentation/text/text_variant_assembler.py:223-241 | a paragraph break wins over a line break, then the ends of sentences, lesser stops, a space; the stop stays and white space goes |
| TextTruncation.TokenCut | augmentation/text/text_variant_assembler.py:244-251 | otherwise the cut falls before the last white space, or nowhere |
| TextTruncation.FencesClosedIff | augmentation/text/text_variant_assembler.py:254-264 | after the fence step the number of fences is even exactly when the only fence does not start the text |
| TextTruncation.OnlyFenceStays | augmentation/text/text_variant_assembler.py:254-264 | a failing input: a text whose only fence starts it keeps it |
| TextTruncation.TruncationParity | augmentation/text/text_variant_assembler.py:213-264 | the truncated text has an unclosed fence exactly when, in what the fence step left, the end of the last late occurrence of the first late marker, or without one the last white space, lies inside a fenced block of the text |
| TextTruncation.PreferredCutIff | augmentation/text/text_variant_assembler.py:223-251 | there is exactly one such place, and the last cut falls on it |
| TextTruncation.TruncationReopens | augmentation/text/text_variant_assembler.py:213-264 | a failing input: a text whose block is closed, truncated to one whose block is open |
| TextTruncation.CutTakesOne | augmentation/text/text_variant_assembler.py:254-264 | cutting at the last occurrence takes away exactly one fence, overlaps included |
| AudioTimeline.SurvivesIff | augmentation/audio/audio_timestamps.py:21-41 | an interval survives exactly when it overlaps the retained range and its start maps before the end of the output; it then lies inside the output with start before end |
| AudioTimeline.IntervalInSource | augmentation/audio/audio_timestamps.py:21-41 | mapped back to source time a surviving start is the source's start or the cut, a surviving end the source's end, the cut or the end of the output; an error exactly for a negative or reversed interval |
| AudioTimeline.PointInSource | augmentation/audio/audio_timestamps.py:43-54 | a point survives exactly inside the retained range and maps back to itself or to the end of the output; an error exactly when negative |
| AudioTimeline.ItemFails | augmentation/audio/audio_timestamps.py:57-142 | an item is an error exactly when it has no usable, ordered, non-negative times, and is dropped exactly when the timeline drops it, its times read in its own unit |
| AudioTimeline.DisjointStayDisjoint | augmentation/audio/audio_timestamps.py:21-41 | intervals that follow one another in the source do so in the output |
| AudioTimeline.EndpointsAgree | augmentation/audio/audio_timestamps.py:21-54 | an endpoint inside the retained range maps where `point` maps it |
| AudioTimeline.PointsMonotone | augmentation/audio/audio_timestamps.py:43-54 | points keep their order and lie inside the output |
| AudioTimeline.TransformCollection | augmentation/audio/audio_timestamps.py:57-142 | an error in any item is an error of the whole; otherwise the result is exactly the surviving items, in order |
| AudioTimeline.SurvivorsInside | augmentation/audio/audio_timestamps.py:126-210 | times written back in their own unit read as times inside the output |
| AudioTimeline.CollectionKeepsOrder | augmentation/audio/audio_timestamps.py:57-142 | items that follow one another in seconds, spans and moments of any units, follow one another in seconds through the whole transformation; two spans of one unit also in that unit |

## Left out

Release promotion:

- Raw JSON shapes: a release document is an object with exactly its members and types, and anything
  else parses to no document; that Python equates 1, 1.0 and True is not modelled.
- Symbolic links, file-size limits of the readers, fsync, permissions and concurrent file-system
  changes by other programs; a rename and the replacement of the pointer are single steps.
- SHA-256 is any function to 64 hexadecimal digits; where a proof needs two files told apart by
  their digests it says so for those files.
- Leakage reports, serving exports, model cards and other JSON artifacts are opaque checks of the
  bytes; the candidate checks of `promote_model` before the lock are the precondition `ValidJob`.
- Thread and process locking: one holder at a time is built into the state machine; the time-out of
  the lock is a refused attempt.
- I/O errors while the cleanup reads the pointer.
- File names and paths below the candidate directory are those of a file system: the theorems of
  `PromotionCompletes` take them to have no empty, `.` or `..` segments.
- PromotionRefinement.PromotionIsARun: the intermediate directories of a failing promotion; the state
  machine has steps for them, but the run given takes none of them.
- Liveness: a directory left without a manifest makes every retry fail; only safety is claimed.
- PromotionProtocol.RunKeepsInv: what is copied or written is arbitrary, so the invariant says
  nothing of content beyond what the manifest records.
- Reproducibility.EvaluateReproducibility: violations are compared as sets, not as the sorted texts
  the source formats.
- The publisher's separate metrics path of the acceptance report, which equals the path of the
  `training_metrics` reference.

Elsewhere:

- Floating point: numbers are reals, ceilings and quantile positions exact, finiteness checks moot.
  A square root is a number with the right square, given by the caller; the width z of the Wilson
  interval is any positive number, with the default of the source.
- Random generators: a shuffle is any permutation and a draw any index.
- RateLimit.EventRateLimitFilter.Filter: a negative `max_entries`, with which the source raises, is
  not modelled; calls are sequential, with clock readings that do not decrease across a run.
- HardNegatives.Batches: a generator's laziness; the batches are a list.
- `build_task_weighted_sampler` and `_task_weight`: weights for an opaque sampler.
- RecordScan.ScanText: newline translation and the opaque text-mode offsets of Python; offsets are
  character positions, white space is ASCII white space. The limits on bytes and members are
  parameters (four mebibytes and a hundred thousand in the source).
- Record parsing, sample validation and member-name rules are opaque functions of the text.
- The rejected-rows file is the list of its rows.
- ShutdownSequence.ResourceShutdownManager.Close: cancellation of the close itself, base exceptions
  and what an abandoned handler does later; the constructor's coercion of its time-out argument is a
  precondition.
- AugmentationRun.Augment: the quality assessment in the report, the free-text message of a
  rejection, and what the augmenters compute; fatal errors of an augmenter.
- `SplitAssigner.assign`, a comparison of one hash fraction with the ratios.
- Metadata of text variants and the duplicate check inside one sample.
- AudioTimeline.TransformCollection: which keys of an item carry its times; an item is a span or a
  moment with its unit, or malformed.
- Torch models, losses, tensor and media code, configuration loading, the command line, workflow
  decision rules and task thresholds: foreign calls or single-branch facts.
