# Verified model of the infrastructure agent

The agent keeps infrastructure steps at the releases of their module sources. This project models the parts of it
that decide something over time, and proves what they promise:

- **Release stepping** (`Window`, `Stepping`, `UpdaterModule`, `Start`): for each source the agent cuts a window of
  release tags, then walks it release by release; per step it chooses module versions, runs or skips the pipeline by
  comparing folder checksums, and records what was applied. `UpdaterModule.Updater` is a class with the state file,
  the two checksum maps and the first-run flags as fields; a ghost field holds the version each module had when its
  step's pipeline last succeeded. Everything the agent cannot decide (missing parameters, pipeline results, other
  changes) is an `Environment` of arbitrary functions. Versions are integer triples in lexicographic order.
- **One release as a schedule** (`Scheduler`): the main goroutine, the goroutines of parallel steps, the wait group,
  the count beside it and the error channel, over every interleaving. Lowering the count is a step of its own, as in
  the code, or one step with leaving the wait group; the flag `atomic` chooses.
- **State reconciliation** (`Reconcile`): the state file as a class, with the backward deletion loops.
- **Log forwarding** (`LogStream`): bounded queues that drop when full, the supervisor, the pending batch that
  survives broken streams, and the drain before completion. A run is any list of possible events; histories record
  what was accepted, what was sent, and what the server may have seen of sends that failed.
- **Template substitution** (`Substitution`): the code replaces the first occurrence of each matched tag in turn and
  the agent tags last; the reference puts every tag's text in its own place.
- **Migration** (`Migration`, `PlanTree`): which state resources an import configuration covers, whether the reported
  items close the gap, and the search of the plan tree.
- **Plan summary** (`Rollup`, `PlanSummary`, `Sorting`): classification, roll-up and sorting of a plan's changes.
- **Approval** (`Approval`, `AwsPipeline`, `GcloudPipeline`, `LocalPipeline`): one policy and three executors, the two
  remote ones polling an arbitrary environment.

`Versions`, `Model` and `Strings` hold shared types and string operations.

What the proofs found out about the code:

- A choice that leaves the state alone can record a version that did not run: after a failed pipeline the state still
  names the failed version, and a later run of an older release records it (`Stepping.RecordedIsWhatRan` says exactly
  when, `Stepping.StaleVersionIsRecorded` shows one).
- A module that is applied above its target is not held back: it follows the window to its end, and one whose target is
  no release passes it. The walk ends at the target exactly if the module is there, or the target is a walked release
  and not below it (`Stepping.EndIs`, `Stepping.WalkEnds`; `Stepping.AboveTargetEndsAtNewest` is an instance).
  `UpdaterModule.Updater.Process` and `Start.Update` say so for all modules of an update. The configuration check
  refuses a version of the module itself below the state's (service/config.go:758-786), so the usual case is a module
  without one, below whose applied version the source's version is set.
- Behind the end of its window, while another source still has releases, a module's files are made from its target and
  its state stays. A module that has gone past its target is then run at the one and recorded at the other, and one
  that was never applied, over a single release, is recorded at no version (`Stepping.ExhaustedWindowRunsTarget`).
- Reading a module's version from a template marks the module as approved (`Stepping.ReadingAVersionApproves`,
  `Stepping.LateReadApproves`), unless the module's own choice follows at the same release
  (`Stepping.EarlyReadIsUndone`).
- A goroutine leaves the wait group before it lowers the count, so a retried step can be deferred a second time and is
  then forgotten while the release reports success (`Scheduler.NoStepLost`, `Scheduler.RetryCanBeLost`).
- A supervisor that gives up reconnecting reports no error although accepted lines were never sent
  (`LogStream.GivingUpReportsNoError`). A verdict without error means delivery exactly in the runs without giving up
  (`LogStream.VerdictOfDelivery`).
- An escaped tag leaves the text of a tag; if the same tag follows, that text is replaced and the tag itself stays
  (`Substitution.CleanExactly`, `Substitution.EscapedTextIsHit`).
- A reported root resource behind a module resource of the same type and name is reported again however often its
  item is added (`Migration.RootTwinIsNeverCovered`); adding items a second time never helps
  (`Migration.OneRoundDecides`). The destination module of a planned resource is cut short when the module's
  own path contains the resource type (`PlanTree.ModuleIsFound`, `PlanTree.ModuleIsCutShort`).
- The agent's README says that `minor` and `major` require manual approval when a module has such a version change. The
  code compares versions only of a module that is already applied from the same source; every jump of a module that is
  new, moves to another source or is forced to a version is approved (`Stepping.LegacyApproval`,
  `Approval.ChangesApproved`; `Approval.MinorApprovesNewSource` is an instance).
- The agent's README says that modules with an external source require manual approval. The code approves changes of
  such modules exactly under every legacy policy but a missing one, `always` and `reject`
  (`Stepping.ClientApproval`, `Approval.ExternalSourcesApproved`; `Approval.MinorApprovesExternalSource` is an
  instance). The model follows the code.

Check with `dafny verify dfyconfig.toml` (Dafny 4.11).

## Model

| member | source | states |
|---|---|---|
| Window.OldestVersion | service/update.go:1140-1198 | the result is at most every version that the configuration or the state mentions for the source, and is one of them or the source's own; it fails exactly on a version that is no release |
| Window.NewestVersion | service/update.go:1200-1241 | the result is at least every wanted version and is wanted; "stable" wins at once and means no bound |
| Window.GetReleases | git/source.go:251-263 | the early break loses nothing: exactly the sorted run of tags between the two bounds |
| Window.GetSourceReleases | service/update.go:1103-1138 | succeeds exactly if the oldest mentioned version is the latest release, or is a release and the newest wanted version is one too or "stable"; the cut is exactly the run of tags from the oldest mentioned version to the newest wanted one, or the latest, and has every target that is a tag; with only releases mentioned, it fails exactly when no module uses the source and its upper version is not the latest |
| Window.OneCut | service/update.go:1103-1138 | configuration and state determine the window |
| Window.FirstRelease | service/update.go:1140-1198 | the first release over the fields of configuration and state: at or below the version of the source, of every module, and of every entry of the source, the applied one if there is one; and one of these |
| Window.OtherSourcesIgnored | service/update.go:1140-1198 | entries of other sources have no influence |
| Start.CutArrives | service/update.go:1103-1138 | over a cut, exactly when a module that can start ends at its target, in terms of its versions and the tags of the source, and where it ends otherwise |
| Start.CutTracks | service/update.go:1103-1138 | over a cut, exactly when the checksums can be trusted for a module |
| Start.CutsStart | service/update.go:373-399 | if all modules can start over the cuts, they can in the updater, beside sources with a forced version |
| Start.AddSourceReleases | service/update.go:373-399 | succeeds exactly if every source without a forced version can be cut; then each gets its window |
| Start.OneWindowEach | service/update.go:373-399 | configuration and state determine all windows |
| Start.Update | service/update.go:427-451 | from configuration and state: an update that succeeds and forgets no retried step leaves every module that could start at its target, if that is reached, or at the end of its window, or beyond it where it was, and the modules of forced sources at the forced version; it succeeds if all windows can be cut, all modules can start and nothing goes wrong; and the folder of every module whose checksums can be trusted has at its applied version the content its last pipeline ran on |
| Start.Run | service/update.go:427-451 | from configuration and state: a run that succeeds and forgets no retried step has run every module, a new one at the lower of the first release of its window and its target, an applied one at its applied version, the modules of forced sources and those with a source of their own at theirs |
| Start.CutKeepsApplied | service/update.go:1498-1558 | over any cut, a run gives every applied module exactly its applied version |
| Stepping.OneRelease | service/update.go:1498-1558 | on its path a module's choice never fails, moves up and not past the end of the walk, and stays on the path, whether it is recorded, chosen only or passed over |
| Stepping.ChoosingAgain | service/update.go:636-651 | a retried step that chooses a second time gets the same version and state |
| Stepping.NeighboursSuffice | service/update.go:757-796 | comparing a folder at two neighbouring releases decides whether it differs between the module's old and new version, for every module whose versions follow the releases |
| Stepping.TrackGoesOn | service/update.go:1398-1411 | what is recorded for such a module is what its files were made from |
| Stepping.ChangesExactly | service/update.go:1498-1558 | exactly when a choice counts as a change |
| Stepping.ChoiceAppliesNothing | service/update.go:1498-1558 | a choice keeps the applied version of a module that stays with its source and forgets that of one that moves |
| Stepping.ExhaustedWindowRunsTarget | service/update.go:1527-1529 | behind the end of its window a module's files are made from its target and its state stays; they agree exactly if the state names the target |
| Stepping.EndIs | service/update.go:1498-1558 | where the walk of any module that can start ends: never lower, at the target exactly if it arrives there, otherwise at the newest release or beyond it |
| Stepping.RecordedIsWhatRan | service/update.go:1398-1411 | exactly when the recorded version is the one the files were made from |
| Stepping.StaleVersionIsRecorded | service/update.go:1549-1554 | a concrete state in which it is not |
| Stepping.RunKeepsApplied | service/update.go:1540-1557 | a run makes the files from the applied version whatever the target, and exactly when it keeps it recorded |
| Stepping.EndsAtTarget | service/update.go:1546-1557 | exactly when the last release leaves an applied module at its target |
| Stepping.WalkEnds | service/update.go:427-451 | the choices over all releases end there |
| Stepping.AboveTargetEndsAtNewest | service/update.go:427-451 | an instance that misses its target, and then runs it without recording it |
| Stepping.ClientApproval | service/update.go:1504-1569 | exactly which policies mark a module with an external source as approved |
| Stepping.LegacyApproval | service/update.go:1504-1588 | exactly when a choice marks the module as approved, in every branch; `major` and `minor` compare the named segments only when a module of the same source advances |
| Stepping.ReadingAVersionApproves | service/replace.go:352-366 | a template that reads a version after the module's own choice leaves the same state except that the module counts as approved |
| Stepping.EarlyReadIsUndone | service/replace.go:352-366 | a read before it finds the same version, and the own choice then leaves what it would have left without the read |
| Stepping.LateReadApproves | service/replace.go:352-366 | a read after the version was recorded changes nothing but the approval |
| UpdaterModule.Updater.UpdateState | service/update.go:579-586 | the entries are exactly those of the configured modules; known ones are kept, new ones are fresh |
| UpdaterModule.Updater.UpdateChecksums | service/update.go:1640-1661 | the maps hold the folder checksums of the release at the index; sources without that release keep theirs, which are those of their last |
| UpdaterModule.Updater.UpdateModuleVersions | service/update.go:1469-1496 | every module of the step, and no other, gets its choice; it reports a change exactly if one changed, and fails exactly if a choice fails or a changed module is not in its source |
| UpdaterModule.Updater.ChangedModules | service/update.go:757-796 | empty exactly if the checksum of every module's folder, below modules/k8s for an ArgoCD step and below modules for others, is known and equal at both releases; every other module is listed |
| UpdaterModule.Updater.HasChanged | service/update.go:702-724 | no change exactly if nothing else changed, no module is a client module and all these folders are equal |
| UpdaterModule.Updater.OnlyTheFolderCounts | service/update.go:757-796 | no other entry of the checksums has an influence |
| UpdaterModule.Updater.PutApplied | service/update.go:1398-1411 | exactly the modules of the step record their chosen version |
| UpdaterModule.Updater.ApplyRelease | service/update.go:673-700 | a step is passed over exactly if it had its first run and nothing to run, and vouched for exactly if it had something to run that does not differ; otherwise its pipeline runs |
| UpdaterModule.Updater.ProcessStep | service/update.go:588-634 | what each outcome leaves in the state, the flags and the history, and exactly when a step is passed over, vouched for or run; with nothing going wrong it fails only if a version cannot be chosen |
| UpdaterModule.Updater.RetrySteps | service/update.go:636-651 | deferred steps that are processed later end up as if processed at once; a step that is deferred again and forgotten is reported |
| UpdaterModule.Updater.StepAdvances | service/update.go:588-700 | one step at one release keeps each of its modules on its path and, where the checksums can be trusted, its last pipeline good for its content |
| UpdaterModule.Updater.ReleaseWalked | service/update.go:467-520 | a whole release does so for all steps, module by module |
| UpdaterModule.Updater.ProcessRelease | service/update.go:467-520 | every release that forgets no step takes any run or update from one milestone to the next |
| UpdaterModule.Updater.MostReleases | service/update.go:522-534 | the length of the longest window |
| UpdaterModule.Updater.Process | service/update.go:427-451 | an update that succeeds and forgets no step leaves every module that could start where its walk ends, at its target exactly if it arrives there, and never lower; for every module whose versions follow the releases, and that arrives or has the longest window, the content at its applied version is the content that ran last; it succeeds if all modules can start and nothing goes wrong; client modules are run at their own version; a run makes the files of an applied module from its applied version and runs a new one at the lower of the first release and its target |
| Reconcile.StateFile.RemoveUnusedModules | service/config.go:877-893 | the backward deletion in place leaves exactly the configured modules, in order |
| Reconcile.StateFile.RemoveUnusedSteps | service/config.go:857-875 | likewise for steps |
| Reconcile.StateFile.AddNewSteps | service/config.go:838-855 | what is missing is appended, once |
| Reconcile.StateFile.UpdateState | service/update.go:579-586 | the composition, or a new state file |
| Reconcile.OneEntryEach | service/config.go:812-893 | exactly one entry per configured step, no name twice |
| Reconcile.EntriesSurvive | service/config.go:788-893 | a configured module keeps its entry unchanged or gets a fresh one; nothing else has an entry |
| Reconcile.ReconciledTwice | service/config.go:812-893 | reconciling again changes nothing |
| Reconcile.CreatedIsAdded | service/config.go:812-825 | creating a state file is adding all steps to an empty one |
| Reconcile.UpdaterReconciles | service/update.go:579-586 | the file and the updater's map stay in agreement |
| Scheduler.NoStepLost | service/update.go:467-520 | in every interleaving that reports success all steps were applied or skipped if and only if no retried step was deferred again |
| Scheduler.SucceedsExactly | service/update.go:467-520 | a release that has come to its end reports success exactly if no step, goroutine, retry or write failed and nothing was cancelled |
| Scheduler.StepOutcomes | service/update.go:588-700 | what can happen to a step when its turn comes; it is deferred only while a goroutine is counted |
| Scheduler.RetryOutcomes | service/update.go:636-651 | what can happen to a step that is retried |
| Scheduler.SecondDeferralNeedsGap | model/workgroup.go:18-33 | a second deferral needs a goroutine between leaving the wait group and lowering the count |
| Scheduler.NoStepLostAtomically | service/update.go:588-651 | without that gap no step is ever lost |
| Scheduler.RetryCanBeLost | model/workgroup.go:18-21 | with it, one is: a concrete schedule |
| Scheduler.ReportNeverBlocks | service/update.go:673-700 | a failing goroutine finds the channel open and with room, and none was started without a channel |
| Scheduler.RetriesRunAlone | service/update.go:636-651 | no retried step is ever run in a goroutine |
| Scheduler.EveryScheduleEnds | service/update.go:467-520 | there are at most ten events for each step and four more, and another one until the release returns |
| Scheduler.DoneAsReported | service/update.go:588-700 | a step that is done is recorded as applied or skipped, whichever it was |
| Scheduler.WaitingMakesProgress | service/update.go:495-497 | the wait for the goroutines cannot hang |
| LogStream.Always | wrapper/client.go:132-331 | every event keeps conservation, bounds, slots, server view and the rules of completion |
| LogStream.DeliveredInOrder | wrapper/client.go:132-331 | sent batches, pending batch, batch being drained and queue are together exactly the accepted lines in order; calls are accepted or dropped; batches have 1 to 1024 lines; the slots are never both set |
| LogStream.CallsAnswered | wrapper/client.go:132-149 | after every run a line is accepted exactly if fewer than 4096 are queued and counted as dropped otherwise; a plan is accepted exactly if its slot is empty |
| LogStream.DropsOnlyWhenFull | wrapper/client.go:132-139 | a line was dropped exactly if one came while 4096 were queued |
| LogStream.BatchesAreFull | wrapper/client.go:277-290 | a batch is closed with 1024 lines or with an empty queue, and is then what is sent |
| LogStream.EverythingArrives | wrapper/client.go:151-290 | if nothing fails any more and completion has not begun, the supervisor rests after at most three steps per queued line and nine more, everything accepted is sent, and after Disconnect completion too, without error |
| LogStream.NothingSentWhileBroken | wrapper/client.go:170-254 | between a failure of the stream and the next attempt to send there is a successful reopen |
| LogStream.ReopenFlushes | wrapper/client.go:205-254 | a successful reopen, and only that, leads back to the pending messages |
| LogStream.NeverStuck | wrapper/client.go:170-290 | until it stops, the supervisor can always do something |
| LogStream.ServerSeesPrefix | wrapper/client.go:193-331 | up to immediate repeats of the same message the server has the sent messages in order, and a prefix of the accepted lines |
| LogStream.CompletionComesLast | wrapper/client.go:151-271 | completion is attempted at most once, after everything accepted before Disconnect was sent, and is last; one verdict |
| LogStream.VerdictOfDelivery | wrapper/client.go:151-271 | with a verdict free of errors, completion was delivered exactly if the supervisor did not give up, and then everything accepted before Disconnect was sent |
| LogStream.GivingUpReportsNoError | wrapper/client.go:205-213 | a run whose verdict is free of errors though a line was never sent |
| Strings.SplitJoins | service/replace.go:940 | splitting a tag into alternatives loses nothing |
| Substitution.ChooseReplacement | service/replace.go:174-195 | the first alternative that is not looked up and empty answers: a quoted default its text, an agent key its own delay, another key its value or its error; if there is none, the text is empty |
| Substitution.AlternativeIs | service/replace.go:936-956 | blanks around an alternative and dots before it do not matter; its kind is the part before its first dot in small letters |
| Substitution.TagAnswers | service/replace.go:160-211 | the same from the text of a tag with alternatives separated by bars |
| Substitution.FirstAnswerCounts | service/replace.go:174-195 | alternatives before the first that answers have no influence |
| Substitution.ReplaceStringValues | service/replace.go:160-211 | the loop over the matches computes Sequential |
| Substitution.ReplaceDelayedStringValues | service/replace.go:232-241 | the loop over the delayed tags computes SequentialDelayed |
| Substitution.IndentationHere | service/replace.go:213-230 | the indentation found is that of the tag's own line, or of a later line |
| Substitution.SequentialIsOnePass | service/replace.go:160-211 | if each replacement can happen in place, replacing first occurrences in turn puts every text in its own place, and values that refer to a module lose their own quotes |
| Substitution.ValueInItsPlace | service/replace.go:160-211 | in such a document a value on one line stands in the place of its tag |
| Substitution.TagBecomesValue | service/replace.go:160-211 | a tag of one key, in any text in which it does not stand earlier, becomes the value of the key |
| Substitution.IndentedIsLines | service/replace.go:213-230 | indenting puts the indentation in front of every line but the first |
| Substitution.TwoPhases | service/replace.go:160-241 | so do both phases together |
| Substitution.TwoPhasesAreOne | service/replace.go:119-124 | replacing agent tags afterwards puts their values in place; the texts in their places are those of replacing them with the others exactly if the values fit |
| Substitution.ImmediateExactly | service/replace.go:213-241 | the exact condition: no agent value of several lines is missing an indentation, and none before a value of several lines changes the indentation of that line |
| Substitution.VisibleFits | service/replace.go:213-241 | agent values on one line that are more than blanks always fit |
| Substitution.FirstPhaseIgnoresAgent | service/replace.go:44-68 | the checksummed text is the same for any agent values, in any document |
| Substitution.StandsEarlier | service/replace.go:160-211 | without pairs of stray braces a tag stands earlier exactly if it is the text of an earlier piece |
| Substitution.CleanExactly | service/replace.go:160-211 | without pairs of stray braces, sequential equals positional if and only if no escaped tag leaves the text of a tag replaced after it |
| Substitution.CleanTwoPhases | service/replace.go:160-241 | a condition on the document under which both phases work in place |
| Substitution.OneLevel | service/replace.go:166-170 | exactly when an escaped tag loses one level: unless the text between the backticks begins or ends with one |
| Substitution.EscapedTextIsHit | service/replace.go:166-205 | every tag behind its own escaped form is left in place |
| Migration.IndexInName | migrate/plan.go:270-285 | an index behind a name is the index key of the name alone, and an error next to other keys |
| Migration.GetResources | migrate/config.go:162-187 | all candidates, or the first with the name |
| Migration.ProcessItem | migrate/config.go:77-102 | the coverage of one item; none if it is in error |
| Migration.ItemCovers | migrate/config.go:77-102 | which resources an item without an index in its names covers, and with which keys |
| Migration.GetMissingResource | migrate/config.go:123-160 | reported exactly if it is not covered or a key of it is not, with exactly those keys |
| Migration.ReportedKeys | migrate/config.go:123-160 | of a covered resource are reported the texts that are not covered as texts, the numbers that are covered in no printed form and all keys of other types |
| Migration.Generate | migrate/config.go:43-75 | the reports for the merged coverage of all items |
| Migration.NotCovered | migrate/config.go:77-187 | no reported item covers a resource that its own item does not find |
| Migration.ReportedAgain | migrate/config.go:43-204 | exactly which resources are reported again once the reported items are added |
| Migration.Closure | migrate/config.go:43-204 | nothing is reported again exactly if every reported item names its resource and its keys compare |
| Migration.PlainStateCloses | migrate/config.go:43-204 | distinct type and name, names without brackets and at least one instance suffice |
| Migration.OneRoundDecides | migrate/config.go:43-204 | what is still reported after any number of rounds is what is reported after the first |
| Migration.RootTwinIsNeverCovered | migrate/config.go:162-187 | a reported root resource behind a module resource of its type and name is reported after any number of rounds |
| Migration.RootTwinIsReported | migrate/config.go:162-187 | such a state, without a configuration |
| PlanTree.GetPlannedResource | migrate/plan.go:373-412 | the first match in preorder, and without a name the names of all matches |
| PlanTree.GetDestination | migrate/plan.go:240-268 | succeeds as given, or exactly when the plan has the one match it needs |
| PlanTree.ModuleIsFound | migrate/plan.go:262-266 | exactly when the module of an address is found |
| PlanTree.ModuleIsCutShort | migrate/plan.go:262-266 | an instance where it is not |
| Sorting.FirstDifferenceDecides | wrapper/plan.go:117-131 | the order is that of bytes: the first difference decides, and a text comes before those that begin with it |
| Sorting.SortSorts | wrapper/plan.go:117-131 | sorting permutes and orders |
| Sorting.SortedIsUnique | wrapper/plan.go:117-131 | elements told apart by their keys have one sorted arrangement |
| PlanSummary.OutputNameIs | wrapper/plan.go:151-159 | module and rest determine the output's name |
| PlanSummary.OutputNameRoundTrip | wrapper/plan.go:151-159 | exactly when a name put together from module and rest is taken apart again |
| PlanSummary.RollsUp | wrapper/plan.go:132-149 | an index or submodules at any depth belong to the first-level module |
| PlanSummary.ClassifiedAlike | wrapper/plan.go:161-198 | outputs are classified like resources as far as outputs go; both orders of a replacement are one; no-op and read are ignored |
| PlanSummary.BuildPlanSummary | wrapper/plan.go:26-115 | for any walk of the outputs: every change in the list it belongs to, every list sorted, no other entry |
| PlanSummary.ListedExactly | wrapper/plan.go:56-84 | every list holds exactly the addresses of the changes with its actions, imports apart |
| PlanSummary.ListsInOrder | wrapper/plan.go:117-131 | every list is in byte order, moves by their new address |
| PlanSummary.MovedExactly | wrapper/plan.go:56-84 | a change with another previous address is listed as a move beside its action |
| PlanSummary.OutputsExactly | wrapper/plan.go:86-115 | outputs are listed by action under their names without the module |
| PlanSummary.Canonical | wrapper/plan.go:26-131 | one summary for every walk of the outputs and, with distinct addresses, every order of the changes |
| PlanSummary.Conserved | wrapper/plan.go:56-84 | the action lists of all entries hold exactly the addresses of the changes acted on; a pure move is not among them |
| PlanSummary.NoEmptyEntry | wrapper/plan.go:26-115 | no entry is empty |
| Rollup.OneRollup | wrapper/plan.go:26-131 | the rollup of classified changes is unique |
| Rollup.AllListed | wrapper/plan.go:56-84 | nothing is lost or doubled over all modules |
| Approval.NothingDestroyedAlone | util/util.go:374-395 | the agent alone approves only what destroys nothing, unless told to insist |
| Approval.ApprovalIsAntitone | util/util.go:374-395 | fewer changes and a laxer policy are approved if more and stricter are |
| Approval.StrictnessIsStrict | util/util.go:383-392 | each level of strictness decides some plan differently |
| Approval.LegacyPolicy | service/update.go:1033-1051 | a legacy policy switches the manual ones off and lets changes through exactly if all modules agree |
| Approval.ManualDefaults | service/update.go:1033-1051 | with one manual policy set, what the agent approves alone under the other command's default |
| Approval.ManualOwn | service/update.go:1033-1051 | with both manual policies set, which plans a run and an update leave to a person, each by its own |
| Approval.ExternalSourcesApproved | service/update.go:1498-1569 | exactly when changed resources of modules with external sources are approved by the agent alone |
| Approval.MinorApprovesExternalSource | service/update.go:1560-1569 | an instance under `minor` |
| Approval.ChangesApproved | service/update.go:1498-1588 | exactly when changed resources of any modules are approved by the agent alone under a legacy policy |
| Approval.MinorApprovesNewSource | service/update.go:1531-1540 | a jump by two major versions that `minor` approves |
| Approval.GetAutoApprove | service/update.go:1094-1101 | all modules must be approved |
| AwsPipeline.WaitPipelineExecution | aws/pipeline.go:656-703 | the polling loop computes Waited |
| AwsPipeline.ProcessStateStages | aws/pipeline.go:795-824 | only the first approval action counts |
| AwsPipeline.AlwaysShaped | aws/pipeline.go:795-947 | for any polls, status and events have one of a few shapes |
| AwsPipeline.AlwaysSafe | aws/pipeline.go:795-947 | at most one manual notice, an approval notice at most once and after it, an approval put only for a plan that the policy approves and nothing after it |
| AwsPipeline.ApprovedIsFinal | aws/pipeline.go:683-685 | an approved wait stays approved and does nothing more |
| AwsPipeline.SucceedsExactly | aws/pipeline.go:656-749 | no error exactly on a succeeded execution or a stop of an accepted plan without changes |
| AwsPipeline.PutExactly | aws/pipeline.go:795-947 | the approval is put exactly if some poll finds a plan that the policy approves, the approval action waiting, a token, and a put that succeeds |
| AwsPipeline.EndsExactly | aws/pipeline.go:656-749 | a wait is over exactly when some poll has ended it, whatever the status of the execution |
| GcloudPipeline.WaitForApplyRollout | gcloud/deploy.go:550-619 | the polling loop computes Waited |
| GcloudPipeline.AlwaysSafe | gcloud/deploy.go:550-619 | for any polls: approved at most once and only by policy, notices take turns, success only on a succeeded rollout |
| GcloudPipeline.ActsExactly | gcloud/deploy.go:550-619 | the agent approves exactly if it can, a person is told exactly if one has to approve, and the wait is over exactly when the rollout is or a poll fails |
| GcloudPipeline.WaitPipelineExecution | gcloud/deploy.go:436-501 | planned exactly after render, plan rollout and plan job; a planned release is abandoned exactly if its plan is rejected or unchanged, and otherwise waited for once the apply rollout is created; the apply job runs exactly after a succeeded rollout |
| LocalPipeline.GetApproval | service/local.go:196-216 | exactly when the apply is approved, skipped or refused |
| LocalPipeline.ExecuteLocalPipeline | service/local.go:74-94 | applied exactly if accepted, changed and approved by policy or by a person who was asked |

## Left out

- UpdaterModule.Updater.Process: promises nothing about the state once a retried step was deferred again and forgotten, which it reports; `Scheduler` says when that can happen. Soundness of skipping is about module folders; input and file checksums, providers and included files are one arbitrary answer of the environment.
- UpdaterModule.Updater.ApplyRelease: first runs that the code hands to goroutines happen at once here; their concurrency is in `Scheduler`.
- UpdaterModule.Updater.ProcessStep: a template that reads the version of another step's module does not write to that entry here; `Stepping.EarlyReadIsUndone` and `Stepping.LateReadApproves` say that only its approval can differ.
- Start.Update: does not say what a module that cannot start is left at; sources that are local directories are left out.
- AwsPipeline.WaitPipelineExecution: begins once the new execution is visible; waiting for that and stopping an execution that still runs are left out.
- UpdaterModule.Updater.UpdateState: models the state file as a map; `Reconcile` models the file itself and connects the two.
- Window.GetSourceReleases: takes the tags as sorted and different from each other; the source client sorts them once.
- Reconcile.StateFile.UpdateState: step entries are values in a sequence field, so entries shared by reference are not modelled; deletion of the removed steps' files is left out.
- PlanSummary.BuildPlanSummary: the sort is insertion sort; moves that share a destination keep their order.
- Substitution.CleanExactly: is about documents whose literals and values hold no two opening braces in a row and do not end in one, with values of several lines on lines of their own, no value that refers to a module, and no replaced text that is empty (an empty text can hide a collision); `SequentialIsOnePass` has none of these limits.
- Substitution.EscapedTextIsHit: leaves out references to modules that stand in quotes in the text.
- Substitution.CleanTwoPhases: has the same documents, and agent values of that kind; it is a sufficient condition.
- Migration.Closure: takes the reported items as they are, not through printing and reading YAML.
- GcloudPipeline.AlwaysSafe: does not bound the number of manual notices, because the code forgets that it has notified once it sees the approval.
- Parsing of versions, pre-release labels, the "v" prefix and tags that differ only in spelling.
- Forced versions and local sources beyond their one constant version; client modules beyond "always changed".
- Writing the state file, certificates, step files and destination branches, and their failures.
- Times, back-off, ping intervals and timeouts as such; a timeout is an event like any other.
- Regular expressions, YAML, JSON, HCL and hashing: matches come as a list of tag positions, checksums as a function of release and folder.
- Looking up the values of tags (outputs, parameters, configuration): one arbitrary function.
- Identification strings and import commands of a migration, and validation of configurations.
- The cloud clients, notifiers, gRPC and git plumbing.
