# SolarOS: verified models of its protocols, selection rules and text algorithms

SolarOS is a small operating system for ESP32 boards. This project models, in Dafny, the parts of it whose correctness
cannot be seen from one function, and proves what they promise.

- **Jobs** (`JobRuntime`, `JobLifecycle`, `JobProtocol`, `JobInvariant`, `JobSteps`, `JobTheorems`, `JobOutcomes`,
  `JobCourses`, `JobLimits`).
  Callers on any number of threads start and stop jobs, one ticker thread dispatches their event callbacks and retries
  queued starts, and workers report completion with a generation number. Every critical section is one atomic step,
  and so is every call of a job callback and every return from one; between steps a thread keeps its program point and
  locals in a frame, and a thread inside a callback may call the manager again, so it has a stack of frames.
  `JobRuntimes.JobSlot` has the same critical sections as methods that update the slot in place. The history of each
  job is a log of callback begins and ends, judged by an independent automaton of a serial life (`JobLifecycle`). An
  inductive invariant over all interleavings gives exclusion, ownership of the busy flag, memory safety of queued
  start records, and a clean rest at the end of every fair schedule that makes no new calls. What a start callback
  returned decides the slot's state and error over every schedule, and every operation that is not interrupted has
  exactly its stated effect on slot, log and records, a retry of a queued start included.
- **Packages** (`PackageAlgebra`, `FlavorBuild`, `FlavorConfig`, `CatalogCycles`, `CatalogLoading`,
  `FlavorAgreement`). Two programs select packages independently: the build (sweeps, a worklist, two in-place pruning
  passes) and the configurator (another worklist, a model of choices, a renderer of flavor tables). Both are verified
  against least and greatest fixpoints, and the main theorem says that the build enables exactly what the configurator
  shows. Results on selection need only part of what loading a catalog guarantees (`PackageAlgebra.Catalog.Valid`), so
  they hold for every catalog that loads (`CatalogLoading.Accepted`); the one counterexample uses a catalog that does.
- **Images** (`ImageScaling`, `GifThinning`). Fitting an image into bounds in 32- and 64-bit arithmetic, the single
  pass that scales JPEG rows, and the thinning of animations within a pixel budget.
- **Chat** (`ChatText`, `ChatUtf8`, `ChatWrap`, `ChatWrapTheorems`, `ChatWrapGreed`, `ChatRing`, `ChatView`). UTF-8
  word wrap into a 256-byte line buffer, which breaks a line only where the next word does not fit, the counting and
  the drawing pass, and the ring of the last 80 messages with its in-place compaction.
- **Calculator** (`CalcMeaning`, `Calculator`, `CalcTheorems`). Rows that may refer to each other in circles,
  evaluated in place under `visiting` flags and a depth limit, against a reference that has neither flags nor limit.
- **Manifests and manual** (`OverlayMerge`, `OverlayRun`, `OverlayTheorems`, `OverlayLaw`, `ManualChunks`,
  `ManualReferences`). The merge of board overlays with an index kept beside each edited list, and the cutting of
  manual sections into byte-bounded excerpts.
- **Tasks and cold state** (`TaskAdmission`, `TaskLedger`, `LaunchProtocol`, `ColdState`). Memory admission of task
  launches under the launch mutex with its accounting, and the lifecycle of an application's state block beside its
  workers.

Where a promise turns out to have a limit, the limit is proved as an exact condition, beside a concrete case where
one helps: word wrap keeps the text of a message exactly if the line buffer has room for each word where the columns
put it, and of all messages exactly on windows up to 63 columns (`ChatWrapTheorems.TextIsKeptExactlyWithRoom`,
`ChatWrapTheorems.TextIsKeptExactlyWhenNarrow`); build and configurator agree, and reloading shows the same, exactly
under stated conditions on the flavor's name, on package names shared with groups and on the layout package
(`FlavorAgreement.BuildAgreesExactly`, `FlavorAgreement.ReloadShowsTheSame`, `FlavorAgreement.ShadowedNamesDisagree`);
a job waits exactly while a record is queued, over every schedule in which no completion is accepted while it waits
and over no other, and an event callback begins after an accepted completion exactly if it was admitted before
(`JobLimits.JobsWaitExactlyWhileQueued`, `JobLimits.EventsBeginAfterACompletionExactly`, with a run for each); thinning
keeps playback time exactly unless a group's delays outgrow 32 bits (`GifThinning.PlaybackTimeIsKept`); workers stay
off freed state exactly if the application has a release guard (`ColdState.GuardIsNeededAndEnough`).

## Model

| member | source | states |
|---|---|---|
| `JobLifecycle.StopsMatchStarts` | src/solar_os_jobs.c:454-456 | in a serial log each stop callback belongs to an incarnation whose start returned OK earlier, and no other stop belongs to it |
| `JobLifecycle.CallbacksTakeTurns` | src/solar_os_jobs.c:445-456 | in a serial log no callback of a job begins before the previous one has ended, and an admitted event is followed by its callback or by the silent end of its incarnation |
| `JobLifecycle.EventsAreAdmitted` | src/solar_os_jobs.c:767-797 | in a serial log an event callback begins right after its admission, with at most the silent end of the incarnation in between, and events are admitted only to incarnations that came up, have not ended and are not being stopped |
| `JobLifecycle.EventsAfterAnEnd` | src/solar_os_jobs.c:767-797 | in a serial log one more event callback begins after the silent end of its incarnation exactly if an event was admitted right before the end, and then it is what follows the end |
| `JobLifecycle.CreditsGoToTheLiving` | src/solar_os_jobs.c:814-820 | in a serial log tick results go to incarnations that came up, have not ended and are not being stopped |
| `JobRuntimes.NextGenerationCounts` | src/solar_os_jobs.c:105-112 | the 32-bit counter that skips zero shows the number of claims modulo 2^32 - 1, plus one |
| `JobRuntimes.GenerationsRepeatOnlyAfterAFullTurn` | src/solar_os_jobs.c:105-112 | two incarnations share a generation exactly when a multiple of 2^32 - 1 claims lies between them |
| `JobRuntimes.JobSlot.BumpGeneration` | src/solar_os_jobs.c:105-112 | only the generation changes, to the next value other than zero |
| `JobRuntimes.JobSlot.EnterStart` | src/solar_os_jobs.c:417-443 | a start is refused on a busy slot and from the job's own event callback; otherwise the slot is claimed, the queued record taken out and the generation advanced |
| `JobRuntimes.JobSlot.EnterQueue` | src/solar_os_jobs.c:461-472 | a start short of memory is queued only while its claim still stands |
| `JobRuntimes.JobSlot.EnterCommit` | src/solar_os_jobs.c:503-523 | while its claim still stands the outcome of a start callback is recorded: waiting with the record and no error if there is one, else running if it returned OK, and failed with its status if not; otherwise nothing changes |
| `JobRuntimes.JobSlot.EnterStop` | src/solar_os_jobs.c:572-607 | a stop is refused on a busy slot, cancels a queued start, or claims a running job, deferring itself inside the job's own callback |
| `JobRuntimes.JobSlot.EnterFinishStop` | src/solar_os_jobs.c:152-157 | the busy flag is cleared by the claim it belongs to and by no other |
| `JobRuntimes.JobSlot.EnterMarkStopped` | src/solar_os_jobs.c:654-668 | a worker's completion counts only with the current nonzero generation on a slot that is not busy |
| `JobRuntimes.JobSlot.EnterClaimRetry` | src/solar_os_jobs.c:701-710 | a retry claims the slot only if nothing it observed has changed |
| `JobRuntimes.JobSlot.EnterCommitRetry` | src/solar_os_jobs.c:717-734 | a retried start keeps waiting with its record on lack of memory; otherwise the record is taken out and the job runs, or has failed, with the status returned |
| `JobRuntimes.JobSlot.EnterDispatch` | src/solar_os_jobs.c:767-785 | an event callback is entered only on a running slot that is not busy, with its reference and thread noted |
| `JobRuntimes.JobSlot.EnterReturn` | src/solar_os_jobs.c:797-821 | on return the reference is dropped, a deferred stop falls due once, and the tick is credited to the dispatched generation only |
| `JobInvariant.StepRule` | src/solar_os_jobs.c:377-834 | a step that is right about its own slot, frame and records keeps the invariant of the whole machine |
| `JobSteps.StepKeeps` | src/solar_os_jobs.c:377-834 | every step of every thread, callbacks returning in any way, keeps the invariant |
| `JobSteps.RunKeeps` | src/solar_os_jobs.c:377-834 | the invariant holds in every state of every interleaving |
| `JobTheorems.RunsAreSerial` | src/solar_os_jobs.c:583-622 | in every interleaving each job's callbacks form a serial life |
| `JobTheorems.StopsFollowStarts` | src/solar_os_jobs.c:423-456 | over every run stop is called only for an incarnation whose start returned OK, and at most once for it |
| `JobTheorems.CallbacksNeverOverlap` | src/solar_os_jobs.c:423-456 | over every run start, stop and event callbacks of a job never overlap; a stop asked for inside an event callback comes after it |
| `JobTheorems.EventsWereAdmitted` | src/solar_os_jobs.c:767-797 | over every run an event callback begins only for an incarnation that was up, neither ended nor being stopped, when a tick admitted it |
| `JobTheorems.CreditsAreDue` | src/solar_os_jobs.c:814-820 | over every run a tick is credited only to an incarnation that is up, neither ended nor being stopped |
| `JobTheorems.CallbacksExclude` | src/solar_os_jobs.c:445-456 | at most one frame of all threads is inside a callback of a given job |
| `JobTheorems.StopsWaitForEvents` | src/solar_os_jobs.c:612-622 | from the admission of an event to the return of its callback, an owner of the slot is waiting, and is not the ticker |
| `JobTheorems.TicksCreditTheDispatched` | src/solar_os_jobs.c:797-821 | a returning tick is credited exactly if the job still runs, and then to the incarnation dispatched, for any number of starts |
| `JobTheorems.StaleCompletionsAreRefused` | src/solar_os_jobs.c:646-670 | a worker of an older incarnation cannot mark the job stopped within a full turn of the counter |
| `JobTheorems.SlotFacts` | src/solar_os_jobs.c:461-518 | waiting implies a queued record and no callback in flight; running or failed implies none queued; a deferred stop implies busy, stopped and a callback in flight |
| `JobTheorems.BusyHasOneOwner` | src/solar_os_jobs.c:143-158 | a busy slot has exactly one owner that will clear it: one frame, or a deferred stop with its callback in flight |
| `JobTheorems.OwnersAreRecognised` | src/solar_os_jobs.c:503-518 | the re-checks after a callback never turn the owner away |
| `JobTheorems.RecordsAreSound` | src/solar_os_jobs.c:133-141 | no queued record is freed twice or used when dead, and queued starts equal waiting plus wait successes plus wait cancellations |
| `JobTheorems.RetriedRecordsAreLive` | src/solar_os_jobs.c:712-734 | the record whose arguments a retry passes is live during the whole call |
| `JobTheorems.RetriesClaimWhatTheySaw` | src/solar_os_jobs.c:701-710 | comparing addresses is enough: a record freed and allocated again at the same address is excluded by the generation |
| `JobTheorems.TickerNeverWaits` | src/solar_os_jobs.c:612-621 | the ticker passes both callback-wait loops at once |
| `JobTheorems.PollersWaitForTheTicker` | src/solar_os_jobs.c:445-453 | a poll in vain is never the ticker's, and happens only while the ticker has an event of that very job in flight |
| `JobTheorems.EveryStepDescends` | src/solar_os_jobs.c:377-834 | whatever callbacks return and the environment chooses, every step of every thread lowers the remaining work, but for polls in vain, which change nothing |
| `JobTheorems.SchedulesEnd` | src/solar_os_jobs.c:377-834 | without new calls every schedule takes a bounded number of steps other than polls in vain, and once it took as many as the work there was, all threads are outside |
| `JobTheorems.FairSchedulesRest` | src/solar_os_jobs.c:377-834 | without new calls, after at most as many rounds as there is work, in each of which every thread still inside has a turn, all threads are outside and every slot is free |
| `JobTheorems.Progress` | src/solar_os_jobs.c:445-453 | unless all threads are outside the manager, some thread can take a step towards its return |
| `JobTheorems.RestIsClean` | src/solar_os_jobs.c:377-834 | with all threads outside, no slot is busy, no callback is in flight and every record is queued on its job |
| `JobTheorems.CanAlwaysComeToRest` | src/solar_os_jobs.c:377-834 | from every reachable state all threads can leave with every slot free: no run wedges |
| `JobLimits.RecordsAreLeftBehindExactly` | src/solar_os_jobs.c:646-670 | a step separates a queued record from the waiting state exactly if it is a completion accepted while the job waits, and joins them again exactly if it is the critical section of an accepted start or of a stop |
| `JobLimits.JobsWaitExactlyWhileQueued` | src/solar_os_jobs.c:461-472 | over every schedule a record is queued exactly while the job waits, in all states, if and only if no completion was accepted while it waited |
| `JobLimits.AStoppedJobMayKeepAQueuedStart` | src/solar_os_jobs.c:661-668 | a reachable state in which a stopped job still holds a queued record, left there by a worker's completion |
| `JobLimits.EventsBeginAfterACompletionExactly` | src/solar_os_jobs.c:661-797 | over every run an event callback begins after a completion accepted while the job ran exactly if the ticker had admitted it before, and none does if no callback was in flight |
| `JobLimits.AnEventMayBeginAfterACompletion` | src/solar_os_jobs.c:785-797 | a reachable state in which an event callback has begun although a completion was accepted before: it was admitted earlier |
| `JobOutcomes.StartsSettle` | src/solar_os_jobs.c:484-734 | over every schedule, once a start callback has returned and its thread has taken its next step, the slot is not busy: it runs exactly if the callback returned OK, waits exactly if memory was short and a record is queued, and has failed with the status returned otherwise; the log gains the return and nothing else |
| `JobOutcomes.MissingCallbacksSettle` | src/solar_os_jobs.c:160-172 | the same for a job without a start callback, in a start or in a retry: it runs |
| `JobOutcomes.ReportsLast` | src/solar_os_jobs.c:423-668 | over every schedule, what the status of a slot that is not busy shows, a failure with its error above all, lasts until an accepted completion, a stop, a start that is not refused, or the claim of a waiting start |
| `JobCourses.QueuedStartsAreRetried` | src/solar_os_jobs.c:672-747 | a queued start is retried: when the ticker comes to a waiting job and memory is free, start is called with the queued record, and the job runs, has failed, or waits on with the same record; the record's end, the counters and the log are exact, and nothing else changes |
| `JobCourses.NothingIsRetriedOtherwise` | src/solar_os_jobs.c:677-699 | a job that does not wait, or for which there is no memory, is left as it is and the tick goes on to its event |
| `JobCourses.StartsWithoutMemoryWait` | src/solar_os_jobs.c:411-480 | an uninterrupted start without memory ends what ran, cancels the record queued before, queues its own and does not call start |
| `JobCourses.StartsCallBack` | src/solar_os_jobs.c:411-531 | an uninterrupted start with memory ends what ran, cancels the record queued before and calls start; the slot then runs, has failed, or waits with a record allocated after the race was lost |
| `JobCourses.StartsAreRefused` | src/solar_os_jobs.c:424-434 | a start of a busy slot, of an unknown job or from the job's own event callback changes no slot and frees its record |
| `JobCourses.StopsEndTheJob` | src/solar_os_jobs.c:583-623 | an uninterrupted stop of a running job calls its stop callback, if it has one, and leaves it stopped without an error |
| `JobCourses.StopsCancel` | src/solar_os_jobs.c:583-590 | a stop of a job that does not run cancels a queued start and keeps the last error |
| `JobCourses.StopsAreRefused` | src/solar_os_jobs.c:579-582 | a stop of a busy slot changes nothing |
| `JobCourses.DueJobsHandleTheTick` | src/solar_os_jobs.c:764-821 | a running job that has an event callback and is due handles the tick, which is counted, and the tick goes on to the next job or ends with the last |
| `JobCourses.OthersArePassedOver` | src/solar_os_jobs.c:767-788 | any other job is passed over |
| `JobCourses.TicksAreCounted` | src/solar_os_jobs.c:797-821 | when an event callback has returned and no stop waits for it, the tick is counted if the job still runs and nothing else changes, whatever other threads did meanwhile |
| `JobCourses.OwnStopsAreDeferred` | src/solar_os_jobs.c:593-611 | a stop from the job's own event callback takes the job down and leaves its stop callback to the return of the event |
| `JobCourses.DeferredStopsAreCompleted` | src/solar_os_jobs.c:797-824 | a deferred stop is completed when the event has returned: stop is called, the error cleared, the slot free, and the tick not counted |
| `JobCourses.CompletionsEndTheJob` | src/solar_os_jobs.c:646-670 | a completion is accepted exactly for the current nonzero generation of a slot that is not busy, and makes it stopped with the worker's error |
| `PackageAlgebra.ClosureIsLeast` | scripts/flavor_config.py:58-67 | the closure is dependency-closed, contains the choice, and lies in every such set |
| `PackageAlgebra.ClosureAbsorbs` | scripts/flavor_config.py:124-128 | closing in stages is closing at once |
| `PackageAlgebra.PruneIsGreatest` | scripts/generate_flavor_config.py:404-421 | pruning leaves the largest dependency-closed supported subset |
| `PackageAlgebra.PrunesCombine` | scripts/generate_flavor_config.py:404-474 | target and capability pruning commute and amount to one pruning |
| `PackageAlgebra.PruneIsLocal` | scripts/generate_flavor_config.py:404-421 | whether a package of a closed set survives depends on its own dependencies alone |
| `PackageAlgebra.SelectionsAgree` | scripts/flavor_config.py:139-152 | two choices come to one selection exactly when every usable package that either brings in comes with the other too |
| `PackageAlgebra.BothPruningsMean` | scripts/generate_flavor_config.py:360-474 | a package of a closed set survives both prunings exactly if every package in its closure names no targets or this one, has all its capabilities available, and has one of its any-capabilities unless it names none |
| `PackageAlgebra.MoreCapabilitiesKeepMore` | scripts/generate_flavor_config.py:360-367 | more available capabilities never cost a package |
| `FlavorBuild.LoadFlavor` | scripts/generate_flavor_config.py:268-350 | the tables' errors in their order, or the closure of group members, overrides and immutable members |
| `FlavorBuild.LoadMeans` | scripts/generate_flavor_config.py:287-341 | entry by entry: a flavor that loads yields the least closed set with all that its tables and the immutable groups ask for, and nothing in it needs a package switched off by name |
| `FlavorBuild.LoadRespects` | scripts/generate_flavor_config.py:285-325 | a flavor that loads names groups and packages of the catalog only, and switches off by name nothing that an immutable group brings along |
| `FlavorBuild.LoadErrors` | scripts/generate_flavor_config.py:294-341 | what is wrong with the tables of a flavor that does not load |
| `FlavorBuild.CloseOver` | scripts/generate_flavor_config.py:329-341 | the sweeps end in the least closure, or fail exactly if the closure needs a package switched off by name |
| `FlavorBuild.EnableRequired` | scripts/generate_flavor_config.py:370-385 | the worklist that skips enabled packages still yields the closure when its input is closed |
| `FlavorBuild.ApplyUpdateLayout` | scripts/generate_flavor_config.py:388-396 | an over-the-air layout adds its package with all it needs; a single layout changes nothing |
| `FlavorBuild.ApplyTargetPruning` | scripts/generate_flavor_config.py:452-474 | in-place passes in catalog order yield the greatest supported closed subset: a package stays exactly if every package in its closure names no targets or this one; a missing target is an error |
| `FlavorBuild.ApplyBoardCapabilityPruning` | scripts/generate_flavor_config.py:399-421 | the same for the board's capabilities; a package stays exactly if every package in its closure has all its capabilities available and one of its any-capabilities unless it names none |
| `FlavorBuild.Build` | scripts/generate_flavor_config.py:631-659 | the whole pipeline with its errors, in order: loading, the flavor's name, closing, pruning twice, and rejecting lost required packages |
| `FlavorBuild.BuildMeans` | scripts/generate_flavor_config.py:631-659 | a build that succeeds has the required packages, and enables exactly what is in the closure of flavor, requirements and layout and runs, with all it needs, on target and board |
| `FlavorBuild.BuildErrors` | scripts/generate_flavor_config.py:631-659 | a build of a flavor that loads fails only for an unfit name, an unknown required package, an unknown layout, a missing target, or a required package that cannot run there |
| `FlavorBuild.BetterBoardsBuildMore` | scripts/generate_flavor_config.py:399-421 | a flavor that builds for a board builds for every board that has more, and loses nothing there |
| `FlavorBuild.PublicFlavorName` | scripts/generate_flavor_config.py:353-357 | the override or else the flavor's own name, unless it is not 1 to 64 letters, digits, underscores, dots and hyphens led by a letter or digit |
| `FlavorConfig.DependencyClosure` | scripts/flavor_config.py:58-67 | the least closed superset, or a key error exactly for unknown names |
| `FlavorConfig.MandatoryMeans` | scripts/flavor_config.py:124-128 | what is mandatory is the least closed set with all immutable groups, the board's packages and, for over-the-air updates, their service |
| `FlavorConfig.ResolveChoice` | scripts/flavor_config.py:139-152 | the closure of a choice; when target and capabilities are known, those of it that run there with all they need |
| `FlavorConfig.SelectionModel.Create` | scripts/flavor_config.py:109-137 | which exception the constructor raises when, and the requested set it starts from |
| `FlavorConfig.SelectionModel.Selected` | scripts/flavor_config.py:154-156 | the resolution of the choice with everything mandatory |
| `FlavorConfig.SelectionModel.Enable` | scripts/flavor_config.py:166-167 | the packages join the choice |
| `FlavorConfig.SelectionModel.Disable` | scripts/flavor_config.py:169-170 | the packages leave the choice |
| `FlavorConfig.SelectionModel.TogglePackage` | scripts/flavor_config.py:172-178 | a mandatory package is left alone, any other changes sides, the rest stays |
| `FlavorConfig.SelectionModel.GroupState` | scripts/flavor_config.py:180-189 | two means a nonempty group wholly chosen, zero that none of it is |
| `FlavorConfig.SelectionModel.ToggleGroup` | scripts/flavor_config.py:191-196 | a wholly chosen group is dropped, any other is completed |
| `FlavorConfig.SelectionModel.ClearOptional` | scripts/flavor_config.py:203-204 | nothing stays chosen |
| `FlavorAgreement.RenderedTables` | scripts/flavor_config.py:260-295 | the saved tables name the complete groups and the remaining choices, each once and all on |
| `FlavorAgreement.RenderedMeans` | scripts/flavor_config.py:260-295 | entry by entry: the saved tables switch on the groups chosen whole and the chosen packages that none of these brings along, in the catalog's order, and switch nothing off |
| `FlavorAgreement.LoadRequested` | scripts/flavor_config.py:80-103 | group members and packages switched on, less those switched off and the immutable closure |
| `FlavorAgreement.ReadBackMeans` | scripts/flavor_config.py:80-103 | entry by entry: a package is chosen by name, or by a group unless it is switched off by name, and never if it is immutable |
| `FlavorAgreement.ReadsBackTheChoice` | scripts/flavor_config.py:80-103 | loading what was saved returns the choice without the immutable closure, exactly if clashing names bring in nothing new |
| `FlavorAgreement.RequiredSurvive` | scripts/flavor_config.py:124-134 | choosing more packages neither costs a board its required packages nor gains them |
| `FlavorAgreement.BuildAgrees` | scripts/generate_flavor_config.py:631-659 | on saved tables whose package names are no group names the build enables exactly the configurator's selection, rejects the board's requirements exactly when the configurator does, and has no error of its own but an unfit flavor name |
| `FlavorAgreement.BuildAgreesExactly` | scripts/generate_flavor_config.py:294-301 | for any names: the two sides agree exactly if the flavor's name is fit, and the configurator refuses to start, or the groups whose names were saved for packages bring in nothing new, and nothing goes missing with those packages, that this board could have |
| `FlavorAgreement.ModelsBuild` | scripts/flavor_config.py:106-156 | whatever was done to a model that exists, its saved flavor builds exactly under a fit name, and builds to what the model shows exactly if clashing names are harmless |
| `FlavorAgreement.ReloadShowsTheSame` | scripts/flavor_config.py:80-137 | the model made from what was saved shows the same selection exactly if the layout package, which it drops, brought in nothing usable of its own and clashing group names bring in nothing new |
| `FlavorAgreement.ReloadWithoutClashes` | scripts/flavor_config.py:135-137 | without clashing names: exactly if the layout package was not chosen, or all that is usable of it comes anyway |
| `FlavorAgreement.ShadowedNamesDisagree` | scripts/generate_flavor_config.py:294-301 | on a catalog that loads, a package sharing a group's name is lost in the build and the group's member comes in |
| `CatalogCycles.RankedIsAcyclic` | scripts/generate_flavor_config.py:188-205 | a ranking of all packages leaves no dependency cycle |
| `CatalogCycles.Search.Visit` | scripts/generate_flavor_config.py:191-202 | `visiting` is the path stack throughout, finished packages are ranked above their dependencies, and an error shows a real cycle |
| `CatalogCycles.CycleFrom` | scripts/generate_flavor_config.py:194-197 | the path from the package met again is a cycle through it |
| `CatalogCycles.CheckCycles` | scripts/generate_flavor_config.py:188-205 | the catalog is accepted exactly when its dependencies are acyclic |
| `CatalogLoading.CheckPackages` | scripts/generate_flavor_config.py:168-205 | an unknown dependency or else a real cycle is reported, exactly if there is one |
| `CatalogLoading.CheckGroups` | scripts/generate_flavor_config.py:207-258 | an unknown member, the lack of an immutable group, or exactly the packages out of reach of all groups |
| `CatalogLoading.ReachableMeans` | scripts/generate_flavor_config.py:243-258 | a package is out of reach exactly if some closed set has the members of all groups but not it |
| `CatalogLoading.LoadCatalog` | scripts/generate_flavor_config.py:134-265 | the errors in their order; accepted are exactly the catalogs with groups and packages, nothing unknown, no cycle, an immutable group and every package within reach |
| `ImageScaling.FitDimensions` | components/stb_image/stb_image_port.c:91-128 | nonzero sizes within bounds and source: the full width with the height rounded down if that fits, else the full height with the width rounded down, at least one pixel each; empty images and bounds change nothing |
| `ImageScaling.SourceAdvances` | components/stb_image/stb_image_port.c:237-241 | successive output rows show strictly later source rows |
| `ImageScaling.CopyRow` | components/stb_image/stb_image_port.c:295-302 | the columns of a row are the source columns at rounded-down proportional positions |
| `ImageScaling.ScaleRows` | components/stb_image/stb_image_port.c:158-312 | one pass emits every output row; each output pixel is the source pixel at the rounded-down proportional row and column, and the check for missing rows never fires |
| `ImageScaling.DecodeJpegScaled` | components/stb_image/stb_image_port.c:574-644 | with nonzero bounds the size is the image fitted into them, always one the row loop serves; refused are only images without pixels and images or fitted sizes that are too large |
| `GifThinning.AddDelay` | components/stb_image/stb_image_port.c:75-81 | the guarded addition is the sum, or the largest 32-bit value |
| `GifThinning.CeilAtMost` | components/stb_image/stb_image_port.c:83-89 | the rounded-up quotient is the least number of steps that cover the value |
| `GifThinning.StepIsLeast` | components/stb_image/stb_image_port.c:696-707 | the step is the least with which the frames kept stay within the pixel budget |
| `GifThinning.PlanStorage` | components/stb_image/stb_image_port.c:690-714 | once one frame fits, only the address space can refuse: the last budget check never does |
| `GifThinning.PlansMean` | components/stb_image/stb_image_port.c:690-714 | the capacity is the number of steps that get through all frames; the frames kept stay within budget and address space; and there is no plan only without frames or pixels, for one frame over budget, or for too many bytes |
| `GifThinning.StoreFrame` | components/stb_image/stb_image_port.c:757-796 | a kept frame closes the group before it and opens its own, or reports that the capacity is exhausted |
| `GifThinning.DecodeFrames` | components/stb_image/stb_image_port.c:737-818 | which error a stream ends in, or every step-th picture with the saturated delay of its group |
| `GifThinning.PlaybackTimeIsKept` | components/stb_image/stb_image_port.c:755-802 | stored delays add up to the normalized delays of all frames exactly when no group saturates, and never to more |
| `GifThinning.ScannedFramesHaveRoom` | components/stb_image/stb_image_port.c:764-767 | a stream with no more frames than were scanned never runs out of capacity |
| `GifThinning.StoredFramesFit` | components/stb_image/stb_image_port.c:709-714 | whatever is stored lies within capacity, address space and pixel budget |
| `GifThinning.DecodeGif` | components/stb_image/stb_image_port.c:646-848 | the size check, the size fitted into the bounds or kept without them, the plan for that size, and the outcome of the loop under that plan |
| `ChatText.TakeColumns` | src/apps/solar_os_chat.c:329-357 | the loop takes whole characters up to both limits |
| `ChatText.ScanWord` | src/apps/solar_os_chat.c:832-858 | the loop measures the run of nonblank characters |
| `ChatText.Width` | src/apps/solar_os_chat.c:311-327 | the loop counts characters |
| `ChatText.TakeCols` | src/apps/solar_os_chat.c:329-357 | what is taken is as wide as counted, on its own as well as in its text |
| `ChatText.WordBounds` | src/apps/solar_os_chat.c:832-858 | a word holds no blank, ends at a blank or the end, and is as wide as counted |
| `ChatText.ColsOfJoin` | src/apps/solar_os_chat.c:277-308 | joining texts, well-formed or not, never takes more columns than they take apart |
| `ChatUtf8.CharsTakeOneColumn` | src/apps/solar_os_chat.c:277-327 | text that is UTF-8 is as wide as it has characters: each is read whole from its first byte |
| `ChatWrap.Layout.Init` | src/apps/solar_os_chat.c:777-808 | the line buffer holds as much of the prefix as fits, terminated |
| `ChatWrap.Layout.Append` | src/apps/solar_os_chat.c:810-830 | text is appended whole, or dropped if the buffer is too short for it |
| `ChatWrap.Layout.PlaceWord` | src/apps/solar_os_chat.c:927-996 | the inner loop terminates and completes the rows that the placing of the word calls for |
| `ChatWrap.EmitWrapped` | src/apps/solar_os_chat.c:860-1005 | the count is the number of rows, and with or without an emitter it is the same |
| `ChatWrapGreed.WrapIsGreedy` | src/apps/solar_os_chat.c:860-1005 | for every message: each row is filled with words one space apart until the message or its line ends or the next word is too wide for what is left; a word is cut only on a row without others, only if it is too wide for it, and then fills the columns or the buffer; the words and breaks read off the rows are those of the message, and the prefix comes first |
| `ChatWrapTheorems.RowsFit` | src/apps/solar_os_chat.c:860-1005 | no row of any message is wider than the window or longer than the buffer |
| `ChatWrapTheorems.PlaceRecovers` | src/apps/solar_os_chat.c:927-996 | the pieces a word is placed in make up the word behind what was on the line |
| `ChatWrapTheorems.RowsReadLikeTheMessage` | src/apps/solar_os_chat.c:860-1005 | where no word is dropped the rows read like the message: the same words in order, cut only at row ends |
| `ChatWrapTheorems.TextIsKeptExactlyWithRoom` | src/apps/solar_os_chat.c:810-830 | for each message: the rows show all of its nonblank bytes in order exactly if the buffer has room for every word on the line where the columns put its last piece |
| `ChatWrapTheorems.NarrowKeepsText` | src/apps/solar_os_chat.c:860-1005 | up to 63 columns the nonblank bytes after the prefix are exactly the message's, in order |
| `ChatWrapTheorems.TextIsKeptExactlyWhenNarrow` | src/apps/solar_os_chat.c:819-825 | all messages that a message field can hold keep their text exactly if four bytes a column fit the line buffer |
| `ChatRing.Ring.Append` | src/apps/solar_os_chat.c:495-554 | the ring holds the last 80 messages with the new one, unless it repeats the newest system message |
| `ChatRing.Ring.MessageAt` | src/apps/solar_os_chat.c:644-654 | indexed reading gives the i-th oldest message |
| `ChatRing.Ring.KeepSystem` | src/apps/solar_os_chat.c:596-617 | compaction in place keeps exactly the system messages in order, also across the end of the array |
| `ChatRing.CompactOne` | src/apps/solar_os_chat.c:605-615 | no message is overwritten before it is read |
| `ChatRing.RingKeepsTheLast` | src/apps/solar_os_chat.c:495-554 | any sequence of events leaves the last 80 of the unbounded log of accepted ones |
| `ChatRing.EventsBecomeTheNewest` | src/apps/solar_os_chat.c:495-554 | field by field: an event that repeats the newest system message changes nothing; any other becomes the newest, cut to the fields' sizes, behind all others or all but the oldest of 80 |
| `ChatRing.SystemOnlyJoins` | src/apps/solar_os_chat.c:605-615 | compaction works message by message and keeps the order |
| `ChatRing.SystemOnlyOfOne` | src/apps/solar_os_chat.c:605-615 | a message is kept exactly if it is a system message |
| `ChatView.UserPrefix` | src/apps/solar_os_chat.c:678-716 | the prefix and its emphasis fit their buffers |
| `ChatView.NamesAreCutToFit` | src/apps/solar_os_chat.c:678-716 | a name is shown in full if it fits the window with a colon and a blank, and is else cut at the end of a character to leave room for these and a tilde; all but colon and blank is emphasised |
| `ChatView.Prefix` | src/apps/solar_os_chat.c:718-775 | every prefix fits the 80-byte buffer that word wrap relies on |
| `ChatView.EmitVisualRows` | src/apps/solar_os_chat.c:1007-1044 | counting pass and drawing pass agree over all messages and sender gaps |
| `ChatView.MessagesAddTheirRows` | src/apps/solar_os_chat.c:1007-1038 | every message shown adds its rows behind those before, with an empty row in between exactly if somebody sent it and somebody else spoke last |
| `ChatView.VisualRowsFit` | src/apps/solar_os_chat.c:1007-1038 | no row of a conversation is wider than the window |
| `ChatView.DrawWindow` | src/apps/solar_os_chat.c:1056-1085 | the callback draws a window of rows, each on the screen row below the last |
| `ChatView.DrawMessages` | src/apps/solar_os_chat.c:1299-1330 | the scroll offset is clamped and the area is filled from the bottom with exactly the rows counted |
| `Calculator.Calc.EvaluateRow` | src/apps/solar_os_calc.c:234-260 | on every row graph it terminates with the reference value, flags as they were, the depth limit never met, and an error noted on failure |
| `Calculator.Calc.EvaluateExpr` | src/services/solar_os_expr.c:370-474 | the value of an expression over the rows, with the evaluator's own limit of nested nodes |
| `Calculator.Calc.LookupVariable` | src/apps/solar_os_calc.c:196-208 | the last row of that name that has a value |
| `Calculator.Calc.LookupFunction` | src/apps/solar_os_calc.c:210-232 | the last one-argument function row of that name that has a value |
| `Calculator.Calc.Recompute` | src/apps/solar_os_calc.c:262-278 | every value and variable row shows its reference value, whatever was shown before |
| `Calculator.Calc.CompileAll` | src/apps/solar_os_calc.c:280-286 | all rows are parsed anew and show the results of the new sheet |
| `Calculator.Calc.AddRow` | src/apps/solar_os_calc.c:349-368 | an only empty row is replaced, the oldest of eight gives way, all others stay in order, and results are those of the new sheet |
| `CalcTheorems.AcyclicRowsAreEquations` | src/apps/solar_os_calc.c:234-256 | without circles the flags are never felt: each row solves its equation and means the same from everywhere |
| `CalcTheorems.ClosedExpressions` | src/services/solar_os_expr.c:370-474 | an expression that names no rows has its arithmetic value on every sheet exactly if it is nested at most 24 deep, and is too deep otherwise |
| `CalcTheorems.ClosedRowsShowTheirValue` | src/apps/solar_os_calc.c:262-278 | a value or variable row shows the value of such an expression exactly if it is finite and not too deep |
| `CalcTheorems.NamesMeanTheLastRow` | src/apps/solar_os_calc.c:196-208 | pi, e and the argument come first, then the last variable row of that name that has a value, and without one the name is unknown |
| `CalcTheorems.CallsMeanTheLastRow` | src/apps/solar_os_calc.c:210-232 | built-in functions come first, then the last function row of that name that has a value for the argument, and without one the function is unknown |
| `CalcTheorems.CircularRowsFallBack` | src/apps/solar_os_calc.c:199-206 | on every sheet a row that names itself takes the value of the last other row of its name that has one while it is evaluated, and is an unknown variable without one |
| `OverlayMerge.GetAfterPut` | scripts/solaros_board_manifest.py:205-214 | setting a field changes that field only |
| `OverlayMerge.KeyErrors` | scripts/solaros_board_manifest.py:195-200 | an item's key is made of its key parts; it lacks one exactly if a part is missing, which is reported first, or is no plain value |
| `OverlayMerge.MergedKeepsKey` | scripts/solaros_board_manifest.py:238-241 | what a merge makes of a keyed item has the overlay item's key |
| `OverlayRun.BuildIndex` | scripts/solaros_board_manifest.py:222-225 | the index holds the last position of every key, or the first item without a key is an error |
| `OverlayRun.MergeOverlay` | scripts/solaros_board_manifest.py:203-246 | tables, union lists, keyed lists and plain values merge as the reference says, errors included; the result is the base under the overlay, and clean manifests always merge |
| `OverlayRun.MergeKeyed` | scripts/solaros_board_manifest.py:221-245 | the list edited beside its index is the fold of the overlay items |
| `OverlayRun.MergeItem` | scripts/solaros_board_manifest.py:226-244 | after each merge, append and removal the index equals the actual positions |
| `OverlayTheorems.KeyedMergeIsAnOrderedMap` | scripts/solaros_board_manifest.py:221-245 | unique keys stay unique, keep their order, and each key's item is the fold of its own overlay items |
| `OverlayTheorems.UnionIsDistinct` | scripts/solaros_board_manifest.py:216-217 | a union list names each element of both lists once |
| `OverlayTheorems.UnionExtendsBase` | scripts/solaros_board_manifest.py:216-217 | the base's elements come first in their order |
| `OverlayLaw.MergeObeys` | scripts/solaros_board_manifest.py:203-246 | at every path, whatever a merge returns is the base under the overlay: fields and keyed items that the overlay does not name are the base's and come first in their order, new ones are the overlay's, plain values and other lists are the overlay's, tables and keyed items in both obey the same law, removed items are gone and union lists list first occurrences |
| `OverlayLaw.UnionListsFirsts` | scripts/solaros_board_manifest.py:216-217 | a union list consists of the first elements of their kind, in order |
| `OverlayLaw.CleanMerge` | scripts/solaros_board_manifest.py:195-246 | manifests whose union lists are plain and whose keyed items have their keys always merge, and to such a manifest |
| `ManualChunks.FindLimit` | scripts/generate_manual.py:559-566 | the most characters whose encoding fits 900 bytes |
| `ManualChunks.EndIsGood` | scripts/generate_manual.py:567-584 | a chunk is nonempty, at most 900 bytes, and over 75 code points unless it is the last |
| `ManualChunks.CutsAtBlanks` | scripts/generate_manual.py:570-584 | a chunk ends behind a break or blank whenever its last two thirds hold one |
| `ManualChunks.ChunksEndAtTheLastBreak` | scripts/generate_manual.py:567-584 | behind the first third of what fits, a chunk ends behind the last paragraph break, without one behind the last line break, without one behind the last blank, and else where nothing more fits |
| `ManualChunks.CharsAreEncodedExactly` | scripts/generate_manual.py:559-566 | a character's bytes decode to it and are as few as it needs |
| `ManualChunks.SplitReference` | scripts/generate_manual.py:554-586 | the chunks follow one another through the text, each within its limits and ending where the rule says |
| `ManualChunks.ChunksPartitionTheText` | scripts/generate_manual.py:554-586 | the excerpts one after the other are the text |
| `ManualReferences.ReferenceIsSound` | scripts/generate_manual.py:628-641 | offset and length select exactly the excerpt from the encoded page |
| `ManualReferences.IndexSection` | scripts/generate_manual.py:626-641 | a section's references select its chunks, numbered in order |
| `ManualReferences.DeriveReferences` | scripts/generate_manual.py:613-642 | each section is found at its first occurrence behind the previous one, or the page is rejected |
| `ManualReferences.SectionsAreCovered` | scripts/generate_manual.py:613-642 | the references are to sections other than the quick reference, and to each of these that is not empty |
| `ManualReferences.ReferencesInOrder` | scripts/generate_manual.py:613-642 | over the whole page the excerpts lie one behind the other |
| `ManualReferences.ExcerptsDoNotOverlap` | scripts/generate_manual.py:613-642 | no two excerpts of a page overlap |
| `TaskAdmission.AddSize` | src/solar_os_task.c:92-99 | the guarded sum succeeds exactly when it fits 32 bits, and is then the sum |
| `TaskAdmission.InternalAdmitted` | src/solar_os_task.c:125-148 | the overflow-guarded test decides exactly the unbounded inequality |
| `TaskAdmission.ExternalAdmitted` | src/solar_os_task.c:150-168 | the same for a stack in external memory |
| `TaskAdmission.CanCreate` | src/solar_os_task.c:170-184 | an empty stack is refused, without external support every stack counts as internal, and the rest is decided by the stated inequalities on free and largest blocks |
| `TaskLedger.Ledger.Create` | src/solar_os_task.c:322-359 | the outcome is the admission's and FreeRTOS's together, counted once, with the counters settled again |
| `TaskLedger.Ledger.Admit` | src/solar_os_task.c:230-251 | a passed test leaves no trace, a refused one counts as a denied request |
| `TaskLedger.Ledger.AdmitManaged` | src/solar_os_task.c:253-276 | an admitted managed launch leaves the mutex taken and exactly one request of its role open |
| `TaskLedger.Ledger.NoteManagedResult` | src/solar_os_task.c:278-299 | the report closes the open request and gives the mutex back |
| `LaunchProtocol.StepKeeps` | src/solar_os_task.c:230-360 | every step of every thread keeps the launch invariant |
| `LaunchProtocol.LaunchesExclude` | src/solar_os_task.c:112-123 | in every interleaving at most one thread is between taking and giving the launch mutex |
| `LaunchProtocol.RequestsAreAccountedFor` | src/solar_os_task.c:56-90 | in every interleaving requests equal successes plus denials plus failures plus those in flight, role by role |
| `LaunchProtocol.LaunchesCountTheirOutcome` | src/solar_os_task.c:322-359 | an uninterrupted launch that creates its task was admitted, counts one request and one success or failure, and gives the mutex back |
| `LaunchProtocol.LaunchesCountTheirDenial` | src/solar_os_task.c:322-345 | an uninterrupted launch that is denied was not admitted, counts one request and one denial, and takes nothing |
| `LaunchProtocol.PassedTestsLeaveNoTrace` | src/solar_os_task.c:230-251 | a test alone that succeeds leaves no trace |
| `LaunchProtocol.FailedTestsAreCounted` | src/solar_os_task.c:230-251 | a test alone that fails counts one request and one denial |
| `LaunchProtocol.LaunchesGoOn` | src/solar_os_task.c:230-360 | a thread inside a launch can take its next step unless it waits for the mutex, whose holder then can |
| `LaunchProtocol.BackgroundLaunchesLeaveTheReserve` | src/solar_os_task.c:322-359 | a background launch that takes what it declared leaves 32 KiB, but for what the rest of the system took since the test |
| `ColdState.AppSlot.ReleaseState` | src/solar_os.c:35-49 | an empty slot is released already, a refusing guard changes nothing, otherwise the block is cleaned, freed and the slot cleared |
| `ColdState.AppSlot.StartApp` | src/solar_os.c:88-114 | which error a start ends in, a fresh block on success, and no block left behind by a failed start |
| `ColdState.ReleaseInSteps` | src/solar_os.c:35-49 | the interleaved machine's release steps, uninterrupted, are the release in one go |
| `ColdState.StepKeeps` | src/solar_os.c:35-128 | every step of the foreground thread and of the workers keeps the state-block invariant |
| `ColdState.SlotIsSetWhileTheBlockLives` | src/solar_os.c:35-49 | the slot is set exactly while its block lives |
| `ColdState.BlocksAreFreedOnceAfterCleanup` | src/solar_os.c:40-48 | no freed block is used or freed again, and every block is freed only after its cleanup |
| `ColdState.ReleaseStopsAtARunningWorker` | src/solar_os.c:35-49 | over every run, a release that has reached its guard, in a stop or in the next start, gives up exactly if a worker runs, and then leaves everything as it was |
| `ColdState.StopsFreeTheBlock` | src/solar_os.c:116-128 | a stop from rest frees the application's block after its cleanup, unless a worker still runs, and then changes nothing |
| `ColdState.StartsBringANewBlock` | src/solar_os.c:88-114 | a start from rest without a block brings a new one, and without memory changes nothing |
| `ColdState.RefusedStartsFreeTheBlock` | src/solar_os.c:105-114 | a start that its callback refuses frees the new block again |
| `ColdState.StartsFreeTheOldBlock` | src/solar_os.c:88-97 | a start while another block is there frees that first, unless a worker still runs, and then changes nothing |
| `ColdState.UnguardedWorkersFault` | src/solar_os.c:40-42 | without a release guard a worker can find its block freed |
| `ColdState.GuardIsNeededAndEnough` | src/solar_os.c:40-48 | over all runs workers stay off freed blocks exactly if there is a release guard |

## Left out

- `FlavorBuild.LoadFlavor`: the effective group flags that triggers switch on (scripts/generate_flavor_config.py:343-348) are not part of the result, which is the package flags.
- `FlavorBuild.ApplyBoardCapabilityPruning`: the pruned group flags (scripts/generate_flavor_config.py:423-449) are not part of the result.
- `FlavorBuild.ApplyTargetPruning`: the target arrives normalized; trimming and case folding of target and capability names happen before the model.
- `ImageScaling.ScaleRows`: works on whole pixels of a decoded image; resampling, colour conversion and allocation failures belong to the decoder.
- `ImageScaling.DecodeJpegScaled`: header and decoded sizes are one image here, so their disagreement is not modelled.
- `GifThinning.DecodeGif`: takes the scanned size and frame count as inputs and keeps pictures unscaled; the block scan, allocation failures and trimming of buffers are left out.
- `ChatRing.Ring.Append`: channel names, keys and timestamps are left out, and whether the system channel is unread is an input.
- `Calculator.Calc.AddRow`: parsing is a function of the row's text, so error messages of the parser are left out; values and built-in functions are an abstract arithmetic.
- `Calculator.Calc.CompileAll`: what `calc_parse_row` makes of a row's text, its kind included, is an abstract function.
- `Calculator.Calc.Recompute`: starts with no row being evaluated, which every evaluation restores.
- `OverlayRun.MergeOverlay`: floating-point and date keys are left out; a path step below a keyed item carries the key itself instead of its text.
- `JobRuntimes.JobSlot.EnterReturn`: the tick counter is unbounded; deadlines, durations and the last tick time are left out, and whether a tick is due is an input.
- Job resource lists, owner labels, argument texts and inspection queries: bookkeeping beside the protocol.
- The job model assumes one ticker thread (src/main.c:1407) and takes each wait note together with its queue or free step; the clamp in src/solar_os_task.c:311 would lose a count if another thread's note came first.
- Address reuse across more than 2^32 - 1 starts and stops: stated as a hypothesis where it matters.
- 32-bit wrap-around of the launch counters, the last-failure record and the polling wait for a task's end.
- `LaunchProtocol.StepKeeps`: interleavings are modelled on values, one step per critical section; updates in place are in `TaskLedger`, one call at a time.
- `ColdState.AppSlot.StartApp`: a worker that a failing start leaves behind is in the interleaved machine only.
- `ColdState.StepKeeps`: interleavings with workers are modelled on values; updates in place are in `ColdState.AppSlot`, without workers in between.
- Cold-state descriptors that are invalid, the context's status messages, and applications that use their block after setting the done flag.
- Previews, `select_all`, group support and lock queries of the configurator, its screens, and the TOML text itself: flavors are tables of names and booleans.
- `FlavorBuild.Build`: the group flags of the result and the generated files are left out, and the name arrives as text.
- `CatalogLoading.CheckPackages`: expansion drivers, their symbols and their owners are left out.
- `CatalogLoading.CheckGroups`: unknown triggers and sources owned by groups are left out.
- `CatalogLoading.LoadCatalog`: tables arrive as such; wrongly typed values, unknown triggers, sources owned by groups and doubly owned expansion drivers are left out.
- The calculator's graph view, history and files; the chat's input line, channel list and colours; the manual's Markdown rendering.
