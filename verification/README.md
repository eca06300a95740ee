# Job engines and meaning-preserving transformations

A Dafny model of the parts of this repository that have to survive cancellation, time-outs and crashes, and of the
text transformations whose results have an exact meaning.

- **The video service** (`image-service/app/video.py`). A durable queue of render jobs: a registry in memory, one file
  a job, a FIFO of ids, one worker, a cancel flag, a collection lease, pruning and a restart pass. `VideoJobs` is the
  protocol as a transition system, `VideoSafety`, `VideoHistory`, `VideoTermination` and `VideoRecovery` prove what
  holds over all its runs, `VideoRecords` and `VideoAdmission` say by the history alone what a restart, a claim, a prune
  and a submission come to, `VideoRaces` takes the worker's reads and writes apart, `VideoRenderer` is the object whose
  methods are those transitions, `RenderPipeline` is one render, tool by tool, `RenderRuns` puts it into a run of the
  service, and `Captions` cuts, times and stamps its subtitles.
- **The shared GPU** (`image-service/app/generator.py`). Any number of request threads and the video worker, one lock,
  one executor thread, and a cache of loaded models: `GpuProtocol`, `GpuProgress`, `ModelCache`, and the object in
  `Generators`.
- **The scan runner** (`strix-service/app/runner.py`, `store.py`). Admission, one semaphore, cancellation against a
  process that may exit, time out or still be talking: `ScanRunner`, `ScanService`, and `ScanOutcomes` for what a run's
  events say about its end and its admission.
- **The review job runner** (`review-bot/app/jobs.py`). One worker whose job bodies can outlive their time-out:
  `ReviewJobs`, and `ReviewQueue` for queue positions and the object.
- **Review output** (`review-bot/app/opencode/runner.py`, `github/diff.py`, `reviewer/schema.py`). JSON objects found in
  noise (`JsonText`, `JsonScan`, `ReviewExtraction`), lines of a patch that take comments (`DiffLines`, `DiffHunks`,
  `DiffStrays`, `DiffRefusals`), findings made usable (`ReviewSchema`), read field by field (`ReviewFields`), ranked
  (`ReviewRanking`) and routed (`ReviewRouting`).
- **Citations** (`server/internal/blog/citations.go`). Markers renumbered to a reference list, repeated ones collapsed,
  spaces tidied. `Citations` is the model; `CitationLaws`, `CitationLosses` and `CitationSpacing` are about renumbering,
  collapsing and tidying; `CitationMeaning`, `CitationSurvivors` and `CitationPrints` about what the result cites;
  `CitationBridges` and `CitationFixpoint` about resolving it again; `CitationDrafts` has drafts with and without
  trouble, and `CitationResolve` the methods.
- **Agent packages** (`server/internal/agentpack/sanitize.go`, `preview.go`). Secret-shaped keys removed from JSON trees,
  prompts cut to whole UTF-8 characters: `Sanitize`, `Truncate`.

`Options`, `Sequences`, `Distinct`, `Decimal` and `MapSum` are shared helpers. `dafny verify dfyconfig.toml` checks
everything.

A protocol is a function `Step` on states; a run is any sequence of events, and an event that cannot happen in a state
changes nothing, so a statement about all runs is a statement about all interleavings. Each class is proved method by
method against `Step`. Code that computes with a loop is a method with that loop, proved against a property or a
function whose laws are lemmas.

## What the code does not do

Some promises do not hold as they are usually read; each has a concrete run or input and the exact condition.

- A pruned video's directory is removed outside the lock (video.py:610-611). If its id is submitted again in between,
  the removal takes the new job's file, and a restart forgets a queued job (`VideoSafety.HazardLosesAJob`). A new job's
  file survives exactly when no removal of its own id is pending (`VideoSafety.NewJobSurvivesRemovalsIff`), which is what
  `HazardFree` asks of each submission of a run.
- The worker reads a job's status, and later its cancel flag, outside the lock that it writes under (video.py:615-620,
  630-638). A job answered as cancelled is rendered after all exactly when the cancel falls between that read and that
  write (`VideoRaces.PickupRaceIff`), and a flagged job ends failed exactly when it does at the end of a render
  (`VideoRaces.DecisionRaceIff`).
- A failed clip is to become a still, but video.py:414 catches only `RenderError`: a motion tool that cannot be started
  fails the video (`RenderRuns.UnstartedMotionFailsTheVideo`). A motion step that is begun fails its job exactly in
  that case and when nobody has asked to stop (`RenderRuns.MotionFailsTheJobIff`).
- Collapsing a run of citations loses one when the run ends in a link whose text repeats a number cited in the run
  (`CitationDrafts.CitationLostToALink`); the repaired draft cites what the writer cited exactly when no link takes the
  number of a source cited right before it (`CitationSurvivors.RepairKeepsMeaningIff`), and otherwise exactly the last
  citation of each such gap is lost (`CitationSurvivors.RepairCites`). The printed draft, whose places tabs do not part,
  forgives the loss exactly when the lost source is the link's own and is cited before a tab too
  (`CitationPrints.RepairPrintsIff`).
- Resolving a resolved draft again changes it when tidying has deleted a tab before a comma between two citations
  (`CitationDrafts.TabBeforeCommaIsNotFixed`); it changes nothing exactly when the draft has no such place and no first
  mention is lost to a link (`CitationFixpoint.ResolvingAgainIff`).
- `splitlines` cuts a patch at form feeds and other separators that do not end a line of a diff. A stray piece that starts
  like a shown row adds a line (`DiffStrays.FormFeedAddsALine`), and one that reads like a hunk header moves the reader
  (`DiffStrays.StrayHeaderMovesTheLine`), in any decimal digits (`DiffLines.ArabicHeader`). A header whose number has
  more than 4300 digits makes `int` raise at diff.py:40, so no file of the pull request is read; one added line is enough
  (`DiffStrays.LongHeaderStopsTheReader`). The answer is the lines shown exactly when every number is converted, every
  stretch read from a header on stays inside a hunk, and none leaves a gap (`DiffStrays.ReadExactlyIff`); where no stray
  piece reads like a header, exactly when every hunk's start is converted and no stray piece starts like a shown row
  (`DiffStrays.HeaderFreeReadExactlyIff`).
- One object on which `json.loads` raises something other than `JSONDecodeError`, such as a number of five thousand
  digits, aborts the extraction whatever else was printed (`ReviewExtraction.LongNumberLosesTheReview`); a printed review
  is returned exactly when no slice does that (`ReviewExtraction.PrintedReviewIsExtracted`).
- A finding whose line is an infinity raises inside `_coerce_issue`, which catches other conversion errors only, so the
  whole review fails (`ReviewSchema.UsableIff`, `ReviewRouting.BuildReview`).
- After a restart the scan registry and its files disagree (`ScanService.QueuedFileDiffers`) exactly when some run was in
  flight (`ScanService.MirrorAfterRestartIff`): store.py:204-205 is never reached for a recovered run.
- Reaping a scan removes its reference from the index even when the reference points to a newer run
  (`ScanService.ReapedNamesake`); a run stays found exactly when no reaped run shared its reference
  (`ScanService.StillFoundIff`).

## Assumptions

- Video: the configuration is constant and allows at least one attempt; `_save` fails only inside `submit`; each
  lock-protected section is one step, `submit` is two because it queues outside the lock, and pruning is one step and
  then one a directory. Pickup (616-620) and the end of a render (630-638) are single steps although the code reads
  outside the lock before it writes. `VideoRaces` makes each two moves: runs where no cancel falls in between are runs
  of the protocol (`RaceFreeRunRefines`), and where one does, files, attempts and the one running job still agree
  (`RacesKeepFilesAndAttempts`); a job is not pruned while the worker holds it between the two. Claims come with
  non-decreasing time where a theorem says so.
- Scan runner: code between two awaits is atomic, and nothing cancels the asyncio tasks themselves.
- Review jobs: `_enqueue` and `_finish` are atomic, submissions are serialised, and generated ids do not collide.
- Citations are tokens: a marker, a link whose text is a number, and single characters, of which space and comma are
  the separators of a run. Neither deleting a marker nor tidying makes its neighbours a new marker.
- JSON parsing, `lower()` and splitting narration into words are the libraries'; they are parameters here. What parsing
  a slice comes to is a value, the error that is caught, or another error. `lower()` leaves "medium" and "other" alone.
- A lease is free from time 0 until it is first granted: a claim by a clock before 1970 is refused.

## Model

| member | source | states |
|---|---|---|
| `VideoSafety.EveryReachableStateIsSafe` | image-service/app/video.py:489-638 | in every reachable state, crashes anywhere: each registered job equals its file; a queued job's id is in the queue or about to be put there; the running jobs are exactly the worker's one; queued and running jobs number at most the queue limit plus one; a queued job has an attempt left and no cancel flag |
| `VideoSafety.StepKeepsInv` | image-service/app/video.py:489-638 | every locked section, file read, directory removal and crash keeps the invariant |
| `VideoSafety.RunKeepsInv` | image-service/app/video.py:489-638 | so does any interleaving of them |
| `VideoSafety.NewJobSurvivesRemovalsIff` | image-service/app/video.py:603-611 | a new job keeps its file through all pending removals if and only if none of them is of its own id |
| `VideoSafety.HazardLosesAJob` | image-service/app/video.py:521-545 | a run in which a resubmitted id loses its file and is forgotten by a restart |
| `VideoHistory.KnownJobHistory` | image-service/app/video.py:489-638 | until it is pruned a job stays known, no submission creates it again, renders started equal attempts and never exceed the limit, and terminal states absorb |
| `VideoHistory.FlaggedJobFate` | image-service/app/video.py:570-638 | a job asked to stop is from then on running, cancelled or done: never requeued, never failed |
| `VideoHistory.CancelTakesEffect` | image-service/app/video.py:570-591 | cancelling ends a queued job, flags a running one, leaves a finished one and every other job as they were |
| `VideoHistory.InFlightJobsAreKept` | image-service/app/video.py:603-611 | pruning never takes an in-flight job, and only a crash takes one out of the registry |
| `VideoHistory.GrantsAreHanded` | image-service/app/video.py:550-568 | each grant of a history is to the current holder or after its lease has run out, restarts included |
| `VideoHistory.LeasesOfDifferentHoldersNeverOverlap` | image-service/app/video.py:550-568 | a lease granted to a new holder starts after the last lease of every other holder has run out |
| `VideoTermination.WorkIsBounded` | image-service/app/video.py:489-638 | over any run, renders started, jobs ended and renders interrupted are bounded by the initial potential and the jobs created |
| `VideoTermination.StepPotential` | image-service/app/video.py:489-638 | every pickup, end, cancel of a queued job and interruption lowers the potential; only a creation raises it |
| `VideoTermination.QueuedJobIsReached` | image-service/app/video.py:489-638 | from every state of the invariant, restart unfinished, put pending or worker busy, the service by itself renders a job that is queued or is still to be requeued |
| `VideoTermination.IdsLeaveInOrder` | image-service/app/video.py:544-620 | first in, first out over any run of one process: the ids taken, then those still queued, are those queued at the start and those that joined, in order |
| `VideoRecovery.RecoveryIsTotalAndIdempotent` | image-service/app/video.py:489-507 | however often the restart pass is itself interrupted, it ends with the outcome of one uninterrupted pass, no job running, finished jobs and leases untouched, and each requeued id queued once |
| `VideoRecords.RestartOfAJob` | image-service/app/video.py:489-507 | after any run since its submission, a crash and a completed pass, however often interrupted, a job in flight is cancelled if a cancel found it running, failed if its renders started so far are as many as it may have, and otherwise queued once with its attempts |
| `VideoRecords.ClaimIsGrantedIffFree` | image-service/app/video.py:550-568 | a claim is granted if and only if the job is done and, by the grants since its submission, nobody has had the lease, the claimant had it last, or it has run out; one that is not granted changes nothing |
| `VideoRecords.PrunedIffEndedBefore` | image-service/app/video.py:603-611 | a prune takes a job if and only if an event ended it and that event's clock is more than the keeping time back |
| `VideoRecords.RecordIsKept` | image-service/app/video.py:489-638 | the file of a known job records its history: asked to stop, renders started, when it ended, the last grant |
| `VideoRecords.NewJobIsFresh` | image-service/app/video.py:535-543 | a new job is queued, with no attempt, no cancel, no end and no lease |
| `VideoAdmission.SubmissionIsLetInIff` | image-service/app/video.py:525-543 | in every reachable state that is up a new id is listed if and only if its file can be saved and the jobs opened and not ended by the history are no more than the limit, and refused as full if and only if they are more |
| `VideoAdmission.FlightsAreCounted` | image-service/app/video.py:489-638 | conservation over any run: jobs in flight are those there were and those opened, less those ended |
| `VideoAdmission.QueueFillsUp` | image-service/app/video.py:528-543 | the bound is reached: one job more than the limit can be in flight, and then the next submission is refused |
| `VideoRaces.RaceFreeRunRefines` | image-service/app/video.py:613-638 | with pickup and the end of a render split into a read and a write, a run in which no cancel falls between the two is a run of the protocol |
| `VideoRaces.PickupRaceIff` | image-service/app/video.py:615-620 | over any stretch of other threads between the look at a job and the write that starts it, the write restarts a finished job if and only if a cancel of that job fell in between |
| `VideoRaces.DecisionRaceIff` | image-service/app/video.py:630-638 | likewise at the end of a failed render: a flagged job ends failed if and only if the flag was read down and a cancel fell in between; read up, the job ends cancelled |
| `VideoRaces.RacesKeepFilesAndAttempts` | image-service/app/video.py:489-638 | races included: registry and files agree, the running jobs are exactly the one the worker has, no queued job is lost, no job exceeds its attempts |
| `VideoRenderer.Renderer.constructor` | image-service/app/video.py:475-480 | a new process knows nothing but the files |
| `VideoRenderer.Renderer.LoadFile` | image-service/app/video.py:493-507 | reading one file back is the protocol's restart step |
| `VideoRenderer.Renderer.Load` | image-service/app/video.py:489-507 | the pass reads each file once, in any order, and completes |
| `VideoRenderer.LoadIsARun` | image-service/app/video.py:489-507 | a restart pass is a run of the protocol |
| `VideoRenderer.Renderer.Update` | image-service/app/video.py:516-519 | a job and its file change together |
| `VideoRenderer.Renderer.SubmitLockedSection` | image-service/app/video.py:525-543 | existing job, full queue, failed save or new job, and the state each leaves; `VideoAdmission.SubmissionIsLetInIff` says which |
| `VideoRenderer.Renderer.PutOnQueue` | image-service/app/video.py:544 | the put outside the lock |
| `VideoRenderer.Renderer.Submit` | image-service/app/video.py:521-545 | a whole submission is a run of the protocol; over the registry that pruning leaves, the answer is existing, created, full or not saved if and only if the id is there, there is room and it can be saved, there is no room, or it cannot be saved; a created job is listed, saved and last in the queue |
| `VideoRenderer.Renderer.ForgetStale` | image-service/app/video.py:604-609 | exactly the finished jobs older than the cutoff leave the registry |
| `VideoRenderer.Renderer.RemoveDirs` | image-service/app/video.py:610-611 | exactly their files go |
| `VideoRenderer.Renderer.Prune` | image-service/app/video.py:603-611 | pruning is one locked step and then removals, and what it leaves of registry and disk |
| `VideoRenderer.RemovalsAreARun` | image-service/app/video.py:610-611 | removing a set of directories is a run of removal steps |
| `VideoRenderer.Renderer.TryClaim` | image-service/app/video.py:550-568 | no answer if and only if there is no such finished job, yes if and only if the claim hands the lease over, and the new state |
| `VideoRenderer.Renderer.RequestCancel` | image-service/app/video.py:570-591 | the answer and new state of a cancel |
| `VideoRenderer.Renderer.PickUp` | image-service/app/video.py:613-620 | the worker takes the head of the queue, and drops an id that is gone or no longer queued |
| `VideoRenderer.Renderer.Report` | image-service/app/video.py:273-279 | a progress report stops the render if and only if a cancel was requested, and otherwise records stage and progress |
| `VideoRenderer.Renderer.FinishRender` | image-service/app/video.py:621-638 | a finished render ends done; a broken one cancelled when flagged and failed otherwise |
| `RenderPipeline.Render` | image-service/app/video.py:273-290 | the first step that notices a cancel or breaks ends the render and decides how; until then every photo or clip that fails leaves a note |
| `RenderPipeline.StopsIff` | image-service/app/video.py:273-290 | a step that the render gets to stops it if and only if it speaks, draws, moves or edits a shot with the flag up before it, or a clip fails with the flag up after it |
| `RenderPipeline.NoteIff` | image-service/app/video.py:343-420 | a step leaves a note if and only if the render got past it and its photo could not be fitted or its clip failed |
| `RenderRuns.ReadFlagsRise` | image-service/app/video.py:273-279 | in a run of the service the flag that a render reads only rises, and is up at its end if it ever was |
| `RenderRuns.RenderEndsTheJob` | image-service/app/video.py:621-638 | whatever else the service does meanwhile, a render ends its job done when it finishes, and otherwise cancelled if a cancel of the job came before its end and failed if none did; it never stops unasked |
| `RenderRuns.CancelledRenderEndsCancelled` | image-service/app/video.py:273-279 | a cancel before or during a step, with a reporting step to come, ends the render there at the latest and the job cancelled, whichever tool breaks first |
| `RenderRuns.KilledMotionCancels` | image-service/app/video.py:385-420 | a cancel that kills the motion tool stops the render at that step and ends the job cancelled; it never turns into a still |
| `RenderRuns.MotionFailsTheJobIff` | image-service/app/video.py:405-420 | a begun motion step fails its job if and only if its tool fails with something other than a RenderError and nobody asked to stop |
| `RenderRuns.StepFailsTheJobIff` | image-service/app/video.py:273-420 | a begun step of any kind fails its job if and only if nothing survives its failure and nobody asked to stop |
| `RenderRuns.UnaskedRenderIsDoneIff` | image-service/app/video.py:621-638 | a render nobody stops ends its job done if and only if no step breaks the video |
| `RenderRuns.UnstartedMotionFailsTheVideo` | image-service/app/video.py:405-420 | a motion tool that cannot be started fails a video nobody cancelled |
| `Captions.SplitLines` | image-service/app/video.py:108-126 | lines of one to the maximum number of words, broken exactly where the rule says, whose words are the narration's in order |
| `Captions.LinesAreUnique` | image-service/app/video.py:108-126 | the rule allows one division into lines only |
| `Captions.TimeLines` | image-service/app/video.py:127-137 | cues share endpoints, tile the narration's time exactly, and each lasts its text's share of the time by length |
| `Captions.CaptionCues` | image-service/app/video.py:108-137 | both together, and no cues for empty text or time |
| `Captions.JoinedIsTheLine` | image-service/app/video.py:108-126 | the text of a cue, cut at its spaces, is the words of its line |
| `Captions.StampRoundTrip` | image-service/app/video.py:140-148 | decoding an SRT stamp gives its rounded milliseconds, for every time |
| `Captions.StampsKeepOrder` | image-service/app/video.py:140-148 | stamping never puts cues out of order |
| `Captions.StampIsClose` | image-service/app/video.py:140-148 | a stamp is within half a millisecond of its time, and of two as close it is the even one |
| `Captions.StampHasShape` | image-service/app/video.py:140-148 | every stamp is hours, two digits, two digits, three digits, with ":", ":" and "," between them |
| `GpuProtocol.EveryReachableStateIsSafe` | image-service/app/generator.py:141-315 | for any number of threads: one holder of the GPU; all executor work is the holder's; while a clip runs no model is resident or loading; models in memory never exceed the limit; the cache is a suffix of the names by last use, and all that fit unless a load failed |
| `GpuProtocol.StepKeepsInv` | image-service/app/generator.py:141-315 | every step of lock, executor and cache keeps that |
| `GpuProtocol.RunKeepsInv` | image-service/app/generator.py:141-315 | so does every interleaving |
| `GpuProtocol.WorkIsTheHolders` | image-service/app/generator.py:252-302 | a load or draw in the executor's line belongs to the lock holder, and no clip is running |
| `GpuProgress.NoDeadlock` | image-service/app/generator.py:179-302 | while a call is pending some step other than a new call or a time-out is possible |
| `GpuProgress.StepsMakeProgress` | image-service/app/generator.py:179-302 | every such step lowers a measure |
| `GpuProgress.RunsEnd` | image-service/app/generator.py:179-302 | without new calls every run is bounded |
| `GpuProgress.EveryCallCanFinish` | image-service/app/generator.py:252-302 | from every reachable state all pending calls can be served with nobody timing out |
| `GpuProgress.TasksEndInOrder` | image-service/app/generator.py:269-325 | first in, first out over any run: the tasks the executor ended, then its line, are those in line at the start and those handed to it, in order |
| `ModelCache.RecencyIsByLastUse` | image-service/app/generator.py:207-212 | the reference list really orders names by their last use |
| `ModelCache.TouchRefines` | image-service/app/generator.py:207-210 | a hit moves the model to the end and keeps the cache a suffix of the list |
| `ModelCache.TrimRefines` | image-service/app/generator.py:162-168 | eviction keeps the most recently used models and leaves room for one |
| `ModelCache.InsertRefines` | image-service/app/generator.py:162-177 | a miss that loads keeps the cache the most recent names that fit |
| `Generators.Generator.MakeRoom` | image-service/app/generator.py:165-168 | the eviction loop leaves exactly the newest models below the limit |
| `Generators.Generator.FindModel` | image-service/app/generator.py:203-212 | unknown model, hit, or miss with room made; an unknown one leaves the cache as it was and ends the task |
| `Generators.Generator.EndLoad` | image-service/app/generator.py:170-177 | a model is listed only after it was constructed |
| `Generators.Generator.EvictEverything` | image-service/app/generator.py:304-306 | nothing is resident before the clip starts |
| `Generators.Generator.AcquireGpu` | image-service/app/generator.py:179-183 | a thread gets the lock when it is free, or leaves after its time-out while another has it; only a draw times out |
| `Generators.Generator.SubmitToExecutor` | image-service/app/generator.py:269-284 | the holder hands its work to the executor |
| `Generators.Generator.ReleaseGpu` | image-service/app/generator.py:285-302 | the lock is given back on every way out |
| `Generators.Generator.Enter` | image-service/app/generator.py:265-302 | a draw or a clip comes to wait for the lock |
| `Generators.Generator.AskCatalogue` | image-service/app/generator.py:321-325 | a catalogue request goes to the executor without the lock |
| `Generators.Generator.BeginTask` | image-service/app/generator.py:269-284 | the executor takes the head of its line |
| `Generators.Generator.EndDraw` | image-service/app/generator.py:269-284 | the end of a draw hands the thread on and frees the executor |
| `Generators.Generator.AnswerCatalogue` | image-service/app/generator.py:321-325 | a catalogue request is answered and gone |
| `JsonScan.ScanFrom` | review-bot/app/opencode/runner.py:33-57 | the scan from an opening brace ends at the first brace that balances it outside strings, and finds none only when there is none |
| `JsonScan.SliceIsUnique` | review-bot/app/opencode/runner.py:33-57 | each brace yields at most one slice |
| `JsonScan.ValueIsNeutral` | review-bot/app/opencode/runner.py:41-57 | scanning any printed JSON value leaves the scanner where it was, never closing the object around it |
| `JsonScan.PrintedObjectIsSliced` | review-bot/app/opencode/runner.py:33-57 | whatever surrounds a printed object, the scan from its brace yields exactly its span |
| `ReviewExtraction.ExtractReview` | review-bot/app/opencode/runner.py:60-79 | an error of the parser escapes if some slice raises it; otherwise the answer is the last slice, by start, that parses and looks like a review |
| `ReviewExtraction.ExtractionIsUnique` | review-bot/app/opencode/runner.py:60-79 | that determines the answer |
| `ReviewExtraction.PrintedReviewIsExtracted` | review-bot/app/opencode/runner.py:60-79 | a printed review with no opening brace in its strings or after it and no review inside it is returned if and only if no slice makes the parser raise; otherwise extraction aborts |
| `ReviewExtraction.RaisingObjectEscapes` | review-bot/app/opencode/runner.py:70-75 | any printed object on which the parser raises, anywhere in the output, aborts extraction |
| `ReviewExtraction.LongNumberLosesTheReview` | review-bot/app/opencode/runner.py:70-75 | an object with one number of five thousand digits loses the review printed after it |
| `ReviewExtraction.StripAround` | review-bot/app/opencode/runner.py:17-66 | removing terminal escapes leaves a printed object alone |
| `ReviewExtraction.StripTakesTheFirst` | review-bot/app/opencode/runner.py:17-66 | the first match of the escape pattern goes, whole and alone, and the rest is cleaned likewise |
| `ReviewExtraction.StripKeepsText` | review-bot/app/opencode/runner.py:17-66 | a text without a match stays as it is |
| `ReviewJobs.EveryReachableStateIsSafe` | review-bot/app/jobs.py:111-243 | at most one job is running, and one reference belongs to one job |
| `ReviewJobs.StepKeepsInv` | review-bot/app/jobs.py:111-243 | submissions, starts, bodies, late bodies and time-outs keep the queue equal to the queued jobs in submission order and the running job the worker's |
| `ReviewJobs.RunKeepsInv` | review-bot/app/jobs.py:111-243 | so does every run |
| `ReviewJobs.FinishedIsFinal` | review-bot/app/jobs.py:217-243 | state and finish time of a finished job never change, even when a timed-out body completes later |
| `ReviewJobs.EndedOnce` | review-bot/app/jobs.py:239-243 | in any run a job is stamped terminal exactly once if it ends and never otherwise |
| `ReviewJobs.JobEndsAs` | review-bot/app/jobs.py:205-243 | over any run a job is done if and only if its body ended well before anything else ended it, failed if its body failed or the time-out came first, and stamped with the time of that; while nothing has ended it, it is not over |
| `ReviewQueue.PositionIsJobsEndedBeforeStart` | review-bot/app/jobs.py:163-170 | the position a waiting job is given is exactly the number of jobs that end between then and its start |
| `ReviewQueue.PositionOverARun` | review-bot/app/jobs.py:163-170 | while a job waits, its position falls by exactly the number of jobs that end |
| `ReviewQueue.PositionNeverIncreases` | review-bot/app/jobs.py:163-170 | a waiting job never moves back |
| `ReviewQueue.PositionIsPlace` | review-bot/app/jobs.py:163-170 | counting by submission number gives the place in the queue, plus one while a job is running |
| `ReviewQueue.JobRunner.FindByRunRef` | review-bot/app/jobs.py:135-143 | a job is found if and only if one was submitted with the reference |
| `ReviewQueue.JobRunner.SubmitReview` | review-bot/app/jobs.py:111-157 | a reference that is not empty and was submitted before returns its job and changes nothing; otherwise a new job, with the highest number, joins the end of the queue |
| `ReviewQueue.JobRunner.QueuePosition` | review-bot/app/jobs.py:163-170 | nothing unless queued; otherwise the place in the queue plus one while a job is running |
| `ReviewQueue.JobRunner.TakeNext` | review-bot/app/jobs.py:197-209 | the oldest queued job starts |
| `ReviewQueue.JobRunner.Finish` | review-bot/app/jobs.py:239-243 | only a running job can be finished |
| `ReviewQueue.JobRunner.EndWait` | review-bot/app/jobs.py:210-215 | after a join or a time-out no job is running |
| `DiffLines.HeaderIff` | review-bot/app/github/diff.py:15-16 | the reader accepts exactly the lines the header pattern matches, in any decimal digits, with the number it captures |
| `DiffLines.ArabicHeader` | review-bot/app/github/diff.py:15-16 | a header with an Arabic nine starts at line 9 |
| `DiffLines.CommentableLines` | review-bot/app/github/diff.py:29-51 | the loop finds what the scan of the patch's lines finds, never line 0, and raises if and only if a header's number is too long to be converted |
| `DiffLines.AfterBody` | review-bot/app/github/diff.py:42-49 | between two headers the shown lines are numbered consecutively, and nothing is found outside a hunk |
| `DiffHunks.StretchesAreRead` | review-bot/app/github/diff.py:36-49 | from any state, what a list of pieces adds is the union of its stretches, each read from one header, stray or not, to the next |
| `DiffHunks.PatchIsRead` | review-bot/app/github/diff.py:29-51 | the scan of any rendered patch, with or without its last line feed, finds the union of its hunks' spans, stray pieces of both kinds followed |
| `DiffHunks.HeaderFreeSpan` | review-bot/app/github/diff.py:36-49 | without stray headers a hunk's span is its own lines and one more for each shown stray piece |
| `DiffRefusals.PatchIsRefusedIff` | review-bot/app/github/diff.py:36-40 | reading a rendered patch raises if and only if a hunk starts at a number of more than 4300 digits or a stray piece reads like a header with one |
| `DiffRefusals.PatchIsAnswered` | review-bot/app/github/diff.py:29-51 | what reading any rendered patch answers: the union of its hunks' spans, or the error |
| `DiffRefusals.PlainPatchIsReadExactly` | review-bot/app/github/diff.py:29-51 | for hunks without stray separators that is exactly the union of their new-side intervals, or the error if a start is not converted |
| `DiffStrays.ReadExactlyIff` | review-bot/app/github/diff.py:29-51 | for every separated patch the answer is the lines shown if and only if every number is converted, each stretch read stays inside a hunk, each hunk's first line is read, and a stretch ending inside a hunk is continued |
| `DiffStrays.HeaderFreeReadExactlyIff` | review-bot/app/github/diff.py:36-40 | where no stray piece reads like a header, if and only if every hunk's start is converted and no stray piece of a file that exists starts like a shown row |
| `DiffStrays.FormFeedAddsALine` | review-bot/app/github/diff.py:36 | a patch that shows line 1 only and is read as showing lines 1 and 2 |
| `DiffStrays.StrayHeaderMovesTheLine` | review-bot/app/github/diff.py:36-39 | a patch that shows lines 1 and 2 and is read as showing lines 1 and 9, with no stray shown row |
| `DiffStrays.LongHeaderStopsTheReader` | review-bot/app/github/diff.py:36-40 | one added line with a form feed and a header of five thousand digits in it makes the patch unreadable, whatever else is in it |
| `ReviewSchema.UsableIff` | review-bot/app/reviewer/schema.py:79-114 | a finding is dropped if and only if it is no object, says nothing or names no file; an infinite line raises; an unreadable one becomes 0 |
| `ReviewSchema.StripsTheEnds` | review-bot/app/reviewer/schema.py:75-76 | cleaning removes blanks from the ends and nothing else |
| `ReviewFields.FindingIsReadAsWritten` | review-bot/app/reviewer/schema.py:79-114 | every finding is dropped, raises, or becomes an issue whose severity, category, path, line, title, reason and suggestion are said field by field in terms of the texts written |
| `ReviewFields.IssueIsDetermined` | review-bot/app/reviewer/schema.py:79-114 | those clauses leave one issue only |
| `ReviewFields.FindingsAreAsWritten` | review-bot/app/reviewer/schema.py:128-132 | the issues are those of the kept findings, one each, in their order |
| `ReviewFields.IssuesAreKept` | review-bot/app/reviewer/schema.py:128-132 | each kept finding has its issue and each issue its finding |
| `ReviewRanking.SortedIsAStableSort` | review-bot/app/reviewer/schema.py:70-72 | the sort by rank loses nothing and keeps the order of equals |
| `ReviewRanking.StableSortIsUnique` | review-bot/app/reviewer/schema.py:138-139 | only one list is in rank order and agrees with the input rank by rank |
| `ReviewRanking.InRankOrderIff` | review-bot/app/reviewer/schema.py:70-72 | rank order means: nothing that breaks or misses the intent after something else, and within each no worse severity after a better one |
| `ReviewRouting.ParseChangedFiles` | review-bot/app/github/diff.py:54-66 | each file's lines are those of its own patch, none without one; all of it raises if and only if one patch does |
| `ReviewRouting.BuildReview` | review-bot/app/reviewer/schema.py:117-147 | None if and only if a kept finding's line is an infinity; otherwise the issues are those of the findings as written, each routed by the last file listed under its path, both lists ranked |
| `ReviewRouting.LinesAreTheLast` | review-bot/app/reviewer/schema.py:117-119 | of two files with one path the last one's lines count |
| `ReviewRouting.UnlistedHasNoLines` | review-bot/app/reviewer/schema.py:133-136 | a path that is not listed has no commentable line |
| `ReviewRouting.RoutingLosesNothing` | review-bot/app/reviewer/schema.py:117-147 | inline and summary findings together are the usable ones, each once; inline ones are on commentable lines and summary ones are not; both are ranked |
| `ReviewRouting.NoLineGoesToTheSummary` | review-bot/app/reviewer/schema.py:93-96 | a finding without a line is kept for the summary |
| `ReviewRouting.FixIff` | review-bot/app/reviewer/schema.py:48-67 | the decision is FIX if and only if a usable finding is critical or high |
| `ReviewRouting.FixIffWritten` | review-bot/app/reviewer/schema.py:48-67 | from the payload: FIX if and only if some kept finding's severity text lowers to "high" or its category text to "breaks" or "intent" |
| `ReviewRouting.CriticalComesFirst` | review-bot/app/reviewer/schema.py:40-63 | the blocking findings are the critical list followed by the other high ones |
| `Citations.IndexSources` | server/internal/blog/citations.go:42-52 | sources by URL, the last one winning |
| `Citations.MarkerCites` | server/internal/blog/citations.go:54-82 | a marker cites the finding of its number, counted from one, with leading zeros or without, if that finding has a source; number zero cites nothing |
| `Citations.Renumber` | server/internal/blog/citations.go:54-82 | the closure that grows the references computes the rewriting the laws are about |
| `Citations.CollapseRun` | server/internal/blog/citations.go:98-110 | each number of a run once, in order of first appearance |
| `CitationLaws.RewriteKeepsMeaning` | server/internal/blog/citations.go:54-82 | each surviving marker names a reference whose URL the original pointed to, gap by gap; references are distinct sources; first appearances read 1, 2, 3 and so on; other text is untouched |
| `CitationLaws.CollapseTwice` | server/internal/blog/citations.go:98-110 | collapsing twice is collapsing once |
| `CitationLosses.CollapseLeaves` | server/internal/blog/citations.go:98-110 | what collapsing does to any draft: each gap keeps each of its citations once, in order, but where a link repeats one the last is lost and its number becomes the text of the link |
| `CitationLosses.CollapseIsTidyIff` | server/internal/blog/citations.go:89-110 | so each gap keeps its citations and nothing else changes if and only if no link repeats a number cited right before it |
| `CitationSpacing.CloseUpRun` | server/internal/blog/citations.go:155-163 | a whole run of spaces and tabs goes if punctuation follows it and stays otherwise |
| `CitationSpacing.SqueezeRun` | server/internal/blog/citations.go:157-164 | of a run of spaces as many stay as there is room for, and nothing after the run depends on it |
| `CitationSpacing.BlanksGoIff` | server/internal/blog/citations.go:155-163 | spaces and tabs before something else go if that is one of seven punctuation characters, and stay otherwise |
| `CitationSpacing.SpacesLeft` | server/internal/blog/citations.go:157-164 | of the spaces after a character at most one stays, after a line feed at most two |
| `CitationSpacing.SpacedKeeps` | server/internal/blog/citations.go:162-166 | tidying takes away spaces and tabs only; citations and all other text stay in place |
| `CitationSpacing.SpacedTwice` | server/internal/blog/citations.go:162-166 | tidying twice is tidying once |
| `CitationSpacing.SettledIff` | server/internal/blog/citations.go:98-110 | collapsing changes nothing if and only if no two markers are parted by separators only and no block repeats a number |
| `CitationMeaning.ReferencesInOrder` | server/internal/blog/citations.go:54-86 | the references are exactly the sources cited, distinct, in the order of first mention |
| `CitationSurvivors.RepairCites` | server/internal/blog/citations.go:37-110 | for every draft, gap by gap: the repaired draft cites the writer's sources, each once, in order, less the last where a link takes the number of one of them |
| `CitationSurvivors.RepairKeepsMeaningIff` | server/internal/blog/citations.go:37-110 | the repaired draft cites what the writer cited, place by place, if and only if no link takes the number of a source cited right before it |
| `CitationSurvivors.FirstMentionsIff` | server/internal/blog/citations.go:33-34 | numbers first appear as 1, 2, 3 and so on, one for each reference, if and only if the surviving citations mention every source in the writer's order |
| `CitationPrints.ResolvedDraftMeansTheSame` | server/internal/blog/citations.go:37-87 | the whole resolution: references, text, numbering, and what is cited before each piece of text, in the repaired draft and in the printed one, each with its exact condition on draft and brief |
| `CitationPrints.RepairPrintsIff` | server/internal/blog/citations.go:37-110 | with tabs out of the way the draft cites the same sources in each place, in the same order of first mention, if and only if every link that takes a citation takes its own source's, cited before a tab as well |
| `CitationBridges.CollapseAgainIff` | server/internal/blog/citations.go:84-110 | a tidied draft is still collapsed if and only if the writer's draft has no tab that goes between two citations |
| `CitationFixpoint.ResolvingAgainIff` | server/internal/blog/citations.go:37-110 | resolving the result against its own references changes nothing if and only if first mentions survive and there is no such tab |
| `CitationFixpoint.ResolvingAgainChangesNothing` | server/internal/blog/citations.go:37-110 | for drafts whose meaning is kept, if and only if there is no such tab |
| `CitationDrafts.NoLinkAfterCitationIsEnough` | server/internal/blog/citations.go:37-110 | a draft with no numeric link right after a citation and no tab resolves as promised, once and for all |
| `CitationDrafts.CitationLostToALink` | server/internal/blog/citations.go:98-110 | a draft whose citation is lost to a link |
| `CitationDrafts.TabBeforeCommaIsNotFixed` | server/internal/blog/citations.go:84-166 | a draft with a tab before a comma whose resolved form is not a fixed point |
| `CitationResolve.CollapseDraft` | server/internal/blog/citations.go:89-110 | replacing run after run computes the collapse |
| `CitationResolve.ResolveCitations` | server/internal/blog/citations.go:37-87 | the whole, with and without findings: renumbering, collapsing, tidying |
| `CitationResolve.StrippedDraft` | server/internal/blog/citations.go:112-122 | without findings all citations go, then nothing but spaces and tabs, and doing it again changes nothing |
| `Sanitize.SanitizedHasNoSecretKey` | server/internal/agentpack/sanitize.go:47-77 | no secret-shaped key at any depth |
| `Sanitize.CleanIsFixed` | server/internal/agentpack/sanitize.go:47-77 | a tree changes if and only if it holds a secret-shaped key |
| `Sanitize.SanitizingTwice` | server/internal/agentpack/sanitize.go:47-77 | sanitising twice is sanitising once |
| `Sanitize.SanitizedAt` | server/internal/agentpack/sanitize.go:47-77 | exactly the values reached through kept keys survive, in place |
| `Sanitize.AllowedKeysAreNotSecret` | server/internal/agentpack/sanitize.go:12-29 | no key on the allow-list is secret-shaped |
| `Sanitize.IsSecretKeyIff` | server/internal/agentpack/sanitize.go:10-29 | a key is secret-shaped if and only if one of the fifteen words of the pattern occurs in it, case ignored |
| `Sanitize.EngineConfigHasNoSecret` | server/internal/agentpack/sanitize.go:31-43 | only allowed keys at the top and no secret-shaped key below |
| `Sanitize.EngineConfigTwice` | server/internal/agentpack/sanitize.go:31-43 | sanitising a config twice is sanitising it once |
| `Sanitize.EngineConfigAt` | server/internal/agentpack/sanitize.go:31-43 | exactly what is reached through an allowed key and then kept keys survives |
| `Sanitize.Walk` | server/internal/agentpack/sanitize.go:126-146 | the walk appends exactly the keys to report |
| `Sanitize.ReportedIff` | server/internal/agentpack/sanitize.go:126-146 | something is reported if and only if the tree has a secret-shaped key |
| `Sanitize.CheckSanitized` | server/internal/agentpack/preview.go:28-55 | after sanitising, the branch that refuses a package for a secret is never taken |
| `Truncate.TruncateBytes` | server/internal/agentpack/sanitize.go:115-124 | short or unlimited text is kept; otherwise the longest prefix within the limit that is valid UTF-8 |
| `Truncate.ValidIff` | server/internal/agentpack/sanitize.go:115-124 | a text is valid if and only if it is the encoding of Unicode scalar values, by section 3 of RFC 3629 |
| `Truncate.TruncationLosesLittle` | server/internal/agentpack/sanitize.go:115-124 | cutting valid text loses at most three bytes below the limit |
| `Truncate.CutNearby` | server/internal/agentpack/sanitize.go:115-124 | within three bytes of any cut there is one between two characters (sections 3 and 4 of RFC 3629) |
| `Truncate.Package.SanitizeInPlace` | server/internal/agentpack/sanitize.go:80-98 | engine config, skill configs and overrides are clean afterwards, the prompt is cut to whole characters, and doing it again changes nothing |
| `ScanRunner.EveryReachableStateIsSafe` | strix-service/app/runner.py:141-175 | the admission counter equals the runs that have not entered the semaphore and stays within the queue limit; executing runs stay within the concurrency limit and admitted ones within the sum; each run is finished exactly once |
| `ScanRunner.StepKeepsInv` | strix-service/app/runner.py:141-311 | every stretch of code between two awaits keeps that |
| `ScanRunner.RunKeepsInv` | strix-service/app/runner.py:141-311 | so does every interleaving |
| `ScanRunner.ClampNeverActs` | strix-service/app/runner.py:165 | the clamp at zero never changes the counter |
| `ScanRunner.OverStaysOver` | strix-service/app/runner.py:162-175 | a finished run never changes again |
| `ScanRunner.CancelledRunNeverCompletes` | strix-service/app/runner.py:422-430 | once a run that is not over has been asked to stop, it never ends completed or over budget, on any interleaving with queueing, start, exit, time-out and draining |
| `ScanRunner.CancelledRunFailsOnlyWhenBroken` | strix-service/app/runner.py:162-311 | a cancelled run turns failed if and only if start-up failed or its own code raised |
| `ScanRunner.UncancelledRun` | strix-service/app/runner.py:162-311 | a run nobody cancelled is never reported cancelled |
| `ScanOutcomes.UncancelledRunEndsAs` | strix-service/app/runner.py:262-347 | a run nobody cancels ends completed if and only if it was read to its end after an exit with code 0 or 2, reached the target or found something, and was neither too fast nor fabricated; over budget if and only if after an exit with another code with both words in its output; failed in every other case |
| `ScanOutcomes.CountersAreTheHistory` | strix-service/app/runner.py:141-175 | the admission counter is the runs admitted and not let in, and the free places are those not taken by runs let in and not ended |
| `ScanOutcomes.PostIsAdmittedIff` | strix-service/app/runner.py:141-158 | a new run is queued if and only if fewer runs than the limit are admitted and not let in, and failed on the spot otherwise |
| `ScanOutcomes.WaitingRunIsLetInIff` | strix-service/app/runner.py:162-169 | a waiting run is let in if and only if fewer runs than the limit are let in and not ended; it then ends cancelled if it was asked to stop, failed if it cannot be prepared, and starts otherwise |
| `ScanService.Runner.Submit` | strix-service/app/runner.py:141-158 | refused when the queue is full; otherwise queued at the position answered |
| `ScanService.Runner.EnterSemaphore` | strix-service/app/runner.py:162-169 | entering the semaphore, with the cancel check before start-up |
| `ScanService.Runner.ProcessStarted` | strix-service/app/runner.py:234-258 | a scan process is registered, or the run fails |
| `ScanService.Runner.Decide` | strix-service/app/runner.py:271-307 | the cancel flag decides first, then the time-out, then the scan |
| `ScanService.Runner.RequestCancel` | strix-service/app/runner.py:422-430 | yes if and only if the run is not over, and then it is marked |
| `ScanService.Runner.End` | strix-service/app/runner.py:162-175 | a run that ends gives its place back and leaves the process and cancel sets |
| `ScanService.Pump` | strix-service/app/runner.py:384-405 | the kept tail is exactly the last bytes of the output, however it is cut into chunks |
| `ScanService.NoRunIsStranded` | strix-service/app/runner.py:141-311 | from every reachable state every submitted run can still come to its end |
| `ScanService.Store.Create` | strix-service/app/store.py:101-120 | the new run, its reference in the index, and its file |
| `ScanService.Store.FinishRun` | strix-service/app/store.py:149-158 | one run changes state, in memory and on disk |
| `ScanService.Store.GetByRef` | strix-service/app/store.py:126-135 | the run found carries the reference |
| `ScanService.Store.Persist` | strix-service/app/store.py:165-175 | a disk that refuses leaves the previous file |
| `ScanService.Store.LoadFromDisk` | strix-service/app/store.py:177-210 | every file is registered, a run in flight as failed and any other as it was, and no file is rewritten |
| `ScanService.Store.Reap` | strix-service/app/store.py:212-245 | exactly the old finished runs go, with their files and their references |
| `ScanService.InFlightRunsAreKept` | strix-service/app/store.py:233-234 | a run in flight is never reaped |
| `ScanService.StillFoundIff` | strix-service/app/store.py:240-243 | in the registry that reaping leaves, a surviving run still answers to its reference if and only if no reaped run shared it; otherwise nobody does |
| `ScanService.ReapedNamesake` | strix-service/app/store.py:240-243 | two runs of one reference: reaping the older makes the newer, still running, unfindable |
| `ScanService.MirrorAfterRestartIff` | strix-service/app/store.py:177-210 | in the registry that a restart leaves, memory and files agree if and only if no run was in flight |
| `ScanService.QueuedFileDiffers` | strix-service/app/store.py:177-210 | one queued file: after a restart it says queued and the registry says failed |

## Left out

- Everything behind a subprocess, a GPU, a network or a model: ffmpeg, speech, video and image models, git, GitHub and Docker are steps that succeed, fail or are killed.
- HTTP handlers, routing and authentication, and the await between lookup and creation of a scan in strix-service/app/main.py:293-308.
- Job fields that no decision reads: messages, notes, titles, the request itself. Job dictionaries are values here, so a caller that keeps a returned job does not see it change.
- Unreadable `job.json` and `meta.json` files, which both restart passes skip, and directories that are only partly removed.
- Floating point: times and durations are rationals and integers, progress is in thousandths.
- The byte arithmetic of `clip_frames`, `ken_burns` and `caption_style`, and joining cues into an SRT file.
- `referencesMarkdown`: Markdown layout. The regular expressions over drafts are a token model.
- `SafeFilename`, `Tools` and `HeaderSafe`; case folding and trimming of keys are ASCII.
- `json.loads`: what a slice parses to, whether it raises, and whether it looks like a review, are parameters of the extraction.
- Splitting a finding's text into a number.
- `render_diff` and its budget, prompts, and serialising reviews to dictionaries.
- `strix-service/app/scope.py` and severity tables: rule by rule they would add only easy members.
- Time stamps and durations in the scan registry, the order of its listings, and cancellation of asyncio tasks at shutdown.
- Result and error of a timed-out review job: only its state and finish time are final.
- Captions.CaptionCues: does not model `text.split()`; words are given and none is empty.
- ReviewRouting.BuildReview: does not model aliasing of the two lists; they are sorted as values.
- VideoHistory.LeasesOfDifferentHoldersNeverOverlap: holds as long as the job stays in the registry, because pruning forgets its leases.
