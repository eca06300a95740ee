/**
 * The video job queue: what one job is, what the service holds in memory and on disk, and what each
 * lock-protected section does to both.
 *
 * A run of the service is a sequence of events. Every event names the section that runs and carries what the
 * section learns from outside (the clock, the caller's arguments, whether a write or a render worked), so Step
 * is a function and a theorem over all sequences of events is a theorem over all interleavings. An event whose
 * section cannot run in the current state changes nothing.
 */
module VideoJobs {
  import opened Options

  type Id = string

  datatype Status = Queued | Running | Done | Failed | Cancelled

  /** The job dictionary, without the request it was made from. Times are in seconds, progress in thousandths. */
  datatype Job = Job(
    id: Id, status: Status, stage: string, error: string, progress: int, attempts: nat, cancelRequested: bool,
    createdAt: int, startedAt: Option<int>, finishedAt: Option<int>, holder: string, until: int)

  predicate InFlight(j: Job) { j.status in {Queued, Running} }

  predicate Finished(j: Job) { j.status in {Done, Failed, Cancelled} }

  datatype Config = Config(maxAttempts: nat, maxQueue: nat, keepSeconds: int)

  ghost predicate ValidConfig(c: Config) { c.maxAttempts >= 1 }

  /**
   * The whole service.
   *   jobs, queue  the registry and the FIFO of ids, both lost in a crash;
   *   worker       the id of the job being rendered;
   *   disk         the job.json files;
   *   todo         ids of files the restart pass has still to read; no request is served until it is empty;
   *   pending      ids a submit has saved and listed but not put on the queue yet;
   *   doomed       ids pruned from the registry whose directories are still to be removed.
   */
  datatype State = State(
    jobs: map<Id, Job>, queue: seq<Id>, worker: Option<Id>, disk: map<Id, Job>,
    todo: set<Id>, pending: multiset<Id>, doomed: multiset<Id>)

  datatype Event =
    | SubmitLocked(id: Id, now: int, saveOk: bool)
    | Put(id: Id)
    | Pickup(now: int)
    | Progress(stage: string, progress: int)
    | EndOfRender(ok: bool, now: int, error: string)
    | Cancel(id: Id, now: int)
    | Claim(id: Id, holder: string, lease: int, now: int)
    | PruneLocked(now: int)
    | RemoveDir(id: Id)
    | Crash
    | LoadOne(id: Id, now: int)

  // ----- submit -----

  datatype SubmitResult = Created(job: Job) | Existing(job: Job) | QueueFull | SaveFailed

  function NewJob(id: Id, now: int): Job {
    Job(id, Queued, "queued", "", 0, 0, false, now, None, None, "", 0)
  }

  function InFlightIds(m: map<Id, Job>): set<Id> { set id | id in m && InFlight(m[id]) }

  function SubmitOutcome(c: Config, jobs: map<Id, Job>, id: Id, now: int, saveOk: bool): SubmitResult {
    if id in jobs then Existing(jobs[id])
    else if |InFlightIds(jobs)| > c.maxQueue then QueueFull
    else if !saveOk then SaveFailed
    else Created(NewJob(id, now))
  }

  function AfterSubmit(c: Config, s: State, id: Id, now: int, saveOk: bool): State {
    match SubmitOutcome(c, s.jobs, id, now, saveOk)
    case Created(job) =>
      s.(jobs := s.jobs[id := job], disk := s.disk[id := job], pending := s.pending + multiset{id})
    case _ => s
  }

  function AfterPut(s: State, id: Id): State {
    if id in s.pending then s.(pending := s.pending - multiset{id}, queue := s.queue + [id]) else s
  }

  // ----- the worker -----

  /** Change one registered job in memory and in its file. */
  function Write(s: State, job: Job): State {
    s.(jobs := s.jobs[job.id := job], disk := s.disk[job.id := job])
  }

  function Started(j: Job, now: int): Job {
    j.(status := Running, stage := "starting", startedAt := Some(now), attempts := j.attempts + 1, error := "")
  }

  /** True when taking the head of the queue starts a render, false when the worker drops the id. */
  predicate Starts(s: State) {
    s.queue != [] && s.queue[0] in s.jobs && s.jobs[s.queue[0]].status == Queued
  }

  function AfterPickup(s: State, now: int): State {
    if s.worker.Some? || s.queue == [] then s
    else
      var id := s.queue[0];
      var taken := s.(queue := s.queue[1..]);
      if Starts(s) then Write(taken, Started(s.jobs[id], now)).(worker := Some(id)) else taken
  }

  function AfterProgress(s: State, stage: string, progress: int): State {
    if s.worker.Some? && s.worker.value in s.jobs
    then Write(s, s.jobs[s.worker.value].(stage := stage, progress := progress))
    else s
  }

  function Ended(j: Job, ok: bool, now: int, error: string): Job {
    if ok then j.(status := Done, stage := "done", progress := 1000, finishedAt := Some(now))
    else if j.cancelRequested then
      j.(status := Cancelled, stage := "cancelled", error := "cancelled", finishedAt := Some(now))
    else j.(status := Failed, stage := "failed", error := error, finishedAt := Some(now))
  }

  function AfterEndOfRender(s: State, ok: bool, now: int, error: string): State {
    if s.worker.Some? && s.worker.value in s.jobs
    then Write(s, Ended(s.jobs[s.worker.value], ok, now, error)).(worker := None)
    else s
  }

  // ----- cancel, claim, prune -----

  function AfterCancel(s: State, id: Id, now: int): State {
    if id !in s.jobs then s
    else
      match s.jobs[id].status
      case Queued =>
        Write(s, s.jobs[id].(status := Cancelled, stage := "cancelled", error := "cancelled", finishedAt := Some(now)))
      case Running => Write(s, s.jobs[id].(cancelRequested := true))
      case _ => s
  }

  /** None: no finished job to claim; Some(false): somebody else holds the lease; Some(true): granted. */
  function ClaimOutcome(jobs: map<Id, Job>, id: Id, holder: string, now: int): Option<bool> {
    if id !in jobs || jobs[id].status != Done then None
    else if jobs[id].until > now && jobs[id].holder != holder then Some(false)
    else Some(true)
  }

  function AfterClaim(s: State, id: Id, holder: string, lease: int, now: int): State {
    if ClaimOutcome(s.jobs, id, holder, now) == Some(true)
    then Write(s, s.jobs[id].(holder := holder, until := now + lease))
    else s
  }

  predicate IsStale(j: Job, cutoff: int) {
    Finished(j) && (if j.finishedAt.Some? then j.finishedAt.value else 0) < cutoff
  }

  function StaleIds(jobs: map<Id, Job>, cutoff: int): set<Id> {
    set id | id in jobs && IsStale(jobs[id], cutoff)
  }

  function AfterPrune(c: Config, s: State, now: int): State {
    var stale := StaleIds(s.jobs, now - c.keepSeconds);
    s.(jobs := s.jobs - stale, doomed := s.doomed + multiset(stale))
  }

  function AfterRemoveDir(s: State, id: Id): State {
    if id in s.doomed then s.(doomed := s.doomed - multiset{id}, disk := s.disk - {id}) else s
  }

  // ----- crash and restart -----

  /** What the restart pass makes of one job file. */
  function Recovered(c: Config, j: Job, now: int): Job {
    if !InFlight(j) then j
    else if j.cancelRequested then
      j.(status := Cancelled, stage := "cancelled", error := "cancelled", finishedAt := Some(now))
    else if j.attempts >= c.maxAttempts then
      j.(status := Failed, stage := "failed", error := "interrupted by a service restart too many times",
         finishedAt := Some(now))
    else j.(status := Queued, stage := "queued")
  }

  /** Memory is gone; every file is still to be read. */
  function AfterCrash(s: State): State {
    State(map[], [], None, s.disk, s.disk.Keys, multiset{}, multiset{})
  }

  function AfterLoadOne(c: Config, s: State, id: Id, now: int): State {
    if id !in s.todo || id !in s.disk then s
    else
      var j := Recovered(c, s.disk[id], now);
      s.(jobs := s.jobs[id := j],
         disk := if InFlight(s.disk[id]) then s.disk[id := j] else s.disk,
         queue := if j.status == Queued then s.queue + [id] else s.queue,
         todo := s.todo - {id})
  }

  // ----- runs -----

  predicate Up(s: State) { s.todo == {} }

  function Step(c: Config, s: State, e: Event): State {
    if e.Crash? then AfterCrash(s)
    else if e.LoadOne? then AfterLoadOne(c, s, e.id, e.now)
    else if !Up(s) then s
    else
      match e
      case SubmitLocked(id, now, saveOk) => AfterSubmit(c, s, id, now, saveOk)
      case Put(id) => AfterPut(s, id)
      case Pickup(now) => AfterPickup(s, now)
      case Progress(stage, progress) => AfterProgress(s, stage, progress)
      case EndOfRender(ok, now, error) => AfterEndOfRender(s, ok, now, error)
      case Cancel(id, now) => AfterCancel(s, id, now)
      case Claim(id, holder, lease, now) => AfterClaim(s, id, holder, lease, now)
      case PruneLocked(now) => AfterPrune(c, s, now)
      case RemoveDir(id) => AfterRemoveDir(s, id)
  }

  function Run(c: Config, s: State, es: seq<Event>): State
    decreases |es|
  {
    if es == [] then s else Run(c, Step(c, s, es[0]), es[1..])
  }

  /** The event lists a new job. */
  predicate Creates(c: Config, s: State, e: Event) {
    e.SubmitLocked? && Up(s) && SubmitOutcome(c, s.jobs, e.id, e.now, e.saveOk).Created?
  }

  /** The event starts a render of the job. */
  predicate StartsRender(s: State, e: Event, id: Id) {
    e.Pickup? && Up(s) && s.worker.None? && Starts(s) && s.queue[0] == id
  }

  /** The event takes the job out of the registry for good. */
  predicate Prunes(c: Config, s: State, e: Event, id: Id) {
    e.PruneLocked? && Up(s) && id in StaleIds(s.jobs, e.now - c.keepSeconds)
  }

  /** The job is listed, or a restart pass is about to list it. */
  predicate Known(s: State, id: Id) { id in s.jobs || id in s.todo }
}
