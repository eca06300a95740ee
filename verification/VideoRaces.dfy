/**
 * The two places where the worker reads outside the lock and writes later: it looks at a job's status before it
 * marks the job running, and at the cancel flag before it records how a failed render ended. Here both are two moves
 * each, with anything else in between.
 */
module VideoRaces {
  import opened Options
  import opened VideoJobs
  import opened VideoSafety

  /**
   * picked is the job the worker took from the queue and saw queued, and has not marked running yet; read is the
   * cancel flag as the worker saw it after a render failed, before it recorded the end.
   */
  datatype Racing = Racing(s: State, picked: Option<Id>, read: Option<bool>)

  /** Base is a section of VideoJobs; Pickup and the failed EndOfRender are the pairs of moves instead. */
  datatype Move =
    | Base(e: Event)
    | Look
    | StartRender(now: int)
    | ReadFlag
    | EndFailed(now: int, error: string)

  /** Sections of the worker that it cannot be in while it is between a read and its write. */
  predicate Blocked(r: Racing, e: Event) {
    e.Pickup? || (e.EndOfRender? && (!e.ok || r.read.Some?)) || (e.Progress? && r.read.Some?)
  }

  predicate CanLook(r: Racing) { Up(r.s) && r.s.worker.None? && r.picked.None? && r.s.queue != [] }

  predicate CanStart(r: Racing) { r.picked.Some? && r.picked.value in r.s.jobs }

  predicate CanRead(r: Racing) {
    Up(r.s) && r.s.worker.Some? && r.s.worker.value in r.s.jobs && r.read.None?
  }

  predicate CanEnd(r: Racing) { r.read.Some? && r.s.worker.Some? && r.s.worker.value in r.s.jobs }

  /** The worker's write at the start of a render, made whatever the job has become since its status was read. */
  function StartWrite(s: State, id: Id, now: int): State
    requires id in s.jobs
  {
    Write(s, Started(s.jobs[id], now)).(worker := Some(id))
  }

  /** The worker's write at the end of a failed render, which goes by the cancel flag as it was read. */
  function FailWrite(s: State, id: Id, flagRead: bool, now: int, error: string): State
    requires id in s.jobs
  {
    Write(s, Ended(s.jobs[id].(cancelRequested := flagRead), false, now, error)
               .(cancelRequested := s.jobs[id].cancelRequested)).(worker := None)
  }

  function After(c: Config, r: Racing, m: Move): Racing {
    match m
    case Base(e) =>
      if e.Crash? then Racing(AfterCrash(r.s), None, None)
      else if Blocked(r, e) then r
      else r.(s := Step(c, r.s, e))
    case Look =>
      if CanLook(r) then Racing(r.s.(queue := r.s.queue[1..]), if Starts(r.s) then Some(r.s.queue[0]) else None, None)
      else r
    case StartRender(now) => if CanStart(r) then Racing(StartWrite(r.s, r.picked.value, now), None, None) else r
    case ReadFlag => if CanRead(r) then r.(read := Some(r.s.jobs[r.s.worker.value].cancelRequested)) else r
    case EndFailed(now, error) =>
      if CanEnd(r) then Racing(FailWrite(r.s, r.s.worker.value, r.read.value, now, error), None, None) else r
  }

  function RunOf(c: Config, r: Racing, ms: seq<Move>): Racing
    decreases |ms|
  {
    if ms == [] then r else RunOf(c, After(c, r, ms[0]), ms[1..])
  }

  // ----- a run without races is a run of the protocol -----

  /** A cancel that falls between a read and its write and makes the read out of date. */
  predicate Race(r: Racing, m: Move) {
    && m.Base? && m.e.Cancel?
    && (r.picked == Some(m.e.id) || (r.read == Some(false) && r.s.worker == Some(m.e.id)))
  }

  ghost predicate RaceFree(c: Config, r: Racing, ms: seq<Move>)
    decreases |ms|
  {
    ms == [] || (!Race(r, ms[0]) && RaceFree(c, After(c, r, ms[0]), ms[1..]))
  }

  ghost predicate IdsOk(s: State) {
    (forall x <- s.jobs :: s.jobs[x].id == x) && (forall x <- s.disk :: s.disk[x].id == x)
  }

  /** The worker's job is listed and running. */
  predicate Rendering(s: State) {
    s.worker.Some? ==> Up(s) && s.worker.value in s.jobs && s.jobs[s.worker.value].status == Running
  }

  /** What was read is still so. */
  ghost predicate ReadsHold(r: Racing) {
    && IdsOk(r.s)
    && (r.picked.Some? ==>
          && Up(r.s) && r.s.worker.None? && r.read.None?
          && r.picked.value in r.s.jobs && r.s.jobs[r.picked.value].status == Queued)
    && Rendering(r.s)
    && (r.read.Some? ==> r.s.worker.Some? && r.s.jobs[r.s.worker.value].cancelRequested == r.read.value)
  }

  /** The protocol's state: a job that was only looked at is still at the head of the queue. */
  function Seen(r: Racing): State {
    if r.picked.Some? then r.s.(queue := [r.picked.value] + r.s.queue) else r.s
  }

  /** The protocol's event for a move, if it has one: each pair counts when it writes. */
  function EventsOf(r: Racing, m: Move): seq<Event> {
    match m
    case Base(e) => if !e.Crash? && Blocked(r, e) then [] else [e]
    case Look => if CanLook(r) && !Starts(r.s) then [Pickup(0)] else []
    case StartRender(now) => if CanStart(r) then [Pickup(now)] else []
    case ReadFlag => []
    case EndFailed(now, error) => if CanEnd(r) then [EndOfRender(false, now, error)] else []
  }

  function Events(c: Config, r: Racing, ms: seq<Move>): seq<Event>
    decreases |ms|
  {
    if ms == [] then [] else EventsOf(r, ms[0]) + Events(c, After(c, r, ms[0]), ms[1..])
  }

  lemma WorkerKeepsIds(c: Config, s: State, e: Event)
    requires IdsOk(s) && (e.Pickup? || e.Progress? || e.EndOfRender?)
    ensures IdsOk(Step(c, s, e))
  {
  }

  lemma RequestKeepsIds(c: Config, s: State, e: Event)
    requires IdsOk(s) && (e.Cancel? || e.Claim? || e.SubmitLocked?)
    ensures IdsOk(Step(c, s, e))
  {
  }

  lemma RestKeepsIds(c: Config, s: State, e: Event)
    requires IdsOk(s) && (e.Put? || e.PruneLocked? || e.RemoveDir? || e.Crash? || e.LoadOne?)
    ensures IdsOk(Step(c, s, e))
  {
  }

  lemma IdsStayOk(c: Config, s: State, e: Event)
    requires IdsOk(s)
    ensures IdsOk(Step(c, s, e))
  {
    hide IdsOk, Step;
    if e.Pickup? || e.Progress? || e.EndOfRender? {
      WorkerKeepsIds(c, s, e);
    } else if e.Cancel? || e.Claim? || e.SubmitLocked? {
      RequestKeepsIds(c, s, e);
    } else {
      RestKeepsIds(c, s, e);
    }
  }

  /** Nothing but the worker looks at the head of the queue. */
  lemma HeadIsApart(c: Config, s: State, e: Event, id: Id)
    requires Up(s) && !e.Pickup? && !e.Crash?
    ensures Step(c, s.(queue := [id] + s.queue), e) == Step(c, s, e).(queue := [id] + Step(c, s, e).queue)
  {
    assert e.Put? ==> ([id] + s.queue) + [e.id] == [id] + (s.queue + [e.id]);
  }

  /** A waiting job stays waiting, and a running one keeps its flag, until a cancel of it. */
  lemma PickedStays(c: Config, s: State, e: Event, id: Id)
    requires IdsOk(s) && Up(s) && id in s.jobs && s.jobs[id].status == Queued && s.worker.None?
    requires !e.Pickup? && !e.Crash? && !(e.Cancel? && e.id == id)
    ensures var t := Step(c, s, e); Up(t) && t.worker.None? && id in t.jobs && t.jobs[id] == s.jobs[id]
  {
  }

  lemma FlagStays(c: Config, s: State, e: Event, id: Id)
    requires IdsOk(s) && Up(s) && s.worker == Some(id) && id in s.jobs && s.jobs[id].status == Running
    requires !e.Pickup? && !e.Crash? && !e.EndOfRender?
    ensures var t := Step(c, s, e);
            && Up(t) && t.worker == s.worker && id in t.jobs && t.jobs[id].status == Running
            && t.jobs[id].cancelRequested == (s.jobs[id].cancelRequested || (e.Cancel? && e.id == id))
  {
  }

  lemma WorkerStays(c: Config, s: State, e: Event)
    requires IdsOk(s) && Rendering(s)
    ensures Rendering(Step(c, s, e))
  {
  }

  lemma StartIsPickup(c: Config, r: Racing, now: int)
    requires ReadsHold(r) && r.picked.Some?
    ensures Step(c, Seen(r), Pickup(now)) == StartWrite(r.s, r.picked.value, now)
  {
    var q := [r.picked.value] + r.s.queue;
    assert q[0] == r.picked.value && q[1..] == r.s.queue;
  }

  lemma FailIsEnd(c: Config, r: Racing, now: int, error: string)
    requires ReadsHold(r) && r.read.Some?
    ensures Step(c, r.s, EndOfRender(false, now, error))
            == FailWrite(r.s, r.s.worker.value, r.read.value, now, error)
  {
  }

  lemma LookIsNothingOrADrop(c: Config, r: Racing)
    requires ReadsHold(r) && CanLook(r)
    ensures var t := After(c, r, Look);
            && ReadsHold(t)
            && (if Starts(r.s) then Seen(t) == r.s else Seen(t) == Step(c, r.s, Pickup(0)))
  {
    assert [r.s.queue[0]] + r.s.queue[1..] == r.s.queue;
  }

  lemma BaseRefines(c: Config, r: Racing, e: Event)
    requires ReadsHold(r) && !Race(r, Base(e)) && (e.Crash? || !Blocked(r, e))
    ensures var t := After(c, r, Base(e)); ReadsHold(t) && Seen(t) == Step(c, Seen(r), e)
  {
    hide IdsOk;
    IdsStayOk(c, r.s, e);
    WorkerStays(c, r.s, e);
    if !e.Crash? && r.picked.Some? {
      PickedStays(c, r.s, e, r.picked.value);
      HeadIsApart(c, r.s, e, r.picked.value);
    } else if !e.Crash? && r.read.Some? {
      FlagStays(c, r.s, e, r.s.worker.value);
    }
    hide Step;
  }

  lemma WritesKeepReads(c: Config, r: Racing, m: Move)
    requires ReadsHold(r) && (m.StartRender? || m.EndFailed? || m.ReadFlag?)
    ensures ReadsHold(After(c, r, m))
  {
  }

  /** One move is what the protocol does, or nothing. */
  lemma MoveRefines(c: Config, r: Racing, m: Move)
    requires ReadsHold(r) && !Race(r, m)
    ensures ReadsHold(After(c, r, m)) && Seen(After(c, r, m)) == Run(c, Seen(r), EventsOf(r, m))
  {
    OneEvent(c, Seen(r));
    match m
    case Base(e) =>
      if e.Crash? || !Blocked(r, e) {
        BaseRefines(c, r, e);
      }
    case Look =>
      if CanLook(r) {
        LookIsNothingOrADrop(c, r);
      }
    case StartRender(now) =>
      WritesKeepReads(c, r, m);
      if CanStart(r) {
        StartIsPickup(c, r, now);
      }
    case ReadFlag => WritesKeepReads(c, r, m);
    case EndFailed(now, error) =>
      WritesKeepReads(c, r, m);
      if CanEnd(r) {
        FailIsEnd(c, r, now, error);
      }
    hide ReadsHold, Step, Run, Starts, StartWrite, FailWrite;
  }

  lemma OneEvent(c: Config, s: State)
    ensures Run(c, s, []) == s
    ensures forall e: Event :: Run(c, s, [e]) == Step(c, s, e)
  {
    forall e: Event ensures Run(c, s, [e]) == Step(c, s, e) {
      assert [e][1..] == [];
    }
  }

  lemma {:induction false} RunJoin(c: Config, s: State, a: seq<Event>, b: seq<Event>)
    ensures Run(c, s, a + b) == Run(c, Run(c, s, a), b)
    decreases |a|
  {
    if a == [] {
      assert a + b == b;
    } else {
      assert (a + b)[0] == a[0] && (a + b)[1..] == a[1..] + b;
      RunJoin(c, Step(c, s, a[0]), a[1..], b);
    }
  }

  /**
   * A run in which no cancel of a job falls between a read of it and the write that follows is a run of the protocol,
   * whatever else falls there. So everything proved of the protocol's runs holds of it.
   */
  lemma {:induction false} RaceFreeRunRefines(c: Config, r: Racing, ms: seq<Move>)
    requires ReadsHold(r) && RaceFree(c, r, ms)
    ensures ReadsHold(RunOf(c, r, ms)) && Seen(RunOf(c, r, ms)) == Run(c, Seen(r), Events(c, r, ms))
    decreases |ms|
  {
    if ms != [] {
      MoveRefines(c, r, ms[0]);
      RaceFreeRunRefines(c, After(c, r, ms[0]), ms[1..]);
      RunJoin(c, Seen(r), EventsOf(r, ms[0]), Events(c, After(c, r, ms[0]), ms[1..]));
    }
    hide ReadsHold, After, EventsOf, Seen, Step, Race;
  }

  // ----- what a race does -----

  /** Sections of other threads, none of which is a crash or prunes the job: its retention time does not pass here. */
  ghost predicate Between(c: Config, r: Racing, ms: seq<Move>, id: Id)
    decreases |ms|
  {
    ms == [] || (ms[0].Base? && !ms[0].e.Crash? && !Prunes(c, r.s, ms[0].e, id) && Between(c, After(c, r, ms[0]), ms[1..], id))
  }

  predicate Cancels(m: Move, id: Id) { m.Base? && m.e.Cancel? && m.e.id == id }

  /** The job was looked at and has not been started yet. */
  predicate Picked(r: Racing, id: Id) {
    && Up(r.s) && r.s.worker.None? && r.read.None? && r.picked == Some(id)
    && id in r.s.jobs && r.s.jobs[id].status in {Queued, Cancelled}
  }

  lemma PickedOverAMove(c: Config, r: Racing, m: Move, id: Id)
    requires IdsOk(r.s) && Picked(r, id) && m.Base? && !m.e.Crash? && !Prunes(c, r.s, m.e, id)
    ensures var t := After(c, r, m);
            && IdsOk(t.s) && Picked(t, id)
            && (t.s.jobs[id].status == Cancelled <==> r.s.jobs[id].status == Cancelled || Cancels(m, id))
  {
    IdsStayOk(c, r.s, m.e);
  }

  lemma {:induction false} PickedOverARun(c: Config, r: Racing, ms: seq<Move>, id: Id)
    requires IdsOk(r.s) && Picked(r, id) && Between(c, r, ms, id)
    ensures var u := RunOf(c, r, ms);
            && IdsOk(u.s) && Picked(u, id)
            && (u.s.jobs[id].status == Cancelled
                <==> r.s.jobs[id].status == Cancelled || exists i :: 0 <= i < |ms| && Cancels(ms[i], id))
    decreases |ms|
  {
    if ms != [] {
      PickedOverAMove(c, r, ms[0], id);
      PickedOverARun(c, After(c, r, ms[0]), ms[1..], id);
      assert forall i | 0 <= i < |ms| - 1 :: ms[1..][i] == ms[i + 1];
      assert forall i | 0 < i < |ms| :: ms[i] == ms[1..][i - 1];
    }
    hide After, IdsOk, Picked, Cancels;
  }

  /**
   * "Cancelled is final" fails at a pickup exactly when the job is cancelled between the look at its status and the
   * write that marks it running: a job already answered as cancelled then runs after all.
   */
  lemma PickupRaceIff(c: Config, r: Racing, ms: seq<Move>, id: Id, now: int)
    requires ReadsHold(r) && r.picked == Some(id) && Between(c, r, ms, id)
    ensures var u := RunOf(c, r, ms);
            var t := After(c, u, StartRender(now));
            && id in u.s.jobs && id in t.s.jobs && t.s.jobs[id].status == Running
            && (Finished(u.s.jobs[id]) <==> exists i :: 0 <= i < |ms| && Cancels(ms[i], id))
  {
    PickedOverARun(c, r, ms, id);
  }

  /** The job's render has failed, and its end is not recorded yet. */
  predicate Ending(r: Racing, id: Id) {
    && Up(r.s) && r.s.worker == Some(id) && r.picked.None? && r.read.Some?
    && id in r.s.jobs && r.s.jobs[id].status == Running
  }

  lemma EndingOverAMove(c: Config, r: Racing, m: Move, id: Id)
    requires IdsOk(r.s) && Ending(r, id) && m.Base? && !m.e.Crash?
    ensures var t := After(c, r, m);
            && IdsOk(t.s) && Ending(t, id) && t.read == r.read
            && (t.s.jobs[id].cancelRequested <==> r.s.jobs[id].cancelRequested || Cancels(m, id))
  {
    if !Blocked(r, m.e) {
      IdsStayOk(c, r.s, m.e);
      FlagStays(c, r.s, m.e, id);
      hide Step;
    }
  }

  lemma {:induction false} EndingOverARun(c: Config, r: Racing, ms: seq<Move>, id: Id)
    requires IdsOk(r.s) && Ending(r, id) && Between(c, r, ms, id)
    ensures var u := RunOf(c, r, ms);
            && IdsOk(u.s) && Ending(u, id) && u.read == r.read
            && (u.s.jobs[id].cancelRequested
                <==> r.s.jobs[id].cancelRequested || exists i :: 0 <= i < |ms| && Cancels(ms[i], id))
    decreases |ms|
  {
    if ms != [] {
      EndingOverAMove(c, r, ms[0], id);
      EndingOverARun(c, After(c, r, ms[0]), ms[1..], id);
      assert forall i | 0 <= i < |ms| - 1 :: ms[1..][i] == ms[i + 1];
      assert forall i | 0 < i < |ms| :: ms[i] == ms[1..][i - 1];
    }
    hide After, IdsOk, Ending, Cancels;
  }

  /**
   * "A job asked to stop never ends failed" fails at the end of a render exactly when the flag was read down and the
   * job is cancelled before the end is recorded: it is then flagged and failed. Read up, it always ends cancelled.
   */
  lemma DecisionRaceIff(c: Config, r: Racing, ms: seq<Move>, id: Id, now: int, error: string)
    requires ReadsHold(r) && r.read.Some? && r.s.worker == Some(id) && Between(c, r, ms, id)
    ensures var t := After(c, RunOf(c, r, ms), EndFailed(now, error));
            && id in t.s.jobs && Finished(t.s.jobs[id])
            && (t.s.jobs[id].status == Failed && t.s.jobs[id].cancelRequested
                <==> !r.read.value && exists i :: 0 <= i < |ms| && Cancels(ms[i], id))
            && (r.read.value ==> t.s.jobs[id].status == Cancelled)
  {
    EndingOverARun(c, r, ms, id);
    hide RunOf, Cancels;
  }

  // ----- what no race breaks -----

  ghost predicate AttemptsOk(c: Config, m: map<Id, Job>) {
    forall x <- m :: m[x].attempts <= c.maxAttempts && (m[x].status == Queued ==> m[x].attempts < c.maxAttempts)
  }

  /** What the worker holds between the look and the start may be cancelled by then, and has an attempt left. */
  ghost predicate Held(c: Config, r: Racing) {
    && (r.picked.Some? ==> Picked(r, r.picked.value) && r.s.jobs[r.picked.value].attempts < c.maxAttempts)
    && (r.read.Some? ==> r.s.worker.Some?)
  }

  /** A queued job is on the queue, about to be put there, or held by the worker. */
  ghost predicate NoneForgotten(r: Racing) {
    forall id <- r.s.jobs | r.s.jobs[id].status == Queued :: id in r.s.queue || id in r.s.pending || r.picked == Some(id)
  }

  ghost predicate FilesListed(s: State) {
    s.todo <= s.disk.Keys && LoadsAlone(s) && (forall id <- s.doomed :: id !in s.jobs)
  }

  ghost predicate Sound(c: Config, r: Racing) { Files(c, r.s) && Held(c, r) && NoneForgotten(r) }

  /** No submit of an id whose removal is pending, and no pruning of a job the worker holds. */
  ghost predicate Orderly(c: Config, r: Racing, ms: seq<Move>)
    decreases |ms|
  {
    ms == [] || (OrderlyMove(c, r, ms[0]) && Orderly(c, After(c, r, ms[0]), ms[1..]))
  }

  ghost predicate OrderlyMove(c: Config, r: Racing, m: Move) {
    m.Base? ==>
      && (Creates(c, r.s, m.e) ==> m.e.id !in r.s.doomed)
      && (r.picked.Some? ==> !Prunes(c, r.s, m.e, r.picked.value))
  }

  ghost predicate Files(c: Config, s: State) {
    IdsOk(s) && AttemptsOk(c, s.disk) && Mirror(s) && OneRunning(s) && FilesListed(s)
  }

  /** A rewrite of a registered job that does not decide whether it runs. */
  lemma WriteKeepsFiles(c: Config, s: State, job: Job)
    requires Files(c, s) && Up(s) && job.id in s.jobs && (job.status == Running <==> s.jobs[job.id].status == Running)
    requires job.attempts <= c.maxAttempts && (job.status == Queued ==> job.attempts < c.maxAttempts)
    ensures Files(c, Write(s, job))
  {
  }

  /** The worker starts or ends the render of a registered job. */
  lemma WorkerWriteKeepsFiles(c: Config, s: State, job: Job, worker: Option<Id>)
    requires Files(c, s) && Up(s) && job.id in s.jobs && job.status != Queued && job.attempts <= c.maxAttempts
    requires if job.status == Running then s.worker.None? && worker == Some(job.id) else s.worker == Some(job.id) && worker.None?
    ensures Files(c, Write(s, job).(worker := worker))
  {
  }

  /** Nothing is said of the queue or of pending puts while the service is up. */
  lemma QueueIsFree(c: Config, s: State, t: State)
    requires Files(c, s) && Up(s) && t == s.(queue := t.queue, pending := t.pending)
    ensures Files(c, t)
  {
  }

  lemma SubmitKeepsFiles(c: Config, s: State, id: Id, now: int, saveOk: bool)
    requires Files(c, s) && Up(s) && ValidConfig(c)
    requires SubmitOutcome(c, s.jobs, id, now, saveOk).Created? ==> id !in s.doomed
    ensures Files(c, AfterSubmit(c, s, id, now, saveOk))
  {
  }

  lemma FileOf(c: Config, s: State, id: Id)
    requires Files(c, s) && id in s.jobs
    ensures s.jobs[id].id == id && s.jobs[id].attempts <= c.maxAttempts
    ensures s.jobs[id].status == Queued ==> s.jobs[id].attempts < c.maxAttempts
    ensures s.jobs[id].status == Running <==> s.worker == Some(id)
  {
    assert s.disk[id] == s.jobs[id];
  }

  lemma WorkerKeepsFiles(c: Config, s: State, e: Event)
    requires Files(c, s) && Up(s) && (e.Pickup? || e.Progress? || e.EndOfRender?)
    ensures Files(c, Step(c, s, e))
  {
    hide Files;
    match e
    case Pickup(now) =>
      if s.worker.None? && s.queue != [] {
        QueueIsFree(c, s, s.(queue := s.queue[1..]));
        if Starts(s) {
          FileOf(c, s, s.queue[0]);
          WorkerWriteKeepsFiles(c, s.(queue := s.queue[1..]), Started(s.jobs[s.queue[0]], now), Some(s.queue[0]));
        }
      }
    case Progress(stage, progress) =>
      if s.worker.Some? && s.worker.value in s.jobs {
        FileOf(c, s, s.worker.value);
        WriteKeepsFiles(c, s, s.jobs[s.worker.value].(stage := stage, progress := progress));
      }
    case EndOfRender(ok, now, error) =>
      if s.worker.Some? && s.worker.value in s.jobs {
        FileOf(c, s, s.worker.value);
        WorkerWriteKeepsFiles(c, s, Ended(s.jobs[s.worker.value], ok, now, error), None);
      }
  }

  lemma RequestKeepsFiles(c: Config, s: State, e: Event)
    requires Files(c, s) && Up(s) && (e.Cancel? || e.Claim?)
    ensures Files(c, Step(c, s, e))
  {
    hide Files;
    if e.id in s.jobs && Step(c, s, e) != s {
      FileOf(c, s, e.id);
      WriteKeepsFiles(c, s, Step(c, s, e).jobs[e.id]);
    }
  }

  lemma RemovalKeepsFiles(c: Config, s: State, e: Event)
    requires Files(c, s) && Up(s) && (e.PruneLocked? || e.RemoveDir?)
    ensures Files(c, Step(c, s, e))
  {
  }

  lemma CrashKeepsFiles(c: Config, s: State)
    requires Files(c, s)
    ensures Files(c, AfterCrash(s))
  {
  }

  lemma LoadKeepsFiles(c: Config, s: State, id: Id, now: int)
    requires Files(c, s)
    ensures Files(c, AfterLoadOne(c, s, id, now))
  {
    if id in s.todo && id in s.disk {
      var t := AfterLoadOne(c, s, id, now);
      var j := t.jobs[id];
      assert j.id == id && j.status != Running && j.attempts == s.disk[id].attempts;
      assert j.status == Queued ==> j.attempts < c.maxAttempts;
      assert t.disk == s.disk[id := j];
      assert t.jobs == s.jobs[id := j];
    }
    hide Recovered, AfterLoadOne;
  }

  lemma StepKeepsFiles(c: Config, s: State, e: Event)
    requires Files(c, s) && ValidConfig(c) && (Creates(c, s, e) ==> e.id !in s.doomed)
    ensures Files(c, Step(c, s, e))
  {
    hide Files, AfterSubmit, AfterPickup, AfterProgress, AfterEndOfRender, AfterCancel, AfterClaim, AfterPrune, AfterRemoveDir,
         AfterCrash, AfterLoadOne, SubmitOutcome;
    if e.LoadOne? {
      LoadKeepsFiles(c, s, e.id, e.now);
    } else if e.Crash? {
      CrashKeepsFiles(c, s);
    } else if Up(s) {
      match e
      case SubmitLocked(id, now, saveOk) => SubmitKeepsFiles(c, s, id, now, saveOk);
      case Put(id) => QueueIsFree(c, s, AfterPut(s, id));
      case Cancel(id, now) => RequestKeepsFiles(c, s, e);
      case Claim(id, holder, lease, now) => RequestKeepsFiles(c, s, e);
      case PruneLocked(now) => RemovalKeepsFiles(c, s, e);
      case RemoveDir(id) => RemovalKeepsFiles(c, s, e);
      case _ => WorkerKeepsFiles(c, s, e);
    }
  }

  /** Who is queued after a section was queued before, or is on the queue or about to be; and nobody leaves either. */
  lemma NobodyLeaves(c: Config, s: State, e: Event)
    requires IdsOk(s) && Rendering(s) && !e.Pickup? && !e.Crash?
    ensures var t := Step(c, s, e);
            && (forall id <- t.jobs | t.jobs[id].status == Queued ::
                  (id in s.jobs && s.jobs[id].status == Queued) || id in t.queue || id in t.pending)
            && (forall id :: id in s.queue || id in s.pending ==> id in t.queue || id in t.pending)
  {
    LineGrows(c, s, e);
    var t := Step(c, s, e);
    forall id <- t.jobs | t.jobs[id].status == Queued
      ensures (id in s.jobs && s.jobs[id].status == Queued) || id in t.queue || id in t.pending
    {
      QueuedJoins(c, s, e, id);
    }
  }

  /** The queue only grows at its end, and who leaves the pending set is on it. */
  lemma LineGrows(c: Config, s: State, e: Event)
    requires !e.Pickup? && !e.Crash?
    ensures var t := Step(c, s, e);
            && (t.queue == s.queue || exists id :: t.queue == s.queue + [id])
            && forall id <- s.pending :: id in t.queue || id in t.pending
  {
    if e.Put? || e.LoadOne? {
      assert e.id in s.queue + [e.id];
    } else {
      assert Step(c, s, e).queue == s.queue;
    }
  }

  lemma QueuedJoins(c: Config, s: State, e: Event, id: Id)
    requires IdsOk(s) && Rendering(s) && !e.Pickup? && !e.Crash?
    requires var t := Step(c, s, e); id in t.jobs && t.jobs[id].status == Queued
    ensures var t := Step(c, s, e);
            (id in s.jobs && s.jobs[id].status == Queued) || id in t.queue || id in t.pending
  {
  }

  lemma PickedKeepsAttempts(c: Config, r: Racing, e: Event, id: Id)
    requires IdsOk(r.s) && Picked(r, id) && !e.Crash? && !Blocked(r, e) && !Prunes(c, r.s, e, id)
    ensures id in Step(c, r.s, e).jobs && Step(c, r.s, e).jobs[id].attempts == r.s.jobs[id].attempts
  {
  }

  lemma SoundRenders(c: Config, s: State)
    requires Files(c, s)
    ensures Rendering(s)
  {
  }

  /** Base moves keep what the worker holds, and forget nobody. */
  lemma BaseKeepsHeld(c: Config, r: Racing, e: Event)
    requires Files(c, r.s) && Held(c, r) && NoneForgotten(r) && OrderlyMove(c, r, Base(e)) && !e.Crash? && !Blocked(r, e)
    ensures Held(c, After(c, r, Base(e))) && NoneForgotten(After(c, r, Base(e)))
  {
    var t := After(c, r, Base(e));
    SoundRenders(c, r.s);
    if r.picked.Some? {
      PickedOverAMove(c, r, Base(e), r.picked.value);
      PickedKeepsAttempts(c, r, e, r.picked.value);
    }
    if r.read.Some? {
      FlagStays(c, r.s, e, r.s.worker.value);
    }
    NobodyLeaves(c, r.s, e);
    hide Files, Step, IdsOk;
  }

  lemma WriteKeepsHeld(c: Config, r: Racing, m: Move)
    requires Sound(c, r) && !m.Base?
    ensures Held(c, After(c, r, m)) && NoneForgotten(After(c, r, m))
  {
    if m.Look? && CanLook(r) {
      assert r.s.queue == [r.s.queue[0]] + r.s.queue[1..];
      if Starts(r.s) {
        FileOf(c, r.s, r.s.queue[0]);
      }
    }
    if m.StartRender? && r.picked.Some? {
      FileOf(c, r.s, r.picked.value);
    }
    if m.EndFailed? && CanEnd(r) {
      FileOf(c, r.s, r.s.worker.value);
    }
    hide Files;
  }

  lemma WorkerMoveKeepsFiles(c: Config, r: Racing, m: Move)
    requires Sound(c, r) && !m.Base?
    ensures Files(c, After(c, r, m).s)
  {
    hide Files, NoneForgotten;
    match m
    case Look =>
      if CanLook(r) {
        QueueIsFree(c, r.s, r.s.(queue := r.s.queue[1..]));
      }
    case StartRender(now) =>
      if r.picked.Some? {
        FileOf(c, r.s, r.picked.value);
        WorkerWriteKeepsFiles(c, r.s, Started(r.s.jobs[r.picked.value], now), r.picked);
      }
    case ReadFlag =>
    case EndFailed(now, error) =>
      if CanEnd(r) {
        SoundRenders(c, r.s);
        FileOf(c, r.s, r.s.worker.value);
        WorkerWriteKeepsFiles(c, r.s, After(c, r, m).s.jobs[r.s.worker.value], None);
      }
  }

  lemma MoveKeepsSound(c: Config, r: Racing, m: Move)
    requires ValidConfig(c) && Sound(c, r) && OrderlyMove(c, r, m)
    ensures Sound(c, After(c, r, m))
  {
    if m.Base? {
      if m.e.Crash? {
        CrashKeepsFiles(c, r.s);
      } else if !Blocked(r, m.e) {
        StepKeepsFiles(c, r.s, m.e);
        BaseKeepsHeld(c, r, m.e);
      }
    } else {
      WorkerMoveKeepsFiles(c, r, m);
      WriteKeepsHeld(c, r, m);
    }
    hide Files, Step, StartWrite, FailWrite, Starts;
  }

  /**
   * Over every run, races included: registry and files agree, the running jobs are exactly the worker's one, no queued
   * job is lost, and no job is started more often than it may be.
   */
  lemma {:induction false} RacesKeepFilesAndAttempts(c: Config, r: Racing, ms: seq<Move>)
    requires ValidConfig(c) && Sound(c, r) && Orderly(c, r, ms)
    ensures var t := RunOf(c, r, ms);
            && Sound(c, t) && Mirror(t.s) && OneRunning(t.s)
            && forall id <- t.s.disk :: t.s.disk[id].attempts <= c.maxAttempts
    decreases |ms|
  {
    if ms != [] {
      MoveKeepsSound(c, r, ms[0]);
      RacesKeepFilesAndAttempts(c, After(c, r, ms[0]), ms[1..]);
    }
  }
}
