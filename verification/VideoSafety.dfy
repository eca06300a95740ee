/** What holds in every state the video service can reach, with crashes anywhere. */
module VideoSafety {
  import opened Options
  import opened VideoJobs

  predicate JobOk(c: Config, id: Id, j: Job) {
    && j.id == id
    && j.attempts <= c.maxAttempts
    && (j.status == Queued ==> j.attempts < c.maxAttempts)
    && (j.cancelRequested ==> j.status in {Running, Cancelled, Done})
    && (j.status == Running ==> j.attempts >= 1)
  }

  /** The registry and the files agree. */
  ghost predicate Mirror(s: State) {
    forall id <- s.jobs :: id in s.disk && s.disk[id] == s.jobs[id] && id !in s.todo
  }

  /** A queued job's id is on the queue, or its submit is about to put it there. */
  ghost predicate NoneLost(s: State) {
    forall id <- s.jobs | s.jobs[id].status == Queued :: id in s.queue || id in s.pending
  }

  /** The running jobs are exactly the worker's current one. */
  ghost predicate OneRunning(s: State) {
    && (forall id <- s.jobs :: s.jobs[id].status == Running <==> s.worker == Some(id))
    && (s.worker.Some? ==> s.worker.value in s.jobs)
  }

  /** A file without a registered job is still to be read, or belongs to a finished job being removed. */
  ghost predicate FilesAccounted(s: State) {
    && s.todo <= s.disk.Keys
    && (forall id <- s.disk :: id in s.jobs || id in s.todo || (Finished(s.disk[id]) && id in s.doomed))
  }

  /** A restart pass runs alone: no worker, no pending put, no removal. */
  ghost predicate LoadsAlone(s: State) {
    !Up(s) ==> s.worker.None? && s.pending == multiset{} && s.doomed == multiset{}
  }

  ghost predicate Inv(c: Config, s: State) {
    && (forall id <- s.disk :: JobOk(c, id, s.disk[id]))
    && Mirror(s)
    && NoneLost(s)
    && OneRunning(s)
    && FilesAccounted(s)
    && LoadsAlone(s)
    && (forall id <- s.doomed :: id !in s.jobs)
    && |InFlightIds(s.disk)| <= c.maxQueue + 1
  }

  const Empty: State := State(map[], [], None, map[], {}, multiset{}, multiset{})

  /**
   * The one interleaving the locks do not exclude: a submit reuses the id of a pruned job while the pruning
   * thread has still to remove that job's directory.
   */
  ghost predicate HazardFree(c: Config, s: State, es: seq<Event>)
    decreases |es|
  {
    es == [] ||
    ((Creates(c, s, es[0]) ==> es[0].id !in s.doomed) && HazardFree(c, Step(c, s, es[0]), es[1..]))
  }

  // ----- one lemma a step -----

  lemma InFlightUpdate(m: map<Id, Job>, id: Id, j: Job)
    ensures InFlightIds(m[id := j]) == if InFlight(j) then InFlightIds(m) + {id} else InFlightIds(m) - {id}
  {
  }

  lemma SubsetCardinality(a: set<Id>, b: set<Id>)
    requires a <= b
    ensures |a| <= |b|
  {
    assert b == a + (b - a);
  }

  lemma InFlightAgree(c: Config, s: State)
    requires Inv(c, s) && Up(s)
    ensures InFlightIds(s.jobs) == InFlightIds(s.disk)
  {
  }

  lemma SubmitKeepsInv(c: Config, s: State, id: Id, now: int, saveOk: bool)
    requires ValidConfig(c) && Inv(c, s) && Up(s)
    requires SubmitOutcome(c, s.jobs, id, now, saveOk).Created? ==> id !in s.doomed
    ensures Inv(c, AfterSubmit(c, s, id, now, saveOk))
  {
    if SubmitOutcome(c, s.jobs, id, now, saveOk).Created? {
      var t := AfterSubmit(c, s, id, now, saveOk);
      SubmitBound(c, s, id, now);
      assert FilesAccounted(t);
      assert NoneLost(t);
      assert OneRunning(t);
    }
  }

  lemma SubmitBound(c: Config, s: State, id: Id, now: int)
    requires Inv(c, s) && Up(s) && |InFlightIds(s.jobs)| <= c.maxQueue
    ensures |InFlightIds(s.disk[id := NewJob(id, now)])| <= c.maxQueue + 1
  {
    InFlightAgree(c, s);
    InFlightUpdate(s.disk, id, NewJob(id, now));
  }

  /** Rewriting a registered job, the shape shared by the worker, cancel and claim. */
  lemma WriteKeepsFiles(c: Config, s: State, job: Job)
    requires Inv(c, s) && Up(s) && job.id in s.jobs && JobOk(c, job.id, job)
    requires InFlight(job) ==> InFlight(s.jobs[job.id])
    ensures var t := Write(s, job);
            && Mirror(t) && FilesAccounted(t) && LoadsAlone(t)
            && (forall id <- t.disk :: JobOk(c, id, t.disk[id]))
            && (forall id <- t.doomed :: id !in t.jobs)
            && |InFlightIds(t.disk)| <= c.maxQueue + 1
  {
    InFlightUpdate(s.disk, job.id, job);
    SubsetCardinality(InFlightIds(Write(s, job).disk), InFlightIds(s.disk));
  }

  lemma RegisteredIsOk(c: Config, s: State, id: Id)
    requires Inv(c, s) && id in s.jobs
    ensures JobOk(c, id, s.jobs[id])
  {
  }

  /** Files and registry alone decide what is said of them. */
  lemma QueueIsApart(u: State, t: State)
    requires Mirror(u) && FilesAccounted(u) && LoadsAlone(u) && Up(u)
    requires t == u.(worker := t.worker, queue := t.queue)
    ensures Mirror(t) && FilesAccounted(t) && LoadsAlone(t)
  {
  }

  lemma PickupKeepsQueue(s: State, now: int)
    requires NoneLost(s) && OneRunning(s) && s.worker.None? && s.queue != []
    requires Starts(s) ==> s.jobs[s.queue[0]].id == s.queue[0]
    ensures NoneLost(AfterPickup(s, now)) && OneRunning(AfterPickup(s, now))
  {
    assert s.queue == [s.queue[0]] + s.queue[1..];
  }

  lemma PickupKeepsInv(c: Config, s: State, now: int)
    requires Inv(c, s) && Up(s)
    ensures Inv(c, AfterPickup(s, now))
  {
    if s.worker.None? && s.queue != [] {
      var id := s.queue[0];
      if Starts(s) {
        RegisteredIsOk(c, s, id);
        WriteKeepsFiles(c, s, Started(s.jobs[id], now));
        QueueIsApart(Write(s, Started(s.jobs[id], now)), AfterPickup(s, now));
      } else {
        QueueIsApart(s, AfterPickup(s, now));
      }
      PickupKeepsQueue(s, now);
    }
    hide InFlightIds, FilesAccounted, LoadsAlone, Mirror, NoneLost, OneRunning, JobOk, Started;
  }

  lemma EndOfRenderKeepsQueue(s: State, ok: bool, now: int, error: string)
    requires NoneLost(s) && OneRunning(s) && s.worker.Some? && s.jobs[s.worker.value].id == s.worker.value
    ensures NoneLost(AfterEndOfRender(s, ok, now, error)) && OneRunning(AfterEndOfRender(s, ok, now, error))
  {
  }

  lemma EndOfRenderKeepsInv(c: Config, s: State, ok: bool, now: int, error: string)
    requires Inv(c, s) && Up(s)
    ensures Inv(c, AfterEndOfRender(s, ok, now, error))
  {
    if s.worker.Some? {
      var job := Ended(s.jobs[s.worker.value], ok, now, error);
      RegisteredIsOk(c, s, s.worker.value);
      WriteKeepsFiles(c, s, job);
      EndOfRenderKeepsQueue(s, ok, now, error);
      QueueIsApart(Write(s, job), AfterEndOfRender(s, ok, now, error));
    }
    hide InFlightIds, FilesAccounted, LoadsAlone, Mirror, NoneLost, OneRunning, JobOk, Ended;
  }

  /** A rewrite that neither queues, starts nor ends a running job. */
  lemma WriteKeepsInv(c: Config, s: State, job: Job)
    requires Inv(c, s) && Up(s) && job.id in s.jobs && JobOk(c, job.id, job)
    requires job.status == Queued ==> s.jobs[job.id].status == Queued
    requires job.status == Running <==> s.jobs[job.id].status == Running
    ensures Inv(c, Write(s, job))
  {
    WriteKeepsFiles(c, s, job);
    WriteKeepsQueue(s, job);
    hide InFlightIds, FilesAccounted, LoadsAlone, Mirror, NoneLost, OneRunning, JobOk;
  }

  lemma WriteKeepsQueue(s: State, job: Job)
    requires NoneLost(s) && OneRunning(s) && job.id in s.jobs
    requires job.status == Queued ==> s.jobs[job.id].status == Queued
    requires job.status == Running <==> s.jobs[job.id].status == Running
    ensures NoneLost(Write(s, job)) && OneRunning(Write(s, job))
  {
  }

  lemma ProgressKeepsInv(c: Config, s: State, stage: string, progress: int)
    requires Inv(c, s) && Up(s)
    ensures Inv(c, AfterProgress(s, stage, progress))
  {
    hide Inv;
    if s.worker.Some? && s.worker.value in s.jobs {
      RegisteredIsOk(c, s, s.worker.value);
      WriteKeepsInv(c, s, s.jobs[s.worker.value].(stage := stage, progress := progress));
    }
  }

  lemma CancelKeepsInv(c: Config, s: State, id: Id, now: int)
    requires Inv(c, s) && Up(s)
    ensures Inv(c, AfterCancel(s, id, now))
  {
    hide Inv;
    if id in s.jobs && InFlight(s.jobs[id]) {
      RegisteredIsOk(c, s, id);
      WriteKeepsInv(c, s, AfterCancel(s, id, now).jobs[id]);
    }
  }

  lemma ClaimKeepsInv(c: Config, s: State, id: Id, holder: string, lease: int, now: int)
    requires Inv(c, s) && Up(s)
    ensures Inv(c, AfterClaim(s, id, holder, lease, now))
  {
    hide Inv;
    if ClaimOutcome(s.jobs, id, holder, now) == Some(true) {
      RegisteredIsOk(c, s, id);
      WriteKeepsInv(c, s, AfterClaim(s, id, holder, lease, now).jobs[id]);
    }
  }

  lemma PutKeepsInv(c: Config, s: State, id: Id)
    requires Inv(c, s) && Up(s)
    ensures Inv(c, AfterPut(s, id))
  {
  }

  lemma PruneKeepsInv(c: Config, s: State, now: int)
    requires Inv(c, s) && Up(s)
    ensures Inv(c, AfterPrune(c, s, now))
  {
  }

  lemma CrashKeepsInv(c: Config, s: State)
    requires Inv(c, s)
    ensures Inv(c, AfterCrash(s))
  {
  }

  lemma RemoveDirKeepsInv(c: Config, s: State, id: Id)
    requires Inv(c, s) && Up(s)
    ensures Inv(c, AfterRemoveDir(s, id))
  {
    if id in s.doomed {
      SubsetCardinality(InFlightIds(s.disk - {id}), InFlightIds(s.disk));
    }
  }

  lemma LoadOneKeepsJobs(c: Config, s: State, id: Id, now: int)
    requires (forall x <- s.disk :: JobOk(c, x, s.disk[x])) && id in s.todo && id in s.disk
    ensures var t := AfterLoadOne(c, s, id, now);
            && t.disk == s.disk[id := t.jobs[id]] && (forall x <- t.disk :: JobOk(c, x, t.disk[x]))
            && t.jobs[id].status != Running && (InFlight(t.jobs[id]) ==> InFlight(s.disk[id]))
            && (Finished(s.disk[id]) ==> t.jobs[id] == s.disk[id])
            && (t.jobs[id].status == Queued ==> id in t.queue)
  {
    var t := AfterLoadOne(c, s, id, now);
    assert JobOk(c, id, s.disk[id]);
    assert JobOk(c, id, t.jobs[id]);
    hide JobOk, Recovered;
  }

  lemma LoadOneKeepsQueue(c: Config, s: State, t: State, id: Id)
    requires NoneLost(s) && OneRunning(s) && s.worker.None? && id in t.jobs && t.jobs[id].status != Running
    requires t.jobs == s.jobs[id := t.jobs[id]] && s.queue <= t.queue && t.worker == s.worker && t.pending == s.pending
    requires t.jobs[id].status == Queued ==> id in t.queue
    ensures NoneLost(t) && OneRunning(t)
  {
  }

  lemma LoadOneKeepsFiles(s: State, t: State, id: Id)
    requires Mirror(s) && FilesAccounted(s) && LoadsAlone(s) && id in s.todo && id in t.jobs
    requires t.jobs == s.jobs[id := t.jobs[id]] && t.disk == s.disk[id := t.jobs[id]] && t.todo == s.todo - {id}
    requires t.worker == s.worker && t.pending == s.pending && t.doomed == s.doomed == multiset{}
    ensures Mirror(t) && FilesAccounted(t) && LoadsAlone(t)
  {
  }

  lemma NoMoreInFlight(m: map<Id, Job>, id: Id, j: Job)
    requires InFlight(j) ==> id in m && InFlight(m[id])
    ensures |InFlightIds(m[id := j])| <= |InFlightIds(m)|
  {
    InFlightUpdate(m, id, j);
    SubsetCardinality(InFlightIds(m[id := j]), InFlightIds(m));
  }

  lemma LoadOneKeepsInv(c: Config, s: State, id: Id, now: int)
    requires Inv(c, s)
    ensures Inv(c, AfterLoadOne(c, s, id, now))
  {
    if id in s.todo && id in s.disk {
      var t := AfterLoadOne(c, s, id, now);
      assert s.queue <= t.queue && s.doomed == multiset{};
      LoadOneKeepsJobs(c, s, id, now);
      LoadOneKeepsQueue(c, s, t, id);
      LoadOneKeepsFiles(s, t, id);
      NoMoreInFlight(s.disk, id, t.jobs[id]);
      hide Recovered, JobOk, NoneLost, OneRunning, Mirror, FilesAccounted, LoadsAlone, InFlightIds;
    }
  }

  lemma StepKeepsInv(c: Config, s: State, e: Event)
    requires ValidConfig(c) && Inv(c, s)
    requires Creates(c, s, e) ==> e.id !in s.doomed
    ensures Inv(c, Step(c, s, e))
  {
    hide Inv, AfterSubmit, AfterPut, AfterPickup, AfterProgress, AfterEndOfRender, AfterCancel, AfterClaim, AfterPrune,
         AfterRemoveDir, AfterCrash, AfterLoadOne, SubmitOutcome;
    if e.LoadOne? {
      LoadOneKeepsInv(c, s, e.id, e.now);
    } else if e.Crash? {
      CrashKeepsInv(c, s);
    } else if Up(s) {
      match e
      case SubmitLocked(id, now, saveOk) => SubmitKeepsInv(c, s, id, now, saveOk);
      case Put(id) => PutKeepsInv(c, s, id);
      case Pickup(now) => PickupKeepsInv(c, s, now);
      case Progress(stage, progress) => ProgressKeepsInv(c, s, stage, progress);
      case EndOfRender(ok, now, error) => EndOfRenderKeepsInv(c, s, ok, now, error);
      case Cancel(id, now) => CancelKeepsInv(c, s, id, now);
      case Claim(id, holder, lease, now) => ClaimKeepsInv(c, s, id, holder, lease, now);
      case PruneLocked(now) => PruneKeepsInv(c, s, now);
      case RemoveDir(id) => RemoveDirKeepsInv(c, s, id);
    }
  }

  // ----- all runs -----

  lemma {:induction false} RunKeepsInv(c: Config, s: State, es: seq<Event>)
    requires ValidConfig(c) && Inv(c, s) && HazardFree(c, s, es)
    ensures Inv(c, Run(c, s, es))
    decreases |es|
  {
    if es != [] {
      StepKeepsInv(c, s, es[0]);
      RunKeepsInv(c, Step(c, s, es[0]), es[1..]);
    }
  }

  /** Safety of the service from its first start, spelled out. */
  lemma EveryReachableStateIsSafe(c: Config, es: seq<Event>)
    requires ValidConfig(c) && HazardFree(c, Empty, es)
    ensures var s := Run(c, Empty, es);
            && Mirror(s) && NoneLost(s) && OneRunning(s)
            && |InFlightIds(s.jobs)| <= c.maxQueue + 1
            && (forall id <- s.jobs | s.jobs[id].status == Queued ::
                  s.jobs[id].attempts < c.maxAttempts && !s.jobs[id].cancelRequested)
  {
    assert InFlightIds(Empty.disk) == {};
    RunKeepsInv(c, Empty, es);
    var s := Run(c, Empty, es);
    SubsetCardinality(InFlightIds(s.jobs), InFlightIds(s.disk));
  }

  // ----- the hazard -----

  ghost predicate OnlyRemovals(es: seq<Event>) { forall e <- es :: e.RemoveDir? }

  lemma {:induction false} RemovalsKeepInv(c: Config, s: State, es: seq<Event>)
    requires ValidConfig(c) && Inv(c, s) && OnlyRemovals(es)
    ensures Inv(c, Run(c, s, es))
    decreases |es|
  {
    if es != [] {
      assert es[0] in es;
      StepKeepsInv(c, s, es[0]);
      RemovalsKeepInv(c, Step(c, s, es[0]), es[1..]);
    }
  }

  /**
   * A new job keeps its file through every pending removal exactly when no removal of its own id is pending.
   * This is the condition HazardFree asks of each submit.
   */
  lemma NewJobSurvivesRemovalsIff(c: Config, s: State, id: Id, now: int)
    requires ValidConfig(c) && Inv(c, s) && Up(s) && SubmitOutcome(c, s.jobs, id, now, true).Created?
    ensures (forall es | OnlyRemovals(es) :: Mirror(Run(c, AfterSubmit(c, s, id, now, true), es)))
            <==> id !in s.doomed
  {
    var t := AfterSubmit(c, s, id, now, true);
    if id in s.doomed {
      var es := [RemoveDir(id)];
      assert OnlyRemovals(es);
      assert es[1..] == [];
      assert Run(c, t, es) == Run(c, AfterRemoveDir(t, id), []);
      assert id in AfterRemoveDir(t, id).jobs && id !in AfterRemoveDir(t, id).disk;
      assert !Mirror(Run(c, t, es));
    } else {
      SubmitKeepsInv(c, s, id, now, true);
      forall es | OnlyRemovals(es) ensures Mirror(Run(c, t, es)) {
        RemovalsKeepInv(c, t, es);
      }
    }
  }

  /** Submit, queue, cancel and prune one job: nothing is left but its directory, waiting to be removed. */
  lemma PrunedButNotRemoved(c: Config, id: Id, now: int)
    requires now - c.keepSeconds > 0
    ensures var es := [SubmitLocked(id, 0, true), Put(id), Cancel(id, 0), PruneLocked(now)];
            var s := Run(c, Empty, es);
            HazardFree(c, Empty, es) && Up(s) && s.jobs == map[] && id in s.doomed
  {
    var e0, e1, e2, e3 := SubmitLocked(id, 0, true), Put(id), Cancel(id, 0), PruneLocked(now);
    var s2 := SubmittedAndQueued(c, id);
    var s3 := Step(c, s2, e2);
    assert s3.jobs.Keys == {id} && s3.jobs[id].status == Cancelled && s3.jobs[id].finishedAt == Some(0);
    var s4 := Step(c, s3, e3);
    assert id in StaleIds(s3.jobs, now - c.keepSeconds);
    assert s4.jobs == map[] && id in s4.doomed;
    Unroll(c, s2, [e2, e3]);
    Unroll(c, s3, [e3]);
    Unroll(c, Step(c, Empty, e0), [e1, e2, e3]);
    Unroll(c, Empty, [e0, e1, e2, e3]);
    assert [e0, e1, e2, e3][1..] == [e1, e2, e3] && [e1, e2, e3][1..] == [e2, e3] && [e2, e3][1..] == [e3];
  }

  lemma SubmittedAndQueued(c: Config, id: Id) returns (s: State)
    ensures s == Step(c, Step(c, Empty, SubmitLocked(id, 0, true)), Put(id))
    ensures s == State(map[id := NewJob(id, 0)], [id], None, map[id := NewJob(id, 0)], {}, multiset{}, multiset{})
  {
    assert InFlightIds(Empty.jobs) == {};
    s := Step(c, Step(c, Empty, SubmitLocked(id, 0, true)), Put(id));
  }

  /** The hazard is real: a job listed as queued whose file is gone, which a crash then forgets. */
  lemma HazardLosesAJob(c: Config, id: Id, now: int)
    requires now - c.keepSeconds > 0
    ensures var s := Run(c, Empty, [SubmitLocked(id, 0, true), Put(id), Cancel(id, 0), PruneLocked(now)]);
            var es := [SubmitLocked(id, now, true), RemoveDir(id)];
            var t := Run(c, s, es);
            && !HazardFree(c, s, es)
            && id in t.jobs && t.jobs[id].status == Queued && !Mirror(t)
            && !Known(Step(c, t, Crash), id)
  {
    PrunedButNotRemoved(c, id, now);
    var s := Run(c, Empty, [SubmitLocked(id, 0, true), Put(id), Cancel(id, 0), PruneLocked(now)]);
    assert InFlightIds(s.jobs) == {};
    var e0, e1 := SubmitLocked(id, now, true), RemoveDir(id);
    Unroll(c, s, [e0, e1]);
    Unroll(c, Step(c, s, e0), [e1]);
  }

  lemma Unroll(c: Config, s: State, es: seq<Event>)
    requires es != []
    ensures Run(c, s, es) == Run(c, Step(c, s, es[0]), es[1..])
    ensures HazardFree(c, s, es) <==>
            (Creates(c, s, es[0]) ==> es[0].id !in s.doomed) && HazardFree(c, Step(c, s, es[0]), es[1..])
    ensures |es| == 1 ==> Run(c, s, es) == Step(c, s, es[0])
  {
  }
}
