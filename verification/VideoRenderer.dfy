/** The renderer object: each method is proved to move the service as the event it stands for. */
module VideoRenderer {
  import opened Options
  import opened Sequences
  import opened VideoJobs
  import opened VideoSafety
  import opened VideoHistory

  class Renderer {
    const config: Config
    var jobs: map<Id, Job>
    var queue: seq<Id>
    var worker: Option<Id>
    // The files under the root directory: they outlive the object.
    var disk: map<Id, Job>
    // Where the threads are between two locked sections.
    ghost var todo: set<Id>
    ghost var pending: multiset<Id>
    ghost var doomed: multiset<Id>

    ghost function Now(): State
      reads this
    {
      State(jobs, queue, worker, disk, todo, pending, doomed)
    }

    /** A fresh process over whatever files the previous one left. */
    constructor (config: Config, disk: map<Id, Job>)
      ensures this.config == config
      ensures Now() == AfterCrash(State(map[], [], None, disk, {}, multiset{}, multiset{}))
    {
      this.config := config;
      this.jobs, this.queue, this.worker, this.disk := map[], [], None, disk;
      this.todo, this.pending, this.doomed := disk.Keys, multiset{}, multiset{};
    }

    /** Read one file back, deciding what becomes of the job it holds. */
    method LoadFile(id: Id, now: int)
      requires id in todo && id in disk
      modifies this`jobs, this`queue, this`disk, this`todo
      ensures Now() == AfterLoadOne(config, old(Now()), id, now)
    {
      var job := disk[id];
      if InFlight(job) {
        if job.cancelRequested {
          job := job.(status := Cancelled, stage := "cancelled", error := "cancelled", finishedAt := Some(now));
        } else if job.attempts >= config.maxAttempts {
          job := job.(status := Failed, stage := "failed", finishedAt := Some(now),
                      error := "interrupted by a service restart too many times");
        } else {
          job := job.(status := Queued, stage := "queued");
          queue := queue + [id];
        }
        disk := disk[id := job];
      }
      jobs := jobs[id := job];
      todo := todo - {id};
    }

    /** Read every file back, in the order given: each is read once and the pass completes. */
    method Load(order: seq<Id>, clock: seq<int>)
      requires |clock| == |order|
      requires forall i, k | 0 <= i < k < |order| :: order[i] != order[k]
      requires todo == (set id | id in order) && todo <= disk.Keys
      modifies this`jobs, this`queue, this`disk, this`todo
      ensures Now() == Loaded(config, old(Now()), order, clock, |order|) && Up(Now())
    {
      for i := 0 to |order|
        invariant Now() == Loaded(config, old(Now()), order, clock, i)
        invariant todo == (set id | id in order[i..]) && todo <= disk.Keys
      {
        assert order[i..] == [order[i]] + order[i + 1..];
        LoadFile(order[i], clock[i]);
      }
    }

    /** The shared tail of every locked section: change the job, then its file. */
    method Update(job: Job)
      modifies this`jobs, this`disk
      ensures Now() == Write(old(Now()), job)
    {
      jobs := jobs[job.id := job];
      disk := disk[job.id := job];
    }

    method SubmitLockedSection(id: Id, now: int, saveOk: bool) returns (r: SubmitResult)
      requires Up(Now())
      modifies this
      ensures r == SubmitOutcome(config, old(jobs), id, now, saveOk)
      ensures Now() == Step(config, old(Now()), SubmitLocked(id, now, saveOk))
    {
      if id in jobs {
        return Existing(jobs[id]);
      }
      var waiting := InFlightIds(jobs);
      if |waiting| > config.maxQueue {
        return QueueFull;
      }
      if !saveOk {
        return SaveFailed;
      }
      var job := NewJob(id, now);
      disk := disk[id := job];
      jobs := jobs[id := job];
      pending := pending + multiset{id};
      r := Created(job);
    }

    method PutOnQueue(id: Id)
      requires Up(Now()) && id in pending
      modifies this
      ensures Now() == Step(config, old(Now()), Put(id))
    {
      queue := queue + [id];
      pending := pending - multiset{id};
    }

    /** Drop old finished jobs from the registry, under the lock. */
    method ForgetStale(now: int) returns (stale: set<Id>)
      requires Up(Now())
      modifies this`jobs, this`doomed
      ensures stale == StaleIds(old(jobs), now - config.keepSeconds)
      ensures jobs == old(jobs) - stale && doomed == old(doomed) + multiset(stale)
      ensures Now() == Step(config, old(Now()), PruneLocked(now))
    {
      stale := StaleIds(jobs, now - config.keepSeconds);
      StepIsPrune(config, old(Now()), now);
      hide Step, StaleIds;
      var left := stale;
      ghost var gone := {};
      while left != {}
        invariant gone + left == stale && jobs == old(jobs) - gone && doomed == old(doomed)
        decreases left
      {
        var id :| id in left;
        OneMoreGone(old(jobs), gone, id);
        jobs := jobs - {id};
        left, gone := left - {id}, gone + {id};
      }
      doomed := doomed + multiset(stale);
    }

    /** Remove the directories of pruned jobs, outside the lock. */
    method RemoveDirs(ids: set<Id>)
      modifies this`disk
      ensures disk == old(disk) - ids
    {
      var left := ids;
      ghost var gone := {};
      while left != {}
        invariant gone + left == ids && disk == old(disk) - gone
        decreases left
      {
        var id :| id in left;
        OneMoreGone(old(disk), gone, id);
        disk := disk - {id};
        left, gone := left - {id}, gone + {id};
      }
    }

    /** Forget old finished jobs, then remove their directories. */
    method Prune(now: int) returns (ghost es: seq<Event>)
      requires Up(Now())
      modifies this`jobs, this`disk, this`doomed
      ensures es != [] && es[0] == PruneLocked(now) && OnlyRemovals(es[1..])
      ensures Now() == Run(config, old(Now()), es) && doomed == old(doomed)
      ensures jobs == old(jobs) - StaleIds(old(jobs), now - config.keepSeconds)
      ensures disk == old(disk) - StaleIds(old(jobs), now - config.keepSeconds)
    {
      hide Run, Step, StaleIds;
      es := PruneIsARun(config, Now(), now);
      var stale := ForgetStale(now);
      RemoveDirs(stale);
      doomed := doomed - multiset(stale);
    }

    /** A submission as its caller sees it: prune, list under the lock, then queue outside it. */
    method Submit(id: Id, now: int, saveOk: bool) returns (r: SubmitResult, ghost es: seq<Event>)
      requires Up(Now())
      modifies this
      ensures Now() == Run(config, old(Now()), es) && pending == old(pending)
      ensures var kept := old(jobs) - StaleIds(old(jobs), now - config.keepSeconds);
              var room := |InFlightIds(kept)| <= config.maxQueue;
              && (r.Existing? <==> id in kept)
              && (r.Created? <==> id !in kept && room && saveOk)
              && (r == QueueFull <==> id !in kept && !room)
              && (r == SaveFailed <==> id !in kept && room && !saveOk)
      ensures r.Created? ==> id in jobs && id in disk && jobs[id] == disk[id] == NewJob(id, now) && queue == old(queue) + [id]
      ensures !r.Created? ==> queue == old(queue)
      ensures r.Existing? ==> id in old(jobs) && id in jobs && r.job == old(jobs)[id] && jobs[id] == r.job
    {
      hide Run, StaleIds;
      es := Prune(now);
      r := SubmitLockedSection(id, now, saveOk);
      RunSnoc(config, old(Now()), es, SubmitLocked(id, now, saveOk));
      es := es + [SubmitLocked(id, now, saveOk)];
      if r.Created? {
        PutOnQueue(id);
        RunSnoc(config, old(Now()), es, Put(id));
        es := es + [Put(id)];
      }
    }

    /** None means there is no finished job to claim. */
    method TryClaim(id: Id, holder: string, lease: int, now: int) returns (granted: Option<bool>)
      requires Up(Now()) && forall x <- jobs :: jobs[x].id == x
      modifies this`jobs, this`disk
      ensures granted == ClaimOutcome(old(jobs), id, holder, now)
      ensures granted == None <==> id !in old(jobs) || old(jobs)[id].status != Done
      ensures granted == Some(true) <==> Grants(config, old(Now()), Claim(id, holder, lease, now), id)
      ensures Now() == Step(config, old(Now()), Claim(id, holder, lease, now))
    {
      if id !in jobs || jobs[id].status != Done {
        return None;
      }
      if jobs[id].until > now && jobs[id].holder != holder {
        return Some(false);
      }
      Update(jobs[id].(holder := holder, until := now + lease));
      granted := Some(true);
    }

    method RequestCancel(id: Id, now: int) returns (found: bool)
      requires Up(Now()) && forall x <- jobs :: jobs[x].id == x
      modifies this`jobs, this`disk
      ensures found == (id in old(jobs))
      ensures Now() == Step(config, old(Now()), Cancel(id, now))
    {
      if id !in jobs {
        return false;
      }
      if jobs[id].status == Queued {
        Update(jobs[id].(status := Cancelled, stage := "cancelled", error := "cancelled", finishedAt := Some(now)));
      } else if jobs[id].status == Running {
        Update(jobs[id].(cancelRequested := true));
      }
      found := true;
    }

    /** One turn of the worker loop up to the start of a render; None when the id is dropped. */
    method PickUp(now: int) returns (taken: Option<Id>)
      requires Up(Now()) && worker.None? && queue != [] && forall x <- jobs :: jobs[x].id == x
      modifies this
      ensures taken == if Starts(old(Now())) then Some(old(queue)[0]) else None
      ensures Now() == Step(config, old(Now()), Pickup(now))
    {
      var id := queue[0];
      queue := queue[1..];
      if id !in jobs || jobs[id].status != Queued {
        return None;
      }
      Update(Started(jobs[id], now));
      worker := Some(id);
      taken := Some(id);
    }

    /** Every tool reports first, and that is where a cancel is noticed: a stopped render reports nothing. */
    method Report(stage: string, progress: int) returns (stopped: bool)
      requires Up(Now()) && worker.Some? && worker.value in jobs && forall x <- jobs :: jobs[x].id == x
      modifies this`jobs, this`disk
      ensures stopped <==> old(jobs)[worker.value].cancelRequested
      ensures Now() == if stopped then old(Now()) else Step(config, old(Now()), Progress(stage, progress))
      ensures !stopped ==> jobs[worker.value].stage == stage && jobs[worker.value].progress == progress
    {
      var job := jobs[worker.value];
      if job.cancelRequested {
        return true;
      }
      Update(job.(stage := stage, progress := progress));
      stopped := false;
    }

    /** The worker's last word on the job it renders. */
    method FinishRender(ok: bool, now: int, error: string)
      requires Up(Now()) && worker.Some? && worker.value in jobs && forall x <- jobs :: jobs[x].id == x
      modifies this
      ensures Now() == Step(config, old(Now()), EndOfRender(ok, now, error))
    {
      var job := jobs[worker.value];
      if ok {
        Update(job.(status := Done, stage := "done", progress := 1000, finishedAt := Some(now)));
      } else if job.cancelRequested {
        Update(job.(status := Cancelled, stage := "cancelled", finishedAt := Some(now), error := "cancelled"));
      } else {
        Update(job.(status := Failed, stage := "failed", finishedAt := Some(now), error := error));
      }
      worker := None;
    }
  }

  /** The state once the first n files of a restart pass have been read. */
  ghost function Loaded(c: Config, s: State, order: seq<Id>, clock: seq<int>, n: nat): State
    requires n <= |order| == |clock|
  {
    if n == 0 then s else AfterLoadOne(c, Loaded(c, s, order, clock, n - 1), order[n - 1], clock[n - 1])
  }

  ghost function LoadEvents(order: seq<Id>, clock: seq<int>, n: nat): seq<Event>
    requires n <= |order| == |clock|
  {
    if n == 0 then [] else LoadEvents(order, clock, n - 1) + [LoadOne(order[n - 1], clock[n - 1])]
  }

  /** A restart pass is a run of the protocol, so everything proved of runs holds of it. */
  lemma {:induction false} LoadIsARun(c: Config, s: State, order: seq<Id>, clock: seq<int>, n: nat)
    requires n <= |order| == |clock|
    ensures Loaded(c, s, order, clock, n) == Run(c, s, LoadEvents(order, clock, n))
  {
    if n > 0 {
      LoadIsARun(c, s, order, clock, n - 1);
      RunSnoc(c, s, LoadEvents(order, clock, n - 1), LoadOne(order[n - 1], clock[n - 1]));
    }
  }

  /** Removing a set of directories is a run of the protocol, one removal at a time. */
  lemma {:induction false} RemovalsAreARun(c: Config, s: State, ids: set<Id>) returns (es: seq<Event>)
    requires Up(s) && multiset(ids) <= s.doomed
    ensures OnlyRemovals(es)
    ensures Run(c, s, es) == s.(disk := s.disk - ids, doomed := s.doomed - multiset(ids))
    decreases ids
  {
    hide Run, AfterRemoveDir, Up;
    if ids == {} {
      es := [];
      NothingToRun(c, s);
      assert s.disk - ids == s.disk;
    } else {
      var id :| id in ids;
      OneFewer(s, ids, id);
      var rest := RemovalsAreARun(c, AfterRemoveDir(s, id), ids - {id});
      es := [RemoveDir(id)] + rest;
      RunCons(c, s, RemoveDir(id), rest);
    }
  }

  lemma NothingToRun(c: Config, s: State)
    ensures Run(c, s, []) == s
  {
  }

  lemma OneMoreGone(m: map<Id, Job>, gone: set<Id>, id: Id)
    ensures (m - gone) - {id} == m - (gone + {id})
  {
  }

  lemma StepIsPrune(c: Config, s: State, now: int)
    requires Up(s)
    ensures var stale := StaleIds(s.jobs, now - c.keepSeconds);
            Step(c, s, PruneLocked(now)) == s.(jobs := s.jobs - stale, doomed := s.doomed + multiset(stale))
  {
  }

  /** Forgetting old jobs and removing their directories, as one run. */
  lemma PruneIsARun(c: Config, s: State, now: int) returns (es: seq<Event>)
    requires Up(s)
    ensures es != [] && es[0] == PruneLocked(now) && OnlyRemovals(es[1..])
    ensures var stale := StaleIds(s.jobs, now - c.keepSeconds);
            Run(c, s, es) == s.(jobs := s.jobs - stale, disk := s.disk - stale)
  {
    var stale := StaleIds(s.jobs, now - c.keepSeconds);
    var listed := s.(jobs := s.jobs - stale, doomed := s.doomed + multiset(stale));
    StepIsPrune(c, s, now);
    assert Up(listed);
    hide Run, Step, StaleIds, Up;
    assert multiset(stale) <= listed.doomed && listed.doomed - multiset(stale) == s.doomed;
    var removals := RemovalsAreARun(c, listed, stale);
    es := [PruneLocked(now)] + removals;
    RunCons(c, s, PruneLocked(now), removals);
    ConsTail(PruneLocked(now), removals);
  }

  lemma RunCons(c: Config, s: State, e: Event, es: seq<Event>)
    ensures Run(c, s, [e] + es) == Run(c, Step(c, s, e), es)
  {
    assert ([e] + es)[1..] == es;
  }

  lemma OneFewer(s: State, ids: set<Id>, id: Id)
    requires id in ids && multiset(ids) <= s.doomed
    ensures var t := AfterRemoveDir(s, id);
            && multiset(ids - {id}) <= t.doomed && Up(t) == Up(s)
            && t.(disk := t.disk - (ids - {id}), doomed := t.doomed - multiset(ids - {id}))
               == s.(disk := s.disk - ids, doomed := s.doomed - multiset(ids))
  {
    assert s.doomed[id] >= multiset(ids)[id];
    assert multiset(ids - {id}) == multiset(ids) - multiset{id};
    var t := AfterRemoveDir(s, id);
    assert t.disk - (ids - {id}) == s.disk - ids;
    assert t.doomed - multiset(ids - {id}) == s.doomed - multiset(ids);
  }

  lemma {:induction false} RunSnoc(c: Config, s: State, es: seq<Event>, e: Event)
    ensures Run(c, s, es + [e]) == Step(c, Run(c, s, es), e)
    decreases |es|
  {
    if es == [] {
      assert (es + [e])[1..] == [];
    } else {
      assert (es + [e])[1..] == es[1..] + [e];
      RunSnoc(c, Step(c, s, es[0]), es[1..], e);
    }
  }
}
