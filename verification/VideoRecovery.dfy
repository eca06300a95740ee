/** The restart pass: total, idempotent, and indifferent to being interrupted and to the order of the files. */
module VideoRecovery {
  import opened Options
  import opened VideoJobs
  import opened VideoSafety

  /** Equal but for the clock reading stamped on a job that the restart pass itself ends. */
  predicate SameOutcome(j: Job, k: Job) { j == k.(finishedAt := j.finishedAt) }

  ghost predicate OnlyRestarts(es: seq<Event>) { forall e <- es :: e.Crash? || e.LoadOne? }

  /** Recovering a recovered file again, at any later time, changes nothing. */
  lemma RecoveredIsStable(c: Config, j: Job, now: int, later: int)
    ensures SameOutcome(Recovered(c, Recovered(c, j, now), later), Recovered(c, j, now))
    ensures SameOutcome(Recovered(c, j, later), Recovered(c, j, now))
    ensures Recovered(c, j, now).status != Running
    ensures Finished(j) ==> Recovered(c, j, now) == j
  {
  }

  /** What a file holds during a restart pass: it will recover, or has recovered, as the original file did. */
  ghost predicate FileOk(c: Config, original: Job, file: Job) {
    && SameOutcome(Recovered(c, file, 0), Recovered(c, original, 0))
    && (Finished(original) ==> file == original)
  }

  ghost predicate QueuedOnce(s: State) {
    forall id :: multiset(s.queue)[id] == if id in s.jobs && s.jobs[id].status == Queued then 1 else 0
  }

  /** The state of a restart pass over the files d, interrupted any number of times so far. */
  ghost predicate Recovering(c: Config, d: map<Id, Job>, s: State) {
    && s.disk.Keys == d.Keys && s.worker.None?
    && s.todo == d.Keys - s.jobs.Keys && s.jobs.Keys <= d.Keys
    && (forall id <- d :: FileOk(c, d[id], s.disk[id]))
    && (forall id <- s.jobs :: s.jobs[id] == s.disk[id] && SameOutcome(s.jobs[id], Recovered(c, d[id], 0)))
    && QueuedOnce(s)
  }

  lemma FileRecovers(c: Config, original: Job, file: Job, now: int)
    requires FileOk(c, original, file)
    ensures FileOk(c, original, Recovered(c, file, now))
    ensures SameOutcome(Recovered(c, file, now), Recovered(c, original, 0))
  {
    RecoveredIsStable(c, file, now, 0);
    RecoveredIsStable(c, file, 0, now);
    RecoveredIsStable(c, original, 0, 0);
  }

  lemma LoadOneRequeues(c: Config, s: State, id: Id, now: int)
    requires QueuedOnce(s) && id !in s.jobs
    ensures QueuedOnce(AfterLoadOne(c, s, id, now))
  {
    assert multiset(s.queue + [id]) == multiset(s.queue) + multiset{id};
  }

  lemma LoadOneRecovers(c: Config, d: map<Id, Job>, s: State, id: Id, now: int)
    requires Recovering(c, d, s) && id in s.todo
    ensures Recovering(c, d, AfterLoadOne(c, s, id, now))
  {
    FileRecovers(c, d[id], s.disk[id], now);
    LoadOneRequeues(c, s, id, now);
    var t := AfterLoadOne(c, s, id, now);
    assert t.jobs.Keys == s.jobs.Keys + {id};
    assert t.disk[id] == t.jobs[id];
    assert t.jobs == s.jobs[id := t.jobs[id]] && t.disk == s.disk[id := t.jobs[id]];
  }

  lemma {:induction false} RestartsRecover(c: Config, d: map<Id, Job>, s: State, es: seq<Event>)
    requires Recovering(c, d, s) && OnlyRestarts(es)
    ensures Recovering(c, d, Run(c, s, es))
    decreases |es|
  {
    if es != [] {
      assert es[0] in es;
      if es[0].LoadOne? && es[0].id in s.todo {
        LoadOneRecovers(c, d, s, es[0].id, es[0].now);
      }
      RestartsRecover(c, d, Step(c, s, es[0]), es[1..]);
    }
  }

  /**
   * Crash in any state, then let the restart pass be interrupted by further crashes anywhere, reading the files in
   * any order. Once a pass completes, every file is registered and holds exactly what one uninterrupted pass makes
   * of it, no job is left running, finished jobs and their leases are untouched, and each requeued job is on the
   * queue once.
   */
  lemma RecoveryIsTotalAndIdempotent(c: Config, s: State, es: seq<Event>)
    requires OnlyRestarts(es) && Up(Run(c, AfterCrash(s), es))
    ensures var t := Run(c, AfterCrash(s), es);
            && t.jobs == t.disk && t.disk.Keys == s.disk.Keys
            && (forall id <- s.disk :: SameOutcome(t.jobs[id], Recovered(c, s.disk[id], 0)))
            && (forall id <- s.disk :: t.jobs[id].status != Running)
            && (forall id <- s.disk | Finished(s.disk[id]) :: t.jobs[id] == s.disk[id])
            && (forall id :: multiset(t.queue)[id] == if id in t.jobs && t.jobs[id].status == Queued then 1 else 0)
  {
    forall id <- s.disk ensures Finished(s.disk[id]) ==> Recovered(c, s.disk[id], 0) == s.disk[id] {
      RecoveredIsStable(c, s.disk[id], 0, 0);
    }
    RestartsRecover(c, s.disk, AfterCrash(s), es);
    var t := Run(c, AfterCrash(s), es);
    forall id <- s.disk ensures id in t.jobs {
      assert id !in t.todo;
    }
    forall id <- s.disk ensures t.jobs[id].status != Running {
      RecoveredIsStable(c, s.disk[id], 0, 0);
    }
  }
}
