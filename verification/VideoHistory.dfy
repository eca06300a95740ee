/** What can happen to one job between the moment it is listed and the moment it is pruned. */
module VideoHistory {
  import opened Options
  import opened VideoJobs
  import opened VideoSafety

  ghost predicate NeverPruned(c: Config, s: State, es: seq<Event>, id: Id)
    decreases |es|
  {
    es == [] || (!Prunes(c, s, es[0], id) && NeverPruned(c, Step(c, s, es[0]), es[1..], id))
  }

  /** How many renders of the job the events start. */
  ghost function RendersOf(c: Config, s: State, es: seq<Event>, id: Id): nat
    decreases |es|
  {
    if es == [] then 0
    else (if StartsRender(s, es[0], id) then 1 else 0) + RendersOf(c, Step(c, s, es[0]), es[1..], id)
  }

  /** How many jobs with this id the events list. */
  ghost function CreationsOf(c: Config, s: State, es: seq<Event>, id: Id): nat
    decreases |es|
  {
    if es == [] then 0
    else (if Creates(c, s, es[0]) && es[0].id == id then 1 else 0) + CreationsOf(c, Step(c, s, es[0]), es[1..], id)
  }

  /** The two ways a file of a known job may change in one event. */
  ghost predicate Evolves(j: Job, k: Job) {
    && (Finished(j) ==> k.status == j.status && k.finishedAt == j.finishedAt && k.error == j.error)
    && (j.cancelRequested ==> k.cancelRequested && k.status in {j.status, Cancelled, Done})
    && k.createdAt == j.createdAt
  }

  /** The part of the invariant one known job depends on. */
  ghost predicate Local(c: Config, s: State, id: Id) {
    && Known(s, id) && id in s.disk && JobOk(c, id, s.disk[id]) && id !in s.doomed
    && (id in s.jobs ==> s.jobs[id] == s.disk[id] && id !in s.todo)
    && (forall x <- s.jobs :: s.jobs[x].id == x)
    && (id in s.jobs && s.jobs[id].status == Running ==> s.worker == Some(id))
    && (s.worker.Some? ==> s.worker.value in s.jobs && s.jobs[s.worker.value].status == Running)
  }

  lemma InvIsLocal(c: Config, s: State, id: Id)
    requires Inv(c, s) && Known(s, id)
    ensures Local(c, s, id)
  {
  }

  ghost predicate StepOnKnown(c: Config, s: State, e: Event, id: Id)
    requires id in s.disk
  {
    var t := Step(c, s, e);
    && Known(t, id) && id in t.disk
    && Evolves(s.disk[id], t.disk[id])
    && t.disk[id].attempts == s.disk[id].attempts + (if StartsRender(s, e, id) then 1 else 0)
    && !(Creates(c, s, e) && e.id == id)
    && (if Grants(c, s, e, id) then
          && t.disk[id].holder == e.holder && t.disk[id].until == e.now + e.lease
          && (e.holder == s.disk[id].holder || s.disk[id].until <= e.now)
        else t.disk[id].holder == s.disk[id].holder && t.disk[id].until == s.disk[id].until)
  }

  lemma LocalRestartStep(c: Config, s: State, e: Event, id: Id)
    requires ValidConfig(c) && Local(c, s, id) && (e.Crash? || e.LoadOne?)
    ensures StepOnKnown(c, s, e, id)
  {
  }

  lemma LocalWorkerStep(c: Config, s: State, e: Event, id: Id)
    requires ValidConfig(c) && Local(c, s, id) && (e.Pickup? || e.Progress? || e.EndOfRender?)
    ensures StepOnKnown(c, s, e, id)
  {
    if e.Pickup? && Up(s) && s.worker.None? && Starts(s) {
      assert s.jobs[s.queue[0]].id == s.queue[0];
    }
  }

  lemma LocalCancelStep(c: Config, s: State, asked: Id, now: int, id: Id)
    requires ValidConfig(c) && Local(c, s, id)
    ensures StepOnKnown(c, s, Cancel(asked, now), id)
  {
    assert asked in s.jobs ==> s.jobs[asked].id == asked;
  }

  lemma LocalClaimStep(c: Config, s: State, asked: Id, holder: string, lease: int, now: int, id: Id)
    requires ValidConfig(c) && Local(c, s, id)
    ensures StepOnKnown(c, s, Claim(asked, holder, lease, now), id)
  {
    assert asked in s.jobs ==> s.jobs[asked].id == asked;
  }

  lemma LocalRequestStep(c: Config, s: State, e: Event, id: Id)
    requires ValidConfig(c) && Local(c, s, id) && (e.Cancel? || e.Claim?)
    ensures StepOnKnown(c, s, e, id)
  {
    if e.Cancel? {
      LocalCancelStep(c, s, e.id, e.now, id);
    } else {
      LocalClaimStep(c, s, e.id, e.holder, e.lease, e.now, id);
    }
  }

  lemma LocalListStep(c: Config, s: State, e: Event, id: Id)
    requires ValidConfig(c) && Local(c, s, id) && !Prunes(c, s, e, id)
    requires e.SubmitLocked? || e.Put? || e.PruneLocked? || e.RemoveDir?
    ensures StepOnKnown(c, s, e, id)
  {
    if e.PruneLocked? && Up(s) {
      assert id !in StaleIds(s.jobs, e.now - c.keepSeconds);
    }
  }

  lemma LocalStep(c: Config, s: State, e: Event, id: Id)
    requires ValidConfig(c) && Local(c, s, id) && !Prunes(c, s, e, id)
    ensures StepOnKnown(c, s, e, id)
  {
    if e.Crash? || e.LoadOne? {
      LocalRestartStep(c, s, e, id);
    } else if e.Pickup? || e.Progress? || e.EndOfRender? {
      LocalWorkerStep(c, s, e, id);
    } else if e.Cancel? || e.Claim? {
      LocalRequestStep(c, s, e, id);
    } else {
      LocalListStep(c, s, e, id);
    }
  }

  lemma KnownStep(c: Config, s: State, e: Event, id: Id)
    requires ValidConfig(c) && Inv(c, s) && Known(s, id) && !Prunes(c, s, e, id)
    ensures id in s.disk && StepOnKnown(c, s, e, id)
  {
    InvIsLocal(c, s, id);
    LocalStep(c, s, e, id);
  }

  /**
   * From any reachable state and until the job is pruned, through any events and any number of crashes: it stays
   * known, no other job takes its id, each started render is one attempt and there are at most maxAttempts of
   * them, a finished job stays as it finished, and a job asked to stop ends cancelled or done.
   */
  lemma {:induction false} KnownJobHistory(c: Config, s: State, es: seq<Event>, id: Id)
    requires ValidConfig(c) && Inv(c, s) && HazardFree(c, s, es) && Known(s, id) && NeverPruned(c, s, es, id)
    ensures var t := Run(c, s, es);
            && Known(t, id) && id in t.disk
            && Evolves(s.disk[id], t.disk[id])
            && CreationsOf(c, s, es, id) == 0
            && t.disk[id].attempts == s.disk[id].attempts + RendersOf(c, s, es, id) <= c.maxAttempts
    decreases |es|
  {
    if es != [] {
      KnownStep(c, s, es[0], id);
      StepKeepsInv(c, s, es[0]);
      KnownJobHistory(c, Step(c, s, es[0]), es[1..], id);
    }
  }

  /** A job asked to stop is running, cancelled or done in every later state, never queued again and never failed. */
  lemma FlaggedJobFate(c: Config, s: State, es: seq<Event>, id: Id)
    requires ValidConfig(c) && Inv(c, s) && HazardFree(c, s, es) && Known(s, id) && NeverPruned(c, s, es, id)
    requires s.disk[id].cancelRequested
    ensures id in Run(c, s, es).disk
    ensures var j := Run(c, s, es).disk[id];
            j.cancelRequested && j.status in {Running, Cancelled, Done}
  {
    KnownJobHistory(c, s, es, id);
    RunKeepsInv(c, s, es);
  }

  /** A cancel is answered on the spot: queued jobs end, running ones are flagged, finished ones are left alone. */
  lemma CancelTakesEffect(c: Config, s: State, id: Id, now: int)
    requires Inv(c, s) && Up(s) && id in s.jobs
    ensures var t := Step(c, s, Cancel(id, now));
            && id in t.jobs && id in t.disk && t.disk[id] == t.jobs[id]
            && (s.jobs[id].status == Queued ==> t.jobs[id].status == Cancelled)
            && (s.jobs[id].status == Running ==> t.jobs[id] == s.jobs[id].(cancelRequested := true))
            && (Finished(s.jobs[id]) ==> t == s)
            && (forall x <- s.jobs | x != id :: x in t.jobs && t.jobs[x] == s.jobs[x])
  {
  }

  /** Pruning never takes an in-flight job, and no other event but a crash takes any job out of the registry. */
  lemma InFlightJobsAreKept(c: Config, s: State, e: Event, id: Id)
    requires ValidConfig(c) && Inv(c, s) && Known(s, id) && InFlight(s.disk[id])
    ensures Known(Step(c, s, e), id)
    ensures !e.Crash? && id in s.jobs ==> id in Step(c, s, e).jobs
  {
    if !Prunes(c, s, e, id) {
      KnownStep(c, s, e, id);
    }
  }

  // ----- collection leases -----

  datatype Grant = Grant(holder: string, from: int, until: int)

  /** A claim of a finished job after which the lease is the claimant's, for as long as it asked. */
  ghost predicate Grants(c: Config, s: State, e: Event, id: Id) {
    && e.Claim? && e.id == id && Up(s) && id in s.jobs && s.jobs[id].status == Done
    && var t := Step(c, s, e);
       id in t.jobs && t.jobs[id].holder == e.holder && t.jobs[id].until == e.now + e.lease
  }

  /** The leases granted on the job, oldest first. */
  ghost function GrantsOf(c: Config, s: State, es: seq<Event>, id: Id): seq<Grant>
    decreases |es|
  {
    if es == [] then []
    else
      (if Grants(c, s, es[0], id) then [Grant(es[0].holder, es[0].now, es[0].now + es[0].lease)] else [])
      + GrantsOf(c, Step(c, s, es[0]), es[1..], id)
  }

  /** Each grant after the first either renews the previous holder's lease or starts once it has run out. */
  ghost predicate Handed(holder: string, until: int, gs: seq<Grant>) {
    && (gs != [] ==> gs[0].holder == holder || until <= gs[0].from)
    && (forall k | 1 <= k < |gs| :: gs[k].holder == gs[k - 1].holder || gs[k - 1].until <= gs[k].from)
  }

  lemma {:induction false} GrantsAreHanded(c: Config, s: State, es: seq<Event>, id: Id)
    requires ValidConfig(c) && Inv(c, s) && HazardFree(c, s, es) && Known(s, id) && NeverPruned(c, s, es, id)
    ensures Handed(s.disk[id].holder, s.disk[id].until, GrantsOf(c, s, es, id))
    decreases |es|
  {
    if es != [] {
      var t := Step(c, s, es[0]);
      KnownStep(c, s, es[0], id);
      StepKeepsInv(c, s, es[0]);
      GrantsAreHanded(c, t, es[1..], id);
      var rest := GrantsOf(c, t, es[1..], id);
      var gs := GrantsOf(c, s, es, id);
      if Grants(c, s, es[0], id) {
        assert gs == [gs[0]] + rest;
        forall k | 1 <= k < |gs| ensures gs[k].holder == gs[k - 1].holder || gs[k - 1].until <= gs[k].from {
          assert gs[k] == rest[k - 1];
          assert gs[k - 1] == if k == 1 then gs[0] else rest[k - 2];
        }
      } else {
        assert gs == rest;
      }
    }
  }

  /** k is the last grant before l to its holder. */
  ghost predicate LastBefore(gs: seq<Grant>, k: nat, l: nat) {
    k < l < |gs| && forall m | k < m < l :: gs[m].holder != gs[k].holder
  }

  /**
   * Over any history, restarts included, with claims in time order: when a lease is granted, the last lease of
   * every other holder has already run out.
   */
  lemma LeasesOfDifferentHoldersNeverOverlap(c: Config, s: State, es: seq<Event>, id: Id, k: nat, l: nat)
    requires ValidConfig(c) && Inv(c, s) && HazardFree(c, s, es) && Known(s, id) && NeverPruned(c, s, es, id)
    requires forall a, b | 0 <= a < b < |GrantsOf(c, s, es, id)| ::
               GrantsOf(c, s, es, id)[a].from <= GrantsOf(c, s, es, id)[b].from
    requires LastBefore(GrantsOf(c, s, es, id), k, l)
    requires GrantsOf(c, s, es, id)[k].holder != GrantsOf(c, s, es, id)[l].holder
    ensures GrantsOf(c, s, es, id)[k].until <= GrantsOf(c, s, es, id)[l].from
  {
    GrantsAreHanded(c, s, es, id);
    var gs := GrantsOf(c, s, es, id);
    assert gs[k + 1].holder == gs[k].holder || gs[k].until <= gs[k + 1].from;
  }
}
