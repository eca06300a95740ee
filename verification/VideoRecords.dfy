/**
 * What the history of one job says about it: how it ends in a restart, who may claim it, when it is pruned. Each law
 * is about the events since the job was submitted, and not about the functions that decide.
 */
module VideoRecords {
  import opened Options
  import opened VideoJobs
  import opened VideoSafety
  import opened VideoHistory
  import opened VideoRecovery

  // ----- one job over one event -----

  /** A cancel that finds the job running. */
  ghost predicate Asks(s: State, e: Event, id: Id) {
    e.Cancel? && e.id == id && Up(s) && id in s.jobs && s.jobs[id].status == Running
  }

  /** The event ends the job. */
  ghost predicate EndsJob(c: Config, s: State, e: Event, id: Id) {
    id in s.disk && InFlight(s.disk[id]) && id in Step(c, s, e).disk && Finished(Step(c, s, e).disk[id])
  }

  /** The clock that the event has read. */
  function TimeOf(e: Event): int {
    match e
    case Cancel(_, now) => now
    case EndOfRender(_, now, _) => now
    case LoadOne(_, now) => now
    case _ => 0
  }

  ghost predicate RecordOk(j: Job) { InFlight(j) ==> j.finishedAt.None? }

  ghost predicate RecordStep(c: Config, s: State, e: Event, id: Id)
    requires id in s.disk
  {
    var t := Step(c, s, e);
    && id in t.disk && RecordOk(t.disk[id])
    && (t.disk[id].cancelRequested <==> s.disk[id].cancelRequested || Asks(s, e, id))
    && (EndsJob(c, s, e, id) ==> t.disk[id].finishedAt == Some(TimeOf(e)))
  }

  lemma RestartRecord(c: Config, s: State, e: Event, id: Id)
    requires ValidConfig(c) && Local(c, s, id) && RecordOk(s.disk[id]) && (e.Crash? || e.LoadOne?)
    ensures RecordStep(c, s, e, id)
  {
  }

  lemma WorkerRecord(c: Config, s: State, e: Event, id: Id)
    requires ValidConfig(c) && Local(c, s, id) && RecordOk(s.disk[id]) && (e.Pickup? || e.Progress? || e.EndOfRender?)
    ensures RecordStep(c, s, e, id)
  {
    if e.Pickup? && Up(s) && s.worker.None? && Starts(s) {
      assert s.jobs[s.queue[0]].id == s.queue[0];
    }
  }

  lemma CancelRecord(c: Config, s: State, e: Event, id: Id)
    requires ValidConfig(c) && Local(c, s, id) && RecordOk(s.disk[id]) && e.Cancel?
    ensures RecordStep(c, s, e, id)
  {
    assert e.id in s.jobs ==> s.jobs[e.id].id == e.id;
  }

  lemma ClaimRecord(c: Config, s: State, e: Event, id: Id)
    requires ValidConfig(c) && Local(c, s, id) && RecordOk(s.disk[id]) && e.Claim?
    ensures RecordStep(c, s, e, id)
  {
    assert e.id in s.jobs ==> s.jobs[e.id].id == e.id;
  }

  lemma ListRecord(c: Config, s: State, e: Event, id: Id)
    requires ValidConfig(c) && Local(c, s, id) && RecordOk(s.disk[id]) && !Prunes(c, s, e, id)
    requires e.SubmitLocked? || e.Put? || e.PruneLocked? || e.RemoveDir?
    ensures RecordStep(c, s, e, id)
  {
  }

  lemma OneRecord(c: Config, s: State, e: Event, id: Id)
    requires ValidConfig(c) && Local(c, s, id) && RecordOk(s.disk[id]) && !Prunes(c, s, e, id)
    ensures RecordStep(c, s, e, id)
  {
    hide RecordStep, Local, Prunes, RecordOk;
    if e.Crash? || e.LoadOne? {
      RestartRecord(c, s, e, id);
    } else if e.Pickup? || e.Progress? || e.EndOfRender? {
      WorkerRecord(c, s, e, id);
    } else if e.Cancel? {
      CancelRecord(c, s, e, id);
    } else if e.Claim? {
      ClaimRecord(c, s, e, id);
    } else {
      ListRecord(c, s, e, id);
    }
  }

  // ----- from its submission on -----

  /** The events ask the job to stop while it runs. */
  ghost predicate Asked(c: Config, s: State, es: seq<Event>, id: Id)
    decreases |es|
  {
    es != [] && (Asks(s, es[0], id) || Asked(c, Step(c, s, es[0]), es[1..], id))
  }

  /** When the events end the job. */
  ghost function EndedAt(c: Config, s: State, es: seq<Event>, id: Id): Option<int>
    decreases |es|
  {
    if es == [] then None
    else if EndsJob(c, s, es[0], id) then Some(TimeOf(es[0]))
    else EndedAt(c, Step(c, s, es[0]), es[1..], id)
  }

  /** Whether it was asked to stop, and how often its renders started. */
  ghost predicate WorkRecorded(c: Config, s: State, es: seq<Event>, id: Id)
    requires id in s.disk
  {
    var t := Run(c, s, es);
    && Known(t, id) && id in t.disk && RecordOk(t.disk[id])
    && (t.disk[id].cancelRequested <==> s.disk[id].cancelRequested || Asked(c, s, es, id))
    && t.disk[id].attempts == s.disk[id].attempts + RendersOf(c, s, es, id)
  }

  /** Whether it has ended, and when. */
  ghost predicate EndRecorded(c: Config, s: State, es: seq<Event>, id: Id)
    requires id in s.disk
  {
    var t := Run(c, s, es);
    && id in t.disk
    && (if InFlight(s.disk[id]) then
          && (Finished(t.disk[id]) <==> EndedAt(c, s, es, id).Some?)
          && (Finished(t.disk[id]) ==> t.disk[id].finishedAt == EndedAt(c, s, es, id))
        else t.disk[id].status == s.disk[id].status && t.disk[id].finishedAt == s.disk[id].finishedAt)
  }

  /** Who holds its lease, and until when. */
  ghost predicate LeaseRecorded(c: Config, s: State, es: seq<Event>, id: Id)
    requires id in s.disk
  {
    var t, gs := Run(c, s, es), GrantsOf(c, s, es, id);
    && id in t.disk
    && (if gs == [] then t.disk[id].holder == s.disk[id].holder && t.disk[id].until == s.disk[id].until
        else t.disk[id].holder == gs[|gs| - 1].holder && t.disk[id].until == gs[|gs| - 1].until)
  }

  lemma WorkCons(c: Config, s: State, es: seq<Event>, id: Id)
    requires es != [] && id in s.disk && StepOnKnown(c, s, es[0], id) && RecordStep(c, s, es[0], id)
    requires WorkRecorded(c, Step(c, s, es[0]), es[1..], id)
    ensures WorkRecorded(c, s, es, id)
  {
    hide Step, Grants, Asks, Known, RecordOk, StartsRender, Creates, EndsJob;
  }

  lemma EndCons(c: Config, s: State, es: seq<Event>, id: Id)
    requires es != [] && id in s.disk && StepOnKnown(c, s, es[0], id) && RecordStep(c, s, es[0], id)
    requires EndRecorded(c, Step(c, s, es[0]), es[1..], id)
    ensures EndRecorded(c, s, es, id)
  {
    hide Step, Grants, Asks, Known, RecordOk, StartsRender, Creates;
  }

  lemma LeaseCons(c: Config, s: State, es: seq<Event>, id: Id)
    requires es != [] && id in s.disk && StepOnKnown(c, s, es[0], id)
    requires LeaseRecorded(c, Step(c, s, es[0]), es[1..], id)
    ensures LeaseRecorded(c, s, es, id)
  {
    var e, u := es[0], Step(c, s, es[0]);
    LastOfMore(if Grants(c, s, e, id) then [Grant(e.holder, e.now, e.now + e.lease)] else [],
               GrantsOf(c, u, es[1..], id));
    hide Step, Grants, Known, StartsRender, Creates, Evolves;
  }

  lemma LastOfMore(first: seq<Grant>, gs: seq<Grant>)
    ensures var all := first + gs; all != [] ==> all[|all| - 1] == if gs == [] then first[|first| - 1] else gs[|gs| - 1]
    ensures first == [] ==> first + gs == gs
  {
  }

  /** The file of a job that is known and not pruned keeps account of everything that has happened to it. */
  lemma {:induction false} RecordIsKept(c: Config, s: State, es: seq<Event>, id: Id)
    requires ValidConfig(c) && Inv(c, s) && HazardFree(c, s, es) && Known(s, id) && NeverPruned(c, s, es, id)
    requires id in s.disk && RecordOk(s.disk[id])
    ensures WorkRecorded(c, s, es, id) && EndRecorded(c, s, es, id) && LeaseRecorded(c, s, es, id)
    decreases |es|
  {
    if es == [] {
      hide Inv, Step;
    } else {
      KnownStep(c, s, es[0], id);
      InvIsLocal(c, s, id);
      OneRecord(c, s, es[0], id);
      StepKeepsInv(c, s, es[0]);
      hide Inv, Step, Local, WorkRecorded, EndRecorded, LeaseRecorded;
      RecordIsKept(c, Step(c, s, es[0]), es[1..], id);
      WorkCons(c, s, es, id);
      EndCons(c, s, es, id);
      LeaseCons(c, s, es, id);
    }
  }

  // ----- the submission -----

  /** In s a submission lists the job, which no job's removal is still to hit. */
  ghost predicate Submitted(c: Config, s: State, id: Id, at: int) {
    && ValidConfig(c) && Inv(c, s) && Up(s) && id !in s.jobs && id !in s.doomed
    && id in Step(c, s, SubmitLocked(id, at, true)).jobs
  }

  function Listed(c: Config, s: State, id: Id, at: int): State { Step(c, s, SubmitLocked(id, at, true)) }

  /** A run of the service since the submission, in which the job is not pruned. */
  ghost predicate Since(c: Config, s: State, id: Id, at: int, es: seq<Event>) {
    Submitted(c, s, id, at) && HazardFree(c, Listed(c, s, id, at), es) && NeverPruned(c, Listed(c, s, id, at), es, id)
  }

  lemma NewJobIsFresh(c: Config, s: State, id: Id, at: int)
    requires Submitted(c, s, id, at)
    ensures var t := Listed(c, s, id, at);
            && Inv(c, t) && id in t.disk && t.disk[id] == t.jobs[id]
            && t.disk[id].id == id && t.disk[id].status == Queued && t.disk[id].attempts == 0
            && !t.disk[id].cancelRequested && t.disk[id].finishedAt.None? && t.disk[id].startedAt.None?
            && t.disk[id].createdAt == at && t.disk[id].holder == "" && t.disk[id].until == 0
  {
    SubmitKeepsInv(c, s, id, at, true);
    hide Inv;
  }

  /** What the events since the submission make of the job. */
  lemma RecordSince(c: Config, s: State, id: Id, at: int, es: seq<Event>)
    requires Since(c, s, id, at, es)
    ensures var u := Listed(c, s, id, at);
            var t := Run(c, u, es);
            && Inv(c, u) && Inv(c, t) && Known(u, id) && id in u.disk && Known(t, id) && id in t.disk
            && (t.disk[id].cancelRequested <==> Asked(c, u, es, id))
            && t.disk[id].attempts == RendersOf(c, u, es, id) <= c.maxAttempts
            && (Finished(t.disk[id]) <==> EndedAt(c, u, es, id).Some?)
            && (Finished(t.disk[id]) ==> t.disk[id].finishedAt == EndedAt(c, u, es, id))
            && var gs := GrantsOf(c, u, es, id);
               if gs == [] then t.disk[id].holder == "" && t.disk[id].until == 0
               else t.disk[id].holder == gs[|gs| - 1].holder && t.disk[id].until == gs[|gs| - 1].until
  {
    hide Inv, Step, Run, HazardFree, NeverPruned, Asked, RendersOf, EndedAt, GrantsOf;
    var u := Listed(c, s, id, at);
    NewJobIsFresh(c, s, id, at);
    RecordIsKept(c, u, es, id);
    KnownJobHistory(c, u, es, id);
    RunKeepsInv(c, u, es);
  }

  // ----- restarts -----

  /**
   * A crash at any time finds the job in flight, and a restart pass, itself interrupted any number of times, completes.
   * The job is then cancelled if it was asked to stop while it ran; otherwise failed if its renders started so far are
   * as many as it may have; and otherwise queued again, on the queue once, with as many attempts as before.
   */
  lemma RestartOfAJob(c: Config, s: State, id: Id, at: int, es: seq<Event>, rs: seq<Event>)
    requires Since(c, s, id, at, es)
    requires var t := Run(c, Listed(c, s, id, at), es);
             && id in t.disk && InFlight(t.disk[id])
             && OnlyRestarts(rs) && Up(Run(c, AfterCrash(t), rs))
    ensures var u := Listed(c, s, id, at);
            var r := Run(c, AfterCrash(Run(c, u, es)), rs);
            && id in r.jobs && id in r.disk && r.disk[id] == r.jobs[id]
            && r.jobs[id].status == (if Asked(c, u, es, id) then Cancelled
                                     else if RendersOf(c, u, es, id) == c.maxAttempts then Failed
                                     else Queued)
            && r.jobs[id].attempts == RendersOf(c, u, es, id)
            && multiset(r.queue)[id] == if r.jobs[id].status == Queued then 1 else 0
  {
    hide Inv, Step, Run, HazardFree, NeverPruned, Asked, RendersOf, EndedAt, GrantsOf, OnlyRestarts, AfterCrash;
    RecordSince(c, s, id, at, es);
    RecoveryIsTotalAndIdempotent(c, Run(c, Listed(c, s, id, at), es), rs);
  }

  // ----- claims -----

  /** Who claims next may have the lease: nobody had it yet, the claimant had it last, or it has run out. */
  ghost predicate Free(gs: seq<Grant>, holder: string, now: int) {
    if gs == [] then now >= 0 || holder == ""
    else gs[|gs| - 1].holder == holder || gs[|gs| - 1].until <= now
  }

  lemma ClaimGoesByTheLease(c: Config, t: State, id: Id, holder: string, lease: int, now: int)
    requires Up(t) && id in t.jobs && t.jobs[id].id == id && t.disk == t.disk[id := t.jobs[id]]
    ensures Grants(c, t, Claim(id, holder, lease, now), id)
            <==> t.jobs[id].status == Done && (t.jobs[id].until <= now || t.jobs[id].holder == holder)
    ensures !Grants(c, t, Claim(id, holder, lease, now), id) ==> Step(c, t, Claim(id, holder, lease, now)) == t
  {
  }

  lemma ListedIsMirrored(c: Config, t: State, id: Id)
    requires Inv(c, t) && Up(t) && Known(t, id)
    ensures id in t.jobs && id in t.disk && t.jobs[id] == t.disk[id] && t.jobs[id].id == id
  {
  }

  /**
   * A claim is granted exactly when the job is done and, by the grants since its submission, the lease is free for the
   * claimant, restarts in between or not. A claim that is not granted changes nothing.
   */
  lemma ClaimIsGrantedIffFree(c: Config, s: State, id: Id, at: int, es: seq<Event>, holder: string, lease: int, now: int)
    requires Since(c, s, id, at, es) && Up(Run(c, Listed(c, s, id, at), es))
    ensures var u := Listed(c, s, id, at);
            var t := Run(c, u, es);
            && id in t.jobs
            && (Grants(c, t, Claim(id, holder, lease, now), id)
                <==> t.jobs[id].status == Done && Free(GrantsOf(c, u, es, id), holder, now))
            && (!Grants(c, t, Claim(id, holder, lease, now), id) ==> Step(c, t, Claim(id, holder, lease, now)) == t)
  {
    hide Run, HazardFree, NeverPruned, Asked, RendersOf, EndedAt, GrantsOf, Inv, Step, Grants, Known;
    RecordSince(c, s, id, at, es);
    var t := Run(c, Listed(c, s, id, at), es);
    ListedIsMirrored(c, t, id);
    ClaimGoesByTheLease(c, t, id, holder, lease, now);
  }

  // ----- pruning -----

  /** A prune takes the job exactly when it had ended, by the clock of the event that ended it, before the cutoff. */
  lemma PrunedIffEndedBefore(c: Config, s: State, id: Id, at: int, es: seq<Event>, now: int)
    requires Since(c, s, id, at, es) && Up(Run(c, Listed(c, s, id, at), es))
    ensures var u := Listed(c, s, id, at);
            var t := Run(c, u, es);
            && id in t.jobs
            && (id !in Step(c, t, PruneLocked(now)).jobs
                <==> EndedAt(c, u, es, id).Some? && EndedAt(c, u, es, id).value + c.keepSeconds < now)
  {
    hide Run, HazardFree, NeverPruned, Asked, RendersOf, EndedAt, GrantsOf;
    RecordSince(c, s, id, at, es);
    var t := Run(c, Listed(c, s, id, at), es);
    assert t.jobs[id] == t.disk[id];
    hide Inv;
  }
}
