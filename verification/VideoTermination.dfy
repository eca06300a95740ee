/** Why only finitely many renders ever start, however often the service crashes. */
module VideoTermination {
  import opened Options
  import opened Sequences
  import opened VideoJobs
  import opened VideoSafety
  import MapSum

  /** What one job may still cost: two units an attempt left, one more while it renders, nothing once finished. */
  ghost function Weight(c: Config, j: Job): nat {
    if !InFlight(j) || j.attempts > c.maxAttempts then 0
    else 2 * (c.maxAttempts - j.attempts) + (if j.status == Running then 1 else 0)
  }

  ghost function Weights(c: Config, m: map<Id, Job>): map<Id, nat> { map id | id in m :: Weight(c, m[id]) }

  ghost function Potential(c: Config, m: map<Id, Job>): nat { MapSum.Total(Weights(c, m)) }

  /** What so many new jobs may cost. */
  ghost function Allowance(c: Config, created: nat): nat { 2 * c.maxAttempts * created }

  lemma PotentialUpdate(c: Config, m: map<Id, Job>, id: Id, j: Job)
    ensures Potential(c, m[id := j]) == Potential(c, m) - (if id in m then Weight(c, m[id]) else 0) + Weight(c, j)
  {
    assert Weights(c, m[id := j]) == Weights(c, m)[id := Weight(c, j)];
    MapSum.TotalUpdate(Weights(c, m), id, Weight(c, j));
  }

  lemma PotentialRemove(c: Config, m: map<Id, Job>, id: Id)
    requires id in m ==> Finished(m[id])
    ensures Potential(c, m - {id}) == Potential(c, m)
  {
    assert Weights(c, m - {id}) == Weights(c, m) - {id};
    if id in m {
      MapSum.TotalSplit(Weights(c, m), id);
    } else {
      assert m - {id} == m;
    }
  }

  /** A render starts, a job ends, or a restart pass takes back an interrupted render. */
  ghost predicate Spends(s: State, e: Event) {
    || (e.Pickup? && Up(s) && s.worker.None? && Starts(s))
    || (e.EndOfRender? && Up(s) && s.worker.Some?)
    || (e.Cancel? && Up(s) && e.id in s.jobs && s.jobs[e.id].status == Queued)
    || (e.LoadOne? && e.id in s.todo && e.id in s.disk && s.disk[e.id].status == Running)
  }

  lemma WorkerPotential(c: Config, s: State, e: Event)
    requires ValidConfig(c) && Inv(c, s) && (e.Pickup? || e.Progress? || e.EndOfRender?)
    ensures Potential(c, Step(c, s, e).disk) <= Potential(c, s.disk) - (if Spends(s, e) then 1 else 0)
  {
    hide Potential;
    if e.Pickup? && Starts(s) {
      PotentialUpdate(c, s.disk, s.queue[0], Started(s.jobs[s.queue[0]], e.now));
    }
    if e.Progress? && s.worker.Some? {
      var id := s.worker.value;
      PotentialUpdate(c, s.disk, id, s.jobs[id].(stage := e.stage, progress := e.progress));
    }
    if e.EndOfRender? && s.worker.Some? {
      var id := s.worker.value;
      PotentialUpdate(c, s.disk, id, Ended(s.jobs[id], e.ok, e.now, e.error));
    }
  }

  lemma RequestPotential(c: Config, s: State, e: Event)
    requires ValidConfig(c) && Inv(c, s) && (e.Cancel? || e.Claim?)
    ensures Potential(c, Step(c, s, e).disk) <= Potential(c, s.disk) - (if Spends(s, e) then 1 else 0)
  {
    hide Potential;
    if e.id in s.jobs {
      PotentialUpdate(c, s.disk, e.id, s.disk[e.id].(cancelRequested := true));
      PotentialUpdate(c, s.disk, e.id,
                      if e.Cancel? then AfterCancel(s, e.id, e.now).jobs[e.id]
                      else AfterClaim(s, e.id, e.holder, e.lease, e.now).jobs[e.id]);
    }
  }

  /** Only a new submission adds to the potential; starting, ending and interrupting a render take from it. */
  lemma StepPotential(c: Config, s: State, e: Event)
    requires ValidConfig(c) && Inv(c, s)
    ensures Potential(c, Step(c, s, e).disk)
            <= Potential(c, s.disk) + (if Creates(c, s, e) then Allowance(c, 1) else 0)
               - (if Spends(s, e) then 1 else 0)
  {
    if e.Pickup? || e.Progress? || e.EndOfRender? {
      WorkerPotential(c, s, e);
    } else if e.Cancel? || e.Claim? {
      RequestPotential(c, s, e);
    } else if e.SubmitLocked? {
      PotentialUpdate(c, s.disk, e.id, NewJob(e.id, e.now));
    } else if e.RemoveDir? {
      if e.id in s.doomed {
        PotentialRemove(c, s.disk, e.id);
      }
    } else if e.LoadOne? && e.id in s.todo {
      PotentialUpdate(c, s.disk, e.id, Recovered(c, s.disk[e.id], e.now));
    }
  }

  ghost function SpentBy(c: Config, s: State, es: seq<Event>): nat
    decreases |es|
  {
    if es == [] then 0 else (if Spends(s, es[0]) then 1 else 0) + SpentBy(c, Step(c, s, es[0]), es[1..])
  }

  ghost function CreatedBy(c: Config, s: State, es: seq<Event>): nat
    decreases |es|
  {
    if es == [] then 0 else (if Creates(c, s, es[0]) then 1 else 0) + CreatedBy(c, Step(c, s, es[0]), es[1..])
  }

  /**
   * In any run, crashes included, the renders started, jobs ended and renders interrupted are together bounded by
   * what the run started with and what it was given: without new submissions only finitely many renders start.
   */
  lemma {:induction false} WorkIsBounded(c: Config, s: State, es: seq<Event>)
    requires ValidConfig(c) && Inv(c, s) && HazardFree(c, s, es)
    ensures SpentBy(c, s, es) + Potential(c, Run(c, s, es).disk)
            <= Potential(c, s.disk) + Allowance(c, CreatedBy(c, s, es))
    decreases |es|
  {
    hide *;
    if es == [] {
      NothingSpent(c, s);
    } else {
      FirstStep(c, s, es);
      StepPotential(c, s, es[0]);
      StepKeepsInv(c, s, es[0]);
      WorkIsBounded(c, Step(c, s, es[0]), es[1..]);
      AllowanceAdds(c, CreatedBy(c, Step(c, s, es[0]), es[1..]));
    }
  }

  lemma FirstStep(c: Config, s: State, es: seq<Event>)
    requires es != [] && HazardFree(c, s, es)
    ensures var t := Step(c, s, es[0]);
            && (Creates(c, s, es[0]) ==> es[0].id !in s.doomed) && HazardFree(c, t, es[1..])
            && Run(c, s, es) == Run(c, t, es[1..])
            && CreatedBy(c, s, es) == (if Creates(c, s, es[0]) then 1 else 0) + CreatedBy(c, t, es[1..])
            && SpentBy(c, s, es) == (if Spends(s, es[0]) then 1 else 0) + SpentBy(c, t, es[1..])
  {
  }

  lemma NothingSpent(c: Config, s: State)
    ensures SpentBy(c, s, []) == 0 && Run(c, s, []) == s && Allowance(c, CreatedBy(c, s, [])) == 0
  {
  }

  lemma AllowanceAdds(c: Config, created: nat)
    ensures Allowance(c, 1 + created) == Allowance(c, 1) + Allowance(c, created)
  {
  }

  ghost predicate OnlyWorker(es: seq<Event>) { forall e <- es :: e.Pickup? || e.EndOfRender? }

  lemma {:induction false} RunAppend(c: Config, s: State, a: seq<Event>, b: seq<Event>)
    ensures Run(c, s, a + b) == Run(c, Run(c, s, a), b)
    decreases |a|
  {
    if a == [] {
      assert a + b == b;
    } else {
      assert (a + b)[0] == a[0] && (a + b)[1..] == a[1..] + b;
      RunAppend(c, Step(c, s, a[0]), a[1..], b);
    }
  }

  ghost predicate Waits(s: State, id: Id) {
    Up(s) && s.worker.None? && id in s.jobs && s.jobs[id].status == Queued && id in s.queue
  }

  /** Taking the head of the queue drops it or renders it, and leaves the other waiting jobs alone. */
  lemma TakeHead(c: Config, s: State, id: Id)
    requires Inv(c, s) && Waits(s, id) && s.queue[0] != id
    ensures var t := AfterPickup(s, 0);
            && Up(t) && |t.queue| < |s.queue| && id in t.queue && id in t.jobs && t.jobs[id] == s.jobs[id]
            && (t.worker.None? || (t.worker == Some(s.queue[0]) && Starts(s)))
  {
    assert s.queue == [s.queue[0]] + s.queue[1..];
  }

  lemma RenderOther(c: Config, t: State, id: Id)
    requires Inv(c, t) && Up(t) && t.worker.Some? && t.worker.value != id
    requires id in t.queue && id in t.jobs && t.jobs[id].status == Queued
    ensures Waits(AfterEndOfRender(t, true, 0, ""), id) && AfterEndOfRender(t, true, 0, "").queue == t.queue
  {
  }

  /** One turn of the worker: take the head of the queue and, if that starts a render, end it. */
  function TurnEvents(s: State): seq<Event> {
    if AfterPickup(s, 0).worker.Some? then [Pickup(0), EndOfRender(true, 0, "")] else [Pickup(0)]
  }

  function Turn(s: State): State {
    var t := AfterPickup(s, 0);
    if t.worker.Some? then AfterEndOfRender(t, true, 0, "") else t
  }

  lemma RunTurn(c: Config, s: State)
    requires Up(s)
    ensures Run(c, s, TurnEvents(s)) == Turn(s)
  {
    var a, b := Pickup(0), EndOfRender(true, 0, "");
    assert [a, b][1..] == [b] && [b][1..] == [] && [a][1..] == [];
    assert Run(c, Step(c, s, a), [b]) == Step(c, Step(c, s, a), b);
  }

  lemma OneTurn(c: Config, s: State, id: Id)
    requires Inv(c, s) && Waits(s, id) && s.queue[0] != id
    ensures Waits(Turn(s), id) && |Turn(s).queue| < |s.queue|
  {
    TakeHead(c, s, id);
    var t := AfterPickup(s, 0);
    if t.worker.Some? {
      PickupKeepsInv(c, s, 0);
      RenderOther(c, t, id);
    }
  }

  lemma TurnKeepsInv(c: Config, s: State)
    requires Inv(c, s) && Up(s)
    ensures Inv(c, Turn(s))
  {
    PickupKeepsInv(c, s, 0);
    EndOfRenderKeepsInv(c, AfterPickup(s, 0), true, 0, "");
  }

  lemma {:induction false} IdleWorkerReaches(c: Config, s: State, id: Id) returns (es: seq<Event>)
    requires Inv(c, s) && Waits(s, id)
    ensures OnlyWorker(es) && Run(c, s, es).worker == Some(id)
    decreases |s.queue|
  {
    if s.queue[0] == id {
      es := [Pickup(0)];
      Unroll(c, s, es);
    } else {
      OneTurn(c, s, id);
      TurnKeepsInv(c, s);
      RunTurn(c, s);
      var rest := IdleWorkerReaches(c, Turn(s), id);
      RunAppend(c, s, TurnEvents(s), rest);
      es := TurnEvents(s) + rest;
    }
  }

  lemma WorkerIsAnother(c: Config, s: State, id: Id)
    requires Inv(c, s) && id in s.jobs && s.jobs[id].status == Queued
    ensures s.worker != Some(id)
  {
  }

  lemma BusyWorkerReaches(c: Config, s: State, id: Id) returns (es: seq<Event>)
    requires Inv(c, s) && Up(s) && s.worker.Some? && s.worker != Some(id)
    requires id in s.jobs && s.jobs[id].status == Queued && id in s.queue
    ensures OnlyWorker(es) && Run(c, s, es).worker == Some(id)
  {
    hide Inv, AfterEndOfRender, Waits;
    var e, t := EndOfRender(true, 0, ""), AfterEndOfRender(s, true, 0, "");
    RenderOther(c, s, id);
    EndOfRenderKeepsInv(c, s, true, 0, "");
    var rest := IdleWorkerReaches(c, t, id);
    es := [e] + rest;
    assert es[1..] == rest;
    assert Step(c, s, e) == t;
    hide Step;
  }

  lemma WorkerReaches(c: Config, s: State, id: Id) returns (es: seq<Event>)
    requires Inv(c, s) && Up(s) && id in s.jobs && s.jobs[id].status == Queued && id in s.queue
    ensures OnlyWorker(es) && Run(c, s, es).worker == Some(id)
  {
    if s.worker.None? {
      es := IdleWorkerReaches(c, s, id);
    } else {
      WorkerIsAnother(c, s, id);
      es := BusyWorkerReaches(c, s, id);
    }
    hide Inv, Step;
  }

  /** Queued, or about to be: its file is still to be read by the restart pass, which will requeue it. */
  ghost predicate Awaits(c: Config, s: State, id: Id) {
    || (id in s.jobs && s.jobs[id].status == Queued)
    || (id in s.todo && id in s.disk && Recovered(c, s.disk[id], 0).status == Queued)
  }

  /** What the service does by itself: the restart pass, puts that submits still owe, and the worker. */
  ghost predicate OnlyService(es: seq<Event>) {
    forall e <- es :: e.LoadOne? || e.Put? || e.Pickup? || e.EndOfRender?
  }

  lemma LoadKeepsAwaiting(c: Config, s: State, x: Id, id: Id)
    requires Inv(c, s) && x in s.todo && Awaits(c, s, id)
    ensures var t := AfterLoadOne(c, s, x, 0); Awaits(c, t, id) && |t.todo| < |s.todo|
  {
    assert x in s.disk;
    assert AfterLoadOne(c, s, x, 0).todo == s.todo - {x};
  }

  lemma {:induction false} RestartEnds(c: Config, s: State, id: Id) returns (es: seq<Event>)
    requires Inv(c, s) && Awaits(c, s, id)
    ensures OnlyService(es) && Inv(c, Run(c, s, es)) && Up(Run(c, s, es)) && Awaits(c, Run(c, s, es), id)
    decreases |s.todo|
  {
    hide Inv, Awaits, AfterLoadOne;
    if Up(s) {
      es := [];
    } else {
      var x :| x in s.todo;
      var e, t := LoadOne(x, 0), AfterLoadOne(c, s, x, 0);
      LoadKeepsAwaiting(c, s, x, id);
      LoadOneKeepsInv(c, s, x, 0);
      var rest := RestartEnds(c, t, id);
      es := [e] + rest;
      assert es[1..] == rest && Step(c, s, e) == t;
      hide Step;
    }
  }

  /** The put that the submit of a queued job still owes. */
  lemma PutReaches(c: Config, s: State, id: Id) returns (es: seq<Event>)
    requires Inv(c, s) && Up(s) && Awaits(c, s, id)
    ensures OnlyService(es)
    ensures var t := Run(c, s, es);
            Inv(c, t) && Up(t) && id in t.jobs && t.jobs[id].status == Queued && id in t.queue
  {
    if id in s.queue {
      es := [];
    } else {
      PutKeepsInv(c, s, id);
      es := [Put(id)];
      Unroll(c, s, es);
      hide Inv;
    }
  }

  /**
   * A job that is queued, or that the restart pass is still to requeue, is rendered if nobody cancels it: from every
   * state of the invariant, restart unfinished, put pending or worker busy, the service gets to it by itself.
   */
  lemma QueuedJobIsReached(c: Config, s: State, id: Id) returns (es: seq<Event>)
    requires Inv(c, s) && Awaits(c, s, id)
    ensures OnlyService(es) && Run(c, s, es).worker == Some(id)
  {
    hide Inv, Awaits, Run;
    var first := RestartEnds(c, s, id);
    var t := Run(c, s, first);
    var second := PutReaches(c, t, id);
    var third := WorkerReaches(c, Run(c, t, second), id);
    RunAppend(c, t, second, third);
    RunAppend(c, s, first, second + third);
    es := first + (second + third);
  }

  // ----- first in, first out -----

  /** An id the worker took from the queue, and whether its render started or it was dropped. */
  datatype Take = Take(id: Id, rendered: bool)

  ghost function TakesOf(s: State, e: Event): seq<Take> {
    if e.Pickup? && Up(s) && s.worker.None? && s.queue != [] then [Take(s.queue[0], Starts(s))] else []
  }

  ghost function JoinsOf(c: Config, s: State, e: Event): seq<Id> {
    if e.Put? && Up(s) && e.id in s.pending then [e.id]
    else if e.LoadOne? && e.id in s.todo && e.id in s.disk && Recovered(c, s.disk[e.id], e.now).status == Queued then [e.id]
    else []
  }

  ghost function Takes(c: Config, s: State, es: seq<Event>): seq<Take>
    decreases |es|
  {
    if es == [] then [] else TakesOf(s, es[0]) + Takes(c, Step(c, s, es[0]), es[1..])
  }

  ghost function Joins(c: Config, s: State, es: seq<Event>): seq<Id>
    decreases |es|
  {
    if es == [] then [] else JoinsOf(c, s, es[0]) + Joins(c, Step(c, s, es[0]), es[1..])
  }

  ghost function Ids(takes: seq<Take>): seq<Id> { seq(|takes|, i requires 0 <= i < |takes| => takes[i].id) }

  lemma QueueOverAStep(c: Config, s: State, e: Event)
    requires !e.Crash?
    ensures Ids(TakesOf(s, e)) + Step(c, s, e).queue == s.queue + JoinsOf(c, s, e)
    ensures forall k <- TakesOf(s, e) :: k.rendered <==> StartsRender(s, e, k.id)
  {
  }

  lemma IdsAppend(a: seq<Take>, b: seq<Take>)
    ensures Ids(a + b) == Ids(a) + Ids(b)
  {
  }

  /**
   * First in, first out, over any run of one process: the ids taken from the queue, and those still on it, are those
   * that were on it followed by those that joined it, in the order they joined. Renders start in that order.
   */
  lemma {:induction false} IdsLeaveInOrder(c: Config, s: State, es: seq<Event>)
    requires forall e <- es :: !e.Crash?
    ensures Ids(Takes(c, s, es)) + Run(c, s, es).queue == s.queue + Joins(c, s, es)
    decreases |es|
  {
    if es != [] {
      var t := Step(c, s, es[0]);
      var first, later := TakesOf(s, es[0]), Takes(c, t, es[1..]);
      var joined, more := JoinsOf(c, s, es[0]), Joins(c, t, es[1..]);
      var end := Run(c, s, es).queue;
      QueueOverAStep(c, s, es[0]);
      IdsLeaveInOrder(c, t, es[1..]);
      IdsAppend(first, later);
      Associate(Ids(first), Ids(later), end);
      Associate(Ids(first), t.queue, more);
      Associate(s.queue, joined, more);
    }
    hide TakesOf, JoinsOf, Step, Ids;
  }
}
