/** What a waiting caller is told: the position in the queue, and why it can be believed. */
module ReviewQueue {
  import opened Options
  import opened ReviewJobs

  function Ahead(s: State, seqNo: nat): set<Id> {
    set j | j in s.jobs && s.jobs[j].status == Queued && s.jobs[j].seqNo < seqNo
  }

  predicate SomeRunning(s: State) { exists j | j in s.jobs :: s.jobs[j].status == Running }

  /** The queued jobs submitted before this one, and one more while a job is running. */
  function Position(s: State, id: Id): nat
    requires id in s.jobs
  {
    |Ahead(s, s.jobs[id].seqNo)| + (if SomeRunning(s) then 1 else 0)
  }

  function OverJobs(s: State): set<Id> { set j | j in s.jobs && Terminal(s.jobs[j].status) }

  // ----- one step -----

  lemma HeadIsAhead(s: State, id: Id)
    requires InOrder(s) && Has(s, id, Queued) && s.queue != [] && s.queue[0] != id
    ensures Has(s, s.queue[0], Queued) && s.jobs[s.queue[0]].seqNo < s.jobs[id].seqNo
  {
    var i :| 0 <= i < |s.queue| && s.queue[i] == id;
  }

  lemma NobodyRuns(s: State)
    requires OneRunning(s) && s.worker.None?
    ensures !SomeRunning(s)
  {
    assert forall j <- s.jobs :: !Has(s, j, Running);
  }

  lemma AheadAfterStart(s: State, id: Id)
    requires Inv(s) && Has(s, id, Queued) && Has(AfterStart(s), id, Queued) && AfterStart(s) != s
    ensures Position(AfterStart(s), id) == Position(s, id)
    ensures OverJobs(AfterStart(s)) == OverJobs(s)
  {
    var t, head := AfterStart(s), s.queue[0];
    HeadIsAhead(s, id);
    NobodyRuns(s);
    hide InOrder, OneRunning, RefsDistinct;
    var n := s.jobs[id].seqNo;
    assert head in Ahead(s, n);
    assert Ahead(t, n) == Ahead(s, n) - {head};
    assert OverJobs(t) == OverJobs(s);
    assert Has(t, head, Running);
  }

  lemma AheadAfterFinish(s: State, j: Id, status: Status, now: int, id: Id)
    requires Inv(s) && Has(s, id, Queued) && Terminal(status)
    ensures var t := Finished(s, j, status, now);
            && id in t.jobs
            && OverJobs(s) <= OverJobs(t)
            && Position(s, id) == Position(t, id) + |OverJobs(t)| - |OverJobs(s)|
  {
    var t := Finished(s, j, status, now);
    if t != s {
      var n := s.jobs[id].seqNo;
      assert Ahead(t, n) == Ahead(s, n);
      assert OverJobs(t) == OverJobs(s) + {j} && j !in OverJobs(s);
      assert SomeRunning(s);
      assert !SomeRunning(t) by {
        hide InOrder, RefsDistinct;
        assert Has(s, j, Running);
        assert forall k <- t.jobs :: Has(s, k, Running) ==> k == j;
      }
    }
  }

  lemma SamePosition(s: State, t: State, id: Id)
    requires id in s.jobs && t.jobs == s.jobs
    ensures Position(t, id) == Position(s, id) && OverJobs(t) == OverJobs(s)
  {
    assert Ahead(t, s.jobs[id].seqNo) == Ahead(s, s.jobs[id].seqNo);
    assert OverJobs(t) == OverJobs(s);
  }

  lemma AheadAfterSubmit(s: State, added: Id, runRef: string, id: Id)
    requires Inv(s) && Has(s, id, Queued)
    ensures var t := AfterSubmit(s, added, runRef);
            Position(t, id) == Position(s, id) && OverJobs(t) == OverJobs(s)
  {
    var t := AfterSubmit(s, added, runRef);
    if t != s {
      var n := s.jobs[id].seqNo;
      assert forall j | j in s.jobs :: t.jobs[j] == s.jobs[j];
      assert Ahead(t, n) == Ahead(s, n);
      assert OverJobs(t) == OverJobs(s);
      assert SomeRunning(t) <==> SomeRunning(s);
    }
  }

  /** While a job waits, its position falls by exactly the jobs that end. */
  lemma PositionOverAStep(s: State, e: Event, id: Id)
    requires Inv(s) && Has(s, id, Queued) && Has(Step(s, e), id, Queued)
    ensures var t := Step(s, e);
            && OverJobs(s) <= OverJobs(t)
            && Position(s, id) == Position(t, id) + |OverJobs(t)| - |OverJobs(s)|
  {
    hide Inv, Position, OverJobs;
    match e
    case Submit(added, runRef) => AheadAfterSubmit(s, added, runRef, id);
    case Start => if AfterStart(s) != s { AheadAfterStart(s, id); }
    case BodyFinishes(j, ok, now) => AheadAfterFinish(s, j, if ok then Done else Failed, now, id);
    case JoinTimesOut(now) =>
      if s.worker.Some? {
        AheadAfterFinish(s, s.worker.value, Failed, now, id);
        var t := Finished(s, s.worker.value, Failed, now);
        SamePosition(t, t.(worker := None), id);
      }
    case _ => SamePosition(s, Step(s, e), id);
  }

  /** A job is taken from the queue only at position 0. */
  lemma StartsAtZero(s: State, e: Event, id: Id)
    requires Inv(s) && Has(s, id, Queued) && !Has(Step(s, e), id, Queued)
    ensures e.Start? && Position(s, id) == 0
  {
    assert e == Start && s.queue != [] && s.queue[0] == id && s.worker.None?;
    forall j | Has(s, j, Queued) ensures s.jobs[j].seqNo >= s.jobs[id].seqNo {
      var i :| 0 <= i < |s.queue| && s.queue[i] == j;
    }
    assert forall j | j in Ahead(s, s.jobs[id].seqNo) :: Has(s, j, Queued);
    assert Ahead(s, s.jobs[id].seqNo) == {};
    assert forall j <- s.jobs :: !Has(s, j, Running);
  }

  // ----- any run -----

  lemma {:induction false} StillQueued(s: State, es: seq<Event>, id: Id)
    requires Inv(s) && id in s.jobs && Has(Run(s, es), id, Queued)
    ensures Has(s, id, Queued)
    decreases |es|
  {
    if es != [] {
      StepKeepsInv(s, es[0]);
      JobOverAStep(s, es[0], id);
      StillQueued(Step(s, es[0]), es[1..], id);
    }
  }

  /** Over any run during which a job waits, the position it was given falls by exactly the jobs that end. */
  lemma {:induction false} PositionOverARun(s: State, es: seq<Event>, id: Id)
    requires Inv(s) && Has(s, id, Queued) && Has(Run(s, es), id, Queued)
    ensures var t := Run(s, es);
            && OverJobs(s) <= OverJobs(t)
            && Position(s, id) == Position(t, id) + |OverJobs(t) - OverJobs(s)|
    decreases |es|
  {
    if es != [] {
      var m := Step(s, es[0]);
      StepKeepsInv(s, es[0]);
      JobOverAStep(s, es[0], id);
      StillQueued(m, es[1..], id);
      PositionOverAStep(s, es[0], id);
      PositionOverARun(m, es[1..], id);
      hide Inv, Position, OverJobs, Step;
      SizeOfRest(OverJobs(s), OverJobs(m));
      SizeOfRest(OverJobs(m), OverJobs(Run(s, es)));
      SizeOfRest(OverJobs(s), OverJobs(Run(s, es)));
    }
  }

  lemma SizeOfRest(a: set<Id>, b: set<Id>)
    requires a <= b
    ensures |b - a| == |b| - |a|
  {
    assert b == a + (b - a);
  }

  /** A waiting job never moves back. */
  lemma PositionNeverIncreases(s: State, es: seq<Event>, id: Id)
    requires Inv(s) && Has(s, id, Queued) && Has(Run(s, es), id, Queued)
    ensures Position(Run(s, es), id) <= Position(s, id)
  {
    PositionOverARun(s, es, id);
  }

  /** The position a waiting job is given is exactly how many jobs will have ended between then and its start. */
  lemma PositionIsJobsEndedBeforeStart(s: State, es: seq<Event>, e: Event, id: Id)
    requires Inv(s) && Has(s, id, Queued)
    requires Has(Run(s, es), id, Queued) && !Has(Run(s, es + [e]), id, Queued)
    ensures |OverJobs(Run(s, es)) - OverJobs(s)| == Position(s, id)
  {
    RunSnoc(s, es, e);
    RunKeepsInv(s, es);
    StartsAtZero(Run(s, es), e, id);
    PositionOverARun(s, es, id);
  }

  // ----- the queue itself -----

  function Members(ids: seq<Id>): set<Id> { set j | j in ids }

  lemma {:induction false} DistinctMembers(ids: seq<Id>)
    requires forall i, j | 0 <= i < j < |ids| :: ids[i] != ids[j]
    ensures |Members(ids)| == |ids|
  {
    if ids != [] {
      var init, last := ids[..|ids| - 1], ids[|ids| - 1];
      DistinctMembers(init);
      assert ids == init + [last];
      assert Members(ids) == Members(init) + {last};
    }
  }

  /** The count by submission number is the place in the queue. */
  lemma PositionIsPlace(s: State, i: nat)
    requires Inv(s) && i < |s.queue|
    ensures Has(s, s.queue[i], Queued)
    ensures Position(s, s.queue[i]) == i + (if s.worker.Some? && Has(s, s.worker.value, Running) then 1 else 0)
  {
    var id := s.queue[i];
    assert Has(s, id, Queued);
    var n := s.jobs[id].seqNo;
    DistinctMembers(s.queue[..i]);
    assert Ahead(s, n) == Members(s.queue[..i]) by {
      forall j | j in Ahead(s, n) ensures j in s.queue[..i] {
        assert Has(s, j, Queued);
        var k :| 0 <= k < |s.queue| && s.queue[k] == j;
        assert k < i;
        assert s.queue[..i][k] == j;
      }
    }
    assert SomeRunning(s) <==> s.worker.Some? && Has(s, s.worker.value, Running) by {
      hide InOrder, RefsDistinct;
      assert forall j <- s.jobs :: s.jobs[j].status == Running ==> Has(s, j, Running);
    }
  }

  // ----- the object -----

  class JobRunner {
    var jobs: map<Id, Job>
    var queue: seq<Id>
    var next: nat
    // The job the worker waits for, and the body threads still alive.
    var worker: Option<Id>
    var bodies: set<Id>

    ghost function Now(): State
      reads this
    {
      State(jobs, queue, next, worker, bodies)
    }

    constructor ()
      ensures Now() == Empty
    {
      jobs, queue, next, worker, bodies := map[], [], 0, None, {};
    }

    method FindByRunRef(runRef: string) returns (found: Option<Id>)
      ensures found.Some? <==> KnownRef(jobs, runRef)
      ensures found.Some? ==> found.value in jobs && jobs[found.value].runRef == runRef
      ensures found.Some? <==> runRef != "" && exists id <- jobs :: jobs[id].runRef == runRef
    {
      if runRef == "" {
        return None;
      }
      var left := jobs.Keys;
      while left != {}
        invariant left <= jobs.Keys
        invariant forall id <- jobs.Keys - left :: jobs[id].runRef != runRef
        decreases left
      {
        var id :| id in left;
        if jobs[id].runRef == runRef {
          return Some(id);
        }
        left := left - {id};
      }
      found := None;
    }

    /** The job for this reference: the one already submitted with it, or else a new one at the end of the queue. */
    method SubmitReview(id: Id, runRef: string) returns (job: Id)
      requires id !in jobs && Inv(Now())
      modifies this
      ensures Now() == Step(old(Now()), Submit(id, runRef))
      ensures job in jobs && jobs[job].runRef == runRef
      ensures job == id <==> runRef == "" || forall j <- old(jobs) :: old(jobs)[j].runRef != runRef
      ensures job == id ==>
                && queue == old(queue) + [id] && jobs - {id} == old(jobs)
                && jobs[id].status == Queued && forall j <- old(jobs) :: old(jobs)[j].seqNo < jobs[id].seqNo
      ensures job != id ==> Now() == old(Now())
    {
      var existing := FindByRunRef(runRef);
      if existing.Some? {
        return existing.value;
      }
      jobs := jobs[id := Job(next, runRef, Queued, None)];
      next := next + 1;
      queue := queue + [id];
      job := id;
    }

    /** A waiting job's place in the queue, plus one while a job is running; None for any other job. */
    method QueuePosition(id: Id) returns (position: Option<nat>)
      requires Inv(Now()) && id in jobs
      ensures position.Some? <==> Has(Now(), id, Queued)
      ensures position.Some? ==>
                exists i | 0 <= i < |queue| ::
                  && queue[i] == id
                  && position.value == i + (if worker.Some? && Has(Now(), worker.value, Running) then 1 else 0)
      ensures position.Some? ==> position.value == Position(Now(), id)
    {
      if jobs[id].status != Queued {
        return None;
      }
      var running := exists j | j in jobs :: jobs[j].status == Running;
      var ahead := |set j | j in jobs && jobs[j].status == Queued && jobs[j].seqNo < jobs[id].seqNo|;
      position := Some(ahead + (if running then 1 else 0));
      assert Has(Now(), id, Queued);
      ghost var i :| 0 <= i < |queue| && queue[i] == id;
      PositionIsPlace(Now(), i);
    }

    /** The worker takes the next job and starts its body. */
    method TakeNext()
      requires Inv(Now()) && worker.None? && queue != []
      modifies this
      ensures Now() == Step(old(Now()), Start)
      ensures worker == Some(old(queue)[0]) && Has(Now(), old(queue)[0], Running)
    {
      var id := queue[0];
      assert Has(Now(), id, Queued);
      queue := queue[1..];
      jobs := jobs[id := jobs[id].(status := Running)];
      bodies := bodies + {id};
      worker := Some(id);
    }

    method Finish(id: Id, status: Status, now: int)
      requires id in jobs
      modifies this`jobs
      ensures Now() == Finished(old(Now()), id, status, now)
    {
      if jobs[id].status != Running {
        return;
      }
      jobs := jobs[id := jobs[id].(status := status)];
      jobs := jobs[id := jobs[id].(finishedAt := Some(now))];
    }

    /** The worker's wait is over: fail the job if its body is still alive, and move on. */
    method EndWait(now: int)
      requires Inv(Now()) && worker.Some?
      modifies this
      ensures Now() == if old(worker).value in old(bodies) then Step(old(Now()), JoinTimesOut(now))
                       else Step(old(Now()), JoinReturns)
      ensures worker.None? && !SomeRunning(Now())
    {
      ghost var before := Now();
      if worker.value in bodies {
        Finish(worker.value, Failed, now);
      }
      worker := None;
      StepKeepsInv(before, if before.worker.value in bodies then JoinTimesOut(now) else JoinReturns);
      assert forall j <- jobs :: !Has(Now(), j, Running);
    }
  }
}
