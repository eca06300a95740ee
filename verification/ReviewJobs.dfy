/**
 * The review job runner: one worker thread, a FIFO, and job bodies that may outlive their time-out. Submissions are
 * serialised: numbering a job, listing it and queueing it is one step. So is finishing one. A run is a sequence of
 * events, and an event that cannot happen changes nothing.
 */
module ReviewJobs {
  import opened Options

  type Id = string

  datatype Status = Queued | Running | Done | Failed

  predicate Terminal(st: Status) { st in {Done, Failed} }

  datatype Job = Job(seqNo: nat, runRef: string, status: Status, finishedAt: Option<int>)

  /**
   * worker is the job whose body the worker waits for; bodies are the bodies still alive, the worker's own and those
   * that outlived their time-out.
   */
  datatype State = State(jobs: map<Id, Job>, queue: seq<Id>, next: nat, worker: Option<Id>, bodies: set<Id>)

  datatype Event =
    | Submit(id: Id, runRef: string)
    | Start
    | BodyFinishes(id: Id, ok: bool, now: int)
    | BodyExits(id: Id)
    | JoinReturns
    | JoinTimesOut(now: int)

  const Empty: State := State(map[], [], 0, None, {})

  /** The job already submitted with this reference, if there is one. */
  ghost predicate KnownRef(jobs: map<Id, Job>, runRef: string) {
    runRef != "" && exists id <- jobs :: jobs[id].runRef == runRef
  }

  ghost function AfterSubmit(s: State, id: Id, runRef: string): State {
    if id in s.jobs || KnownRef(s.jobs, runRef) then s
    else s.(jobs := s.jobs[id := Job(s.next, runRef, Queued, None)], queue := s.queue + [id], next := s.next + 1)
  }

  /** The worker takes the head of the queue and starts its body. */
  function AfterStart(s: State): State {
    if s.worker.Some? || s.queue == [] || s.queue[0] !in s.jobs then s
    else
      var id := s.queue[0];
      s.(queue := s.queue[1..], jobs := s.jobs[id := s.jobs[id].(status := Running)],
         worker := Some(id), bodies := s.bodies + {id})
  }

  /** Only a running job can be finished: whoever comes second changes nothing. */
  function Finished(s: State, id: Id, status: Status, now: int): State {
    if id in s.jobs && s.jobs[id].status == Running
    then s.(jobs := s.jobs[id := s.jobs[id].(status := status, finishedAt := Some(now))])
    else s
  }

  ghost function Step(s: State, e: Event): State {
    match e
    case Submit(id, runRef) => AfterSubmit(s, id, runRef)
    case Start => AfterStart(s)
    case BodyFinishes(id, ok, now) => if id in s.bodies then Finished(s, id, if ok then Done else Failed, now) else s
    case BodyExits(id) =>
      // A body finishes its job, unless the time-out did, before its thread ends.
      if id in s.bodies && id in s.jobs && Terminal(s.jobs[id].status) then s.(bodies := s.bodies - {id}) else s
    case JoinReturns =>
      if s.worker.Some? && s.worker.value !in s.bodies then s.(worker := None) else s
    case JoinTimesOut(now) =>
      if s.worker.Some? && s.worker.value in s.bodies
      then Finished(s, s.worker.value, Failed, now).(worker := None)
      else s
  }

  ghost function Run(s: State, es: seq<Event>): State
    decreases |es|
  {
    if es == [] then s else Run(Step(s, es[0]), es[1..])
  }

  lemma {:induction false} RunSnoc(s: State, es: seq<Event>, e: Event)
    ensures Run(s, es + [e]) == Step(Run(s, es), e)
    decreases |es|
  {
    if es == [] {
      assert (es + [e])[1..] == [];
    } else {
      assert (es + [e])[1..] == es[1..] + [e];
      RunSnoc(Step(s, es[0]), es[1..], e);
    }
  }

  // ----- invariant -----

  predicate Has(s: State, id: Id, status: Status) { id in s.jobs && s.jobs[id].status == status }

  predicate Over(s: State, id: Id) { id in s.jobs && Terminal(s.jobs[id].status) }

  /** The queue is the queued jobs, in submission order. */
  ghost predicate InOrder(s: State) {
    && (forall i | 0 <= i < |s.queue| :: Has(s, s.queue[i], Queued))
    && (forall i, j | 0 <= i < j < |s.queue| :: s.jobs[s.queue[i]].seqNo < s.jobs[s.queue[j]].seqNo)
    && (forall id <- s.jobs :: Has(s, id, Queued) ==> id in s.queue)
    && (forall id <- s.jobs :: s.jobs[id].seqNo < s.next)
  }

  /** A running job is the worker's, its body is alive, and a job has a finish time exactly when it is over. */
  ghost predicate OneRunning(s: State) {
    && (forall id <- s.jobs :: Has(s, id, Running) ==> s.worker == Some(id) && id in s.bodies)
    && (forall id <- s.jobs :: s.jobs[id].finishedAt.Some? <==> Over(s, id))
    && (s.worker.Some? ==> s.worker.value in s.jobs && !Has(s, s.worker.value, Queued))
    && (forall id <- s.bodies :: id in s.jobs && !Has(s, id, Queued))
  }

  ghost predicate RefsDistinct(s: State) {
    forall a, b | a in s.jobs && b in s.jobs && a != b ::
      s.jobs[a].runRef != "" ==> s.jobs[a].runRef != s.jobs[b].runRef
  }

  ghost predicate Inv(s: State) { InOrder(s) && OneRunning(s) && RefsDistinct(s) }

  lemma NewJobKeepsOrder(s: State, t: State, id: Id, job: Job)
    requires InOrder(s) && id !in s.jobs && job.status == Queued && job.seqNo == s.next
    requires t.jobs == s.jobs[id := job] && t.queue == s.queue + [id] && t.next == s.next + 1
    ensures InOrder(t)
  {
    assert forall i | 0 <= i < |s.queue| :: t.queue[i] == s.queue[i] && Has(s, s.queue[i], Queued);
    assert t.queue[|s.queue|] == id;
  }

  lemma NewJobKeepsOneRunning(s: State, t: State, id: Id, job: Job)
    requires OneRunning(s) && id !in s.jobs && job.status == Queued && job.finishedAt.None?
    requires t.jobs == s.jobs[id := job] && t.worker == s.worker && t.bodies == s.bodies
    ensures OneRunning(t)
  {
  }

  lemma SubmitKeepsInv(s: State, id: Id, runRef: string)
    requires Inv(s)
    ensures Inv(AfterSubmit(s, id, runRef))
  {
    var t := AfterSubmit(s, id, runRef);
    if t != s {
      NewJobKeepsOrder(s, t, id, t.jobs[id]);
      NewJobKeepsOneRunning(s, t, id, t.jobs[id]);
      hide InOrder, OneRunning;
    }
  }

  lemma StartKeepsOrder(s: State)
    requires InOrder(s)
    ensures InOrder(AfterStart(s))
  {
    var t := AfterStart(s);
    if t != s {
      QueueMovesUp(s);
      forall x | Has(t, x, Queued) ensures x in t.queue {
        assert Has(s, x, Queued);
        var i :| 0 <= i < |s.queue| && s.queue[i] == x;
        assert t.queue[i - 1] == x;
      }
    }
  }

  lemma QueueMovesUp(s: State)
    requires InOrder(s) && AfterStart(s) != s
    ensures var t := AfterStart(s);
            && s.queue != [] && s.queue[0] in t.jobs && !Has(t, s.queue[0], Queued) && |t.queue| == |s.queue| - 1
            && (forall i | 0 <= i < |t.queue| :: t.queue[i] == s.queue[i + 1] && Has(t, t.queue[i], Queued))
            && (forall i, j | 0 <= i < j < |t.queue| :: t.jobs[t.queue[i]].seqNo < t.jobs[t.queue[j]].seqNo)
  {
    var t, id := AfterStart(s), s.queue[0];
    forall i | 0 <= i < |t.queue|
      ensures t.queue[i] == s.queue[i + 1] && t.queue[i] != id && t.jobs[t.queue[i]] == s.jobs[s.queue[i + 1]]
    {
      assert s.jobs[s.queue[0]].seqNo < s.jobs[s.queue[i + 1]].seqNo;
    }
  }

  lemma StartKeepsInv(s: State)
    requires Inv(s)
    ensures Inv(AfterStart(s))
  {
    hide InOrder, OneRunning, RefsDistinct, AfterStart;
    StartKeepsOrder(s);
    StartKeepsOneRunning(s);
    StartKeepsRefs(s);
  }

  lemma StartKeepsOneRunning(s: State)
    requires InOrder(s) && OneRunning(s)
    ensures OneRunning(AfterStart(s))
  {
    assert s.queue != [] ==> Has(s, s.queue[0], Queued);
    hide InOrder;
  }

  lemma StartKeepsRefs(s: State)
    requires InOrder(s) && RefsDistinct(s)
    ensures RefsDistinct(AfterStart(s))
  {
    assert s.queue != [] ==> Has(s, s.queue[0], Queued);
    hide InOrder;
  }

  lemma EndedJobKeepsOrder(s: State, t: State, id: Id)
    requires InOrder(s) && Has(s, id, Running) && id in t.jobs && !Has(t, id, Queued)
    requires t.jobs == s.jobs[id := t.jobs[id]] && t.jobs[id].seqNo == s.jobs[id].seqNo
    requires t.queue == s.queue && t.next == s.next
    ensures InOrder(t)
  {
    assert forall x | x in s.jobs :: Has(t, x, Queued) <==> Has(s, x, Queued);
    assert forall x | x in s.jobs :: t.jobs[x].seqNo == s.jobs[x].seqNo;
  }

  lemma EndedJobKeepsOneRunning(s: State, t: State, id: Id)
    requires OneRunning(s) && Has(s, id, Running) && Over(t, id) && t.jobs[id].finishedAt.Some?
    requires t.jobs == s.jobs[id := t.jobs[id]] && t.worker == s.worker && t.bodies == s.bodies
    ensures OneRunning(t)
  {
  }

  lemma FinishKeepsInv(s: State, id: Id, status: Status, now: int)
    requires Inv(s) && Terminal(status)
    ensures Inv(Finished(s, id, status, now))
    ensures !Has(Finished(s, id, status, now), id, Running)
  {
    hide InOrder, OneRunning;
    var t := Finished(s, id, status, now);
    if t != s {
      EndedJobKeepsOrder(s, t, id);
      EndedJobKeepsOneRunning(s, t, id);
    }
  }

  lemma TimeOutKeepsInv(s: State, now: int)
    requires Inv(s)
    ensures Inv(Step(s, JoinTimesOut(now)))
  {
    if s.worker.Some? && s.worker.value in s.bodies {
      FinishKeepsInv(s, s.worker.value, Failed, now);
      var t := Finished(s, s.worker.value, Failed, now);
      assert InOrder(t.(worker := None)) && RefsDistinct(t.(worker := None));
    }
  }

  lemma BodyKeepsInv(s: State, e: Event)
    requires Inv(s) && (e.BodyExits? || e.JoinReturns?)
    ensures Inv(Step(s, e))
  {
    var t := Step(s, e);
    assert t.jobs == s.jobs && t.queue == s.queue && t.next == s.next;
    assert InOrder(t) && RefsDistinct(t);
    hide InOrder, RefsDistinct;
  }

  lemma StepKeepsInv(s: State, e: Event)
    requires Inv(s)
    ensures Inv(Step(s, e))
  {
    hide InOrder, OneRunning, RefsDistinct;
    match e
    case Submit(id, runRef) => SubmitKeepsInv(s, id, runRef);
    case Start => StartKeepsInv(s);
    case BodyFinishes(id, ok, now) => FinishKeepsInv(s, id, if ok then Done else Failed, now);
    case JoinTimesOut(now) => TimeOutKeepsInv(s, now);
    case _ => BodyKeepsInv(s, e);
  }

  lemma {:induction false} RunKeepsInv(s: State, es: seq<Event>)
    requires Inv(s)
    ensures Inv(Run(s, es))
    decreases |es|
  {
    if es != [] {
      hide Inv, Step;
      StepKeepsInv(s, es[0]);
      RunKeepsInv(Step(s, es[0]), es[1..]);
    }
  }

  /** In every reachable state at most one job is running, and one reference belongs to one job. */
  lemma EveryReachableStateIsSafe(es: seq<Event>, a: Id, b: Id)
    ensures var s := Run(Empty, es);
            && Inv(s)
            && (Has(s, a, Running) && Has(s, b, Running) ==> a == b)
            && (a in s.jobs && b in s.jobs && s.jobs[a].runRef == s.jobs[b].runRef != "" ==> a == b)
  {
    RunKeepsInv(Empty, es);
  }

  // ----- a finished job -----

  /** A job stays listed under its number and reference, never returns to the queue, and never changes once over. */
  lemma JobOverAStep(s: State, e: Event, id: Id)
    requires InOrder(s) && id in s.jobs
    ensures var t := Step(s, e);
            && id in t.jobs && t.jobs[id].seqNo == s.jobs[id].seqNo && t.jobs[id].runRef == s.jobs[id].runRef
            && (Has(t, id, Queued) ==> Has(s, id, Queued))
            && (Over(s, id) ==> t.jobs[id] == s.jobs[id])
  {
    assert s.queue != [] ==> Has(s, s.queue[0], Queued);
    hide InOrder, KnownRef;
    match e
    case Submit(added, runRef) =>
    case JoinTimesOut(now) =>
    case _ =>
  }

  /** Once over, a job's state and finish time never change, even when its body completes after its time-out. */
  lemma {:induction false} FinishedIsFinal(s: State, es: seq<Event>, id: Id)
    requires Inv(s) && Over(s, id)
    ensures id in Run(s, es).jobs && Run(s, es).jobs[id] == s.jobs[id]
    decreases |es|
  {
    if es != [] {
      StepKeepsInv(s, es[0]);
      JobOverAStep(s, es[0], id);
      hide InOrder, OneRunning, RefsDistinct, Step;
      FinishedIsFinal(Step(s, es[0]), es[1..], id);
    }
  }

  /** The event stamps the job with a terminal state and a finish time. */
  ghost predicate Ends(s: State, e: Event, id: Id) { !Over(s, id) && Over(Step(s, e), id) }

  ghost function EndingsOf(s: State, es: seq<Event>, id: Id): nat
    decreases |es|
  {
    if es == [] then 0 else (if Ends(s, es[0], id) then 1 else 0) + EndingsOf(Step(s, es[0]), es[1..], id)
  }

  function OverCount(s: State, id: Id): nat { if Over(s, id) then 1 else 0 }

  /** In any run, a job that is over at the end and was not at the start is ended exactly once; any other, never. */
  lemma {:induction false} EndedOnce(s: State, es: seq<Event>, id: Id)
    requires Inv(s)
    ensures OverCount(s, id) + EndingsOf(s, es, id) == OverCount(Run(s, es), id)
    decreases |es|
  {
    if es != [] {
      StepKeepsInv(s, es[0]);
      if Over(s, id) {
        JobOverAStep(s, es[0], id);
      }
      hide InOrder, OneRunning, RefsDistinct, Step;
      EndedOnce(Step(s, es[0]), es[1..], id);
    }
  }

  // ----- how a job ends -----

  /** What ends a running job first: its body, or the worker's wait running out while the body is alive. */
  datatype Ending = ByBody(ok: bool, now: int) | ByTimeOut(now: int)

  ghost function EndingBy(s: State, e: Event, id: Id): Option<Ending> {
    if !Has(s, id, Running) || id !in s.bodies then None
    else
      match e
      case BodyFinishes(x, ok, now) => if x == id then Some(ByBody(ok, now)) else None
      case JoinTimesOut(now) => if s.worker == Some(id) then Some(ByTimeOut(now)) else None
      case _ => None
  }

  ghost function FirstEnding(s: State, es: seq<Event>, id: Id): Option<Ending>
    decreases |es|
  {
    if es == [] then None
    else if EndingBy(s, es[0], id).Some? then EndingBy(s, es[0], id)
    else FirstEnding(Step(s, es[0]), es[1..], id)
  }

  /** Done by a body that ended well, failed by one that did not or by the time-out, at the time of that. */
  ghost predicate EndsLike(job: Job, ending: Option<Ending>) {
    match ending
    case None => !Terminal(job.status) && job.finishedAt.None?
    case Some(ByBody(ok, now)) => job.status == (if ok then Done else Failed) && job.finishedAt == Some(now)
    case Some(ByTimeOut(now)) => job.status == Failed && job.finishedAt == Some(now)
  }

  ghost predicate EndsByStep(s: State, e: Event, id: Id) {
    id in Step(s, e).jobs && EndsLike(Step(s, e).jobs[id], EndingBy(s, e, id))
  }

  lemma EndingOfBody(s: State, body: Id, ok: bool, now: int, id: Id)
    requires OneRunning(s) && id in s.jobs && !Over(s, id)
    ensures EndsByStep(s, BodyFinishes(body, ok, now), id)
  {
    assert Has(s, id, Running) ==> id in s.bodies;
    assert s.jobs[id].finishedAt.None?;
    hide OneRunning;
  }

  lemma EndingOfWait(s: State, now: int, id: Id)
    requires OneRunning(s) && id in s.jobs && !Over(s, id)
    ensures EndsByStep(s, JoinTimesOut(now), id)
  {
    assert Has(s, id, Running) ==> s.worker == Some(id) && id in s.bodies;
    assert s.jobs[id].finishedAt.None? && (s.worker == Some(id) ==> !Has(s, id, Queued));
    hide OneRunning;
  }

  lemma EndingOfOther(s: State, e: Event, id: Id)
    requires InOrder(s) && OneRunning(s) && id in s.jobs && !Over(s, id) && !e.BodyFinishes? && !e.JoinTimesOut?
    ensures EndsByStep(s, e, id)
  {
    assert s.queue != [] ==> Has(s, s.queue[0], Queued);
    assert s.jobs[id].finishedAt.None?;
    hide InOrder, OneRunning, KnownRef;
  }

  lemma EndingStep(s: State, e: Event, id: Id)
    requires Inv(s) && id in s.jobs && !Over(s, id)
    ensures EndsByStep(s, e, id)
  {
    hide InOrder, OneRunning, RefsDistinct, EndsByStep;
    match e
    case BodyFinishes(body, ok, now) => EndingOfBody(s, body, ok, now, id);
    case JoinTimesOut(now) => EndingOfWait(s, now, id);
    case _ => EndingOfOther(s, e, id);
  }

  /**
   * How a job ends, over any run: done exactly when the first thing that ended it was its body ending well, failed when
   * it was its body failing or the time-out, and stamped with the time of that; whatever comes later changes nothing.
   */
  lemma {:induction false} JobEndsAs(s: State, es: seq<Event>, id: Id)
    requires Inv(s) && id in s.jobs && !Over(s, id)
    ensures id in Run(s, es).jobs
    ensures es != [] ==> EndsLike(Run(s, es).jobs[id], FirstEnding(s, es, id))
    decreases |es|
  {
    if es != [] {
      EndingStep(s, es[0], id);
      StepKeepsInv(s, es[0]);
      hide Inv, Step, Has;
      var t := Step(s, es[0]);
      if EndingBy(s, es[0], id).Some? {
        FinishedIsFinal(t, es[1..], id);
      } else if es[1..] == [] {
        NothingMoreRuns(t);
      } else {
        JobEndsAs(t, es[1..], id);
      }
    }
  }

  lemma NothingMoreRuns(s: State)
    ensures Run(s, []) == s && forall id :: FirstEnding(s, [], id) == None
  {
  }
}
