/**
 * The scan runner: admission, one semaphore, cancellation against a process that may exit, time out or still be
 * talking. It runs on one event loop, so the code between two awaits is one step; each event below is such a step,
 * and an event that cannot happen in the current state changes nothing.
 */
module ScanRunner {
  import opened Options

  type Id = string

  datatype Status = Queued | Running | Completed | Failed | BudgetExceeded | Cancelled

  predicate Terminal(st: Status) { st in {Completed, Failed, BudgetExceeded, Cancelled} }

  /**
   * Where a run's task is: behind the semaphore; starting the process; waiting for it to exit; terminating it after a
   * time-out; reading the rest of its output, with whether it timed out; or over.
   */
  datatype Phase = Waiting | Starting | Scanning | Terminating | Draining(timedOut: bool) | Over

  /** finishes counts the calls that stamped the run terminal; the program does not keep it. */
  datatype Run = Run(phase: Phase, status: Status, finishes: nat)

  datatype Config = Config(maxConcurrent: nat, queueMax: nat)

  datatype State = State(
    waiting: nat, permits: nat, runs: map<Id, Run>, processes: set<Id>, cancelled: set<Id>)

  // ----- what an ended scan is called -----

  /** What is known when the process is gone and its output read. */
  datatype Scan = Scan(exitCode: Option<int>, findings: nat, engaged: bool, floor: int, elapsed: int,
                       fabricated: bool, saysBudget: bool, saysExceeded: bool)

  /** Too fast for the mode, or a report about an invented host. */
  predicate Hollow(scan: Scan) { (scan.floor != 0 && scan.elapsed < scan.floor) || scan.fabricated }

  function Classify(scan: Scan): Status {
    if scan.exitCode in {Some(0), Some(2)} then
      if !scan.engaged && scan.findings == 0 then Failed
      else if Hollow(scan) then Failed
      else Completed
    else if scan.saysBudget && scan.saysExceeded then BudgetExceeded
    else Failed
  }

  // ----- events -----

  datatype Event =
    | Post(id: Id)
    | Enter(id: Id, prepared: bool)
    | Launch(id: Id, launched: bool)
    | Exit(id: Id)
    | TimeOut(id: Id)
    | Terminated(id: Id)
    | Drained(id: Id, scan: Scan)
    | Raise(id: Id)
    | Cancel(id: Id)
    | DrainAll(id: Id)

  function Initial(c: Config): State { State(0, c.maxConcurrent, map[], {}, {}) }

  function Move(s: State, id: Id, phase: Phase): State
    requires id in s.runs
  {
    s.(runs := s.runs[id := s.runs[id].(phase := phase)])
  }

  /** Stamp the run terminal and leave the semaphore: the task's last step. */
  function Finish(s: State, id: Id, status: Status): State
    requires id in s.runs
  {
    s.(runs := s.runs[id := Run(Over, status, s.runs[id].finishes + 1)],
       permits := s.permits + 1, processes := s.processes - {id}, cancelled := s.cancelled - {id})
  }

  predicate In(s: State, id: Id, phase: Phase) { id in s.runs && s.runs[id].phase == phase }

  /** Create the run and submit it; a full queue fails it on the spot. */
  function AfterPost(c: Config, s: State, id: Id): State {
    if id in s.runs then s
    else if s.waiting >= c.queueMax then s.(runs := s.runs[id := Run(Over, Failed, 1)])
    else s.(runs := s.runs[id := Run(Waiting, Queued, 0)], waiting := s.waiting + 1)
  }

  function Clamped(n: int): nat { if n > 0 then n else 0 }

  /** The semaphore lets the task in. */
  function AfterEnter(s: State, id: Id, prepared: bool): State {
    if !In(s, id, Waiting) || s.permits == 0 then s
    else
      var t := s.(permits := s.permits - 1, waiting := Clamped(s.waiting - 1));
      if id in s.cancelled then Finish(t, id, Cancelled)
      else if !prepared then Finish(t, id, Failed)
      else t.(runs := t.runs[id := t.runs[id].(phase := Starting, status := Running)])
  }

  function AfterLaunch(s: State, id: Id, launched: bool): State {
    if !In(s, id, Starting) then s
    else if launched then Move(s, id, Scanning).(processes := s.processes + {id})
    else Finish(s, id, Failed)
  }

  /** The output is read to its end: the cancel flag decides first, then the time-out, then the scan itself. */
  function AfterDrained(s: State, id: Id, scan: Scan): State {
    if id !in s.runs || !s.runs[id].phase.Draining? then s
    else if id in s.cancelled then Finish(s, id, Cancelled)
    else if s.runs[id].phase.timedOut then Finish(s, id, Failed)
    else Finish(s, id, Classify(scan))
  }

  /** Ask a run to stop; False when it had already finished. */
  function CancelOutcome(s: State, id: Id): bool { id in s.runs && !Terminal(s.runs[id].status) }

  function AfterCancel(s: State, id: Id): State {
    if CancelOutcome(s, id) then s.(cancelled := s.cancelled + {id}) else s
  }

  function Step(c: Config, s: State, e: Event): State {
    match e
    case Post(id) => AfterPost(c, s, id)
    case Enter(id, prepared) => AfterEnter(s, id, prepared)
    case Launch(id, launched) => AfterLaunch(s, id, launched)
    case Exit(id) => if In(s, id, Scanning) then Move(s, id, Draining(false)) else s
    case TimeOut(id) => if In(s, id, Scanning) then Move(s, id, Terminating) else s
    case Terminated(id) => if In(s, id, Terminating) then Move(s, id, Draining(true)) else s
    case Drained(id, scan) => AfterDrained(s, id, scan)
    case Raise(id) => if id in s.runs && Executing(s.runs[id]) then Finish(s, id, Failed) else s
    case Cancel(id) => AfterCancel(s, id)
    case DrainAll(id) =>
      // Shutdown marks runs from a list taken earlier, so a marked run may be over by now.
      if id in s.processes || In(s, id, Over) then s.(cancelled := s.cancelled + {id}) else s
  }

  function RunAll(c: Config, s: State, es: seq<Event>): State
    decreases |es|
  {
    if es == [] then s else RunAll(c, Step(c, s, es[0]), es[1..])
  }

  // ----- counting -----

  predicate Executing(r: Run) { !r.phase.Waiting? && !r.phase.Over? }

  function WaitingIds(runs: map<Id, Run>): set<Id> { set id | id in runs && runs[id].phase.Waiting? }

  function ExecutingIds(runs: map<Id, Run>): set<Id> { set id | id in runs && Executing(runs[id]) }

  predicate RunOk(r: Run) {
    && (r.phase.Over? <==> Terminal(r.status))
    && (r.phase.Waiting? <==> r.status == Queued)
    && r.finishes == (if r.phase.Over? then 1 else 0)
  }

  ghost predicate Inv(c: Config, s: State) {
    && s.waiting == |WaitingIds(s.runs)| <= c.queueMax
    && s.permits + |ExecutingIds(s.runs)| == c.maxConcurrent
    && (forall id <- s.runs :: RunOk(s.runs[id]))
    && (forall id :: id in s.processes <==> id in s.runs && Executing(s.runs[id]) && !s.runs[id].phase.Starting?)
  }

  /** One element more or less changes a cardinality by one. */
  lemma ReplaceOne(a: set<Id>, b: set<Id>, id: Id)
    requires a - {id} == b - {id}
    ensures |b| == |a| - (if id in a then 1 else 0) + (if id in b then 1 else 0)
  {
    var others := a - {id};
    assert a == if id in a then others + {id} else others;
    assert b == if id in b then others + {id} else others;
  }

  /** What one changed run does to the two counts. */
  lemma Counts(runs: map<Id, Run>, id: Id, r: Run)
    ensures |WaitingIds(runs[id := r])|
            == |WaitingIds(runs)| - (if id in WaitingIds(runs) then 1 else 0) + (if r.phase.Waiting? then 1 else 0)
    ensures |ExecutingIds(runs[id := r])|
            == |ExecutingIds(runs)| - (if id in ExecutingIds(runs) then 1 else 0) + (if Executing(r) then 1 else 0)
  {
    ReplaceOne(WaitingIds(runs), WaitingIds(runs[id := r]), id);
    ReplaceOne(ExecutingIds(runs), ExecutingIds(runs[id := r]), id);
  }

  lemma FinishKeepsInv(c: Config, s: State, id: Id, status: Status)
    requires Inv(c, s) && id in s.runs && Executing(s.runs[id]) && Terminal(status)
    ensures Inv(c, Finish(s, id, status))
  {
    Counts(s.runs, id, Run(Over, status, s.runs[id].finishes + 1));
    assert id in ExecutingIds(s.runs) && id !in WaitingIds(s.runs);
  }

  lemma PostKeepsInv(c: Config, s: State, id: Id)
    requires Inv(c, s)
    ensures Inv(c, AfterPost(c, s, id))
  {
    if id !in s.runs {
      Counts(s.runs, id, AfterPost(c, s, id).runs[id]);
      assert id !in ExecutingIds(s.runs) && id !in WaitingIds(s.runs);
    }
  }

  lemma EnterKeepsInv(c: Config, s: State, id: Id, prepared: bool)
    requires Inv(c, s)
    ensures Inv(c, AfterEnter(s, id, prepared))
  {
    if In(s, id, Waiting) && s.permits > 0 {
      Counts(s.runs, id, AfterEnter(s, id, prepared).runs[id]);
      assert id !in ExecutingIds(s.runs) && id in WaitingIds(s.runs);
    }
  }

  lemma MoveKeepsCounts(c: Config, s: State, id: Id, phase: Phase)
    requires Inv(c, s) && id in s.runs && Executing(s.runs[id]) && !phase.Waiting? && !phase.Over? && !phase.Starting?
    ensures Inv(c, Move(s, id, phase).(processes := s.processes + {id}))
  {
    Counts(s.runs, id, s.runs[id].(phase := phase));
    assert id in ExecutingIds(s.runs) && id !in WaitingIds(s.runs);
  }

  lemma StepKeepsInv(c: Config, s: State, e: Event)
    requires Inv(c, s)
    ensures Inv(c, Step(c, s, e))
  {
    hide WaitingIds, ExecutingIds, RunOk, Classify;
    match e
    case Post(id) => PostKeepsInv(c, s, id);
    case Enter(id, prepared) => EnterKeepsInv(c, s, id, prepared);
    case Launch(id, launched) =>
      if In(s, id, Starting) {
        MoveKeepsCounts(c, s, id, Scanning);
        FinishKeepsInv(c, s, id, Failed);
      }
    case Exit(id) =>
      if In(s, id, Scanning) {
        MoveKeepsCounts(c, s, id, Draining(false));
        assert s.processes + {id} == s.processes;
      }
    case TimeOut(id) =>
      if In(s, id, Scanning) {
        MoveKeepsCounts(c, s, id, Terminating);
        assert s.processes + {id} == s.processes;
      }
    case Terminated(id) =>
      if In(s, id, Terminating) {
        MoveKeepsCounts(c, s, id, Draining(true));
        assert s.processes + {id} == s.processes;
      }
    case Drained(id, scan) =>
      if id in s.runs && s.runs[id].phase.Draining? {
        ClassifiedIsTerminal(scan);
        FinishKeepsInv(c, s, id, Cancelled);
        FinishKeepsInv(c, s, id, Failed);
        FinishKeepsInv(c, s, id, Classify(scan));
      }
    case Raise(id) =>
      if id in s.runs && Executing(s.runs[id]) {
        FinishKeepsInv(c, s, id, Failed);
      }
    case Cancel(id) =>
    case DrainAll(id) =>
  }

  lemma ClassifiedIsTerminal(scan: Scan)
    ensures Terminal(Classify(scan)) && Classify(scan) != Cancelled
  {
  }

  lemma {:induction false} RunKeepsInv(c: Config, s: State, es: seq<Event>)
    requires Inv(c, s)
    ensures Inv(c, RunAll(c, s, es))
    decreases |es|
  {
    if es != [] {
      StepKeepsInv(c, s, es[0]);
      RunKeepsInv(c, Step(c, s, es[0]), es[1..]);
    }
  }

  /**
   * In every reachable state: the admission counter is the number of tasks that have not entered the semaphore and
   * never exceeds the queue limit; runs being executed never exceed the concurrency limit; admitted unfinished runs
   * never exceed the sum; and every run has been finished exactly once if it is over and not at all before.
   */
  lemma EveryReachableStateIsSafe(c: Config, es: seq<Event>)
    ensures var s := RunAll(c, Initial(c), es);
            && s.waiting == |WaitingIds(s.runs)| <= c.queueMax
            && |ExecutingIds(s.runs)| <= c.maxConcurrent
            && |WaitingIds(s.runs) + ExecutingIds(s.runs)| <= c.queueMax + c.maxConcurrent
            && (forall id <- s.runs :: s.runs[id].finishes == if Terminal(s.runs[id].status) then 1 else 0)
  {
    assert WaitingIds(map[]) == {} && ExecutingIds(map[]) == {};
    RunKeepsInv(c, Initial(c), es);
    var s := RunAll(c, Initial(c), es);
    UnionCardinality(WaitingIds(s.runs), ExecutingIds(s.runs));
  }

  lemma UnionCardinality(a: set<Id>, b: set<Id>)
    ensures |a + b| <= |a| + |b|
  {
    assert a + b == a + (b - a);
    assert b == (b - a) + (b * a);
  }

  /** The clamp at zero never acts: a task that enters was counted. */
  lemma ClampNeverActs(c: Config, s: State, id: Id)
    requires Inv(c, s) && In(s, id, Waiting)
    ensures s.waiting >= 1 && Clamped(s.waiting - 1) == s.waiting - 1
  {
    assert id in WaitingIds(s.runs);
  }

  // ----- cancellation -----

  /** Asked to stop and not over yet. */
  ghost predicate Stopping(s: State, id: Id) { id in s.cancelled && id in s.runs && !s.runs[id].phase.Over? }

  /** What a run may be once it was asked to stop: still stopping, or over and not as a finished scan. */
  ghost predicate StopHonoured(s: State, id: Id) {
    id in s.runs && (Stopping(s, id) || s.runs[id].status in {Cancelled, Failed})
  }

  lemma OverStaysOver(c: Config, s: State, e: Event, id: Id)
    requires Inv(c, s) && id in s.runs && s.runs[id].phase.Over?
    ensures id in Step(c, s, e).runs && Step(c, s, e).runs[id] == s.runs[id]
  {
  }

  lemma StopStep(c: Config, s: State, e: Event, id: Id)
    requires Inv(c, s) && StopHonoured(s, id)
    ensures StopHonoured(Step(c, s, e), id)
  {
    if s.runs[id].phase.Over? {
      OverStaysOver(c, s, e, id);
    }
  }

  lemma {:induction false} StopRun(c: Config, s: State, es: seq<Event>, id: Id)
    requires Inv(c, s) && StopHonoured(s, id)
    ensures StopHonoured(RunAll(c, s, es), id)
    decreases |es|
  {
    if es != [] {
      StopStep(c, s, es[0], id);
      StepKeepsInv(c, s, es[0]);
      StopRun(c, Step(c, s, es[0]), es[1..], id);
    }
  }

  /**
   * Once a run that is not over has been asked to stop, on every interleaving with queueing, start-up, exit, time-out,
   * draining and shutdown, it never ends completed or at its budget: it ends cancelled, or failed.
   */
  lemma CancelledRunNeverCompletes(c: Config, before: seq<Event>, id: Id, after: seq<Event>)
    requires id in RunAll(c, Initial(c), before).runs && !Terminal(RunAll(c, Initial(c), before).runs[id].status)
    ensures var s := RunAll(c, Step(c, RunAll(c, Initial(c), before), Cancel(id)), after);
            && id in s.runs && s.runs[id].status !in {Completed, BudgetExceeded}
            && (Terminal(s.runs[id].status) ==> s.runs[id].status in {Cancelled, Failed})
            && (!Terminal(s.runs[id].status) ==> id in s.cancelled)
  {
    assert WaitingIds(map[]) == {} && ExecutingIds(map[]) == {};
    RunKeepsInv(c, Initial(c), before);
    var s := RunAll(c, Initial(c), before);
    StepKeepsInv(c, s, Cancel(id));
    StopRun(c, Step(c, s, Cancel(id)), after, id);
    RunKeepsInv(c, Step(c, s, Cancel(id)), after);
  }

  /** It ends failed only when something broke: preparing or launching the scan, or the task itself. */
  lemma CancelledRunFailsOnlyWhenBroken(c: Config, s: State, e: Event, id: Id)
    requires Inv(c, s) && Stopping(s, id)
    ensures var t := Step(c, s, e);
            && id in t.runs
            && (t.runs[id].status == Failed
                <==> (e == Launch(id, false) && s.runs[id].phase.Starting?) || (e == Raise(id) && Executing(s.runs[id])))
  {
  }

  /** A run nobody cancelled is reported cancelled in no reachable state. */
  ghost predicate NobodyCancels(es: seq<Event>, id: Id) {
    forall e <- es :: e != Cancel(id) && e != DrainAll(id)
  }

  lemma UncancelledStep(c: Config, s: State, e: Event, id: Id)
    requires e != Cancel(id) && e != DrainAll(id)
    requires id !in s.cancelled && (id in s.runs ==> s.runs[id].status != Cancelled)
    ensures var t := Step(c, s, e); id !in t.cancelled && (id in t.runs ==> t.runs[id].status != Cancelled)
  {
    if e.Drained? {
      ClassifiedIsTerminal(e.scan);
      hide Classify;
    }
  }

  lemma {:induction false} UncancelledRun(c: Config, s: State, es: seq<Event>, id: Id)
    requires Inv(c, s) && NobodyCancels(es, id)
    requires id !in s.cancelled && (id in s.runs ==> s.runs[id].status != Cancelled)
    ensures var t := RunAll(c, s, es); id !in t.cancelled && (id in t.runs ==> t.runs[id].status != Cancelled)
    decreases |es|
  {
    if es != [] {
      assert es[0] in es && forall e <- es[1..] :: e in es;
      UncancelledStep(c, s, es[0], id);
      StepKeepsInv(c, s, es[0]);
      hide Inv, Step;
      UncancelledRun(c, Step(c, s, es[0]), es[1..], id);
    }
  }
}
