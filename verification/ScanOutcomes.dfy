/**
 * What the history of one scan run says about it: whether it is let in, when it starts, and how it ends. The laws are
 * about the events of the run and what was seen of the scan, not about the functions that decide.
 */
module ScanOutcomes {
  import opened Options
  import opened ScanRunner

  // ----- how an uncancelled run ends -----

  /** How the scan process stopped, true after a time-out; and what was seen once its output was read. */
  datatype Trace = Trace(timedOut: Option<bool>, seen: Option<Scan>)

  function Noted(s: State, tr: Trace, e: Event, id: Id): Trace {
    match e
    case Exit(x) => if x == id && In(s, id, Scanning) then tr.(timedOut := Some(false)) else tr
    case TimeOut(x) => if x == id && In(s, id, Scanning) then tr.(timedOut := Some(true)) else tr
    case Drained(x, scan) =>
      if x == id && id in s.runs && s.runs[id].phase.Draining? then tr.(seen := Some(scan)) else tr
    case _ => tr
  }

  /** What the events tell about the run. */
  ghost function TraceOf(c: Config, s: State, tr: Trace, es: seq<Event>, id: Id): Trace
    decreases |es|
  {
    if es == [] then tr else TraceOf(c, Step(c, s, es[0]), Noted(s, tr, es[0], id), es[1..], id)
  }

  /** The process exited with code 0 or 2 after a scan that was carried out. */
  ghost predicate ScannedWell(tr: Trace) {
    && tr.timedOut == Some(false) && tr.seen.Some?
    && var scan := tr.seen.value;
       && (scan.exitCode == Some(0) || scan.exitCode == Some(2))
       && (scan.engaged || scan.findings > 0)
       && (scan.floor == 0 || scan.elapsed >= scan.floor) && !scan.fabricated
  }

  /** The process exited with any other code, and its output has both words. */
  ghost predicate StoppedAtBudget(tr: Trace) {
    && tr.timedOut == Some(false) && tr.seen.Some?
    && var scan := tr.seen.value;
       scan.exitCode != Some(0) && scan.exitCode != Some(2) && scan.saysBudget && scan.saysExceeded
  }

  ghost predicate EndsLike(tr: Trace, status: Status) {
    status == if ScannedWell(tr) then Completed else if StoppedAtBudget(tr) then BudgetExceeded else Failed
  }

  /** Where the run is and what its events have told so far. */
  ghost predicate Traced(s: State, tr: Trace, id: Id) {
    && id !in s.cancelled
    && (id !in s.runs ==> tr == Trace(None, None))
    && (id in s.runs ==>
          && (s.runs[id].phase.Over? <==> Terminal(s.runs[id].status))
          && (s.runs[id].phase in {Waiting, Starting, Scanning} ==> tr == Trace(None, None))
          && (s.runs[id].phase.Terminating? ==> tr == Trace(Some(true), None))
          && (s.runs[id].phase.Draining? ==> tr == Trace(Some(s.runs[id].phase.timedOut), None))
          && (s.runs[id].phase.Over? ==> EndsLike(tr, s.runs[id].status)))
  }

  lemma TraceStep(c: Config, s: State, tr: Trace, e: Event, id: Id)
    requires Traced(s, tr, id) && e != Cancel(id) && e != DrainAll(id)
    ensures Traced(Step(c, s, e), Noted(s, tr, e, id), id)
  {
  }

  lemma {:induction false} TraceIsKept(c: Config, s: State, tr: Trace, es: seq<Event>, id: Id)
    requires Traced(s, tr, id) && NobodyCancels(es, id)
    ensures Traced(RunAll(c, s, es), TraceOf(c, s, tr, es, id), id)
    decreases |es|
  {
    hide Traced, Step, Noted;
    if es != [] {
      assert es[0] in es && forall e <- es[1..] :: e in es;
      TraceStep(c, s, tr, es[0], id);
      TraceIsKept(c, Step(c, s, es[0]), Noted(s, tr, es[0], id), es[1..], id);
    }
  }

  /**
   * How a run that nobody cancels ends, on any interleaving: completed exactly when its process exited with code 0 or 2
   * after reaching the target or finding something, neither too fast nor about an invented host; at its budget exactly
   * when the process exited with any other code and its output says both words; failed in every other case, a time-out
   * and a full queue included.
   */
  lemma UncancelledRunEndsAs(c: Config, es: seq<Event>, id: Id)
    requires NobodyCancels(es, id)
    requires id in RunAll(c, Initial(c), es).runs && Terminal(RunAll(c, Initial(c), es).runs[id].status)
    ensures var status, tr := RunAll(c, Initial(c), es).runs[id].status, TraceOf(c, Initial(c), Trace(None, None), es, id);
            && (status == Completed <==> ScannedWell(tr))
            && (status == BudgetExceeded <==> StoppedAtBudget(tr))
            && (status == Failed <==> !ScannedWell(tr) && !StoppedAtBudget(tr))
  {
    TraceIsKept(c, Initial(c), Trace(None, None), es, id);
  }

  // ----- admission -----

  /** How many runs the event admits to the queue. */
  ghost function Admits(c: Config, s: State, e: Event): nat {
    if e.Post? && e.id !in s.runs && In(Step(c, s, e), e.id, Waiting) then 1 else 0
  }

  /** How many runs the event takes out of the queue. */
  ghost function Enters(c: Config, s: State, e: Event): nat {
    if e.Enter? && In(s, e.id, Waiting) && !In(Step(c, s, e), e.id, Waiting) then 1 else 0
  }

  /** How many runs that are being executed the event ends, one that it lets in and ends at once included. */
  ghost function Leaves(c: Config, s: State, e: Event): nat {
    if !e.Post? && e.id in s.runs && !s.runs[e.id].phase.Over? && In(Step(c, s, e), e.id, Over) then 1 else 0
  }

  ghost function AdmittedBy(c: Config, s: State, es: seq<Event>): nat
    decreases |es|
  {
    if es == [] then 0 else Admits(c, s, es[0]) + AdmittedBy(c, Step(c, s, es[0]), es[1..])
  }

  ghost function EnteredBy(c: Config, s: State, es: seq<Event>): nat
    decreases |es|
  {
    if es == [] then 0 else Enters(c, s, es[0]) + EnteredBy(c, Step(c, s, es[0]), es[1..])
  }

  ghost function LeftBy(c: Config, s: State, es: seq<Event>): nat
    decreases |es|
  {
    if es == [] then 0 else Leaves(c, s, es[0]) + LeftBy(c, Step(c, s, es[0]), es[1..])
  }

  lemma CountStep(c: Config, s: State, e: Event)
    requires Inv(c, s)
    ensures var t := Step(c, s, e);
            && t.waiting + Enters(c, s, e) == s.waiting + Admits(c, s, e)
            && t.permits + Enters(c, s, e) == s.permits + Leaves(c, s, e)
  {
    if e.Enter? && In(s, e.id, Waiting) {
      ClampNeverActs(c, s, e.id);
    }
  }

  /** Both counters are what the history says: admitted and not entered, and entered and not left. */
  lemma {:induction false} CountersAreTheHistory(c: Config, s: State, es: seq<Event>)
    requires Inv(c, s)
    ensures var t := RunAll(c, s, es);
            && t.waiting + EnteredBy(c, s, es) == s.waiting + AdmittedBy(c, s, es)
            && t.permits + EnteredBy(c, s, es) == s.permits + LeftBy(c, s, es)
    decreases |es|
  {
    hide Inv, Step, Admits, Enters, Leaves;
    if es != [] {
      CountStep(c, s, es[0]);
      StepKeepsInv(c, s, es[0]);
      CountersAreTheHistory(c, Step(c, s, es[0]), es[1..]);
    }
  }

  lemma InitialIsIdle(c: Config)
    ensures Inv(c, Initial(c))
  {
    assert WaitingIds(map[]) == {} && ExecutingIds(map[]) == {};
  }

  /**
   * A new run is admitted exactly when fewer runs than the queue holds have been admitted and not let in yet, by the
   * history; otherwise it is failed on the spot.
   */
  lemma PostIsAdmittedIff(c: Config, es: seq<Event>, id: Id)
    requires id !in RunAll(c, Initial(c), es).runs
    ensures var t := Step(c, RunAll(c, Initial(c), es), Post(id));
            && id in t.runs
            && (t.runs[id].status == Queued
                <==> AdmittedBy(c, Initial(c), es) - EnteredBy(c, Initial(c), es) < c.queueMax)
            && (t.runs[id].status == Queued || t.runs[id].status == Failed)
  {
    InitialIsIdle(c);
    CountersAreTheHistory(c, Initial(c), es);
    hide RunAll, AdmittedBy, EnteredBy, LeftBy;
  }

  /**
   * A waiting run is let in exactly when fewer runs than may be executed at once have been let in and not ended yet, by
   * the history. Let in, it ends cancelled if it was asked to stop while it waited, failed if it cannot be prepared, and
   * otherwise starts.
   */
  lemma WaitingRunIsLetInIff(c: Config, es: seq<Event>, id: Id, prepared: bool)
    requires In(RunAll(c, Initial(c), es), id, Waiting)
    ensures var s := RunAll(c, Initial(c), es);
            var t := Step(c, s, Enter(id, prepared));
            && id in t.runs
            && (t.runs[id].phase.Waiting?
                <==> EnteredBy(c, Initial(c), es) - LeftBy(c, Initial(c), es) >= c.maxConcurrent)
            && (!t.runs[id].phase.Waiting? ==>
                  t.runs[id].status == if id in s.cancelled then Cancelled else if !prepared then Failed else Running)
  {
    InitialIsIdle(c);
    CountersAreTheHistory(c, Initial(c), es);
    hide RunAll, AdmittedBy, EnteredBy, LeftBy;
  }
}
