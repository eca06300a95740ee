/** No reachable state of the shared GPU is stuck, and without new calls every call comes to its end. */
module GpuProgress {
  import opened Options
  import opened ModelCache
  import opened GpuProtocol
  import MapSum

  /** How many steps a call can still take, the executor's share included. */
  function Rank(p: Phase): nat {
    match p
    case Waiting(_) => 7
    case Holding(_) => 6
    case Submitted(_) => 5
    case Listing => 2
    case Served => 1
    case InClip => 1
  }

  function StageRank(st: Stage): nat {
    match st
    case Idle => 3
    case Started => 2
    case Constructing => 1
    case Drawing => 0
  }

  ghost function Ranks(phases: map<Tid, Phase>): map<Tid, nat> { map t | t in phases :: Rank(phases[t]) }

  ghost function Measure(s: State): nat { MapSum.Total(Ranks(s.phases)) + StageRank(s.stage) }

  lemma RankUpdate(phases: map<Tid, Phase>, t: Tid, p: Phase)
    requires t in phases
    ensures MapSum.Total(Ranks(phases[t := p])) == MapSum.Total(Ranks(phases)) - Rank(phases[t]) + Rank(p)
  {
    assert Ranks(phases[t := p]) == Ranks(phases)[t := Rank(p)];
    MapSum.TotalUpdate(Ranks(phases), t, Rank(p));
  }

  lemma RankRemove(phases: map<Tid, Phase>, t: Tid)
    requires t in phases
    ensures MapSum.Total(Ranks(phases - {t})) == MapSum.Total(Ranks(phases)) - Rank(phases[t])
  {
    assert Ranks(phases - {t}) == Ranks(phases) - {t};
    MapSum.TotalSplit(Ranks(phases), t);
  }

  lemma LockProgress(max: nat, s: State, e: Event)
    requires max >= 1 && Enabled(s, e) && (e.Acquire? || e.TimeOut? || e.Submit? || e.Release?)
    ensures Measure(Step(max, s, e)) < Measure(s)
  {
    match e
    case Acquire(t) => RankUpdate(s.phases, t, Holding(s.phases[t].kind));
    case TimeOut(t) => RankRemove(s.phases, t);
    case Submit(t) => RankUpdate(s.phases, t, Submitted(s.phases[t].kind));
    case Release(t) => RankRemove(s.phases, t);
  }

  /** Every step that is not a new call is progress. */
  lemma StepsMakeProgress(max: nat, s: State, e: Event)
    requires max >= 1 && Inv(max, s) && Enabled(s, e) && !Arrival(e)
    ensures Measure(Step(max, s, e)) < Measure(s)
  {
    hide Refines, InLine, Exclusion, ClipAlone, Touched, Trimmed, Cache;
    if e.Acquire? || e.TimeOut? || e.Submit? || e.Release? {
      LockProgress(max, s, e);
    } else {
      assert Matches(s, s.line[0]);
      var t := s.line[0].owner;
      match e
      case Begin =>
      case Listed => RankRemove(s.phases, t);
      case EvictAll => RankUpdate(s.phases, t, InClip);
      case _ => RankUpdate(s.phases, t, Served);
    }
  }

  /** The step the executor can take next when its line is not empty. */
  function ExecutorStep(s: State): Event
    requires s.line != []
  {
    match s.stage
    case Idle => Begin
    case Started => if s.line[0].Catalogue? then Listed else if s.line[0].kind.Clip? then EvictAll else LookUp(true)
    case Constructing => Constructed(true)
    case Drawing => Drawn
  }

  /**
   * No deadlock: while any thread is in a call, some step other than a new call or a time-out is possible. The
   * thread that takes it is the lock holder, the executor, or, when neither has anything to do, a waiter.
   */
  lemma NoDeadlock(max: nat, s: State) returns (e: Event)
    requires max >= 1 && Inv(max, s) && s.phases != map[]
    ensures Enabled(s, e) && !Arrival(e) && !e.TimeOut?
  {
    hide Refines;
    if s.line != [] {
      e := ExecutorStep(s);
    } else if s.gpu.Some? {
      var t := s.gpu.value;
      assert Holds(s.phases[t]);
      assert s.phases[t].Submitted? ==> InLine(s.line, Work(t, s.phases[t].kind));
      e := if s.phases[t].Holding? then Submit(t) else Release(t);
    } else {
      var t :| t in s.phases;
      assert !Holds(s.phases[t]);
      assert s.phases[t].Listing? ==> InLine(s.line, Catalogue(t));
      e := Acquire(t);
    }
  }

  ghost predicate NoArrivals(es: seq<Event>) { forall e <- es :: !Arrival(e) }

  ghost predicate AllEnabled(max: nat, s: State, es: seq<Event>)
    requires max >= 1
    decreases |es|
  {
    es == [] || (Enabled(s, es[0]) && AllEnabled(max, Step(max, s, es[0]), es[1..]))
  }

  /** Without new calls no run goes on forever: its length is bounded by the measure of where it starts. */
  lemma {:induction false} RunsEnd(max: nat, s: State, es: seq<Event>)
    requires max >= 1 && Inv(max, s) && NoArrivals(es) && AllEnabled(max, s, es)
    ensures |es| + Measure(Run(max, s, es)) <= Measure(s)
    decreases |es|
  {
    if es != [] {
      assert es[0] in es;
      StepsMakeProgress(max, s, es[0]);
      StepKeepsInv(max, s, es[0]);
      RunsEnd(max, Step(max, s, es[0]), es[1..]);
    }
  }

  /** From every reachable state the calls there are can all be served, with nobody timing out. */
  lemma {:induction false} EveryCallCanFinish(max: nat, s: State) returns (es: seq<Event>)
    requires max >= 1 && Inv(max, s)
    ensures NoArrivals(es) && (forall e <- es :: !e.TimeOut?) && Run(max, s, es).phases == map[]
    decreases Measure(s)
  {
    if s.phases == map[] {
      es := [];
    } else {
      var e := NoDeadlock(max, s);
      StepsMakeProgress(max, s, e);
      StepKeepsInv(max, s, e);
      var rest := EveryCallCanFinish(max, Step(max, s, e));
      es := [e] + rest;
      assert es[1..] == rest;
    }
  }

  // ----- first in, first out -----

  /** The task that the event hands to the executor. */
  ghost function JoinsOf(s: State, e: Event): seq<Task> {
    match e
    case Submit(t) => if t in s.phases && s.phases[t].Holding? then [Work(t, s.phases[t].kind)] else []
    case CallCatalogue(t) => if t !in s.phases then [Catalogue(t)] else []
    case _ => []
  }

  /** The task that the event ends. */
  ghost function LeavesOf(max: nat, s: State, e: Event): seq<Task>
    requires max >= 1
  {
    if s.line != [] && |Step(max, s, e).line| < |s.line| then [s.line[0]] else []
  }

  ghost function Joins(max: nat, s: State, es: seq<Event>): seq<Task>
    requires max >= 1
    decreases |es|
  {
    if es == [] then [] else JoinsOf(s, es[0]) + Joins(max, Step(max, s, es[0]), es[1..])
  }

  ghost function Leaves(max: nat, s: State, es: seq<Event>): seq<Task>
    requires max >= 1
    decreases |es|
  {
    if es == [] then [] else LeavesOf(max, s, es[0]) + Leaves(max, Step(max, s, es[0]), es[1..])
  }

  lemma LineOverAStep(max: nat, s: State, e: Event)
    requires max >= 1
    ensures LeavesOf(max, s, e) + Step(max, s, e).line == s.line + JoinsOf(s, e)
  {
  }

  /** The executor ends its tasks in the order in which they were handed to it, over any run. */
  lemma {:induction false} TasksEndInOrder(max: nat, s: State, es: seq<Event>)
    requires max >= 1
    ensures Leaves(max, s, es) + Run(max, s, es).line == s.line + Joins(max, s, es)
    decreases |es|
  {
    hide Step, LeavesOf, JoinsOf;
    if es != [] {
      var t := Step(max, s, es[0]);
      var a, b, x, y := LeavesOf(max, s, es[0]), Leaves(max, t, es[1..]), JoinsOf(s, es[0]), Joins(max, t, es[1..]);
      LineOverAStep(max, s, es[0]);
      TasksEndInOrder(max, t, es[1..]);
      var end := Run(max, s, es).line;
      assert (a + b) + end == a + (b + end);
      assert a + (t.line + y) == (a + t.line) + y;
      assert (s.line + x) + y == s.line + (x + y);
    }
  }
}
