/**
 * The shared GPU: any number of request threads and the video worker, one lock, one executor thread, and the
 * cache of loaded models. As in VideoJobs, a run is a sequence of events and an event that cannot happen changes
 * nothing.
 */
module GpuProtocol {
  import opened Options
  import opened ModelCache

  type Tid = nat

  /** What a thread wants the GPU for: to draw with a model, or to run a clip outside this process. */
  datatype Kind = Draw(model: Name) | Clip

  /**
   * Where a thread is in generate or exclusive_gpu: waiting for the lock, holding it, blocked on the executor,
   * served and about to release, or running its external clip. A listing thread only wants the catalogue, which
   * goes through the executor without the lock.
   */
  datatype Phase = Waiting(kind: Kind) | Holding(kind: Kind) | Submitted(kind: Kind) | Served | InClip | Listing

  datatype Task = Work(owner: Tid, kind: Kind) | Catalogue(owner: Tid)

  /** How far the executor thread is with the task at the head of its line. */
  datatype Stage = Idle | Started | Constructing | Drawing

  /** uses and failed are the history the cache is compared with; the program does not keep them. */
  datatype State = State(
    phases: map<Tid, Phase>, gpu: Option<Tid>, line: seq<Task>, stage: Stage,
    loaded: seq<Name>, uses: seq<Name>, failed: bool)

  datatype Event =
    | Call(t: Tid, kind: Kind)
    | CallCatalogue(t: Tid)
    | Acquire(t: Tid)
    | TimeOut(t: Tid)
    | Submit(t: Tid)
    | Begin
    | LookUp(known: bool)
    | Constructed(ok: bool)
    | Drawn
    | EvictAll
    | Listed
    | Release(t: Tid)

  const Empty: State := State(map[], None, [], Idle, [], [], false)

  /** New calls; everything else is progress on the calls there are. */
  predicate Arrival(e: Event) { e.Call? || e.CallCatalogue? }

  /** The executor is done with its task, for better or worse: its owner can go on. */
  function Finish(s: State, next: Phase): State
    requires s.line != []
  {
    s.(phases := s.phases[s.line[0].owner := next], line := s.line[1..], stage := Idle)
  }

  predicate Enabled(s: State, e: Event) {
    match e
    case Call(t, kind) => t !in s.phases
    case CallCatalogue(t) => t !in s.phases
    case Acquire(t) => t in s.phases && s.phases[t].Waiting? && s.gpu.None?
    case TimeOut(t) => t in s.phases && s.phases[t].Waiting? && s.phases[t].kind.Draw?
    case Submit(t) => t in s.phases && s.phases[t].Holding?
    case Begin => s.stage.Idle? && s.line != []
    case LookUp(_) => s.stage.Started? && s.line != [] && s.line[0].Work? && s.line[0].kind.Draw?
    case Constructed(_) => s.stage.Constructing? && s.line != [] && s.line[0].Work? && s.line[0].kind.Draw?
    case Drawn => s.stage.Drawing? && s.line != []
    case EvictAll => s.stage.Started? && s.line != [] && s.line[0].Work? && s.line[0].kind.Clip?
    case Listed => s.stage.Started? && s.line != [] && s.line[0].Catalogue?
    case Release(t) => t in s.phases && (s.phases[t].Served? || s.phases[t].InClip?)
  }

  function Step(max: nat, s: State, e: Event): State
    requires max >= 1
  {
    if !Enabled(s, e) then s
    else
      match e
      case Call(t, kind) => s.(phases := s.phases[t := Waiting(kind)])
      case CallCatalogue(t) => s.(phases := s.phases[t := Listing], line := s.line + [Catalogue(t)])
      case Acquire(t) => s.(phases := s.phases[t := Holding(s.phases[t].kind)], gpu := Some(t))
      case TimeOut(t) => s.(phases := s.phases - {t})
      case Submit(t) =>
        s.(phases := s.phases[t := Submitted(s.phases[t].kind)], line := s.line + [Work(t, s.phases[t].kind)])
      case Begin => s.(stage := Started)
      case LookUp(known) =>
        var name := s.line[0].kind.model;
        if !known then Finish(s, Served)
        else if name in s.loaded then
          s.(stage := Drawing, loaded := Touched(s.loaded, name), uses := s.uses + [name])
        else s.(stage := Constructing, loaded := Trimmed(s.loaded, max))
      case Constructed(ok) =>
        var name := s.line[0].kind.model;
        if ok then s.(stage := Drawing, loaded := s.loaded + [name], uses := s.uses + [name])
        else Finish(s, Served).(failed := true)
      case Drawn => Finish(s, Served)
      case EvictAll => Finish(s, InClip).(loaded := [], uses := [], failed := false)
      case Listed => s.(phases := s.phases - {s.line[0].owner}, line := s.line[1..], stage := Idle)
      case Release(t) => s.(phases := s.phases - {t}, gpu := None)
  }

  function Run(max: nat, s: State, es: seq<Event>): State
    requires max >= 1
    decreases |es|
  {
    if es == [] then s else Run(max, Step(max, s, es[0]), es[1..])
  }

  // ----- safety -----

  predicate Holds(p: Phase) { p.Holding? || p.Submitted? || p.Served? || p.InClip? }

  /** At most one thread is between taking the lock and giving it back, and it is the one the lock records. */
  ghost predicate Exclusion(s: State) {
    && (forall t <- s.phases :: Holds(s.phases[t]) <==> s.gpu == Some(t))
    && (s.gpu.Some? ==> s.gpu.value in s.phases)
  }

  ghost predicate Matches(s: State, task: Task) {
    && task.owner in s.phases
    && s.phases[task.owner] == if task.Work? then Submitted(task.kind) else Listing
  }

  ghost predicate InLine(line: seq<Task>, task: Task) { exists i :: 0 <= i < |line| && line[i] == task }

  /** Every task belongs to a thread blocked on it, and every blocked thread has its one task in the line. */
  ghost predicate Line(s: State) {
    && (forall i | 0 <= i < |s.line| :: Matches(s, s.line[i]))
    && (forall i, j | 0 <= i < j < |s.line| :: s.line[i].owner != s.line[j].owner)
    && (forall t <- s.phases | s.phases[t].Submitted? :: InLine(s.line, Work(t, s.phases[t].kind)))
    && (forall t <- s.phases | s.phases[t].Listing? :: InLine(s.line, Catalogue(t)))
    && (!s.stage.Idle? ==> s.line != [])
    && (s.stage.Constructing? || s.stage.Drawing? ==> s.line[0].Work? && s.line[0].kind.Draw?)
  }

  /** The cache refines the history of uses; while a model is constructed there is a place left for it. */
  ghost predicate Cache(max: nat, s: State)
    requires s.stage.Constructing? ==> s.line != [] && s.line[0].Work? && s.line[0].kind.Draw?
  {
    if s.stage.Constructing? then
      && s.line[0].kind.model !in s.loaded
      && |s.loaded| <= max - 1
      && Refines(s.loaded, s.uses, true, max)
      && Refines(s.loaded + [s.line[0].kind.model], s.uses + [s.line[0].kind.model], s.failed, max)
    else Refines(s.loaded, s.uses, s.failed, max)
  }

  /** While a clip runs outside the process no model is resident. */
  ghost predicate ClipAlone(s: State) {
    forall t <- s.phases | s.phases[t].InClip? :: s.loaded == [] && !s.stage.Constructing? && !s.stage.Drawing?
  }

  ghost predicate Inv(max: nat, s: State) {
    && Exclusion(s) && Line(s) && Cache(max, s) && ClipAlone(s)
  }

  lemma FinishKeepsLine(s: State, next: Phase)
    requires Exclusion(s) && Line(s) && s.line != [] && s.line[0].Work? && (next.Served? || next.InClip?)
    ensures Exclusion(Finish(s, next)) && Line(Finish(s, next))
  {
    var t := Finish(s, next);
    LineTail(s.line);
    assert Matches(s, s.line[0]);
  }

  lemma LineTail(line: seq<Task>)
    requires line != []
    ensures forall task | InLine(line, task) && task != line[0] :: InLine(line[1..], task)
  {
    forall task | InLine(line, task) && task != line[0] ensures InLine(line[1..], task) {
      var i :| 0 <= i < |line| && line[i] == task;
      assert line[1..][i - 1] == task;
    }
  }

  lemma LineSnoc(line: seq<Task>, task: Task)
    ensures InLine(line + [task], task)
    ensures forall x | InLine(line, x) :: InLine(line + [task], x)
  {
    assert (line + [task])[|line|] == task;
    forall x | InLine(line, x) ensures InLine(line + [task], x) {
      var i :| 0 <= i < |line| && line[i] == x;
      assert (line + [task])[i] == x;
    }
  }

  /** The events of threads that leave the executor's line alone: calls and the lock. */
  lemma LockStepKeepsInv(max: nat, s: State, e: Event)
    requires max >= 1 && Inv(max, s) && Enabled(s, e) && (e.Call? || e.Acquire? || e.TimeOut? || e.Release?)
    ensures Inv(max, Step(max, s, e))
  {
    hide Refines, InLine;
    var u := Step(max, s, e);
    assert forall i | 0 <= i < |s.line| :: Matches(s, s.line[i]) && s.line[i].owner != e.t;
    assert Line(u);
  }

  /** The events of threads that hand work to the executor. */
  lemma EnqueueKeepsInv(max: nat, s: State, e: Event)
    requires max >= 1 && Inv(max, s) && Enabled(s, e) && (e.CallCatalogue? || e.Submit?)
    ensures Inv(max, Step(max, s, e))
  {
    hide Refines, InLine, Matches, Line, Exclusion;
    EnqueueKeepsLine(max, s, e);
    assert s.line != [] ==> (Step(max, s, e).line)[0] == s.line[0];
    if !s.stage.Idle? {
      ActiveHasTask(s);
    }
  }

  lemma ActiveHasTask(s: State)
    requires Line(s) && !s.stage.Idle?
    ensures s.line != []
  {
  }

  lemma EnqueueKeepsLine(max: nat, s: State, e: Event)
    requires max >= 1 && Exclusion(s) && Line(s) && Enabled(s, e) && (e.CallCatalogue? || e.Submit?)
    ensures Exclusion(Step(max, s, e)) && Line(Step(max, s, e))
  {
    var task := if e.Submit? then Work(e.t, s.phases[e.t].kind) else Catalogue(e.t);
    var u := Step(max, s, e);
    LineSnoc(s.line, task);
    assert u.line == s.line + [task];
    hide InLine;
    assert forall i | 0 <= i < |s.line| :: Matches(s, s.line[i]) && s.line[i].owner != e.t;
  }

  /** Work on the GPU is always the lock holder's: nobody's clip can be running meanwhile. */
  lemma WorkIsTheHolders(s: State, i: nat)
    requires Exclusion(s) && Line(s) && i < |s.line| && s.line[i].Work?
    ensures s.gpu == Some(s.line[i].owner)
    ensures forall t <- s.phases :: !s.phases[t].InClip?
  {
    assert Matches(s, s.line[i]);
  }

  lemma LookUpKeepsInv(max: nat, s: State, known: bool)
    requires max >= 1 && Inv(max, s) && Enabled(s, LookUp(known))
    ensures Inv(max, Step(max, s, LookUp(known)))
  {
    WorkIsTheHolders(s, 0);
    var name := s.line[0].kind.model;
    if !known {
      FinishKeepsLine(s, Served);
    } else if name in s.loaded {
      TouchRefines(s.loaded, s.uses, s.failed, max, name);
    } else {
      TrimRefines(s.loaded, s.uses, s.failed, max);
      InsertRefines(s.loaded, s.uses, s.failed, max, name);
      assert name !in Trimmed(s.loaded, max);
    }
  }

  lemma MlxStepKeepsInv(max: nat, s: State, e: Event)
    requires max >= 1 && Inv(max, s) && Enabled(s, e)
    requires e.Begin? || e.Constructed? || e.Drawn? || e.EvictAll?
    ensures Inv(max, Step(max, s, e))
  {
    if !e.Begin? {
      WorkIsTheHolders(s, 0);
      FinishKeepsLine(s, if e.EvictAll? then InClip else Served);
    }
  }

  /** What is left of the line once the catalogue request at its head is answered. */
  lemma ListedKeepsLine(s: State)
    requires Line(s) && Enabled(s, Listed)
    ensures s.line[0].owner in s.phases && s.phases[s.line[0].owner].Listing?
    ensures Line(s.(phases := s.phases - {s.line[0].owner}, line := s.line[1..], stage := Idle))
  {
    var head := s.line[0];
    var u := s.(phases := s.phases - {head.owner}, line := s.line[1..], stage := Idle);
    assert Matches(s, head);
    LineTail(s.line);
    forall i | 0 <= i < |u.line| ensures Matches(u, u.line[i]) {
      assert Matches(s, s.line[i + 1]) && s.line[i + 1].owner != head.owner;
    }
    forall t <- u.phases | u.phases[t].Submitted? ensures InLine(u.line, Work(t, u.phases[t].kind)) {
      assert InLine(s.line, Work(t, s.phases[t].kind));
    }
    forall t <- u.phases | u.phases[t].Listing? ensures InLine(u.line, Catalogue(t)) {
      assert InLine(s.line, Catalogue(t));
    }
  }

  lemma ListedKeepsInv(max: nat, s: State)
    requires max >= 1 && Inv(max, s) && Enabled(s, Listed)
    ensures Inv(max, Step(max, s, Listed))
  {
    ListedKeepsLine(s);
    hide Refines, Line;
  }

  lemma StepKeepsInv(max: nat, s: State, e: Event)
    requires max >= 1 && Inv(max, s)
    ensures Inv(max, Step(max, s, e))
  {
    if Enabled(s, e) {
      match e
      case LookUp(known) => LookUpKeepsInv(max, s, known);
      case Listed => ListedKeepsInv(max, s);
      case Begin => MlxStepKeepsInv(max, s, e);
      case Constructed(_) => MlxStepKeepsInv(max, s, e);
      case Drawn => MlxStepKeepsInv(max, s, e);
      case EvictAll => MlxStepKeepsInv(max, s, e);
      case CallCatalogue(_) => EnqueueKeepsInv(max, s, e);
      case Submit(_) => EnqueueKeepsInv(max, s, e);
      case _ => LockStepKeepsInv(max, s, e);
    }
  }

  lemma {:induction false} RunKeepsInv(max: nat, s: State, es: seq<Event>)
    requires max >= 1 && Inv(max, s)
    ensures Inv(max, Run(max, s, es))
    decreases |es|
  {
    if es != [] {
      StepKeepsInv(max, s, es[0]);
      RunKeepsInv(max, Step(max, s, es[0]), es[1..]);
    }
  }

  /** How many models take memory: the resident ones and the one under construction. */
  function Footprint(s: State): nat { |s.loaded| + (if s.stage.Constructing? then 1 else 0) }

  lemma AllWorkIsTheHolders(s: State, t: Tid)
    requires Exclusion(s) && Line(s) && ClipAlone(s)
    ensures forall i | 0 <= i < |s.line| && s.line[i].Work? :: s.gpu == Some(s.line[i].owner)
    ensures t in s.phases && s.phases[t].InClip? ==>
              Footprint(s) == 0 && !s.stage.Drawing? && forall i | 0 <= i < |s.line| :: s.line[i].Catalogue?
  {
    forall i | 0 <= i < |s.line| && s.line[i].Work?
      ensures s.gpu == Some(s.line[i].owner) && forall t <- s.phases :: !s.phases[t].InClip?
    {
      WorkIsTheHolders(s, i);
    }
  }

  lemma CacheFits(max: nat, s: State)
    requires Inv(max, s)
    ensures Footprint(s) <= max && IsSuffix(s.loaded, Recency(s.uses))
    ensures !s.failed && !s.stage.Constructing? ==> |s.loaded| == max || s.loaded == Recency(s.uses)
  {
    hide Exclusion, ClipAlone, Matches, InLine, Recency;
  }

  /**
   * For any number of threads and any interleaving: one thread has the GPU; every load and draw the executor does
   * is for it; while a clip runs outside, nothing is resident and nothing is being loaded or drawn; the models in
   * memory never exceed the limit; and the cache is a suffix of the names by last use, as long as the limit allows
   * unless a load failed.
   */
  lemma EveryReachableStateIsSafe(max: nat, es: seq<Event>, t: Tid, u: Tid)
    requires max >= 1
    ensures var s := Run(max, Empty, es);
            && (t in s.phases && u in s.phases && Holds(s.phases[t]) && Holds(s.phases[u]) ==> t == u)
            && (forall i | 0 <= i < |s.line| && s.line[i].Work? :: s.gpu == Some(s.line[i].owner))
            && (t in s.phases && s.phases[t].InClip? ==>
                  Footprint(s) == 0 && !s.stage.Drawing? && forall i | 0 <= i < |s.line| :: s.line[i].Catalogue?)
            && Footprint(s) <= max
            && IsSuffix(s.loaded, Recency(s.uses))
            && (!s.failed && !s.stage.Constructing? ==> |s.loaded| == max || s.loaded == Recency(s.uses))
  {
    var s := Run(max, Empty, es);
    assert Inv(max, s) by {
      RunKeepsInv(max, Empty, es);
    }
    assert t in s.phases && u in s.phases && Holds(s.phases[t]) && Holds(s.phases[u]) ==> t == u;
    AllWorkIsTheHolders(s, t);
    CacheFits(max, s);
    hide *;
  }
}
