/** A render as part of a run of the service: the flag that its steps read is the job's, and cancels raise it. */
module RenderRuns {
  import opened Options
  import opened VideoJobs
  import R = RenderPipeline

  /** What can happen while the worker renders: any section but its own taking and ending of jobs, and no crash. */
  predicate Meanwhile(e: Event) { !e.Crash? && !e.Pickup? && !e.EndOfRender? }

  ghost predicate AllMeanwhile(es: seq<Event>) { forall e <- es :: Meanwhile(e) }

  ghost predicate Rendering(s: State, id: Id) {
    && Up(s) && s.worker == Some(id) && id in s.jobs && s.jobs[id].status == Running
    && forall x <- s.jobs :: s.jobs[x].id == x
  }

  predicate Flag(s: State, id: Id) { id in s.jobs && s.jobs[id].cancelRequested }

  predicate Cancels(e: Event, id: Id) { e.Cancel? && e.id == id }

  ghost predicate SomeCancel(es: seq<Event>, id: Id) { exists e <- es :: Cancels(e, id) }

  /** What happens before a step reads the flag, and from then until its tool has ended. */
  datatype Slice = Slice(before: seq<Event>, during: seq<Event>)

  function EventsOf(slices: seq<Slice>): seq<Event> {
    if slices == [] then [] else slices[0].before + slices[0].during + EventsOf(slices[1..])
  }

  /** The steps read the job's own flag, each where its slice says. */
  ghost predicate Observes(c: Config, s: State, id: Id, slices: seq<Slice>, steps: seq<R.Step>)
    decreases |slices|
  {
    && |slices| == |steps|
    && (slices == [] ||
          var u := Run(c, s, slices[0].before);
          var v := Run(c, u, slices[0].during);
          && steps[0].flagBefore == Flag(u, id) && steps[0].flagAfter == Flag(v, id)
          && Observes(c, v, id, slices[1..], steps[1..]))
  }

  // ----- the flag over a run -----

  lemma MeanwhileStep(c: Config, s: State, e: Event, id: Id)
    requires Rendering(s, id) && Meanwhile(e)
    ensures Rendering(Step(c, s, e), id) && (Flag(Step(c, s, e), id) <==> Flag(s, id) || Cancels(e, id))
  {
  }

  lemma {:induction false} MeanwhileRun(c: Config, s: State, es: seq<Event>, id: Id)
    requires Rendering(s, id) && AllMeanwhile(es)
    ensures Rendering(Run(c, s, es), id) && (Flag(Run(c, s, es), id) <==> Flag(s, id) || SomeCancel(es, id))
    decreases |es|
  {
    hide Rendering, Flag, Cancels, Step;
    if es != [] {
      assert es == [es[0]] + es[1..];
      MeanwhileStep(c, s, es[0], id);
      MeanwhileRun(c, Step(c, s, es[0]), es[1..], id);
    }
  }

  lemma {:induction false} RunInTwo(c: Config, s: State, a: seq<Event>, b: seq<Event>)
    ensures Run(c, s, a + b) == Run(c, Run(c, s, a), b)
    decreases |a|
  {
    hide Step;
    if a == [] {
      assert a + b == b;
    } else {
      assert (a + b)[0] == a[0] && (a + b)[1..] == a[1..] + b;
      RunInTwo(c, Step(c, s, a[0]), a[1..], b);
    }
  }

  lemma CancelIn(a: seq<Event>, b: seq<Event>, id: Id)
    ensures SomeCancel(a + b, id) <==> SomeCancel(a, id) || SomeCancel(b, id)
    ensures AllMeanwhile(a + b) <==> AllMeanwhile(a) && AllMeanwhile(b)
  {
    hide Cancels, Meanwhile;
    assert forall e :: e in a + b <==> e in a || e in b;
  }

  /** The first slice and the rest. */
  lemma FirstSlice(c: Config, s: State, id: Id, slices: seq<Slice>)
    requires slices != [] && Rendering(s, id) && AllMeanwhile(EventsOf(slices))
    ensures var u := Run(c, s, slices[0].before);
            var v := Run(c, u, slices[0].during);
            && Rendering(v, id) && AllMeanwhile(EventsOf(slices[1..]))
            && (Flag(s, id) ==> Flag(u, id)) && (Flag(u, id) ==> Flag(v, id))
            && Run(c, s, EventsOf(slices)) == Run(c, v, EventsOf(slices[1..]))
  {
    var a, b, more := slices[0].before, slices[0].during, EventsOf(slices[1..]);
    hide Rendering, Flag, AllMeanwhile, SomeCancel, Run;
    CancelIn(a + b, more, id);
    CancelIn(a, b, id);
    MeanwhileRun(c, s, a, id);
    MeanwhileRun(c, Run(c, s, a), b, id);
    RunInTwo(c, s, a + b, more);
    RunInTwo(c, s, a, b);
  }

  /** So the flag that a render reads only rises, and is up afterwards if it ever was. */
  lemma {:induction false} ReadFlagsRise(c: Config, s: State, id: Id, slices: seq<Slice>, steps: seq<R.Step>)
    requires Rendering(s, id) && AllMeanwhile(EventsOf(slices)) && Observes(c, s, id, slices, steps)
    ensures R.FlagOnlyRises(steps)
    ensures Flag(s, id) ==> forall i | 0 <= i < |steps| :: steps[i].flagBefore
    ensures forall i | 0 <= i < |steps| :: steps[i].flagBefore || steps[i].flagAfter ==> Flag(Run(c, s, EventsOf(slices)), id)
    decreases |slices|
  {
    hide Rendering, Flag, AllMeanwhile, EventsOf, Run, R.FlagOnlyRises;
    if slices != [] {
      FirstSlice(c, s, id, slices);
      var v := Run(c, Run(c, s, slices[0].before), slices[0].during);
      var rest := steps[1..];
      ReadFlagsRise(c, v, id, slices[1..], rest);
      FlagStaysUp(c, v, id, EventsOf(slices[1..]));
      assert steps == [steps[0]] + rest;
      RisesFromFirst(steps[0], rest);
    } else {
      RisesNowhere();
    }
  }

  lemma FlagStaysUp(c: Config, s: State, id: Id, es: seq<Event>)
    requires Rendering(s, id) && AllMeanwhile(es)
    ensures Flag(s, id) ==> Flag(Run(c, s, es), id)
  {
    MeanwhileRun(c, s, es, id);
    hide Rendering, Flag, Run, SomeCancel;
  }

  lemma RisesNowhere()
    ensures R.FlagOnlyRises([])
  {
  }

  lemma RisesFromFirst(first: R.Step, rest: seq<R.Step>)
    requires R.FlagOnlyRises(rest) && (first.flagBefore ==> first.flagAfter)
    requires first.flagAfter ==> forall i | 0 <= i < |rest| :: rest[i].flagBefore
    ensures R.FlagOnlyRises([first] + rest)
  {
    var steps := [first] + rest;
    assert forall i | 0 < i < |steps| :: steps[i] == rest[i - 1];
  }

  // ----- how the render ends -----

  /** How many steps of the plan were begun. */
  function Begun(plan: seq<R.Step>, done: nat): nat { if done < |plan| then done + 1 else |plan| }

  /**
   * The worker renders the plan: each step it begins reads the job's flag as the run has it. What the flag would have
   * been for steps never begun does not matter.
   */
  ghost predicate IsRender(
    c: Config, s: State, id: Id, slices: seq<Slice>, plan: seq<R.Step>, end: R.End, done: nat)
  {
    && Rendering(s, id) && AllMeanwhile(EventsOf(slices)) && R.EndsWith(plan, end, done)
    && Observes(c, s, id, slices, plan[..Begun(plan, done)])
  }

  /** Asked to stop before a render or during it. */
  ghost predicate Asked(s: State, id: Id, slices: seq<Slice>) { Flag(s, id) || SomeCancel(EventsOf(slices), id) }

  /** The job after the worker has recorded how its render ended. */
  function AfterRender(c: Config, s: State, slices: seq<Slice>, end: R.End, now: int, error: string): State {
    AfterEndOfRender(Run(c, s, EventsOf(slices)), end == R.Finished, now, error)
  }

  ghost predicate EndsAs(c: Config, s: State, id: Id, slices: seq<Slice>, end: R.End, status: Status) {
    forall now, error ::
      var t := AfterRender(c, s, slices, end, now, error);
      id in t.jobs && t.worker == None && id in t.disk && t.disk[id] == t.jobs[id] && t.jobs[id].status == status
  }

  /**
   * How a render ends its job, whatever else the service does meanwhile: done when it finishes; otherwise cancelled
   * exactly when a cancel of the job came before or during it, and failed when none did. It never stops for a cancel
   * that nobody asked for.
   */
  lemma RenderEndsTheJob(c: Config, s: State, id: Id, slices: seq<Slice>, plan: seq<R.Step>, end: R.End, done: nat)
    requires IsRender(c, s, id, slices, plan, end, done)
    ensures EndsAs(c, s, id, slices, end,
                   if end == R.Finished then Done else if Asked(s, id, slices) then Cancelled else Failed)
    ensures end == R.Stopped ==> Asked(s, id, slices)
  {
    hide Observes, Run, EventsOf, AllMeanwhile, SomeCancel;
    MeanwhileRun(c, s, EventsOf(slices), id);
    ReadFlagsRise(c, s, id, slices, plan[..Begun(plan, done)]);
    if end == R.Stopped {
      assert plan[..Begun(plan, done)][done] == plan[done];
      assert R.NoticesCancel(plan[done]);
    }
    hide R.EndsWith, R.FlagOnlyRises;
  }

  lemma {:induction false} CancelInSlice(slices: seq<Slice>, k: nat, id: Id)
    requires k < |slices| && SomeCancel(slices[k].before + slices[k].during, id)
    ensures SomeCancel(EventsOf(slices), id)
    decreases k
  {
    hide SomeCancel;
    CancelIn(slices[0].before + slices[0].during, EventsOf(slices[1..]), id);
    if k > 0 {
      CancelInSlice(slices[1..], k - 1, id);
    }
  }

  lemma {:induction false} CancelIsRead(
    c: Config, s: State, id: Id, slices: seq<Slice>, steps: seq<R.Step>, k: nat)
    requires Rendering(s, id) && AllMeanwhile(EventsOf(slices)) && Observes(c, s, id, slices, steps)
    requires k < |slices| && SomeCancel(slices[k].before + slices[k].during, id)
    ensures steps[k].flagAfter
    decreases k
  {
    FirstSlice(c, s, id, slices);
    var u := Run(c, s, slices[0].before);
    if k > 0 {
      hide Rendering, Flag, SomeCancel, AllMeanwhile, EventsOf, Run;
      CancelIsRead(c, Run(c, u, slices[0].during), id, slices[1..], steps[1..], k - 1);
    } else {
      hide Rendering, Flag, SomeCancel, AllMeanwhile, EventsOf, Run;
      CancelIn(slices[0].before, slices[0].during, id);
      CancelIn(slices[0].before + slices[0].during, EventsOf(slices[1..]), id);
      MeanwhileRun(c, s, slices[0].before, id);
      MeanwhileRun(c, u, slices[0].during, id);
    }
  }

  lemma ObservesAsMany(c: Config, s: State, id: Id, slices: seq<Slice>, steps: seq<R.Step>)
    requires Observes(c, s, id, slices, steps)
    ensures |slices| == |steps|
  {
  }

  /** What a begun step of the render reads. */
  lemma BegunStep(c: Config, s: State, id: Id, slices: seq<Slice>, plan: seq<R.Step>, end: R.End, done: nat, k: nat)
    requires IsRender(c, s, id, slices, plan, end, done) && k < |slices|
    ensures |slices| == Begun(plan, done) && k <= done && k < |plan|
    ensures SomeCancel(slices[k].before + slices[k].during, id) ==> plan[k].flagAfter
    ensures plan[k].flagBefore || plan[k].flagAfter ==> Asked(s, id, slices)
  {
    hide Observes, Run, EventsOf, AllMeanwhile, SomeCancel, Rendering, Flag, R.EndsWith, R.FlagOnlyRises;
    var steps := plan[..Begun(plan, done)];
    ObservesAsMany(c, s, id, slices, steps);
    assert steps[k] == plan[k];
    ReadFlagsRise(c, s, id, slices, steps);
    MeanwhileRun(c, s, EventsOf(slices), id);
    if SomeCancel(slices[k].before + slices[k].during, id) {
      CancelIsRead(c, s, id, slices, steps, k);
    }
  }

  lemma LaterStepReads(
    c: Config, s: State, id: Id, slices: seq<Slice>, plan: seq<R.Step>, end: R.End, done: nat, k: nat, m: nat)
    requires IsRender(c, s, id, slices, plan, end, done) && k < m < |slices|
    requires plan[k].flagAfter
    ensures m < |plan| && plan[m].flagBefore
  {
    hide Observes, Run, EventsOf, AllMeanwhile, Rendering, Flag, R.EndsWith;
    BegunStep(c, s, id, slices, plan, end, done, m);
    var steps := plan[..Begun(plan, done)];
    ReadFlagsRise(c, s, id, slices, steps);
    assert steps[k] == plan[k] && steps[m] == plan[m];
  }

  /**
   * A cancel that comes before or during a step, with a step that reports still to come, always takes: the render ends
   * no later than there and the job ends cancelled, whether the render notices or a tool breaks it first.
   */
  lemma CancelledRenderEndsCancelled(
    c: Config, s: State, id: Id, slices: seq<Slice>, plan: seq<R.Step>, end: R.End, done: nat, k: nat, m: nat)
    requires IsRender(c, s, id, slices, plan, end, done)
    requires k < |slices| && SomeCancel(slices[k].before + slices[k].during, id)
    requires k < m < |plan| && R.Reports(plan[m].stage)
    ensures done <= m && EndsAs(c, s, id, slices, end, Cancelled)
  {
    hide Observes, Run, EventsOf, AllMeanwhile, SomeCancel, Rendering, Flag, EndsAs;
    BegunStep(c, s, id, slices, plan, end, done, k);
    CancelInSlice(slices, k, id);
    RenderEndsTheJob(c, s, id, slices, plan, end, done);
    if m < |slices| {
      LaterStepReads(c, s, id, slices, plan, end, done, k, m);
      assert R.Ends(plan[m]);
    }
  }

  /**
   * A cancel that kills the motion tool never turns into a still: it stops the render at that very step, and the job
   * ends cancelled.
   */
  lemma KilledMotionCancels(
    c: Config, s: State, id: Id, slices: seq<Slice>, plan: seq<R.Step>, end: R.End, done: nat, k: nat)
    requires IsRender(c, s, id, slices, plan, end, done)
    requires k < |slices| && SomeCancel(slices[k].before + slices[k].during, id)
    requires k < |plan| && R.UsesMotionTool(plan[k]) && plan[k].outcome == R.RenderFailure
    ensures done == k && end == R.Stopped && EndsAs(c, s, id, slices, end, Cancelled)
  {
    hide Observes, Run, EventsOf, AllMeanwhile, SomeCancel, Rendering, Flag, EndsAs;
    BegunStep(c, s, id, slices, plan, end, done, k);
    CancelInSlice(slices, k, id);
    RenderEndsTheJob(c, s, id, slices, plan, end, done);
    assert R.Ends(plan[k]);
  }

  /**
   * A motion step that is begun fails the job exactly when its tool fails with something other than a RenderError and
   * nobody has asked to stop.
   */
  lemma MotionFailsTheJobIff(
    c: Config, s: State, id: Id, slices: seq<Slice>, plan: seq<R.Step>, end: R.End, done: nat, k: nat)
    requires IsRender(c, s, id, slices, plan, end, done)
    requires k < |slices| && k < |plan| && plan[k].stage.Motion?
    ensures done == k && EndsAs(c, s, id, slices, end, Failed)
            <==> R.UsesMotionTool(plan[k]) && plan[k].outcome == R.OtherFailure && !Asked(s, id, slices)
  {
    hide Observes, Run, EventsOf, AllMeanwhile, SomeCancel, Rendering, Flag, Asked;
    BegunStep(c, s, id, slices, plan, end, done, k);
    RenderEndsTheJob(c, s, id, slices, plan, end, done);
    OneEnding(c, s, id, slices, end);
    hide EndsAs;
    if R.UsesMotionTool(plan[k]) && plan[k].outcome == R.OtherFailure && !Asked(s, id, slices) {
      assert R.Ends(plan[k]);
    }
  }

  lemma OneEnding(c: Config, s: State, id: Id, slices: seq<Slice>, end: R.End)
    ensures forall a, b | EndsAs(c, s, id, slices, end, a) && EndsAs(c, s, id, slices, end, b) :: a == b
  {
    var t := AfterRender(c, s, slices, end, 0, "");
    hide AfterRender;
    forall a, b | EndsAs(c, s, id, slices, end, a) && EndsAs(c, s, id, slices, end, b) ensures a == b {
      assert t.jobs[id].status == a && t.jobs[id].status == b;
    }
  }

  /** So a motion tool that cannot be started fails a video that nobody cancelled. */
  lemma UnstartedMotionFailsTheVideo(c: Config, s: State, id: Id)
    requires Rendering(s, id) && !Flag(s, id)
    ensures var slices, plan := [Slice([], [])], [R.Step(R.Motion(false), false, R.OtherFailure, false)];
            IsRender(c, s, id, slices, plan, R.Broken, 0) && EndsAs(c, s, id, slices, R.Broken, Failed)
  {
    var slices, plan := [Slice([], [])], [R.Step(R.Motion(false), false, R.OtherFailure, false)];
    hide Rendering, Flag, EndsAs;
    assert slices[1..] == [] && plan[1..] == [] && plan[..1] == plan;
    assert EventsOf(slices) == [];
    assert Observes(c, s, id, slices[1..], plan[1..]);
    MotionFailsTheJobIff(c, s, id, slices, plan, R.Broken, 0, 0);
  }

  /** What no render survives: a tool that fails, but for the photo, and for a clip that fails with a RenderError. */
  predicate BreaksTheVideo(st: R.Step) {
    match st.stage
    case Photo => false
    case Motion(product) => !product && st.outcome == R.OtherFailure
    case _ => st.outcome != R.Works
  }

  /** A step that is begun fails the job exactly when it breaks the video and nobody has asked to stop. */
  lemma StepFailsTheJobIff(
    c: Config, s: State, id: Id, slices: seq<Slice>, plan: seq<R.Step>, end: R.End, done: nat, k: nat)
    requires IsRender(c, s, id, slices, plan, end, done)
    requires k < |slices| && k < |plan|
    ensures done == k && EndsAs(c, s, id, slices, end, Failed) <==> BreaksTheVideo(plan[k]) && !Asked(s, id, slices)
  {
    hide Observes, Run, EventsOf, AllMeanwhile, SomeCancel, Rendering, Flag, Asked;
    BegunStep(c, s, id, slices, plan, end, done, k);
    RenderEndsTheJob(c, s, id, slices, plan, end, done);
    OneEnding(c, s, id, slices, end);
    hide EndsAs;
    if BreaksTheVideo(plan[k]) && !Asked(s, id, slices) {
      assert R.Ends(plan[k]);
    }
  }

  /** A render that nobody stops ends its job done exactly when no step of it breaks the video. */
  lemma UnaskedRenderIsDoneIff(
    c: Config, s: State, id: Id, slices: seq<Slice>, plan: seq<R.Step>, end: R.End, done: nat)
    requires IsRender(c, s, id, slices, plan, end, done) && !Asked(s, id, slices)
    ensures EndsAs(c, s, id, slices, end, Done) <==> forall k | 0 <= k < |plan| :: !BreaksTheVideo(plan[k])
  {
    hide Observes, Run, EventsOf, AllMeanwhile, SomeCancel, Rendering, Flag, Asked;
    RenderEndsTheJob(c, s, id, slices, plan, end, done);
    OneEnding(c, s, id, slices, end);
    BegunAsMany(c, s, id, slices, plan, end, done);
    hide EndsAs;
    forall k | 0 <= k < |slices| && k < |plan| ensures BreaksTheVideo(plan[k]) <==> done == k && end == R.Broken {
      StepFailsTheJobIff(c, s, id, slices, plan, end, done, k);
    }
  }

  lemma BegunAsMany(c: Config, s: State, id: Id, slices: seq<Slice>, plan: seq<R.Step>, end: R.End, done: nat)
    requires IsRender(c, s, id, slices, plan, end, done)
    ensures |slices| == Begun(plan, done) && (end == R.Finished ==> done == |plan|)
  {
    ObservesAsMany(c, s, id, slices, plan[..Begun(plan, done)]);
    hide Observes;
  }
}
