/** One render, tool by tool: where a cancel is noticed, what a failed tool does to the video, and how the job ends. */
module RenderPipeline {
  import opened Options

  /**
   * The tools are looked for first. Narration, keyframes, motion and editing take one step a shot and report progress
   * first; the product photo is fitted before the first keyframe, and the parts are joined last, without a report. A
   * shot of a real product skips the motion tool.
   */
  datatype Stage = Install | Narration | Photo | Keyframe | Motion(product: bool) | Edit | Join

  /** A tool that ran and failed raises a RenderError; anything else, such as a tool that cannot be started, does not. */
  datatype Outcome = Works | RenderFailure | OtherFailure

  /** What one step meets: the cancel flag before the tool and after it failed, and how the tool fared. */
  datatype Step = Step(stage: Stage, flagBefore: bool, outcome: Outcome, flagAfter: bool)

  datatype End = Finished | Stopped | Broken

  predicate Reports(stage: Stage) { !stage.Install? && !stage.Photo? && !stage.Join? }

  predicate UsesMotionTool(st: Step) { st.stage.Motion? && !st.stage.product }

  predicate UsesTool(st: Step) { !(st.stage.Motion? && st.stage.product) }

  /** The failure leaves a note and the render goes on: a drawn product, or a still in place of a clip. */
  predicate FallsBack(st: Step) {
    || (st.stage.Photo? && st.outcome != Works)
    || (UsesMotionTool(st) && st.outcome == RenderFailure && !st.flagAfter)
  }

  /** The cancel flag is read before every step that reports, and again when the motion tool fails. */
  predicate NoticesCancel(st: Step) {
    (Reports(st.stage) && st.flagBefore) || (UsesMotionTool(st) && st.outcome == RenderFailure && st.flagAfter)
  }

  /** The step raises an error of its own. */
  predicate Fails(st: Step) { UsesTool(st) && st.outcome != Works && !FallsBack(st) && !NoticesCancel(st) }

  predicate Ends(st: Step) { NoticesCancel(st) || Fails(st) }

  /** The steps that left a note. */
  ghost function Notes(steps: seq<Step>): seq<nat> {
    if steps == [] then []
    else
      var last := |steps| - 1;
      Notes(steps[..last]) + (if FallsBack(steps[last]) then [last] else [])
  }

  /** The first step that notices a cancel or breaks ends the render and decides how. */
  ghost predicate EndsWith(steps: seq<Step>, end: End, done: nat) {
    && done <= |steps| && (forall i | 0 <= i < done :: !Ends(steps[i]))
    && (end == Finished <==> done == |steps|)
    && (end == Stopped <==> done < |steps| && NoticesCancel(steps[done]))
    && (end == Broken <==> done < |steps| && Fails(steps[done]))
  }

  /** Run the steps until one ends the render. Until then every failure of a photo or a clip leaves a note. */
  method Render(steps: seq<Step>) returns (end: End, done: nat, notes: seq<nat>)
    ensures EndsWith(steps, end, done) && notes == Notes(steps[..done])
  {
    notes := [];
    done := 0;
    while done < |steps|
      invariant done <= |steps| && forall i | 0 <= i < done :: !Ends(steps[i])
      invariant notes == Notes(steps[..done])
    {
      var st := steps[done];
      if Reports(st.stage) && st.flagBefore {
        return Stopped, done, notes;
      }
      assert steps[..done + 1][..done] == steps[..done];
      if UsesTool(st) && st.outcome != Works {
        if st.stage.Motion? && st.outcome == RenderFailure {
          if st.flagAfter {
            return Stopped, done, notes;
          }
        } else if !st.stage.Photo? {
          return Broken, done, notes;
        }
        notes := notes + [done];
      }
      done := done + 1;
    }
    assert steps[..|steps|] == steps;
    end := Finished;
  }

  /** The flag is only ever raised while a render runs, so a later check reads at least what an earlier one read. */
  ghost predicate FlagOnlyRises(steps: seq<Step>) {
    && (forall i | 0 <= i < |steps| :: steps[i].flagBefore ==> steps[i].flagAfter)
    && (forall i, k | 0 <= i < k < |steps| :: steps[i].flagAfter ==> steps[k].flagBefore)
  }

  lemma {:induction false} NotedIff(steps: seq<Step>, n: nat)
    ensures n in Notes(steps) <==> n < |steps| && FallsBack(steps[n])
    decreases |steps|
  {
    if steps != [] {
      var init := steps[..|steps| - 1];
      NotedIff(init, n);
      assert n < |init| ==> init[n] == steps[n];
    }
  }

  /** A step leaves a note exactly when the render got past it and its photo could not be fitted or its clip failed. */
  lemma NoteIff(steps: seq<Step>, end: End, done: nat, n: nat)
    requires EndsWith(steps, end, done)
    ensures n in Notes(steps[..done])
            <==> n < done && ((steps[n].stage == Photo && steps[n].outcome != Works)
                              || (steps[n].stage == Motion(false) && steps[n].outcome == RenderFailure))
  {
    NotedIff(steps[..done], n);
    if n < done {
      assert !Ends(steps[n]);
    }
  }

  /**
   * A step that the render gets to stops it exactly when it draws, speaks, moves or edits a shot and the flag is up
   * before it, or when a clip fails with a RenderError and the flag is up after it.
   */
  lemma StopsIff(steps: seq<Step>, end: End, done: nat, n: nat)
    requires EndsWith(steps, end, done) && n <= done && n < |steps|
    ensures n == done && end == Stopped
            <==> || (steps[n].stage in {Narration, Keyframe, Motion(true), Motion(false), Edit} && steps[n].flagBefore)
                 || (steps[n].stage == Motion(false) && steps[n].outcome == RenderFailure && steps[n].flagAfter)
  {
    if n < done {
      assert !Ends(steps[n]);
    }
  }
}
