/** The generator object: its lock, its executor line and its model cache, each method one step of GpuProtocol. */
module Generators {
  import opened Options
  import opened ModelCache
  import opened GpuProtocol

  class Generator {
    const max: nat
    var gpu: Option<Tid>
    var line: seq<Task>
    var stage: Stage
    var loaded: seq<Name>
    // What the threads are doing, and the history of the cache.
    ghost var phases: map<Tid, Phase>
    ghost var uses: seq<Name>
    ghost var failed: bool

    ghost function Now(): State
      reads this
    {
      State(phases, gpu, line, stage, loaded, uses, failed)
    }

    constructor (max: nat)
      requires max >= 1
      ensures Now() == Empty && this.max == max
    {
      this.max := max;
      gpu, line, stage, loaded := None, [], Idle, [];
      phases, uses, failed := map[], [], false;
    }

    /** The end of a wait for the lock: it is free, or the thread waited too long and leaves, whoever has the lock. */
    method AcquireGpu(t: Tid, inTime: bool) returns (acquired: bool)
      requires max >= 1 && t in phases && phases[t].Waiting?
      requires if inTime then gpu.None? else phases[t].kind.Draw?
      modifies this`gpu, this`phases
      ensures acquired == inTime
      ensures if acquired then gpu == Some(t) && phases == old(phases)[t := Holding(old(phases)[t].kind)]
              else gpu == old(gpu) && phases == old(phases) - {t}
      ensures Now() == Step(max, old(Now()), if inTime then Acquire(t) else TimeOut(t))
    {
      if !inTime {
        phases := phases - {t};
        return false;
      }
      gpu := Some(t);
      phases := phases[t := Holding(phases[t].kind)];
      acquired := true;
    }

    /** A thread asks to draw, or to run a clip: it waits for the lock. */
    ghost method Enter(t: Tid, kind: Kind)
      requires max >= 1 && t !in phases
      modifies this`phases
      ensures Now() == Step(max, old(Now()), Call(t, kind))
    {
      phases := phases[t := Waiting(kind)];
    }

    /** A thread asks for the catalogue, which goes to the executor without the lock. */
    method AskCatalogue(t: Tid)
      requires max >= 1 && t !in phases
      modifies this`line, this`phases
      ensures Now() == Step(max, old(Now()), CallCatalogue(t))
    {
      line := line + [Catalogue(t)];
      phases := phases[t := Listing];
    }

    method SubmitToExecutor(t: Tid, kind: Kind)
      requires max >= 1 && t in phases && phases[t] == Holding(kind)
      modifies this`line, this`phases
      ensures Now() == Step(max, old(Now()), Submit(t)) && line == old(line) + [Work(t, kind)]
    {
      line := line + [Work(t, kind)];
      phases := phases[t := Submitted(kind)];
    }

    /** Evict the least recently used models until one more fits. */
    method MakeRoom()
      requires max >= 1
      modifies this`loaded
      ensures loaded == Trimmed(old(loaded), max)
    {
      while |loaded| >= max
        invariant |loaded| <= |old(loaded)| && loaded == old(loaded)[|old(loaded)| - |loaded|..]
        invariant |loaded| >= max - 1 || loaded == old(loaded)
        decreases |loaded|
      {
        loaded := loaded[1..];
      }
    }

    /** The executor thread takes the task at the head of its line. */
    method BeginTask()
      requires max >= 1 && Enabled(Now(), Begin)
      modifies this`stage
      ensures Now() == Step(max, old(Now()), Begin)
    {
      stage := Started;
    }

    /** The start of a draw on the executor thread: find the model, or make room to load it. */
    method FindModel(known: bool) returns (hit: bool)
      requires max >= 1 && Enabled(Now(), LookUp(known))
      modifies this
      ensures hit == (known && old(line[0].kind.model in loaded))
      ensures !known ==>
                && loaded == old(loaded) && uses == old(uses) && line == old(line)[1..] && stage == Idle
                && phases == old(phases)[old(line)[0].owner := Served]
      ensures Now() == Step(max, old(Now()), LookUp(known))
    {
      var name := line[0].kind.model;
      hit := false;
      if !known {
        phases := phases[line[0].owner := Served];
        line, stage := line[1..], Idle;
      } else if name in loaded {
        loaded := Touched(loaded, name);
        uses := uses + [name];
        stage := Drawing;
        hit := true;
      } else {
        MakeRoom();
        stage := Constructing;
      }
    }

    /** The end of a load: the model is listed, or the task fails with whatever was evicted gone. */
    method EndLoad(ok: bool)
      requires max >= 1 && Enabled(Now(), Constructed(ok))
      modifies this
      ensures Now() == Step(max, old(Now()), Constructed(ok))
      ensures if ok then loaded == old(loaded) + [old(line)[0].kind.model] && stage == Drawing && line == old(line)
              else loaded == old(loaded) && phases == old(phases)[old(line)[0].owner := Served] && line == old(line)[1..]
    {
      var name := line[0].kind.model;
      if ok {
        loaded := loaded + [name];
        uses := uses + [name];
        stage := Drawing;
      } else {
        failed := true;
        phases := phases[line[0].owner := Served];
        line, stage := line[1..], Idle;
      }
    }

    /** The end of a draw, whether it gave an image or failed: its thread goes on. */
    method EndDraw()
      requires max >= 1 && Enabled(Now(), Drawn)
      modifies this
      ensures Now() == Step(max, old(Now()), Drawn) && loaded == old(loaded)
      ensures phases == old(phases)[old(line)[0].owner := Served] && line == old(line)[1..]
    {
      phases := phases[line[0].owner := Served];
      line, stage := line[1..], Idle;
    }

    method AnswerCatalogue()
      requires max >= 1 && Enabled(Now(), Listed)
      modifies this
      ensures Now() == Step(max, old(Now()), Listed)
    {
      phases := phases - {line[0].owner};
      line, stage := line[1..], Idle;
    }

    /** Drop every model, for the thread about to run a clip outside this process. */
    method EvictEverything()
      requires max >= 1 && Enabled(Now(), EvictAll)
      modifies this
      ensures Now() == Step(max, old(Now()), EvictAll) && loaded == []
    {
      loaded := [];
      uses, failed := [], false;
      phases := phases[line[0].owner := InClip];
      line, stage := line[1..], Idle;
    }

    method ReleaseGpu(t: Tid)
      requires max >= 1 && t in phases && (phases[t].Served? || phases[t].InClip?)
      modifies this`gpu, this`phases
      ensures Now() == Step(max, old(Now()), Release(t)) && gpu == None && phases == old(phases) - {t}
    {
      gpu := None;
      phases := phases - {t};
    }
  }
}
