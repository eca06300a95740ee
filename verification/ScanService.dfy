/** The runner and the registry as objects: each method is proved to be the step of ScanRunner it stands for. */
module ScanService {
  import opened Options
  import opened ScanRunner

  class Runner {
    const config: Config
    var waiting: nat
    var permits: nat
    var processes: set<Id>
    var cancelled: set<Id>
    // What the registry records of each run, and where its task is.
    var runs: map<Id, Run>

    ghost function Now(): State
      reads this
    {
      State(waiting, permits, runs, processes, cancelled)
    }

    constructor (config: Config)
      ensures this.config == config && Now() == Initial(config)
    {
      this.config := config;
      waiting, permits, processes, cancelled, runs := 0, config.maxConcurrent, {}, {}, map[];
    }

    /** The registry's finish, and what the task does on its way out. */
    method End(id: Id, status: Status)
      requires id in runs
      modifies this
      ensures Now() == Finish(old(Now()), id, status)
      ensures permits == old(permits) + 1 && id !in processes && id !in cancelled
      ensures runs[id].phase.Over? && runs[id].status == status && runs - {id} == old(runs) - {id}
    {
      runs := runs[id := Run(Over, status, runs[id].finishes + 1)];
      permits := permits + 1;
      processes := processes - {id};
      cancelled := cancelled - {id};
    }

    /** Create a run and submit it: its position in the queue, or None when the queue is full. */
    method Submit(id: Id) returns (position: Option<nat>)
      requires id !in runs
      modifies this
      ensures Now() == Step(config, old(Now()), Post(id))
      ensures position == if old(waiting) >= config.queueMax then None else Some(old(waiting))
    {
      runs := runs[id := Run(Waiting, Queued, 0)];
      if waiting >= config.queueMax {
        runs := runs[id := Run(Over, Failed, 1)];
        return None;
      }
      position := Some(waiting);
      waiting := waiting + 1;
    }

    /** The task enters the semaphore and runs up to starting the process. */
    method EnterSemaphore(id: Id, prepared: bool)
      requires In(Now(), id, Waiting) && permits > 0
      modifies this
      ensures Now() == Step(config, old(Now()), Enter(id, prepared))
    {
      permits := permits - 1;
      waiting := if waiting > 1 then waiting - 1 else 0;
      if id in cancelled {
        End(id, Cancelled);
        return;
      }
      if !prepared {
        End(id, Failed);
        return;
      }
      runs := runs[id := runs[id].(phase := Starting, status := Running)];
    }

    method ProcessStarted(id: Id, launched: bool)
      requires In(Now(), id, Starting)
      modifies this
      ensures Now() == Step(config, old(Now()), Launch(id, launched))
    {
      if !launched {
        End(id, Failed);
        return;
      }
      processes := processes + {id};
      runs := runs[id := runs[id].(phase := Scanning)];
    }

    /** The process is gone and its output read: decide what the run was. */
    method Decide(id: Id, scan: Scan)
      requires id in runs && runs[id].phase.Draining?
      modifies this
      ensures Now() == Step(config, old(Now()), Drained(id, scan))
    {
      if id in cancelled {
        End(id, Cancelled);
      } else if runs[id].phase.timedOut {
        End(id, Failed);
      } else {
        End(id, Classify(scan));
      }
    }

    /** False when the run had already finished. */
    method RequestCancel(id: Id) returns (answer: bool)
      requires id in runs
      modifies this`cancelled
      ensures answer <==> !Terminal(runs[id].status)
      ensures cancelled == if answer then old(cancelled) + {id} else old(cancelled)
      ensures Now() == Step(config, old(Now()), Cancel(id))
    {
      if Terminal(runs[id].status) {
        return false;
      }
      cancelled := cancelled + {id};
      answer := true;
    }
  }

  // ----- the tail of the output -----

  function Joined(chunks: seq<seq<int>>): seq<int> {
    if chunks == [] then [] else Joined(chunks[..|chunks| - 1]) + chunks[|chunks| - 1]
  }

  /**
   * The pump keeps the end of the output in memory: with a positive limit exactly the last limit bytes, however the
   * output is cut into chunks. A limit of zero deletes nothing and keeps all of it.
   */
  method Pump(chunks: seq<seq<int>>, limit: nat) returns (tail: seq<int>)
    ensures tail == if limit > 0 && |Joined(chunks)| > limit then Joined(chunks)[|Joined(chunks)| - limit..]
                    else Joined(chunks)
  {
    tail := [];
    for i := 0 to |chunks|
      invariant var all := Joined(chunks[..i]);
                tail == if limit > 0 && |all| > limit then all[|all| - limit..] else all
    {
      assert chunks[..i + 1][..i] == chunks[..i];
      tail := tail + chunks[i];
      if limit > 0 && |tail| > limit {
        tail := tail[|tail| - limit..];
      }
    }
    assert chunks[..|chunks|] == chunks;
  }

  // ----- no run is stranded -----

  lemma RunAllTwo(c: Config, s: State, e: Event, es: seq<Event>)
    ensures RunAll(c, s, [e] + es) == RunAll(c, Step(c, s, e), es)
  {
    assert ([e] + es)[1..] == es;
  }

  const Clean: Scan := Scan(Some(0), 0, true, 0, 0, false, false, false)

  /** How many steps a run being executed is from its end. */
  function StepsLeft(r: Run): nat {
    match r.phase
    case Waiting => 6
    case Starting => 4
    case Scanning => 3
    case Terminating => 2
    case Draining(_) => 1
    case Over => 0
  }

  /** The next step of a run being executed, nothing breaking. */
  function NextStep(id: Id, r: Run): Event {
    match r.phase
    case Starting => Launch(id, true)
    case Scanning => Exit(id)
    case Terminating => Terminated(id)
    case _ => Drained(id, Clean)
  }

  /** A run being executed can always go on to its end, and then gives its place back. */
  lemma {:induction false} ExecutedRunEnds(c: Config, s: State, id: Id) returns (es: seq<Event>)
    requires id in s.runs && Executing(s.runs[id])
    ensures var t := RunAll(c, s, es);
            && id in t.runs && t.runs[id].phase.Over? && t.permits == s.permits + 1
            && (forall x <- s.runs | x != id :: x in t.runs && t.runs[x] == s.runs[x])
    decreases StepsLeft(s.runs[id])
  {
    var e := NextStep(id, s.runs[id]);
    var t := Step(c, s, e);
    if s.runs[id].phase.Draining? {
      es := [e] + [];
      RunAllTwo(c, s, e, []);
    } else {
      var rest := ExecutedRunEnds(c, t, id);
      es := [e] + rest;
      RunAllTwo(c, s, e, rest);
    }
  }

  lemma {:induction false} RunAllAppend(c: Config, s: State, a: seq<Event>, b: seq<Event>)
    ensures RunAll(c, s, a + b) == RunAll(c, RunAll(c, s, a), b)
    decreases |a|
  {
    if a == [] {
      assert a + b == b;
    } else {
      assert (a + b)[1..] == a[1..] + b;
      RunAllAppend(c, Step(c, s, a[0]), a[1..], b);
    }
  }

  /** No submitted run is stranded: from every reachable state it can still come to its end. */
  lemma NoRunIsStranded(c: Config, s: State, id: Id) returns (es: seq<Event>)
    requires Inv(c, s) && c.maxConcurrent >= 1 && id in s.runs
    ensures id in RunAll(c, s, es).runs && RunAll(c, s, es).runs[id].phase.Over?
  {
    if s.runs[id].phase.Over? {
      es := [];
    } else if Executing(s.runs[id]) {
      es := ExecutedRunEnds(c, s, id);
    } else {
      var free: seq<Event> := [];
      if s.permits == 0 {
        var x := SomeExecuting(c, s);
        free := ExecutedRunEnds(c, s, x);
      }
      var t := RunAll(c, s, free);
      assert In(t, id, Waiting) && t.permits > 0;
      var u := Step(c, t, Enter(id, true));
      var rest: seq<Event> := [];
      if !u.runs[id].phase.Over? {
        rest := ExecutedRunEnds(c, u, id);
      }
      RunAllTwo(c, t, Enter(id, true), rest);
      RunAllAppend(c, s, free, [Enter(id, true)] + rest);
      es := free + ([Enter(id, true)] + rest);
    }
  }

  /** When no place is free somebody holds one. */
  lemma SomeExecuting(c: Config, s: State) returns (x: Id)
    requires Inv(c, s) && c.maxConcurrent >= 1 && s.permits == 0
    ensures x in s.runs && Executing(s.runs[x])
  {
    assert ExecutingIds(s.runs) != {};
    x :| x in ExecutingIds(s.runs);
  }

  // ----- the registry -----

  /** What the registry keeps of a run. */
  datatype Record = Record(runRef: string, status: Status, expired: bool)

  /** The in-memory registry, its index by the caller's own run id, and the meta files. */
  datatype Registry = Registry(runs: map<Id, Record>, byRef: map<string, Id>, disk: map<Id, Record>)

  /** The index points to runs with that reference. */
  ghost predicate IndexOk(g: Registry) {
    forall r <- g.byRef :: r != "" && g.byRef[r] in g.runs && g.runs[g.byRef[r]].runRef == r
  }

  /** The registry as an object. */
  class Store {
    var runs: map<Id, Record>
    var byRef: map<string, Id>
    var disk: map<Id, Record>

    ghost function Now(): Registry
      reads this
    {
      Registry(runs, byRef, disk)
    }

    ghost predicate Valid()
      reads this
    {
      IndexOk(Now())
    }

    constructor (disk: map<Id, Record>)
      ensures Valid() && runs == map[] && byRef == map[] && this.disk == disk
    {
      runs, byRef, this.disk := map[], map[], disk;
    }

    /** Write the meta file; a disk that refuses is only logged. */
    method Persist(id: Id, writable: bool)
      requires id in runs
      modifies this`disk
      ensures disk == if writable then old(disk)[id := runs[id]] else old(disk)
    {
      if writable {
        disk := disk[id := runs[id]];
      }
    }

    method Create(id: Id, runRef: string, writable: bool)
      requires Valid() && id !in runs
      modifies this
      ensures Valid() && runs == old(runs)[id := Record(runRef, Queued, false)]
      ensures byRef == if runRef != "" then old(byRef)[runRef := id] else old(byRef)
      ensures disk == if writable then old(disk)[id := runs[id]] else old(disk)
    {
      runs := runs[id := Record(runRef, Queued, false)];
      if runRef != "" {
        byRef := byRef[runRef := id];
      }
      Persist(id, writable);
    }

    method FinishRun(id: Id, status: Status, writable: bool)
      requires Valid() && id in runs
      modifies this`runs, this`disk
      ensures Valid() && runs == old(runs)[id := old(runs)[id].(status := status)]
      ensures disk == if writable then old(disk)[id := runs[id]] else old(disk)
    {
      runs := runs[id := runs[id].(status := status)];
      Persist(id, writable);
    }

    /** The run last created with this reference, the idempotency key. */
    method GetByRef(runRef: string) returns (found: Option<Id>)
      requires Valid()
      ensures found == LookUp(Now(), runRef)
      ensures found.Some? ==> found.value in runs && runs[found.value].runRef == runRef
    {
      if runRef !in byRef {
        return None;
      }
      var id := byRef[runRef];
      found := if id in runs then Some(id) else None;
    }

    /** Delete old finished runs; the index entry of each one's reference goes with it, whichever run it points to. */
    method Reap(list: seq<Id>)
      requires Valid() && forall id <- list :: id in runs
      requires forall i, k | 0 <= i < k < |list| :: list[i] != list[k]
      modifies this
      ensures Valid() && Now() == AfterReap(old(Now()), list)
    {
      for i := 0 to |list|
        invariant runs == old(runs) - Reaped(old(runs), list[..i])
        invariant disk == old(disk) - Reaped(old(runs), list[..i])
        invariant byRef == old(byRef) - ReapedRefs(old(runs), list[..i])
      {
        var id := list[i];
        assert id !in list[..i] && list[..i + 1] == list[..i] + [id];
        ReapedSnoc(old(runs), list[..i], id);
        hide Reaped, ReapedRefs;
        var run := runs[id];
        if run.expired && Terminal(run.status) {
          disk := disk - {id};
          runs := runs - {id};
          byRef := byRef - {run.runRef};
        }
      }
      assert list[..|list|] == list;
    }

    /** Read the meta files back after a restart: what was in flight is failed in memory, and no file is rewritten. */
    method LoadFromDisk()
      requires runs == map[] && byRef == map[]
      modifies this
      ensures Valid() && disk == old(disk) && Restarted(Now())
      ensures forall id <- runs :: runs[id].status == if Terminal(disk[id].status) then disk[id].status else Failed
    {
      var left := disk.Keys;
      while left != {}
        invariant left <= disk.Keys && disk == old(disk) && runs.Keys == disk.Keys - left && Valid()
        invariant forall id <- runs :: runs[id] == Recovered(disk[id])
        invariant forall id <- runs | runs[id].runRef != "" :: runs[id].runRef in byRef
        decreases left
      {
        var id :| id in left;
        var run := disk[id];
        if !Terminal(run.status) {
          run := run.(status := Failed);
        }
        runs := runs[id := run];
        if run.runRef != "" {
          byRef := byRef[run.runRef := id];
        }
        // Only a run still in flight would be written back here, and none is any more.
        assert Terminal(run.status);
        left := left - {id};
      }
    }
  }

  function Recovered(r: Record): Record { if Terminal(r.status) then r else r.(status := Failed) }

  /** The runs of the list that are old and finished. */
  function Reaped(runs: map<Id, Record>, list: seq<Id>): set<Id> {
    set id | id in list && id in runs && runs[id].expired && Terminal(runs[id].status)
  }

  function ReapedRefs(runs: map<Id, Record>, list: seq<Id>): set<string> {
    set id | id in Reaped(runs, list) :: runs[id].runRef
  }

  lemma ReapedSnoc(runs: map<Id, Record>, list: seq<Id>, id: Id)
    requires id in runs
    ensures var more := if runs[id].expired && Terminal(runs[id].status) then {id} else {};
            Reaped(runs, list + [id]) == Reaped(runs, list) + more
    ensures ReapedRefs(runs, list + [id])
            == ReapedRefs(runs, list) + (if runs[id].expired && Terminal(runs[id].status) then {runs[id].runRef} else {})
  {
  }

  /** A run in flight is never reaped. */
  lemma InFlightRunsAreKept(g: Registry, list: seq<Id>, id: Id)
    requires id in g.runs && !Terminal(g.runs[id].status)
    ensures var h := AfterReap(g, list); id in h.runs && h.runs[id] == g.runs[id] && (id in g.disk ==> id in h.disk)
  {
  }

  /** The run that answers to a reference. */
  function LookUp(g: Registry, runRef: string): Option<Id> {
    if runRef in g.byRef && g.byRef[runRef] in g.runs then Some(g.byRef[runRef]) else None
  }

  /** What reaping leaves. */
  function AfterReap(g: Registry, list: seq<Id>): Registry {
    Registry(g.runs - Reaped(g.runs, list), g.byRef - ReapedRefs(g.runs, list), g.disk - Reaped(g.runs, list))
  }

  /** What reading the files back leaves; which of two runs with one reference answers to it depends on their order. */
  ghost predicate Restarted(g: Registry) {
    && IndexOk(g) && g.runs.Keys == g.disk.Keys
    && (forall id <- g.runs :: g.runs[id] == Recovered(g.disk[id]))
    && (forall id <- g.runs | g.runs[id].runRef != "" :: g.runs[id].runRef in g.byRef)
  }

  /**
   * A run that answered to its reference and is not reaped itself is still listed, and still answers exactly when no
   * reaped run shared the reference; otherwise nobody answers any more.
   */
  lemma StillFoundIff(g: Registry, list: seq<Id>, runRef: string)
    requires IndexOk(g) && LookUp(g, runRef).Some? && LookUp(g, runRef).value !in Reaped(g.runs, list)
    ensures var h := AfterReap(g, list);
            && LookUp(g, runRef).value in h.runs
            && (LookUp(h, runRef) == LookUp(g, runRef)
                <==> forall id <- Reaped(g.runs, list) :: g.runs[id].runRef != runRef)
            && (LookUp(h, runRef) != LookUp(g, runRef) ==> LookUp(h, runRef).None?)
  {
  }

  /** Two runs of one reference: reaping the older one leaves the newer listed and running, and no longer found. */
  lemma ReapedNamesake(g: Registry)
    requires g.runs == map["old" := Record("ref", Completed, true), "new" := Record("ref", Running, false)]
    requires g.byRef == map["ref" := "new"]
    ensures var h := AfterReap(g, ["new", "old"]);
            && IndexOk(g) && LookUp(g, "ref") == Some("new")
            && h.runs == map["new" := Record("ref", Running, false)] && LookUp(h, "ref").None?
  {
    var list := ["new", "old"];
    assert "old" in list && "old" != "new" && Completed != Running;
    assert Reaped(g.runs, list) == {"old"};
    assert ReapedRefs(g.runs, list) == {"ref"};
    assert g.runs - {"old"} == map["new" := Record("ref", Running, false)];
  }

  /** After a restart memory and the files agree exactly when no run was in flight. */
  lemma MirrorAfterRestartIff(g: Registry)
    requires Restarted(g)
    ensures g.runs == g.disk <==> forall id <- g.disk :: Terminal(g.disk[id].status)
  {
    if forall id <- g.disk :: Terminal(g.disk[id].status) {
      assert forall id <- g.runs :: g.runs[id] == g.disk[id];
    } else {
      var id :| id in g.disk && !Terminal(g.disk[id].status);
      assert g.runs[id] != g.disk[id];
    }
  }

  /** One file of a queued run: after a restart it still says queued, and the registry says failed. */
  lemma QueuedFileDiffers(g: Registry)
    requires Restarted(g) && g.disk == map["a" := Record("", Queued, false)]
    ensures g.runs == map["a" := Record("", Failed, false)] && g.runs != g.disk
  {
    assert "a" in g.disk;
    assert g.runs["a"] == Record("", Failed, false);
  }
}
