/** Which submissions are let in: the limit counts the jobs that history has opened and not ended, and is reached. */
module VideoAdmission {
  import opened Options
  import opened Sequences
  import opened VideoJobs
  import opened VideoSafety
  import opened VideoRecords

  // ----- jobs opened and jobs ended -----

  /** The ids that the event lists for the first time. */
  ghost function Opens(c: Config, s: State, e: Event): set<Id> {
    if e.SubmitLocked? && Up(s) && e.id !in s.jobs && e.id in Step(c, s, e).jobs then {e.id} else {}
  }

  /** The jobs that the event ends. */
  ghost function Ends(c: Config, s: State, e: Event): set<Id> { set id | id in s.disk && EndsJob(c, s, e, id) }

  ghost function OpenedBy(c: Config, s: State, es: seq<Event>): nat
    decreases |es|
  {
    if es == [] then 0 else |Opens(c, s, es[0])| + OpenedBy(c, Step(c, s, es[0]), es[1..])
  }

  ghost function EndedBy(c: Config, s: State, es: seq<Event>): nat
    decreases |es|
  {
    if es == [] then 0 else |Ends(c, s, es[0])| + EndedBy(c, Step(c, s, es[0]), es[1..])
  }

  predicate Flies(d: map<Id, Job>, id: Id) { id in d && InFlight(d[id]) }

  /** The event lists the job for the first time. */
  ghost predicate OpensJob(c: Config, s: State, e: Event, id: Id) {
    e.SubmitLocked? && e.id == id && Up(s) && id !in s.jobs && id in Step(c, s, e).jobs
  }

  /** One job: its file stays while it is in flight, and it comes into flight only when it is opened. */
  ghost predicate FlightOf(c: Config, s: State, e: Event, id: Id) {
    var t := Step(c, s, e);
    && (Flies(s.disk, id) ==> id in t.disk)
    && (Flies(t.disk, id) && !Flies(s.disk, id) ==> OpensJob(c, s, e, id))
    && (OpensJob(c, s, e, id) ==> !Flies(s.disk, id) && Flies(t.disk, id))
  }

  lemma WorkerFlight(c: Config, s: State, e: Event, id: Id)
    requires Inv(c, s) && (e.Pickup? || e.Progress? || e.EndOfRender?)
    ensures FlightOf(c, s, e, id)
  {
    if e.Pickup? && Up(s) && s.worker.None? && Starts(s) {
      assert s.jobs[s.queue[0]].id == s.queue[0];
    }
  }

  lemma CancelFlight(c: Config, s: State, e: Event, id: Id)
    requires Inv(c, s) && e.Cancel?
    ensures FlightOf(c, s, e, id)
  {
    assert e.id in s.jobs ==> s.jobs[e.id].id == e.id;
  }

  lemma ClaimFlight(c: Config, s: State, e: Event, id: Id)
    requires Inv(c, s) && e.Claim?
    ensures FlightOf(c, s, e, id)
  {
    assert e.id in s.jobs ==> s.jobs[e.id].id == e.id;
  }

  lemma RestartFlight(c: Config, s: State, e: Event, id: Id)
    requires Inv(c, s) && (e.Crash? || e.LoadOne?)
    ensures FlightOf(c, s, e, id)
  {
  }

  lemma ListFlight(c: Config, s: State, e: Event, id: Id)
    requires Inv(c, s) && (e.SubmitLocked? || e.Put? || e.PruneLocked? || e.RemoveDir?)
    ensures FlightOf(c, s, e, id)
  {
  }

  lemma EveryFlight(c: Config, s: State, e: Event, id: Id)
    requires Inv(c, s)
    ensures FlightOf(c, s, e, id)
  {
    hide Inv, FlightOf;
    if e.Crash? || e.LoadOne? {
      RestartFlight(c, s, e, id);
    } else if e.Pickup? || e.Progress? || e.EndOfRender? {
      WorkerFlight(c, s, e, id);
    } else if e.Cancel? {
      CancelFlight(c, s, e, id);
    } else if e.Claim? {
      ClaimFlight(c, s, e, id);
    } else {
      ListFlight(c, s, e, id);
    }
  }

  lemma FlightIff(c: Config, s: State, e: Event, id: Id)
    requires FlightOf(c, s, e, id)
    ensures id in InFlightIds(Step(c, s, e).disk) <==> (id in InFlightIds(s.disk) && id !in Ends(c, s, e)) || id in Opens(c, s, e)
  {
    hide Step;
    var d := Step(c, s, e).disk;
    assert id in Opens(c, s, e) <==> OpensJob(c, s, e, id);
    assert id in Ends(c, s, e) <==> EndsJob(c, s, e, id);
    assert id in InFlightIds(d) <==> Flies(d, id);
    assert id in InFlightIds(s.disk) <==> Flies(s.disk, id);
    if id in d {
      OneOrTheOther(d[id]);
    }
    assert EndsJob(c, s, e, id) <==> Flies(s.disk, id) && !Flies(d, id);
  }

  lemma OneOrTheOther(j: Job)
    ensures InFlight(j) <==> !Finished(j)
  {
    var st := j.status;
    assert st.Queued? || st.Running? || st.Done? || st.Failed? || st.Cancelled?;
  }

  lemma FlightsExchange(c: Config, s: State, e: Event)
    requires Inv(c, s)
    ensures Ends(c, s, e) <= InFlightIds(s.disk) && InFlightIds(s.disk) !! Opens(c, s, e)
    ensures InFlightIds(Step(c, s, e).disk) == (InFlightIds(s.disk) - Ends(c, s, e)) + Opens(c, s, e)
  {
    hide Inv, Step;
    forall id: Id ensures FlightOf(c, s, e, id) {
      EveryFlight(c, s, e, id);
    }
    forall id: Id ensures id in InFlightIds(Step(c, s, e).disk)
                          <==> id in (InFlightIds(s.disk) - Ends(c, s, e)) + Opens(c, s, e) {
      FlightIff(c, s, e, id);
    }
    if e.SubmitLocked? {
      assert FlightOf(c, s, e, e.id);
    }
  }

  lemma Exchanged(a: set<Id>, out: set<Id>, more: set<Id>)
    requires out <= a && a !! more
    ensures |(a - out) + more| + |out| == |a| + |more|
  {
  }

  /** Conservation over any run, restarts included: in flight is what was, and what was opened, less what was ended. */
  lemma {:induction false} FlightsAreCounted(c: Config, s: State, es: seq<Event>)
    requires ValidConfig(c) && Inv(c, s) && HazardFree(c, s, es)
    ensures |InFlightIds(Run(c, s, es).disk)| + EndedBy(c, s, es) == |InFlightIds(s.disk)| + OpenedBy(c, s, es)
    decreases |es|
  {
    if es != [] {
      FlightsExchange(c, s, es[0]);
      Exchanged(InFlightIds(s.disk), Ends(c, s, es[0]), Opens(c, s, es[0]));
      StepKeepsInv(c, s, es[0]);
      hide Inv, Step, Ends, Opens, InFlightIds;
      FlightsAreCounted(c, Step(c, s, es[0]), es[1..]);
    }
  }

  // ----- who is let in -----

  /**
   * In every reachable state in which the service is up, a new id is listed exactly when its file can be saved and the
   * jobs opened and not yet ended, by the history, are no more than the limit. It is refused as full exactly when they
   * are more. A submission that lists nothing changes nothing.
   */
  lemma SubmissionIsLetInIff(c: Config, es: seq<Event>, id: Id, now: int, saveOk: bool)
    requires ValidConfig(c) && HazardFree(c, Empty, es) && Up(Run(c, Empty, es)) && id !in Run(c, Empty, es).jobs
    ensures var s := Run(c, Empty, es);
            var t, r := Step(c, s, SubmitLocked(id, now, saveOk)), SubmitOutcome(c, s.jobs, id, now, saveOk);
            var room := OpenedBy(c, Empty, es) - EndedBy(c, Empty, es) <= c.maxQueue;
            && (id in t.jobs <==> room && saveOk) && (r.Created? <==> room && saveOk)
            && (r == QueueFull <==> !room) && (r == SaveFailed <==> room && !saveOk)
            && (id !in t.jobs ==> t == s)
  {
    EmptyIsIdle(c);
    FlightsAreCounted(c, Empty, es);
    RunKeepsInv(c, Empty, es);
    hide Run, OpenedBy, EndedBy, HazardFree;
    InFlightAgree(c, Run(c, Empty, es));
    hide Inv, InFlightIds;
  }

  lemma EmptyIsIdle(c: Config)
    ensures Inv(c, Empty) && InFlightIds(Empty.disk) == {}
  {
    assert InFlightIds(map[]) == {};
  }

  // ----- the limit is reached -----

  function Name(n: nat): Id { seq(n, _ => 'a') }

  ghost function Submissions(n: nat): seq<Event> { seq(n, i requires 0 <= i < n => SubmitLocked(Name(i), 0, true)) }

  ghost function Names(n: nat): set<Id> { set i | 0 <= i < n :: Name(i) }

  lemma MoreNames(n: nat)
    ensures Names(n + 1) == Names(n) + {Name(n)} && Name(n) !in Names(n)
  {
    forall i | 0 <= i < n ensures Name(i) != Name(n) {
      assert |Name(i)| == i;
    }
    assert |Name(n)| == n;
  }

  /** n new jobs, submitted one after the other. */
  ghost predicate AllListed(c: Config, s: State, n: nat) {
    && Inv(c, s) && Up(s) && s.doomed == multiset{} && s.jobs.Keys == Names(n) && InFlightIds(s.jobs) == Names(n) && |Names(n)| == n
  }

  lemma ListsOne(c: Config, s: State, id: Id)
    requires Up(s) && id !in s.jobs && |InFlightIds(s.jobs)| <= c.maxQueue
    ensures var t := Step(c, s, SubmitLocked(id, 0, true));
            && Up(t) && t.doomed == s.doomed && id in t.jobs && InFlight(t.jobs[id]) && t.jobs == s.jobs[id := t.jobs[id]]
  {
  }

  lemma OneMoreListed(c: Config, s: State, n: nat)
    requires ValidConfig(c) && AllListed(c, s, n) && n <= c.maxQueue
    ensures AllListed(c, Step(c, s, SubmitLocked(Name(n), 0, true)), n + 1)
  {
    hide Inv, Name, Names, Step, InFlightIds;
    MoreNames(n);
    StepKeepsInv(c, s, SubmitLocked(Name(n), 0, true));
    ListsOne(c, s, Name(n));
    var t := Step(c, s, SubmitLocked(Name(n), 0, true));
    InFlightUpdate(s.jobs, Name(n), t.jobs[Name(n)]);
  }

  lemma {:induction false} NamesAreListed(c: Config, n: nat)
    requires ValidConfig(c) && n <= c.maxQueue + 1
    ensures HazardFree(c, Empty, Submissions(n)) && AllListed(c, Run(c, Empty, Submissions(n)), n)
    decreases n
  {
    hide Step, Submissions, Name, Names, Inv, InFlightIds;
    if n == 0 {
      EmptyIsIdle(c);
      NobodyListed();
      NothingRuns(c);
    } else {
      NamesAreListed(c, n - 1);
      var e := SubmitLocked(Name(n - 1), 0, true);
      var es, s := Submissions(n - 1), Run(c, Empty, Submissions(n - 1));
      MoreSubmissions(n - 1);
      OneMoreListed(c, s, n - 1);
      RunMore(c, Empty, es, e);
      SafeMore(c, Empty, es, e);
    }
  }

  lemma MoreSubmissions(n: nat)
    ensures Submissions(n + 1) == Submissions(n) + [SubmitLocked(Name(n), 0, true)]
  {
    hide Name;
  }

  lemma NothingRuns(c: Config)
    ensures Run(c, Empty, []) == Empty && HazardFree(c, Empty, [])
  {
  }

  lemma NobodyListed()
    ensures Names(0) == {} && Submissions(0) == [] && InFlightIds(Empty.jobs) == {}
  {
    assert Empty.jobs == map[];
  }

  lemma {:induction false} RunMore(c: Config, s: State, es: seq<Event>, e: Event)
    ensures Run(c, s, es + [e]) == Step(c, Run(c, s, es), e)
    decreases |es|
  {
    hide Step;
    if es == [] {
      assert (es + [e])[1..] == [];
    } else {
      assert (es + [e])[1..] == es[1..] + [e];
      RunMore(c, Step(c, s, es[0]), es[1..], e);
    }
  }

  lemma {:induction false} SafeMore(c: Config, s: State, es: seq<Event>, e: Event)
    requires HazardFree(c, s, es) && (Creates(c, Run(c, s, es), e) ==> e.id !in Run(c, s, es).doomed)
    ensures HazardFree(c, s, es + [e])
    decreases |es|
  {
    hide Step, Creates;
    if es == [] {
      assert (es + [e])[1..] == [];
    } else {
      assert (es + [e])[1..] == es[1..] + [e];
      SafeMore(c, Step(c, s, es[0]), es[1..], e);
    }
  }

  /** The limit is reached: one more job than it can be in flight, and then the next submission is refused. */
  lemma QueueFillsUp(c: Config)
    requires ValidConfig(c)
    ensures var s := Run(c, Empty, Submissions(c.maxQueue + 1));
            && HazardFree(c, Empty, Submissions(c.maxQueue + 1)) && Up(s) && |InFlightIds(s.jobs)| == c.maxQueue + 1
            && SubmitOutcome(c, s.jobs, Name(c.maxQueue + 1), 0, true) == QueueFull
  {
    NamesAreListed(c, c.maxQueue + 1);
    MoreNames(c.maxQueue + 1);
    hide Run, HazardFree, Submissions, Name, Names, Inv;
  }
}
