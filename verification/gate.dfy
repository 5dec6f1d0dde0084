/** The Rust host's evaluation gate: a counter under a mutex with a condition variable. Threads are
    interleaved at critical-section granularity; timeouts, spurious wakes and late arrivals may happen
    at any point. */
module Gates {
  import opened Wire

  /** One pass under the lock: what acquire finds, and how it leaves. */
  datatype Visit = Visit(active: nat, timedOut: bool, expired: bool)
  datatype Outcome = Acquired | Canceled | Waits

  /** acquire's decision under the lock. A thread that comes back from a wait first looks at how the
      wait ended. */
  function Decide(maximum: nat, woken: bool, v: Visit): Outcome {
    if woken && v.timedOut && v.active >= maximum then Canceled
    else if v.active < maximum then Acquired
    else if v.expired then Canceled
    else Waits
  }

  class Gate {
    const maximum: nat
    var active: nat

    constructor (maximum: nat)
      ensures this.maximum == maximum && active == 0
    {
      this.maximum := maximum;
      active := 0;
    }

    /** `visits` are the passes under the lock that the schedule grants: each says what the other
        threads left in the counter. Waits means that the schedule ended in a wait. */
    method Acquire(visits: seq<Visit>) returns (o: Outcome, passes: nat)
      requires visits != []
      modifies this
      ensures 0 < passes <= |visits| && o == Decide(maximum, passes > 1, visits[passes - 1])
      ensures forall k :: 0 <= k < passes - 1 ==> Decide(maximum, k > 0, visits[k]) == Waits
      ensures o == Waits ==> passes == |visits|
      ensures active == visits[passes - 1].active + if o == Acquired then 1 else 0
    {
      passes := 0;
      active := visits[0].active;
      while true
        invariant passes < |visits| && active == visits[passes].active
        invariant passes > 0 ==> !(visits[passes].timedOut && active >= maximum)
        invariant forall k :: 0 <= k < passes ==> Decide(maximum, k > 0, visits[k]) == Waits
        decreases |visits| - passes
      {
        var visit := visits[passes];
        passes := passes + 1;
        if active < maximum {
          active := active + 1;
          return Acquired, passes;
        }
        if visit.expired {
          return Canceled, passes;
        }
        if passes == |visits| {
          return Waits, passes;
        }
        active := visits[passes].active;
        if visits[passes].timedOut && active >= maximum {
          return Canceled, passes + 1;
        }
      }
    }

    /** Dropping a permit. The notification leaves while the lock is still held. */
    method Drop(ghost s: State, ghost t: Thread, ghost notified: Option<Thread>)
      requires s.active == active && Inv(maximum, s) && Enabled(s, Release(t, notified))
      modifies this
      ensures active == Next(maximum, s, Release(t, notified)).active
    {
      NoneIn(s, Holding);
      active := active - 1;
    }
  }

  // ---------------------------------------------------------------- all threads

  type Thread = nat

  /** Woken threads wait for the lock; Sleeping ones wait to be woken. */
  datatype Phase = Ready | Sleeping | Woken | Holding | Gone(canceled: bool)

  datatype State = State(active: int, phases: map<Thread, Phase>)

  const START := State(0, map[])

  /** A release notifies one of the sleeping threads, if there is one. Wake stands for a timeout or a
      spurious wake; Resume says how the wait claims to have ended, which may be a timeout even after
      a notification. */
  datatype Step =
    | Arrive(thread: Thread)
    | Enter(thread: Thread, expired: bool)
    | Wake(thread: Thread)
    | Resume(thread: Thread, timedOut: bool, expired: bool)
    | Release(thread: Thread, notified: Option<Thread>)

  predicate Is(s: State, t: Thread, p: Phase) {
    t in s.phases && s.phases[t] == p
  }

  function In(s: State, p: Phase): set<Thread> {
    set t <- s.phases | s.phases[t] == p
  }

  predicate Enabled(s: State, step: Step) {
    match step
    case Arrive(t) => t !in s.phases
    case Enter(t, _) => Is(s, t, Ready)
    case Wake(t) => Is(s, t, Sleeping)
    case Resume(t, _, _) => Is(s, t, Woken)
    case Release(t, notified) =>
      Is(s, t, Holding) && if In(s, Sleeping) == {} then notified.None?
                           else notified.Some? && Is(s, notified.value, Sleeping)
  }

  function Pass(maximum: nat, s: State, t: Thread, woken: bool, timedOut: bool, expired: bool): State
    requires 0 <= s.active
  {
    match Decide(maximum, woken, Visit(s.active, timedOut, expired))
    case Acquired => State(s.active + 1, s.phases[t := Holding])
    case Canceled => s.(phases := s.phases[t := Gone(true)])
    case Waits => s.(phases := s.phases[t := Sleeping])
  }

  function Next(maximum: nat, s: State, step: Step): State
    requires 0 <= s.active && Enabled(s, step)
  {
    match step
    case Arrive(t) => s.(phases := s.phases[t := Ready])
    case Enter(t, expired) => Pass(maximum, s, t, false, false, expired)
    case Wake(t) => s.(phases := s.phases[t := Woken])
    case Resume(t, timedOut, expired) => Pass(maximum, s, t, true, timedOut, expired)
    case Release(t, notified) =>
      var left := s.phases[t := Gone(false)];
      State(s.active - 1, if notified.Some? then left[notified.value := Woken] else left)
  }

  /** None for a sequence that no schedule can produce, or that drives the counter below zero. */
  function Run(maximum: nat, s: State, steps: seq<Step>): Option<State>
    decreases |steps|
  {
    if steps == [] then Some(s)
    else if s.active < 0 || !Enabled(s, steps[0]) then None
    else Run(maximum, Next(maximum, s, steps[0]), steps[1..])
  }

  /** The counter is the number of live permits, and while a thread sleeps every free slot has a woken
      thread on its way to it. */
  ghost predicate Inv(maximum: nat, s: State) {
    && s.active == |In(s, Holding)| <= maximum
    && (In(s, Sleeping) != {} ==> maximum - s.active <= |In(s, Woken)|)
  }

  lemma Moved(s: State, t: Thread, p: Phase, active: int)
    ensures var next := State(active, s.phases[t := p]);
            forall q :: |In(next, q)| == |In(s, q)| - (if Is(s, t, q) then 1 else 0) + (if p == q then 1 else 0)
  {
    var next := State(active, s.phases[t := p]);
    forall q
      ensures |In(next, q)| == |In(s, q)| - (if Is(s, t, q) then 1 else 0) + (if p == q then 1 else 0)
    {
      MovedIn(s, t, p, active, q);
    }
  }

  lemma MovedIn(s: State, t: Thread, p: Phase, active: int, q: Phase)
    ensures |In(State(active, s.phases[t := p]), q)|
         == |In(s, q)| - (if Is(s, t, q) then 1 else 0) + (if p == q then 1 else 0)
  {
    var next := State(active, s.phases[t := p]);
    if p == q {
      assert In(next, q) == In(s, q) + {t};
    } else {
      assert In(next, q) == In(s, q) - {t};
    }
  }

  lemma NoneIn(s: State, p: Phase)
    ensures In(s, p) == {} <==> |In(s, p)| == 0
    ensures (exists t :: Is(s, t, p)) <==> In(s, p) != {}
  {
    if In(s, p) != {} {
      var t :| t in In(s, p);
      assert Is(s, t, p);
    }
    if t :| Is(s, t, p) {
      assert t in In(s, p);
    }
  }

  datatype Tally = Tally(active: int, ready: int, sleeping: int, woken: int, holding: int)

  ghost function TallyOf(s: State): Tally {
    Tally(s.active, |In(s, Ready)|, |In(s, Sleeping)|, |In(s, Woken)|, |In(s, Holding)|)
  }

  /** How a step changes the number of threads in each phase. */
  lemma StepCounts(maximum: nat, s: State, step: Step)
    requires 0 <= s.active && Enabled(s, step)
    ensures var n := Next(maximum, s, step);
            var was, now := TallyOf(s), TallyOf(n);
            match step
            case Arrive(_) => now == was.(ready := was.ready + 1)
            case Wake(_) => now == was.(sleeping := was.sleeping - 1, woken := was.woken + 1)
            case Release(_, Some(_)) =>
              was.sleeping > 0 && now == was.(active := was.active - 1, holding := was.holding - 1,
                                              sleeping := was.sleeping - 1, woken := was.woken + 1)
            case Release(_, None) =>
              was.sleeping == 0 && now == was.(active := was.active - 1, holding := was.holding - 1)
            case _ =>
              var t := if step.Enter? then was.(ready := was.ready - 1) else was.(woken := was.woken - 1);
              if s.active < maximum then now == t.(active := t.active + 1, holding := t.holding + 1)
              else if n.phases[step.thread] == Sleeping then now == t.(sleeping := t.sleeping + 1)
              else now == t && n.phases[step.thread] == Gone(true)
  {
    var n := Next(maximum, s, step);
    NoneIn(s, Sleeping);
    if step.Release? && step.notified.Some? {
      var left := State(n.active, s.phases[step.thread := Gone(false)]);
      Moved(s, step.thread, Gone(false), n.active);
      Moved(left, step.notified.value, Woken, n.active);
      assert Is(left, step.notified.value, Sleeping);
    } else {
      Moved(s, step.thread, n.phases[step.thread], n.active);
    }
  }

  lemma StepKeepsInv(maximum: nat, s: State, step: Step)
    requires Inv(maximum, s) && Enabled(s, step)
    ensures Inv(maximum, Next(maximum, s, step))
  {
    StepCounts(maximum, s, step);
    NoneIn(s, Sleeping);
    NoneIn(Next(maximum, s, step), Sleeping);
    hide In, Next, Enabled;
  }

  /** No interleaving loses or invents a slot. */
  lemma {:induction false} RunsKeepSlots(maximum: nat, s: State, steps: seq<Step>)
    requires Inv(maximum, s) && Run(maximum, s, steps).Some?
    ensures Inv(maximum, Run(maximum, s, steps).value)
    decreases |steps|
  {
    hide Inv, Next, Enabled;
    if steps != [] {
      StepKeepsInv(maximum, s, steps[0]);
      RunsKeepSlots(maximum, Next(maximum, s, steps[0]), steps[1..]);
    }
  }

  /** The counter never goes below zero, so a run ends only where no schedule can continue. */
  lemma CounterNeverUnderflows(maximum: nat, steps: seq<Step>, step: Step)
    requires Run(maximum, START, steps).Some?
    ensures var s := Run(maximum, START, steps).value;
            && 0 <= s.active <= maximum
            && (step.Release? && Enabled(s, step) ==> s.active > 0)
  {
    var s := Run(maximum, START, steps).value;
    assert In(START, Holding) == {} && In(START, Sleeping) == {};
    RunsKeepSlots(maximum, START, steps);
    NoneIn(s, Holding);
  }

  /** A thread gives up only when every slot is taken by a live permit, and its time is over. */
  lemma CanceledOnlyWhenFull(maximum: nat, steps: seq<Step>, step: Step)
    requires Run(maximum, START, steps).Some? && Enabled(Run(maximum, START, steps).value, step)
    requires 0 <= Run(maximum, START, steps).value.active
    ensures var s := Run(maximum, START, steps).value;
            Next(maximum, s, step).phases[step.thread] == Gone(true)
            <==> && |In(s, Holding)| == maximum
                 && match step
                    case Enter(_, expired) => expired
                    case Resume(_, timedOut, expired) => timedOut || expired
                    case _ => false
  {
    var s := Run(maximum, START, steps).value;
    assert In(START, Holding) == {} && In(START, Sleeping) == {};
    RunsKeepSlots(maximum, START, steps);
  }

  /** No wakeup is lost: while a thread sleeps and a slot is free, some woken thread takes a slot with
      its next pass, however its wait claims to have ended. */
  lemma FreeSlotIsTaken(maximum: nat, s: State, sleeper: Thread) returns (t: Thread)
    requires Inv(maximum, s) && Is(s, sleeper, Sleeping) && s.active < maximum
    ensures Is(s, t, Woken)
    ensures forall timedOut, expired :: Is(Next(maximum, s, Resume(t, timedOut, expired)), t, Holding)
  {
    NoneIn(s, Sleeping);
    NoneIn(s, Woken);
    t :| Is(s, t, Woken);
  }

  // ---------------------------------------------------------------- progress

  /** Steps that need neither a new thread nor a timeout. */
  predicate OnItsOwn(step: Step) {
    !step.Arrive? && !step.Wake?
  }

  ghost function Weight(s: State): nat {
    3 * |In(s, Ready)| + 2 * |In(s, Sleeping)| + 3 * |In(s, Woken)| + 2 * |In(s, Holding)|
  }

  lemma OwnStepsGoDown(maximum: nat, s: State, step: Step)
    requires Inv(maximum, s) && Enabled(s, step) && OnItsOwn(step)
    ensures Weight(Next(maximum, s, step)) < Weight(s)
  {
    StepCounts(maximum, s, step);
    hide In, Next, Enabled;
  }

  /** Without timeouts and arrivals every schedule comes to an end. */
  lemma {:induction false} OwnRunsAreBounded(maximum: nat, s: State, steps: seq<Step>)
    requires Inv(maximum, s) && Run(maximum, s, steps).Some? && forall step <- steps :: OnItsOwn(step)
    ensures |steps| <= Weight(s)
    decreases |steps|
  {
    hide Inv, Next, Enabled, Weight;
    if steps != [] {
      assert steps[0] in steps;
      StepKeepsInv(maximum, s, steps[0]);
      OwnStepsGoDown(maximum, s, steps[0]);
      OwnRunsAreBounded(maximum, Next(maximum, s, steps[0]), steps[1..]);
    }
  }

  /** It ends only when every thread has left: no sleeper is forgotten, and nobody needs a timeout to
      get away from the gate. */
  lemma NobodyIsForgotten(maximum: nat, s: State, t: Thread)
    requires 0 < maximum && Inv(maximum, s) && t in s.phases
    requires forall step :: OnItsOwn(step) ==> !Enabled(s, step)
    ensures s.phases[t].Gone?
  {
    if Is(s, t, Ready) {
      assert Enabled(s, Enter(t, false));
    } else if Is(s, t, Woken) {
      assert Enabled(s, Resume(t, false, false));
    } else if Is(s, t, Holding) {
      CanRelease(s, t);
    } else if Is(s, t, Sleeping) {
      NoneIn(s, Woken);
      NoneIn(s, Holding);
      if s.active < maximum {
        var w := FreeSlotIsTaken(maximum, s, t);
        assert Enabled(s, Resume(w, false, false));
      } else {
        var h :| Is(s, h, Holding);
        CanRelease(s, h);
      }
    }
  }

  lemma CanRelease(s: State, t: Thread)
    requires Is(s, t, Holding)
    ensures exists step :: OnItsOwn(step) && Enabled(s, step)
  {
    NoneIn(s, Sleeping);
    if In(s, Sleeping) == {} {
      assert Enabled(s, Release(t, None));
    } else {
      var u :| Is(s, u, Sleeping);
      assert Enabled(s, Release(t, Some(u)));
    }
  }

  /** From every state that a schedule can reach, the threads inside get through on their own: within a
      bounded number of steps, and until all of them have left. */
  lemma GateDrains(maximum: nat, before: seq<Step>, after: seq<Step>)
    requires 0 < maximum && Run(maximum, START, before).Some? && forall step <- after :: OnItsOwn(step)
    requires Run(maximum, Run(maximum, START, before).value, after).Some?
    ensures |after| <= Weight(Run(maximum, START, before).value)
    ensures var end := Run(maximum, Run(maximum, START, before).value, after).value;
            (forall step :: OnItsOwn(step) ==> !Enabled(end, step)) ==> forall t <- end.phases :: end.phases[t].Gone?
  {
    var s := Run(maximum, START, before).value;
    assert In(START, Holding) == {} && In(START, Sleeping) == {};
    hide In;
    RunsKeepSlots(maximum, START, before);
    RunsKeepSlots(maximum, s, after);
    OwnRunsAreBounded(maximum, s, after);
    var end := Run(maximum, s, after).value;
    hide *;
    if forall step :: OnItsOwn(step) ==> !Enabled(end, step) {
      forall t <- end.phases
        ensures end.phases[t].Gone?
      {
        NobodyIsForgotten(maximum, end, t);
      }
    }
  }
}
