/** The Go engine's life: evaluations pass the bounded gate while Close may strike between any two of
    their steps. Each step is one critical section or one channel operation. */
module Lifecycle {
  import opened Wire

  type Id = nat

  /** How far an evaluation has come. It holds a slot of the gate from Admitted to Leaving. */
  datatype Stage = Fresh | Opened | Queued | Admitted | Cleared | Running | Leaving | Gone

  /** How far a call of Close has come. */
  datatype Closing = Claimed | Finished

  datatype State = State(
    closed: bool,
    occupied: nat,
    runtimeCloses: nat,
    stages: map<Id, Stage>,
    closers: map<Id, Closing>)

  const START := State(false, 0, 0, map[], map[])

  datatype Step =
    | Begin(id: Id, canceled: bool)
    | FirstCheck(id: Id)
    | Prepare(id: Id, valid: bool)
    | Acquire(id: Id)
    | GiveUp(id: Id)
    | SecondCheck(id: Id)
    | Instantiate(id: Id, works: bool)
    | Return(id: Id)
    | Release(id: Id)
    | Close(id: Id)
    | CloseRuntime(id: Id)

  predicate At(s: State, id: Id, stage: Stage) {
    id in s.stages && s.stages[id] == stage
  }

  /** A full gate blocks the send; a done context lets the other arm win at any time. An instantiation
      can fail at any time, and works only on a runtime that is still open. */
  predicate Enabled(capacity: nat, s: State, step: Step) {
    match step
    case Begin(id, _) => id !in s.stages
    case FirstCheck(id) => At(s, id, Fresh)
    case Prepare(id, _) => At(s, id, Opened)
    case Acquire(id) => At(s, id, Queued) && s.occupied < capacity
    case GiveUp(id) => At(s, id, Queued)
    case SecondCheck(id) => At(s, id, Admitted)
    case Instantiate(id, works) => At(s, id, Cleared) && (works ==> s.runtimeCloses == 0)
    case Return(id) => At(s, id, Running)
    case Release(id) => At(s, id, Leaving) && s.occupied > 0
    case Close(id) => id !in s.closers
    case CloseRuntime(id) => id in s.closers && s.closers[id] == Claimed
  }

  /** Where an evaluation's step outside the gate leads. */
  function Target(closed: bool, step: Step): Stage {
    match step
    case Begin(_, canceled) => if canceled then Gone else Fresh
    case FirstCheck(_) => if closed then Gone else Opened
    case Prepare(_, valid) => if valid then Queued else Gone
    case GiveUp(_) => Gone
    case SecondCheck(_) => if closed then Leaving else Cleared
    case Instantiate(_, works) => if works then Running else Leaving
    case Return(_) => Leaving
    case _ => Gone
  }

  function Next(s: State, step: Step): State {
    match step
    case Close(id) =>
      if s.closed then s.(closers := s.closers[id := Finished])
      else s.(closed := true, closers := s.closers[id := Claimed])
    case CloseRuntime(id) => s.(runtimeCloses := s.runtimeCloses + 1, closers := s.closers[id := Finished])
    case Acquire(id) => s.(stages := s.stages[id := Admitted], occupied := s.occupied + 1)
    case Release(id) => s.(stages := s.stages[id := Gone], occupied := if s.occupied > 0 then s.occupied - 1 else 0)
    case _ => s.(stages := s.stages[step.id := Target(s.closed, step)])
  }

  function Run(capacity: nat, s: State, steps: seq<Step>): Option<State>
    decreases |steps|
  {
    if steps == [] then Some(s)
    else if !Enabled(capacity, s, steps[0]) then None
    else Run(capacity, Next(s, steps[0]), steps[1..])
  }

  // ---------------------------------------------------------------- the engine's own methods

  class Engine {
    const capacity: nat
    var closed: bool
    var gate: seq<()>
    var runtimeCloses: nat

    constructor (capacity: nat)
      ensures this.capacity == capacity && !closed && gate == [] && runtimeCloses == 0
    {
      this.capacity := capacity;
      closed, gate, runtimeCloses := false, [], 0;
    }

    ghost predicate Shows(s: State)
      reads this
    {
      s.closed == closed && s.occupied == |gate| && s.runtimeCloses == runtimeCloses
    }

    /** The select of acquire. `done` says whether the context is done and `prefersDone` which arm a
        select with two ready arms takes; None means that it stays blocked. */
    method AcquireSlot(done: bool, prefersDone: bool, ghost s: State, ghost id: Id) returns (ok: Option<bool>)
      requires Shows(s) && At(s, id, Queued)
      modifies this`gate
      ensures ok.None? <==> !done && !Enabled(capacity, s, Acquire(id))
      ensures ok == Some(true) ==> Enabled(capacity, s, Acquire(id)) && Shows(Next(s, Acquire(id)))
      ensures ok == Some(false) ==> done && Shows(Next(s, GiveUp(id)))
      ensures ok.None? ==> Shows(s)
    {
      var ready := |gate| < capacity;
      if ready && !(done && prefersDone) {
        gate := gate + [()];
        return Some(true);
      }
      return if done then Some(false) else None;
    }

    method ReleaseSlot(ghost s: State, ghost id: Id)
      requires Shows(s) && Enabled(capacity, s, Release(id))
      modifies this`gate
      ensures Shows(Next(s, Release(id)))
    {
      gate := gate[1..];
    }

    /** Close, when nothing strikes between its two steps: the first call closes the engine and its
        runtime, every other call changes nothing. */
    method Close(ghost s: State, ghost id: Id)
      requires Shows(s) && Enabled(capacity, s, Step.Close(id))
      modifies this`closed, this`runtimeCloses
      ensures closed && runtimeCloses == old(runtimeCloses) + (if old(closed) then 0 else 1)
      ensures var steps := if s.closed then [Step.Close(id)] else [Step.Close(id), CloseRuntime(id)];
              Run(capacity, s, steps).Some? && Shows(Run(capacity, s, steps).value)
    {
      ghost var claimed := Next(s, Step.Close(id));
      OneStep(capacity, s, Step.Close(id));
      if closed {
        return;
      }
      closed := true;
      OneStep(capacity, claimed, CloseRuntime(id));
      RunSplits(capacity, s, [Step.Close(id)], [CloseRuntime(id)]);
      assert [Step.Close(id)] + [CloseRuntime(id)] == [Step.Close(id), CloseRuntime(id)];
      runtimeCloses := runtimeCloses + 1;
    }
  }

  // ---------------------------------------------------------------- what every interleaving keeps

  predicate Holds(stage: Stage) {
    stage.Admitted? || stage.Cleared? || stage.Running? || stage.Leaving?
  }

  function Holders(stages: map<Id, Stage>): set<Id> {
    set e <- stages | Holds(stages[e])
  }

  function Guests(stages: map<Id, Stage>): set<Id> {
    set e <- stages | stages[e] == Running
  }

  function Claims(closers: map<Id, Closing>): set<Id> {
    set c <- closers | closers[c] == Claimed
  }

  /** Slots in use are evaluations between acquire and release, and one call of Close at most is
      entitled to close the runtime. */
  ghost predicate Inv(capacity: nat, s: State) {
    && s.occupied == |Holders(s.stages)| <= capacity
    && |Claims(s.closers)| + s.runtimeCloses == (if s.closed then 1 else 0)
  }

  lemma StageMoves(stages: map<Id, Stage>, id: Id, stage: Stage)
    ensures |Holders(stages[id := stage])|
         == |Holders(stages)| - (if id in stages && Holds(stages[id]) then 1 else 0) + (if Holds(stage) then 1 else 0)
  {
    if Holds(stage) {
      assert Holders(stages[id := stage]) == Holders(stages) + {id};
    } else {
      assert Holders(stages[id := stage]) == Holders(stages) - {id};
    }
  }

  lemma ClosingMoves(closers: map<Id, Closing>, id: Id, closing: Closing)
    ensures |Claims(closers[id := closing])|
         == |Claims(closers)| - (if id in closers && closers[id] == Claimed then 1 else 0)
            + (if closing == Claimed then 1 else 0)
  {
    if closing == Claimed {
      assert Claims(closers[id := closing]) == Claims(closers) + {id};
    } else {
      assert Claims(closers[id := closing]) == Claims(closers) - {id};
    }
  }

  lemma StepKeepsInv(capacity: nat, s: State, step: Step)
    requires Inv(capacity, s) && Enabled(capacity, s, step)
    ensures Inv(capacity, Next(s, step))
  {
    var n := Next(s, step);
    if step.Close? || step.CloseRuntime? {
      ClosingMoves(s.closers, step.id, n.closers[step.id]);
    } else {
      StageMoves(s.stages, step.id, n.stages[step.id]);
    }
    hide Holders, Claims;
  }

  lemma {:induction false} RunsKeepInv(capacity: nat, s: State, steps: seq<Step>)
    requires Inv(capacity, s) && Run(capacity, s, steps).Some?
    ensures Inv(capacity, Run(capacity, s, steps).value)
    decreases |steps|
  {
    hide Inv, Next, Enabled;
    if steps != [] {
      StepKeepsInv(capacity, s, steps[0]);
      RunsKeepInv(capacity, Next(s, steps[0]), steps[1..]);
    }
  }

  /** In every interleaving the gate holds one slot for each evaluation between acquire and release,
      never more guests run than the configured maximum, and the runtime is closed at most once. */
  lemma EngineStaysBounded(capacity: nat, steps: seq<Step>)
    requires Run(capacity, START, steps).Some?
    ensures var s := Run(capacity, START, steps).value;
            && s.occupied == |Holders(s.stages)|
            && |Guests(s.stages)| <= s.occupied <= capacity
            && s.runtimeCloses <= 1
            && (s.runtimeCloses > 0 ==> s.closed)
  {
    var s := Run(capacity, START, steps).value;
    assert Holders(START.stages) == {} && Claims(START.closers) == {};
    RunsKeepInv(capacity, START, steps);
    SubsetIsSmaller(Guests(s.stages), Holders(s.stages));
  }

  lemma {:induction false} SubsetIsSmaller(a: set<Id>, b: set<Id>)
    requires a <= b
    ensures |a| <= |b|
  {
    if a != {} {
      var x :| x in a;
      SubsetIsSmaller(a - {x}, b - {x});
    }
  }

  // ---------------------------------------------------------------- one evaluation's history

  function Rank(stage: Stage): nat {
    match stage
    case Fresh => 7
    case Opened => 6
    case Queued => 5
    case Admitted => 4
    case Cleared => 3
    case Running => 2
    case Leaving => 1
    case Gone => 0
  }

  predicate Moves(step: Step, e: Id) {
    step.id == e && !step.Close? && !step.CloseRuntime?
  }

  lemma StepAdvances(capacity: nat, s: State, step: Step, e: Id)
    requires Enabled(capacity, s, step)
    ensures var n := Next(s, step);
            if Moves(step, e) then e in n.stages && (e in s.stages ==> Rank(n.stages[e]) < Rank(s.stages[e]))
            else (e in n.stages <==> e in s.stages) && (e in s.stages ==> n.stages[e] == s.stages[e])
  {
  }

  /** Once begun, an evaluation only moves on. */
  lemma {:induction false} StagesOnlyAdvance(capacity: nat, s: State, steps: seq<Step>, e: Id)
    requires e in s.stages && Run(capacity, s, steps).Some?
    ensures var n := Run(capacity, s, steps).value;
            && e in n.stages
            && (n.stages[e] == s.stages[e] || Rank(n.stages[e]) < Rank(s.stages[e]))
    decreases |steps|
  {
    hide Next, Enabled, Rank;
    if steps != [] {
      StepAdvances(capacity, s, steps[0], e);
      StagesOnlyAdvance(capacity, Next(s, steps[0]), steps[1..], e);
    }
  }

  lemma {:induction false} RunSplits(capacity: nat, s: State, a: seq<Step>, b: seq<Step>)
    ensures Run(capacity, s, a + b)
         == if Run(capacity, s, a).Some? then Run(capacity, Run(capacity, s, a).value, b) else None
    decreases |a|
  {
    hide Next, Enabled;
    if a == [] {
      assert a + b == b;
    } else {
      assert (a + b)[1..] == a[1..] + b;
      RunSplits(capacity, Next(s, a[0]), a[1..], b);
    }
  }

  lemma OneStep(capacity: nat, s: State, step: Step)
    requires Enabled(capacity, s, step)
    ensures Run(capacity, s, [step]) == Some(Next(s, step))
  {
    assert [step][1..] == [];
  }

  /** The state before step k. */
  lemma Before(capacity: nat, steps: seq<Step>, k: nat) returns (s: State)
    requires k < |steps| && Run(capacity, START, steps).Some?
    ensures Run(capacity, START, steps[..k]) == Some(s) && Enabled(capacity, s, steps[k])
    ensures Run(capacity, Next(s, steps[k]), steps[k + 1..]) == Run(capacity, START, steps)
    ensures Run(capacity, START, steps[..k + 1]) == Some(Next(s, steps[k]))
  {
    hide Next, Enabled;
    RunSplits(capacity, START, steps[..k], steps[k..]);
    assert steps[..k] + steps[k..] == steps && steps[k..][1..] == steps[k + 1..];
    s := Run(capacity, START, steps[..k]).value;
    RunSplits(capacity, START, steps[..k], [steps[k]]);
    assert steps[..k + 1] == steps[..k] + [steps[k]];
    assert [steps[k]][1..] == [];
  }

  /** Between two steps of a run. */
  lemma Between(capacity: nat, steps: seq<Step>, i: nat, k: nat) returns (s: State, t: State)
    requires i < k < |steps| && Run(capacity, START, steps).Some?
    ensures Run(capacity, START, steps[..i]) == Some(s) && Enabled(capacity, s, steps[i])
    ensures Run(capacity, START, steps[..k]) == Some(t) && Enabled(capacity, t, steps[k])
    ensures Run(capacity, Next(s, steps[i]), steps[i + 1..k]) == Some(t)
  {
    hide Next, Enabled;
    s := Before(capacity, steps, i);
    t := Before(capacity, steps, k);
    assert steps[..k] == steps[..i + 1] + steps[i + 1..k];
    RunSplits(capacity, START, steps[..i + 1], steps[i + 1..k]);
  }

  lemma {:induction false} ClosedIsForever(capacity: nat, s: State, steps: seq<Step>)
    requires s.closed && Run(capacity, s, steps).Some?
    ensures Run(capacity, s, steps).value.closed
    decreases |steps|
  {
    if steps != [] {
      ClosedIsForever(capacity, Next(s, steps[0]), steps[1..]);
    }
  }

  lemma {:induction false} AttemptsAfterClose(capacity: nat, s: State, steps: seq<Step>, e: Id, works: bool)
    requires s.closed && e in s.stages && Run(capacity, s, steps).Some? && Instantiate(e, works) in steps
    ensures s.stages[e] == Cleared && (works ==> s.runtimeCloses == 0)
    decreases |steps|
  {
    if steps[0] != Instantiate(e, works) {
      AttemptsAfterClose(capacity, Next(s, steps[0]), steps[1..], e, works);
    }
  }

  lemma NotBeforeSecondCheck(capacity: nat, steps: seq<Step>, k: nat, i: nat)
    requires Run(capacity, START, steps).Some? && k < i < |steps| && steps[i].SecondCheck?
    ensures steps[k].Instantiate? ==> steps[k].id != steps[i].id
  {
    if steps[k].Instantiate? && steps[k].id == steps[i].id {
      var s, t := Between(capacity, steps, k, i);
      StagesOnlyAdvance(capacity, Next(s, steps[k]), steps[k + 1..i], steps[i].id);
    }
  }

  /** An evaluation whose second check follows Close never instantiates a guest, before or after. */
  lemma ClosedNeverInstantiates(capacity: nat, steps: seq<Step>, j: nat, i: nat, k: nat)
    requires Run(capacity, START, steps).Some?
    requires j < i < |steps| && steps[j].Close? && steps[i].SecondCheck? && k < |steps|
    ensures steps[k].Instantiate? ==> steps[k].id != steps[i].id
  {
    hide Run;
    if k < i {
      NotBeforeSecondCheck(capacity, steps, k, i);
    } else if steps[k].Instantiate? && steps[k].id == steps[i].id {
      var s, t := Between(capacity, steps, j, i);
      ClosedIsForever(capacity, Next(s, steps[j]), steps[j + 1..i]);
      var t' := Before(capacity, steps, i);
      assert steps[i + 1..][k - i - 1] == steps[k];
      AttemptsAfterClose(capacity, Next(t, steps[i]), steps[i + 1..], steps[i].id, steps[k].works);
    }
  }

  // ---------------------------------------------------------------- what has to come before

  ghost predicate Did(steps: seq<Step>, step: Step) {
    exists i :: 0 <= i < |steps| && steps[i] == step
  }

  /** The step was taken on an engine that was still open. */
  ghost predicate DidOpen(steps: seq<Step>, step: Step) {
    exists i :: 0 <= i < |steps| && steps[i] == step && NoClose(steps[..i])
  }

  ghost predicate NoClose(steps: seq<Step>) {
    forall j :: 0 <= j < |steps| ==> !steps[j].Close?
  }

  /** What an evaluation in a stage has behind it. */
  ghost predicate Behind(steps: seq<Step>, e: Id, stage: Stage) {
    && (stage != Gone ==> Did(steps, Begin(e, false)))
    && (stage != Gone && Rank(stage) <= Rank(Opened) ==> DidOpen(steps, FirstCheck(e)))
    && (stage != Gone && Rank(stage) <= Rank(Queued) ==> Did(steps, Prepare(e, true)))
    && (Holds(stage) ==> Did(steps, Acquire(e)))
    && (stage == Cleared || stage == Running ==> DidOpen(steps, SecondCheck(e)))
    && (stage == Running ==> Did(steps, Instantiate(e, true)))
  }

  lemma OneMore(steps: seq<Step>, last: Step)
    ensures forall step :: Did(steps, step) || step == last ==> Did(steps + [last], step)
    ensures forall step :: DidOpen(steps, step) ==> DidOpen(steps + [last], step)
    ensures NoClose(steps) ==> DidOpen(steps + [last], last)
  {
    var all := steps + [last];
    forall step | Did(steps, step) || step == last
      ensures Did(all, step)
    {
      if step == last {
        assert all[|steps|] == step;
      } else {
        var i :| 0 <= i < |steps| && steps[i] == step;
        assert all[i] == step;
      }
    }
    forall step | DidOpen(steps, step)
      ensures DidOpen(all, step)
    {
      var i :| 0 <= i < |steps| && steps[i] == step && NoClose(steps[..i]);
      assert all[i] == step && all[..i] == steps[..i];
    }
    if NoClose(steps) {
      assert all[|steps|] == last && all[..|steps|] == steps;
    }
  }

  /** The state before the last step. */
  lemma LastStep(capacity: nat, steps: seq<Step>) returns (before: seq<Step>, s: State)
    requires steps != [] && Run(capacity, START, steps).Some?
    ensures steps == before + [steps[|steps| - 1]] && Run(capacity, START, before) == Some(s)
    ensures Enabled(capacity, s, steps[|steps| - 1])
    ensures Run(capacity, START, steps) == Some(Next(s, steps[|steps| - 1]))
  {
    hide Next, Enabled;
    s := Before(capacity, steps, |steps| - 1);
    before := steps[..|steps| - 1];
    assert steps[..|steps| - 1 + 1] == steps;
  }

  lemma {:induction false} OpenMeansNoClose(capacity: nat, steps: seq<Step>)
    requires Run(capacity, START, steps).Some?
    ensures Run(capacity, START, steps).value.closed <==> !NoClose(steps)
    decreases |steps|
  {
    if steps != [] {
      var before, s := LastStep(capacity, steps);
      hide Run;
      OpenMeansNoClose(capacity, before);
      var last := steps[|steps| - 1];
      if !NoClose(before) {
        var j :| 0 <= j < |before| && before[j].Close?;
        assert steps[j].Close?;
      }
      assert forall j :: 0 <= j < |before| ==> steps[j] == before[j];
    }
  }

  lemma StillBehind(steps: seq<Step>, last: Step, e: Id, stage: Stage)
    requires Behind(steps, e, stage)
    ensures Behind(steps + [last], e, stage)
  {
    OneMore(steps, last);
    hide Did, DidOpen;
  }

  lemma OwnStepEarns(capacity: nat, steps: seq<Step>, last: Step, s: State)
    requires Enabled(capacity, s, last) && !last.Close? && !last.CloseRuntime? && (!s.closed ==> NoClose(steps))
    requires last.id in s.stages ==> Behind(steps, last.id, s.stages[last.id])
    ensures Behind(steps + [last], last.id, Next(s, last).stages[last.id])
  {
    OneMore(steps, last);
    hide Did, DidOpen, NoClose;
  }

  lemma {:induction false} StagesAreEarned(capacity: nat, steps: seq<Step>, e: Id)
    requires Run(capacity, START, steps).Some? && e in Run(capacity, START, steps).value.stages
    ensures Behind(steps, e, Run(capacity, START, steps).value.stages[e])
    decreases |steps|
  {
    if steps != [] {
      var before, s := LastStep(capacity, steps);
      var last := steps[|steps| - 1];
      OpenMeansNoClose(capacity, before);
      hide Run, Behind, NoClose, Enabled;
      if e in s.stages {
        StagesAreEarned(capacity, before, e);
      }
      if !last.Close? && !last.CloseRuntime? && last.id == e {
        OwnStepEarns(capacity, before, last, s);
      } else {
        StillBehind(before, last, e, s.stages[e]);
      }
    }
  }

  /** Every step of a run is preceded by those that entitle to it: an evaluation is prepared only behind a
      first check of an open engine, acquires only if it was prepared with success, instantiates only
      behind a second check of an open engine, and returns and releases what it started and acquired. */
  lemma StepsAreEarned(capacity: nat, steps: seq<Step>, step: Step)
    requires Run(capacity, START, steps).Some? && Enabled(capacity, Run(capacity, START, steps).value, step)
    ensures match step
            case FirstCheck(e) => Did(steps, Begin(e, false))
            case Prepare(e, _) => DidOpen(steps, FirstCheck(e))
            case Acquire(e) => Did(steps, Prepare(e, true))
            case GiveUp(e) => Did(steps, Prepare(e, true))
            case SecondCheck(e) => Did(steps, Acquire(e))
            case Instantiate(e, _) => DidOpen(steps, SecondCheck(e))
            case Return(e) => Did(steps, Instantiate(e, true))
            case Release(e) => Did(steps, Acquire(e))
            case _ => true
  {
    hide Run, Did, DidOpen;
    if !step.Begin? && !step.Close? && !step.CloseRuntime? {
      StagesAreEarned(capacity, steps, step.id);
    }
  }

  function Count(steps: seq<Step>, step: Step): nat {
    if steps == [] then 0 else (if steps[0] == step then 1 else 0) + Count(steps[1..], step)
  }

  /** Every exit after a successful acquire gives the slot back exactly once. */
  lemma {:induction false} SlotsAreReturnedOnce(capacity: nat, s: State, steps: seq<Step>, e: Id)
    requires Run(capacity, s, steps).Some?
    ensures var n := Run(capacity, s, steps).value;
            var heldBefore := if e in s.stages && Holds(s.stages[e]) then 1 else 0;
            var heldAfter := if e in n.stages && Holds(n.stages[e]) then 1 else 0;
            && heldBefore + Count(steps, Acquire(e)) == heldAfter + Count(steps, Release(e))
            && (e in s.stages && Rank(s.stages[e]) <= 4 ==> Count(steps, Acquire(e)) == 0)
            && Count(steps, Acquire(e)) <= 1
    decreases |steps|
  {
    if steps != [] {
      SlotsAreReturnedOnce(capacity, Next(s, steps[0]), steps[1..], e);
    }
  }

  /** A run in which Close strikes after the second check and a guest still starts. */
  lemma InstantiateMayFollowClose()
    ensures var steps := [Begin(0, false), FirstCheck(0), Prepare(0, true), Acquire(0), SecondCheck(0), Close(0),
                          Instantiate(0, true), CloseRuntime(0)];
            Run(1, START, steps) == Some(State(true, 1, 1, map[0 := Running], map[0 := Finished]))
  {
    var first := [Begin(0, false), FirstCheck(0), Prepare(0, true), Acquire(0)];
    var second := [SecondCheck(0), Close(0), Instantiate(0, true), CloseRuntime(0)];
    UntilAcquired();
    UntilInstantiated();
    RunSplits(1, START, first, second);
    assert first + second == [Begin(0, false), FirstCheck(0), Prepare(0, true), Acquire(0), SecondCheck(0), Close(0),
                              Instantiate(0, true), CloseRuntime(0)];
  }

  /** What a run can still do to an evaluation once the engine is closed: instantiation is attempted
      if and only if the evaluation is past its second check and has not attempted it, and a guest can
      start if and only if the runtime is not closed as well. */
  lemma GuestsAfterClose(capacity: nat, s: State, e: Id)
    requires s.closed && e in s.stages
    ensures (exists steps, works :: Run(capacity, s, steps).Some? && Instantiate(e, works) in steps)
       <==> s.stages[e] == Cleared
    ensures (exists steps :: Run(capacity, s, steps).Some? && Instantiate(e, true) in steps)
       <==> s.stages[e] == Cleared && s.runtimeCloses == 0
  {
    forall steps, works | Run(capacity, s, steps).Some? && Instantiate(e, works) in steps
      ensures s.stages[e] == Cleared && (works ==> s.runtimeCloses == 0)
    {
      AttemptsAfterClose(capacity, s, steps, e, works);
    }
    if s.stages[e] == Cleared {
      var works := s.runtimeCloses == 0;
      OneStep(capacity, s, Instantiate(e, works));
      assert Run(capacity, s, [Instantiate(e, works)]).Some? && Instantiate(e, works) in [Instantiate(e, works)];
    }
  }

  lemma UntilAcquired()
    ensures Run(1, START, [Begin(0, false), FirstCheck(0), Prepare(0, true), Acquire(0)])
         == Some(State(false, 1, 0, map[0 := Admitted], map[]))
  {
    var steps := [Begin(0, false), FirstCheck(0), Prepare(0, true), Acquire(0)];
    var s1 := START.(stages := map[0 := Fresh]);
    var s2 := START.(stages := map[0 := Opened]);
    var s3 := START.(stages := map[0 := Queued]);
    var end := State(false, 1, 0, map[0 := Admitted], map[]);
    assert Next(START, steps[0]) == s1 && Next(s1, steps[1]) == s2;
    assert Next(s2, steps[2]) == s3 && Next(s3, steps[3]) == end;
    FourSteps(1, START, s1, s2, s3, end, steps);
  }

  lemma UntilInstantiated()
    ensures Run(1, State(false, 1, 0, map[0 := Admitted], map[]),
                [SecondCheck(0), Close(0), Instantiate(0, true), CloseRuntime(0)])
         == Some(State(true, 1, 1, map[0 := Running], map[0 := Finished]))
  {
    var steps := [SecondCheck(0), Close(0), Instantiate(0, true), CloseRuntime(0)];
    var s0 := State(false, 1, 0, map[0 := Admitted], map[]);
    var s1 := State(false, 1, 0, map[0 := Cleared], map[]);
    var s2 := State(true, 1, 0, map[0 := Cleared], map[0 := Claimed]);
    var s3 := State(true, 1, 0, map[0 := Running], map[0 := Claimed]);
    var end := State(true, 1, 1, map[0 := Running], map[0 := Finished]);
    assert Next(s0, steps[0]) == s1 && Next(s1, steps[1]) == s2;
    assert Next(s2, steps[2]) == s3 && Next(s3, steps[3]) == end;
    FourSteps(1, s0, s1, s2, s3, end, steps);
  }

  lemma FourSteps(capacity: nat, s0: State, s1: State, s2: State, s3: State, end: State, steps: seq<Step>)
    requires |steps| == 4
    requires Enabled(capacity, s0, steps[0]) && Next(s0, steps[0]) == s1
    requires Enabled(capacity, s1, steps[1]) && Next(s1, steps[1]) == s2
    requires Enabled(capacity, s2, steps[2]) && Next(s2, steps[2]) == s3
    requires Enabled(capacity, s3, steps[3]) && Next(s3, steps[3]) == end
    ensures Run(capacity, s0, steps) == Some(end)
  {
    hide Enabled, Next;
    assert steps[3..][1..] == [] && Run(capacity, s3, steps[3..]) == Some(end);
    assert steps[2..][1..] == steps[3..] && Run(capacity, s2, steps[2..]) == Some(end);
    assert steps[1..][1..] == steps[2..] && Run(capacity, s1, steps[1..]) == Some(end);
  }

  // ---------------------------------------------------------------- progress

  /** Steps of evaluations that have begun, without a cancellation. */
  predicate OnItsOwn(step: Step) {
    !step.Begin? && !step.GiveUp? && !step.Close? && !step.CloseRuntime?
  }

  function StepsOf(steps: seq<Step>, e: Id): nat {
    if steps == [] then 0
    else (if Moves(steps[0], e) then 1 else 0) + StepsOf(steps[1..], e)
  }

  lemma RanksAreSmall()
    ensures forall stage :: Rank(stage) <= 7
  {
  }

  /** An evaluation takes at most eight steps. */
  lemma {:induction false} EvaluationsAreShort(capacity: nat, s: State, steps: seq<Step>, e: Id)
    requires Run(capacity, s, steps).Some?
    ensures StepsOf(steps, e) <= if e in s.stages then Rank(s.stages[e]) else 8
    decreases |steps|
  {
    RanksAreSmall();
    hide Next, Enabled, Rank, Moves;
    if steps != [] {
      StepAdvances(capacity, s, steps[0], e);
      EvaluationsAreShort(capacity, Next(s, steps[0]), steps[1..], e);
    }
  }

  /** An evaluation that is not over can go on, or waits for one that can; without cancellation, and
      whether or not the engine was closed. */
  lemma NobodyIsStuck(capacity: nat, s: State, e: Id)
    requires 0 < capacity && Inv(capacity, s) && e in s.stages && s.stages[e] != Gone
    ensures exists step :: OnItsOwn(step) && Enabled(capacity, s, step)
  {
    if At(s, e, Queued) && s.occupied == capacity {
      var h :| h in Holders(s.stages);
      SomeStep(capacity, s, h);
    } else {
      SomeStep(capacity, s, e);
    }
  }

  /** When no evaluation can go on, all are over and every slot is back. */
  lemma DrainedGateIsEmpty(capacity: nat, steps: seq<Step>)
    requires 0 < capacity && Run(capacity, START, steps).Some?
    requires forall step :: OnItsOwn(step) ==> !Enabled(capacity, Run(capacity, START, steps).value, step)
    ensures var s := Run(capacity, START, steps).value;
            s.occupied == 0 && forall e <- s.stages :: s.stages[e] == Gone
  {
    var s := Run(capacity, START, steps).value;
    assert Holders(START.stages) == {} && Claims(START.closers) == {};
    RunsKeepInv(capacity, START, steps);
    forall e | e in s.stages
      ensures s.stages[e] == Gone
    {
      if s.stages[e] != Gone {
        NobodyIsStuck(capacity, s, e);
      }
    }
    assert Holders(s.stages) == {};
  }

  lemma SomeStep(capacity: nat, s: State, e: Id)
    requires Inv(capacity, s) && e in s.stages && s.stages[e] != Gone
    requires At(s, e, Queued) ==> s.occupied < capacity
    ensures exists step :: OnItsOwn(step) && Enabled(capacity, s, step)
  {
    var step := match s.stages[e]
      case Fresh => FirstCheck(e)
      case Opened => Prepare(e, true)
      case Queued => Acquire(e)
      case Admitted => SecondCheck(e)
      case Cleared => Instantiate(e, s.runtimeCloses == 0)
      case Running => Return(e)
      case _ => Release(e);
    if step.Release? {
      assert e in Holders(s.stages);
    }
    assert Enabled(capacity, s, step);
  }
}
