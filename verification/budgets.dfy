/** What every run of callbacks keeps, for any calls and any reactions of the outside world. */
module Budgets {
  import opened Wire
  import opened Paths
  import opened Callbacks
  import opened Hosts
  import GoHost
  import RustHost

  // ---------------------------------------------------------------- one callback

  /** The effect fits what is left of each budget. */
  ghost predicate Affordable(limits: Limits, s: State, e: Effect) {
    && (e.importCounted ==> s.importCalls < limits.maxImports)
    && (e.capabilityCounted ==> s.capabilityCalls < limits.maxCapabilityCalls)
    && s.importBytes + e.charged <= limits.maxTotalImportBytes
    && e.charged < TWO_32
    && (e.accepted.Some? || e.charged > 0 ==> e.importCounted)
  }

  lemma GoEffectIsAffordable(h: Host, s: State, c: Call)
    requires s.importBytes <= h.limits.maxTotalImportBytes
    ensures Affordable(h.limits, s, GoHost.Dispatch(h, s, c))
  {
    hide GoVirtualPath, GoRelativePath;
  }

  lemma RustEffectIsAffordable(h: Host, s: State, c: Call)
    requires s.importBytes <= h.limits.maxTotalImportBytes
    ensures Affordable(h.limits, s, RustHost.Dispatch(h, s, c))
  {
    hide RustVirtualPath, RustImportPath;
  }

  lemma StepKeepsBudget(side: Side, h: Host, s: State, c: Call)
    requires Within(h.limits, s) && Paced(s)
    ensures Within(h.limits, Next(side, h, s, c)) && Paced(Next(side, h, s, c))
  {
    hide GoHost.Dispatch, RustHost.Dispatch, Log;
    var e := Dispatch(side, h, s, c);
    GoEffectIsAffordable(h, s, c);
    RustEffectIsAffordable(h, s, c);
    LogKeepsBudget(h.limits, s, e);
    LogIsNoCount(s, e);
  }

  lemma LogKeepsBudget(limits: Limits, s: State, e: Effect)
    requires Within(limits, s) && Affordable(limits, s, e)
    ensures Within(limits, Count(s, e))
    ensures e.accepted.Some? ==> Within(limits, Log(Count(s, e), e.accepted.value))
  {
    if e.accepted.Some? {
      LogKeepsSet(s, e.accepted.value);
    }
  }

  lemma LogIsNoCount(s: State, e: Effect)
    ensures e.accepted.Some? ==>
              var n := Log(Count(s, e), e.accepted.value);
              n.importCalls == Count(s, e).importCalls && n.importBytes == Count(s, e).importBytes
  {
  }

  // ---------------------------------------------------------------- whole runs

  lemma {:induction false} RunKeepsBudget(side: Side, h: Host, s: State, calls: seq<Call>)
    requires Within(h.limits, s) && Paced(s)
    ensures Within(h.limits, Run(side, h, s, calls)) && Paced(Run(side, h, s, calls))
    decreases |calls|
  {
    hide Within, Paced, Next;
    if calls != [] {
      StepKeepsBudget(side, h, s, calls[0]);
      RunKeepsBudget(side, h, Next(side, h, s, calls[0]), calls[1..]);
    }
  }

  /** The paths the guest was served by one call: none or one. */
  function ServedBy(side: Side, h: Host, s: State, c: Call): seq<Path> {
    if c.operation == OPERATION_RESOLVE_IMPORT && Answer(side, h, s, c).status == HOST_OK
       && c.reaction.importAnswer.Answered?
    then [c.reaction.importAnswer.canonical] else []
  }

  /** Paths whose import was answered with success, in call order, with repetitions. */
  function ServedPaths(side: Side, h: Host, s: State, calls: seq<Call>): seq<Path>
    decreases |calls|
  {
    if calls == [] then []
    else ServedBy(side, h, s, calls[0]) + ServedPaths(side, h, Next(side, h, s, calls[0]), calls[1..])
  }

  /** Bytes of content in the importer's answers to those imports. */
  function ServedBytes(side: Side, h: Host, s: State, calls: seq<Call>): nat
    decreases |calls|
  {
    if calls == [] then 0 else
      (if ServedBy(side, h, s, calls[0]) != [] then |calls[0].reaction.importAnswer.content| else 0)
        + ServedBytes(side, h, Next(side, h, s, calls[0]), calls[1..])
  }

  /** The ledger accounts for all content that the guest received. */
  lemma {:induction false} ServedBytesAreCharged(side: Side, h: Host, s: State, calls: seq<Call>)
    requires Within(h.limits, s) && Paced(s)
    ensures s.importBytes + ServedBytes(side, h, s, calls) <= Run(side, h, s, calls).importBytes
    decreases |calls|
  {
    hide Dispatch, Counts, Charges, Fits, Answer, Within, Paced;
    if calls != [] {
      var c := calls[0];
      GuardsDecide(side, h, s, c);
      StepKeepsBudget(side, h, s, c);
      NextCounts(side, h, s, c);
      hide Next;
      ServedBytesAreCharged(side, h, Next(side, h, s, c), calls[1..]);
    }
  }

  lemma NextCounts(side: Side, h: Host, s: State, c: Call)
    ensures Next(side, h, s, c).importBytes == s.importBytes + Dispatch(side, h, s, c).charged
  {
    hide GoHost.Dispatch, RustHost.Dispatch;
  }

  /** From the start of an evaluation, in either host, no run passes a budget, and the content that the
      guest receives is within the total import limit. */
  lemma RunsKeepBudget(side: Side, h: Host, calls: seq<Call>)
    ensures Within(h.limits, Run(side, h, START, calls))
    ensures ServedBytes(side, h, START, calls) <= h.limits.maxTotalImportBytes
  {
    hide Run, ServedBytes;
    RunKeepsBudget(side, h, START, calls);
    ServedBytesAreCharged(side, h, START, calls);
  }

  // ---------------------------------------------------------------- the order of the log

  /** Where a path is met first. */
  function FirstIndex(paths: seq<Path>, p: Path): (i: nat)
    requires p in paths
    ensures i < |paths| && paths[i] == p && p !in paths[..i]
  {
    if paths[0] == p then 0 else 1 + FirstIndex(paths[1..], p)
  }

  /** log lists the set of paths once each, by first occurrence. */
  ghost predicate FirstOccurrences(log: seq<Path>, paths: seq<Path>) {
    && (forall p :: p in log <==> p in paths)
    && (forall i, j :: 0 <= i < j < |log| ==> FirstIndex(paths, log[i]) < FirstIndex(paths, log[j]))
  }

  lemma {:induction false} FirstIndexInPrefix(a: seq<Path>, b: seq<Path>, p: Path)
    requires p in a
    ensures FirstIndex(a + b, p) == FirstIndex(a, p)
  {
    if a[0] != p {
      assert (a + b)[1..] == a[1..] + b;
      FirstIndexInPrefix(a[1..], b, p);
    }
  }

  lemma FirstIndexBeyond(a: seq<Path>, p: Path)
    requires p !in a
    ensures FirstIndex(a + [p], p) == |a|
  {
    assert (a + [p])[|a|] == p;
    assert forall j :: 0 <= j < |a| ==> (a + [p])[j] == a[j];
  }

  lemma LogKeepsFirstOccurrences(s: State, paths: seq<Path>, p: Path)
    requires LogIsSet(s) && FirstOccurrences(s.resolved, paths)
    ensures FirstOccurrences(Log(s, p).resolved, paths + [p])
  {
    hide FirstIndex;
    var log := Log(s, p).resolved;
    forall i, j | 0 <= i < j < |log|
      ensures FirstIndex(paths + [p], log[i]) < FirstIndex(paths + [p], log[j])
    {
      assert log[i] in s.resolved;
      FirstIndexInPrefix(paths, [p], log[i]);
      if j < |s.resolved| {
        assert log[j] in s.resolved;
        FirstIndexInPrefix(paths, [p], log[j]);
      } else {
        FirstIndexBeyond(paths, p);
      }
    }
  }

  /** After each call of the run the log lists what was served so far, by first service. */
  ghost predicate LogIsService(side: Side, h: Host, s: State, calls: seq<Call>, before: seq<Path>)
    decreases |calls|
  {
    && FirstOccurrences(s.resolved, before)
    && (calls != [] ==>
          LogIsService(side, h, Next(side, h, s, calls[0]), calls[1..], before + ServedBy(side, h, s, calls[0])))
  }

  /** A path that a call logs without serving it had been served before. */
  ghost predicate LostWereServed(side: Side, h: Host, s: State, calls: seq<Call>, before: seq<Path>)
    decreases |calls|
  {
    calls != [] ==>
      var c := calls[0];
      && (Logs(side, h, s, c) && !Serves(side, h, s, c) ==> c.reaction.importAnswer.canonical in before)
      && LostWereServed(side, h, Next(side, h, s, c), calls[1..], before + ServedBy(side, h, s, c))
  }

  lemma NextLogs(side: Side, h: Host, s: State, c: Call)
    requires Paced(s)
    ensures Next(side, h, s, c).resolved
         == if Logs(side, h, s, c) then Log(s, c.reaction.importAnswer.canonical).resolved else s.resolved
    ensures Serves(side, h, s, c) ==> Logs(side, h, s, c)
    ensures ServedBy(side, h, s, c) == if Serves(side, h, s, c) then [c.reaction.importAnswer.canonical] else []
  {
    GuardsDecide(side, h, s, c);
    hide GoHost.Dispatch, RustHost.Dispatch, Charges, Fits, Counts;
  }

  lemma LoggedWasAnswered(side: Side, h: Host, s: State, c: Call)
    ensures Logs(side, h, s, c) ==> c.reaction.importAnswer.Answered?
    ensures Serves(side, h, s, c) ==> c.reaction.importAnswer.Answered?
  {
    hide Counts, VirtualPath;
  }

  /** In Go a path is logged and not served exactly when the success overflows the guest's buffer. */
  lemma GoLosesByOverflow(h: Host, s: State, c: Call)
    requires Paced(s)
    ensures var e := GoHost.Dispatch(h, s, c);
            Logs(Go, h, s, c) && !Serves(Go, h, s, c) <==> e.accepted.Some? && GoHost.Overflows(e, c.capacity)
  {
    GuardsDecide(Go, h, s, c);
    hide GoHost.Dispatch, Charges, Counts;
  }

  /** The log follows the service throughout a run if and only if no call logs a new path without
      serving it. In Go such a call has a response buffer too small for a response within the limit; in
      Rust the response may also be over the limit, or not encode. */
  lemma {:induction false} LogIsServiceExactly(side: Side, h: Host, s: State, calls: seq<Call>, before: seq<Path>)
    requires Within(h.limits, s) && Paced(s) && FirstOccurrences(s.resolved, before)
    ensures LogIsService(side, h, s, calls, before) <==> LostWereServed(side, h, s, calls, before)
    decreases |calls|
  {
    hide Next, Logs, Serves, ServedBy, FirstIndex, Paced;
    if calls != [] {
      var c := calls[0];
      var next := Next(side, h, s, c);
      LoggedWasAnswered(side, h, s, c);
      NextLogs(side, h, s, c);
      StepKeepsBudget(side, h, s, c);
      var served := before + ServedBy(side, h, s, c);
      if Serves(side, h, s, c) {
        LogKeepsFirstOccurrences(s, before, c.reaction.importAnswer.canonical);
        hide FirstOccurrences;
        LogIsServiceExactly(side, h, next, calls[1..], served);
      } else {
        assert served == before;
        if Logs(side, h, s, c) && c.reaction.importAnswer.canonical !in before {
          assert c.reaction.importAnswer.canonical in next.resolved;
        } else {
          assert next.resolved == s.resolved;
          hide FirstOccurrences;
          LogIsServiceExactly(side, h, next, calls[1..], served);
        }
      }
    }
  }

  lemma {:induction false} ServiceAtTheEnd(side: Side, h: Host, s: State, calls: seq<Call>, before: seq<Path>)
    requires LogIsService(side, h, s, calls, before)
    ensures FirstOccurrences(Run(side, h, s, calls).resolved, before + ServedPaths(side, h, s, calls))
    decreases |calls|
  {
    hide Next, ServedBy, FirstOccurrences;
    if calls == [] {
      assert before + [] == before;
    } else {
      var c := calls[0];
      var now, next := ServedBy(side, h, s, c), Next(side, h, s, c);
      ServiceAtTheEnd(side, h, next, calls[1..], before + now);
      var rest := ServedPaths(side, h, next, calls[1..]);
      assert before + now + rest == before + (now + rest);
    }
  }

  /** An answer of the importer with content that one import may have. */
  predicate Acceptable(h: Host, c: Call) {
    c.reaction.importAnswer.Answered? && |c.reaction.importAnswer.content| <= h.limits.maxImportBytes
  }

  /** What a caller can see to in advance: the buffers have room for every response within the limit,
      and, for Rust, every answer of the importer encodes within the limit. */
  ghost predicate RoomForAll(side: Side, h: Host, calls: seq<Call>) {
    forall c <- calls ::
      && c.capacity >= h.limits.maxHostResponseBytes
      && (side == Rust && Acceptable(h, c) ==> Fits(h, c, h.limits.maxHostResponseBytes))
  }

  lemma {:induction false} RoomLosesNothing(side: Side, h: Host, s: State, calls: seq<Call>, before: seq<Path>)
    requires RoomForAll(side, h, calls)
    ensures LostWereServed(side, h, s, calls, before)
    decreases |calls|
  {
    hide Next, Counts, VirtualPath, ServedBy;
    if calls != [] {
      assert calls[0] in calls;
      RoomLosesNothing(side, h, Next(side, h, s, calls[0]), calls[1..], before + ServedBy(side, h, s, calls[0]));
    }
  }

  /** With that room, the resolution list of a run is the list of the paths the guest was served, each
      once and in the order of first service. */
  lemma LogIsFirstOccurrences(side: Side, h: Host, calls: seq<Call>)
    requires RoomForAll(side, h, calls)
    ensures FirstOccurrences(Run(side, h, START, calls).resolved, ServedPaths(side, h, START, calls))
  {
    hide Run, ServedPaths, LogIsService, LostWereServed, RoomForAll;
    RoomLosesNothing(side, h, START, calls, []);
    LogIsServiceExactly(side, h, START, calls, []);
    ServiceAtTheEnd(side, h, START, calls, []);
    assert [] + ServedPaths(side, h, START, calls) == ServedPaths(side, h, START, calls);
  }

  function Zeros(n: nat): (b: Bytes)
    ensures |b| == n
  {
    seq(n, i => 0)
  }

  /** A host with one file X, whose response takes as many bytes as the smallest limit allows. */
  function SmallHost(imports: U32): Host {
    Host(
      Limits(imports, 1, 1, 1, 1, 256), Grants(true, map[]),
      Codec(raw => Some(ImportRequest([], X)), raw => None, (canonical, content) => Some(Zeros(256)), value => None),
      NoVolume(), error => [], text => text)
  }

  /** A request of one byte at address 1, and a buffer behind it, in a memory of 1024 bytes. */
  function AskForX(room: U32): GoHost.GuestCall {
    GoHost.GuestCall(OPERATION_RESOLVE_IMPORT, 1, 1, 2, room)
  }

  function SmallMemory(): Bytes {
    Zeros(1024)
  }

  function XIsEmpty(): Reaction {
    Reaction(Answered(X, []), Failed, false, false)
  }

  function CallForX(room: U32): Call {
    GoHost.Received(SmallMemory(), AskForX(room), XIsEmpty())
  }

  lemma AskingForX(side: Side, s: State, imports: U32, room: U32)
    requires s.importCalls < imports && s.importBytes == 0 && 0 < room <= 256
    ensures var h, c := SmallHost(imports), CallForX(room);
            && BuffersInRange(side, h, SmallMemory(), AskForX(room))
            && Logs(side, h, s, c) && Fits(h, c, h.limits.maxHostResponseBytes)
            && (Fits(h, c, c.capacity) <==> 256 <= room)
            && c.reaction == XIsEmpty()
            && Within(h.limits, START)
  {
    XIsVirtual();
    hide GoVirtualPath, RustVirtualPath, GoRelativePath, RustImportPath;
  }

  lemma OverflowIsALoss(side: Side, h: Host, s: State, c: Call)
    requires Paced(s) && Logs(side, h, s, c) && !Fits(h, c, c.capacity) && Fits(h, c, h.limits.maxHostResponseBytes)
    ensures Answer(side, h, s, c).status == HOST_LIMIT
    ensures Next(side, h, s, c).resolved == Log(s, c.reaction.importAnswer.canonical).resolved
    ensures ServedBy(side, h, s, c) == []
  {
    GuardsDecide(side, h, s, c);
    NextLogs(side, h, s, c);
    hide GoHost.Dispatch, RustHost.Dispatch, Charges, Next;
  }

  /** Without it: a response of 256 bytes, within the limit, does not fit a buffer of 255. The guest is told
      of a limit and the list names X. Both buffers of the call are in order. */
  lemma UnservedPathIsLogged(side: Side)
    ensures var h := SmallHost(1);
            var (after, reply) := Contact(side, h, START, SmallMemory(), AskForX(255), XIsEmpty());
            && BuffersInRange(side, h, SmallMemory(), AskForX(255))
            && reply.status == HOST_LIMIT && after.resolved == [X]
            && ServedBy(side, h, START, CallForX(255)) == []
  {
    AskingForX(side, START, 1, 255);
    hide SmallHost, Logs, Fits, GoHost.Answer, RustHost.Answer, GoHost.Next, RustHost.Next, ServedBy;
    hide GoHost.BuffersInRange, RustHost.BuffersInRange, GoHost.Received;
    OverflowIsALoss(side, SmallHost(1), START, CallForX(255));
  }

  /** The end of a run alone does not tell: when X fits at a second try, log and service agree again. */
  lemma LateServiceHidesTheLoss(side: Side)
    ensures var h, calls := SmallHost(2), [CallForX(255), CallForX(256)];
            && BuffersInRange(side, h, SmallMemory(), AskForX(255))
            && BuffersInRange(side, h, SmallMemory(), AskForX(256))
            && !LogIsService(side, h, START, calls, [])
            && FirstOccurrences(Run(side, h, START, calls).resolved, ServedPaths(side, h, START, calls))
  {
    var h, a, b := SmallHost(2), CallForX(255), CallForX(256);
    AskingForX(side, START, 2, 255);
    var middle := Next(side, h, START, a);
    LoggedIsCounted(side, h, START, a);
    AskingForX(side, middle, 2, 256);
    hide SmallHost, CallForX, AskForX, BuffersInRange;
    LostAndFound(side, h, a, b);
  }

  lemma LostAndFound(side: Side, h: Host, a: Call, b: Call)
    requires Within(h.limits, START)
    requires Logs(side, h, START, a) && !Fits(h, a, a.capacity) && Fits(h, a, h.limits.maxHostResponseBytes)
    requires Serves(side, h, Next(side, h, START, a), b) && b.reaction.importAnswer == a.reaction.importAnswer
    ensures !LogIsService(side, h, START, [a, b], [])
    ensures FirstOccurrences(Run(side, h, START, [a, b]).resolved, ServedPaths(side, h, START, [a, b]))
  {
    LoggedWasAnswered(side, h, START, a);
    OverflowIsALoss(side, h, START, a);
    StepKeepsBudget(side, h, START, a);
    var middle, p := Next(side, h, START, a), a.reaction.importAnswer.canonical;
    NextLogs(side, h, middle, b);
    hide Logs, Serves, Fits, Next, ServedBy, Answer;
    var calls := [a, b];
    assert calls[1..] == [b] && [b][1..] == [];
    assert middle.resolved == [p] && p in middle.resolved;
    assert p in middle.seen;
    var end := Next(side, h, middle, b);
    assert end.resolved == [p];
    assert Run(side, h, middle, [b]) == end && ServedPaths(side, h, middle, [b]) == [p];
    assert Run(side, h, START, calls) == end && ServedPaths(side, h, START, calls) == [p];
    assert FirstOccurrences([p], [p]);
    assert !FirstOccurrences(middle.resolved, []);
  }

  lemma LoggedIsCounted(side: Side, h: Host, s: State, c: Call)
    requires Paced(s) && Logs(side, h, s, c)
    ensures var n := Next(side, h, s, c);
            n.importCalls == s.importCalls + 1
            && n.importBytes == s.importBytes + |c.reaction.importAnswer.content|
  {
    GuardsDecide(side, h, s, c);
    hide GoHost.Dispatch, RustHost.Dispatch, VirtualPath, ImportPath;
  }
}
