/** The Go host locks its books for each step of a callback separately, so callbacks that overlap
    interleave at this grain. */
module Sections {
  import opened Wire
  import opened Paths
  import opened Callbacks
  import Budgets
  import GoHost

  type Id = nat

  /** An import in flight: counted, and then charged with the length of its content. */
  datatype Phase = Counted | Charged(length: U32)

  datatype Entry = Entry(path: Path, length: U32)

  /** The books, the imports in flight, and the history of what was logged, with repetitions. */
  datatype Shared = Shared(state: State, imports: map<Id, Phase>, history: seq<Entry>)

  datatype Section =
    | CountImport(id: Id)
    | ChargeImport(id: Id, length: U32)
    | LogImport(id: Id, path: Path)
    | AbandonImport(id: Id)
    | CountCapability
    | RecordError(error: HostError)

  predicate Enabled(x: Shared, section: Section) {
    match section
    case CountImport(id) => id !in x.imports
    case ChargeImport(id, _) => id in x.imports && x.imports[id].Counted?
    case LogImport(id, _) => id in x.imports && x.imports[id].Charged?
    case AbandonImport(id) => id in x.imports
    case _ => true
  }

  /** A refused count starts no import, and a refused charge ends one. */
  function Enter(limits: Limits, x: Shared, section: Section): Shared
    requires Enabled(x, section)
  {
    var s := x.state;
    match section
    case CountImport(id) =>
      if s.importCalls >= limits.maxImports then x
      else x.(state := s.(importCalls := s.importCalls + 1), imports := x.imports[id := Counted])
    case ChargeImport(id, length) =>
      if s.importBytes + length > limits.maxTotalImportBytes then x.(imports := x.imports - {id})
      else x.(state := s.(importBytes := s.importBytes + length), imports := x.imports[id := Charged(length)])
    case LogImport(id, path) =>
      Shared(Log(s, path), x.imports - {id}, x.history + [Entry(path, x.imports[id].length)])
    case AbandonImport(id) => x.(imports := x.imports - {id})
    case CountCapability =>
      if s.capabilityCalls >= limits.maxCapabilityCalls then x
      else x.(state := s.(capabilityCalls := s.capabilityCalls + 1))
    case RecordError(error) => x.(state := Record(s, Some(error)))
  }

  ghost predicate Schedule(limits: Limits, x: Shared, sections: seq<Section>, end: Shared)
    decreases |sections|
  {
    if sections == [] then end == x
    else Enabled(x, sections[0]) && Schedule(limits, Enter(limits, x, sections[0]), sections[1..], end)
  }

  // ---------------------------------------------------------------- bytes in flight

  function Weight(p: Phase): nat {
    if p.Charged? then p.length else 0
  }

  ghost function Pick(imports: map<Id, Phase>): (id: Id)
    requires imports != map[]
    ensures id in imports
  {
    var id :| id in imports;
    id
  }

  /** Bytes charged for imports in flight. */
  ghost function Pending(imports: map<Id, Phase>): nat
    decreases |imports|
  {
    if imports == map[] then 0 else
      var id := Pick(imports);
      Weight(imports[id]) + Pending(imports - {id})
  }

  lemma {:induction false} PendingWithout(imports: map<Id, Phase>, id: Id)
    requires id in imports
    ensures Pending(imports) == Weight(imports[id]) + Pending(imports - {id})
    decreases |imports|
  {
    hide Weight;
    var first := Pick(imports);
    if first != id {
      PendingWithout(imports - {first}, id);
      PendingWithout(imports - {id}, first);
      assert imports - {first} - {id} == imports - {id} - {first};
    }
  }

  lemma PendingPut(imports: map<Id, Phase>, id: Id, p: Phase)
    ensures Pending(imports[id := p]) == Weight(p) + Pending(imports - {id})
    ensures id !in imports ==> Pending(imports - {id}) == Pending(imports)
  {
    PendingWithout(imports[id := p], id);
    assert imports[id := p] - {id} == imports - {id};
    if id !in imports {
      assert imports - {id} == imports;
    }
  }

  function Bytes(history: seq<Entry>): nat {
    if history == [] then 0 else Bytes(history[..|history| - 1]) + history[|history| - 1].length
  }

  function PathsOf(history: seq<Entry>): seq<Path> {
    seq(|history|, i requires 0 <= i < |history| => history[i].path)
  }

  // ---------------------------------------------------------------- what every schedule keeps

  /** The budgets hold, the content of logged imports and of those in flight is charged, and there are no
      more of them than were counted. */
  ghost predicate Ledger(limits: Limits, x: Shared) {
    && x.state.importCalls <= limits.maxImports
    && x.state.capabilityCalls <= limits.maxCapabilityCalls
    && x.state.importBytes <= limits.maxTotalImportBytes
    && Bytes(x.history) + Pending(x.imports) <= x.state.importBytes
    && |x.state.resolved| + |x.imports| <= x.state.importCalls
  }

  /** The log lists what was logged, by first occurrence. */
  ghost predicate Listed(x: Shared) {
    LogIsSet(x.state) && Budgets.FirstOccurrences(x.state.resolved, PathsOf(x.history))
  }

  lemma Sizes(imports: map<Id, Phase>, id: Id, p: Phase)
    ensures |imports[id := p]| == |imports - {id}| + 1
    ensures |imports| == |imports - {id}| + (if id in imports then 1 else 0)
  {
    var others := imports - {id};
    assert imports[id := p] == others[id := p];
    if id in imports {
      assert imports == others[id := imports[id]];
    } else {
      assert imports == others;
    }
  }

  lemma CountKeepsLedger(limits: Limits, x: Shared, id: Id)
    requires Ledger(limits, x) && Enabled(x, CountImport(id))
    ensures Ledger(limits, Enter(limits, x, CountImport(id)))
  {
    hide Pending, Bytes;
    PendingPut(x.imports, id, Counted);
    Sizes(x.imports, id, Counted);
  }

  lemma ChargeKeepsLedger(limits: Limits, x: Shared, id: Id, length: U32)
    requires Ledger(limits, x) && Enabled(x, ChargeImport(id, length))
    ensures Ledger(limits, Enter(limits, x, ChargeImport(id, length)))
  {
    hide Pending, Bytes;
    PendingWithout(x.imports, id);
    PendingPut(x.imports, id, Charged(length));
    Sizes(x.imports, id, Charged(length));
  }

  lemma LogKeepsLedger(limits: Limits, x: Shared, id: Id, path: Path)
    requires Ledger(limits, x) && Enabled(x, LogImport(id, path))
    ensures Ledger(limits, Enter(limits, x, LogImport(id, path)))
  {
    hide Pending, Bytes, Log;
    PendingWithout(x.imports, id);
    Sizes(x.imports, id, Counted);
    BytesAppend(x.history, Entry(path, x.imports[id].length));
    LogGrows(x.state, path);
  }

  lemma LedgerIsKept(limits: Limits, x: Shared, section: Section)
    requires Ledger(limits, x) && Enabled(x, section)
    ensures Ledger(limits, Enter(limits, x, section))
  {
    hide Pending, Bytes, Log;
    match section
    case CountImport(id) => CountKeepsLedger(limits, x, id);
    case ChargeImport(id, length) => ChargeKeepsLedger(limits, x, id, length);
    case LogImport(id, path) => LogKeepsLedger(limits, x, id, path);
    case AbandonImport(id) =>
      PendingWithout(x.imports, id);
      Sizes(x.imports, id, Counted);
    case _ =>
  }

  lemma LogGrows(s: State, path: Path)
    ensures var n := Log(s, path);
            |n.resolved| <= |s.resolved| + 1 && n == s.(resolved := n.resolved, seen := n.seen)
  {
  }

  lemma BytesAppend(history: seq<Entry>, entry: Entry)
    ensures Bytes(history + [entry]) == Bytes(history) + entry.length
  {
    assert (history + [entry])[..|history|] == history;
  }

  lemma ListIsKept(limits: Limits, x: Shared, section: Section)
    requires Listed(x) && Enabled(x, section)
    ensures Listed(Enter(limits, x, section))
  {
    hide Budgets.FirstOccurrences;
    if section.LogImport? {
      LogKeepsSet(x.state, section.path);
      Budgets.LogKeepsFirstOccurrences(x.state, PathsOf(x.history), section.path);
      assert PathsOf(Enter(limits, x, section).history) == PathsOf(x.history) + [section.path];
    }
  }

  lemma {:induction false} SchedulesKeep(limits: Limits, x: Shared, sections: seq<Section>, end: Shared)
    requires Ledger(limits, x) && Listed(x) && Schedule(limits, x, sections, end)
    ensures Ledger(limits, end) && Listed(end)
    decreases |sections|
  {
    hide Ledger, Listed, Enter, Enabled;
    if sections != [] {
      LedgerIsKept(limits, x, sections[0]);
      ListIsKept(limits, x, sections[0]);
      SchedulesKeep(limits, Enter(limits, x, sections[0]), sections[1..], end);
    }
  }

  /** However the sections of overlapping callbacks interleave, no budget is passed, the content of the
      logged imports is within the total import limit, and the log is a duplicate-free list of the
      seen paths, by first occurrence, no longer than the number of counted imports. */
  lemma SchedulesKeepBudget(limits: Limits, sections: seq<Section>, end: Shared)
    requires Schedule(limits, Shared(START, map[], []), sections, end)
    ensures Within(limits, end.state)
    ensures Bytes(end.history) <= limits.maxTotalImportBytes
    ensures Budgets.FirstOccurrences(end.state.resolved, PathsOf(end.history))
  {
    hide Schedule;
    assert Ledger(limits, Shared(START, map[], []));
    SchedulesKeep(limits, Shared(START, map[], []), sections, end);
  }

  // ---------------------------------------------------------------- a callback that runs alone

  lemma {:induction false} SchedulesCompose(limits: Limits, x: Shared, first: seq<Section>, middle: Shared,
                                            second: seq<Section>, end: Shared)
    requires Schedule(limits, x, first, middle) && Schedule(limits, middle, second, end)
    ensures Schedule(limits, x, first + second, end)
    decreases |first|
  {
    if first == [] {
      assert first + second == second;
    } else {
      assert (first + second)[1..] == first[1..] + second;
      SchedulesCompose(limits, Enter(limits, x, first[0]), first[1..], middle, second, end);
    }
  }

  /** The sections an import or a capability call passes before its error is recorded. */
  function CountingSections(e: Effect): seq<Section>
    requires e.charged < TWO_32
  {
    if e.importCounted then
      if e.accepted.None? then [CountImport(0), AbandonImport(0)]
      else [CountImport(0), ChargeImport(0, e.charged),
            if e.status == HOST_OK then LogImport(0, e.accepted.value) else AbandonImport(0)]
    else if e.capabilityCounted then [CountCapability]
    else []
  }

  /** What they add to the history. */
  function Logged(e: Effect): seq<Entry>
    requires e.charged < TWO_32
  {
    if e.status == HOST_OK && e.accepted.Some? then [Entry(e.accepted.value, e.charged)] else []
  }

  function RecordingSections(e: Effect, capacity: nat): seq<Section> {
    (if e.error.Some? then [RecordError(e.error.value)] else [])
      + (if GoHost.Overflows(e, capacity) then [RecordError(GoHost.CapacityError(e, capacity))] else [])
  }

  ghost predicate Ordinary(limits: Limits, s: State, e: Effect) {
    && Budgets.Affordable(limits, s, e)
    && (e.charged > 0 ==> e.accepted.Some?) && !(e.importCounted && e.capabilityCounted)
  }

  lemma ImportIsASchedule(limits: Limits, s: State, e: Effect, history: seq<Entry>)
    requires Ordinary(limits, s, e) && e.importCounted
    ensures Schedule(limits, Shared(s, map[], history), CountingSections(e),
                     Shared(GoHost.Change(s, e), map[], history + Logged(e)))
  {
    var x, sections := Shared(s, map[], history), CountingSections(e);
    var end := Shared(GoHost.Change(s, e), map[], history + Logged(e));
    var y := Enter(limits, x, sections[0]);
    assert Enabled(y, sections[1]);
    var z := Enter(limits, y, sections[1]);
    if e.accepted.Some? {
      assert sections[1..][1..] == sections[2..] && sections[2..][1..] == [];
      assert Enabled(z, sections[2]);
      var last := Enter(limits, z, sections[2]);
      assert last.imports == end.imports && last.history == end.history && last.state == end.state;
      assert Schedule(limits, z, sections[2..], end);
    } else {
      assert sections[1..][1..] == [] && z.imports == end.imports && z.history == end.history && z.state == end.state;
    }
    assert Schedule(limits, y, sections[1..], end);
  }

  lemma CountingIsASchedule(limits: Limits, s: State, e: Effect, history: seq<Entry>)
    requires Ordinary(limits, s, e)
    ensures Schedule(limits, Shared(s, map[], history), CountingSections(e),
                     Shared(GoHost.Change(s, e), map[], history + Logged(e)))
  {
    if e.importCounted {
      ImportIsASchedule(limits, s, e, history);
    } else {
      assert history + Logged(e) == history;
      if e.capabilityCounted {
        assert CountingSections(e)[1..] == [];
      }
    }
  }

  lemma RecordingIsASchedule(limits: Limits, s: State, e: Effect, capacity: nat, history: seq<Entry>)
    ensures var recorded := Record(s, e.error);
            Schedule(limits, Shared(s, map[], history), RecordingSections(e, capacity),
                     Shared(if GoHost.Overflows(e, capacity)
                            then Record(recorded, Some(GoHost.CapacityError(e, capacity))) else recorded,
                            map[], history))
  {
    var sections := RecordingSections(e, capacity);
    if sections != [] {
      assert sections[1..] == [] || sections[1..][1..] == [];
    }
  }

  lemma EffectIsOrdinary(h: Host, s: State, c: Call)
    requires s.importBytes <= h.limits.maxTotalImportBytes
    ensures Ordinary(h.limits, s, GoHost.Dispatch(h, s, c))
  {
    Budgets.GoEffectIsAffordable(h, s, c);
    hide GoVirtualPath, GoRelativePath, Budgets.Affordable;
  }

  /** A Go callback that runs alone is one such schedule. */
  lemma CallIsASchedule(h: Host, s: State, c: Call, history: seq<Entry>)
    requires s.importBytes <= h.limits.maxTotalImportBytes
    ensures var e := GoHost.Dispatch(h, s, c);
            && e.charged < TWO_32
            && Schedule(h.limits, Shared(s, map[], history), CountingSections(e) + RecordingSections(e, c.capacity),
                        Shared(GoHost.Next(h, s, c), map[], history + Logged(e)))
  {
    EffectIsOrdinary(h, s, c);
    hide GoHost.Dispatch, Schedule, CountingSections, RecordingSections, Logged;
    var e := GoHost.Dispatch(h, s, c);
    var changed, logged := GoHost.Change(s, e), history + Logged(e);
    CountingIsASchedule(h.limits, s, e, history);
    RecordingIsASchedule(h.limits, changed, e, c.capacity, logged);
    SchedulesCompose(h.limits, Shared(s, map[], history), CountingSections(e), Shared(changed, map[], logged),
                     RecordingSections(e, c.capacity), Shared(GoHost.Next(h, s, c), map[], logged));
  }
}
