/** Guest, Go host and workspace importer together: what a run of imports returns. */
module WorkspaceRun {
  import opened Wire
  import opened Paths
  import opened Callbacks
  import opened Bridge
  import opened Hosts
  import Coupling
  import GoHost
  import Utf8
  import Workspace
  import WorkspaceCanonical

  /** JSON gives back every response whose canonical path is text. */
  ghost predicate ResponsesRoundTrip(g: GuestCodec, h: Codec) {
    forall canonical, content :: Utf8.Valid(canonical) && h.encodeImport(canonical, content).Some? ==>
      g.decodeImport(h.encodeImport(canonical, content).value) == Decoded(true, canonical, content)
  }

  /** And every request made of text. */
  ghost predicate RequestsRoundTrip(g: GuestCodec, h: Codec) {
    forall from, path :: Utf8.Valid(from) && Utf8.Valid(path) && g.encodeImport(from, path).Some? ==>
      h.decodeImport(g.encodeImport(from, path).value) == Some(ImportRequest(from, path))
  }

  // ---------------------------------------------------------------- what is found is virtual

  ghost predicate FindsVirtual(volume: Path -> bool, r: ImportResult) {
    r.error.None? ==> GoVirtualPath(volume, r.foundAt)
  }

  ghost predicate CacheIsVirtual(volume: Path -> bool, b: BridgeState) {
    forall k <- b.imports :: FindsVirtual(volume, b.imports[k])
  }

  /** The result of the import that an event asks for. */
  function ImportOf(g: Guest, h: Host, x: Coupling.World, e: Coupling.Event): ImportResult
    requires e.AskImport?
  {
    Coupling.ImportOf(Go, g, h, x, e)
  }

  function ImportsIn(g: Guest, h: Host, x: Coupling.World, events: seq<Coupling.Event>): seq<ImportResult>
    decreases |events|
  {
    if events == [] then [] else
      (if events[0].AskImport? then [ImportOf(g, h, x, events[0])] else [])
        + ImportsIn(g, h, Coupling.Step(Go, g, h, x, events[0]), events[1..])
  }

  lemma AnswerIsVirtual(g: Guest, h: Host, s: State, c: Call)
    requires ResponsesRoundTrip(g.codec, h.codec) && c.operation == OPERATION_RESOLVE_IMPORT && Paced(s)
    ensures var reply := GoHost.Answer(h, s, c);
            reply.status == HOST_OK ==>
              && c.reaction.importAnswer.Answered?
              && GoVirtualPath(h.volume, c.reaction.importAnswer.canonical)
              && g.codec.decodeImport(reply.body)
                 == Decoded(true, c.reaction.importAnswer.canonical, c.reaction.importAnswer.content)
  {
    EncodingDecides(Go, h, s, c);
    hide Clean, Split, Counts, FinalVerdict, GoHost.Answer, Hosts.Next, Hosts.Dispatch;
  }

  lemma StepFindsVirtual(g: Guest, h: Host, x: Coupling.World, e: Coupling.Event)
    requires ResponsesRoundTrip(g.codec, h.codec) && CacheIsVirtual(h.volume, x.bridge) && Paced(x.host)
    ensures CacheIsVirtual(h.volume, Coupling.Step(Go, g, h, x, e).bridge)
    ensures e.AskImport? ==> FindsVirtual(h.volume, ImportOf(g, h, x, e))
  {
    hide ResponsesRoundTrip, GoHost.Answer, Hosts.Next, Key, GoVirtualPath;
    if e.AskImport? && Coupling.Sends(g, x.bridge, e) {
      AnswerIsVirtual(g, h, x.host, Coupling.CallFor(g, e));
    }
  }

  /** In every run, with any importer, each import that succeeds is found at a virtual path. */
  lemma {:induction false} FoundIsVirtual(g: Guest, h: Host, x: Coupling.World, events: seq<Coupling.Event>)
    requires ResponsesRoundTrip(g.codec, h.codec) && CacheIsVirtual(h.volume, x.bridge)
    requires Within(h.limits, x.host) && Paced(x.host)
    ensures forall r <- ImportsIn(g, h, x, events) :: FindsVirtual(h.volume, r)
    decreases |events|
  {
    hide ResponsesRoundTrip, CacheIsVirtual, Coupling.Step, ImportOf, FindsVirtual, Within, Paced;
    if events != [] {
      StepFindsVirtual(g, h, x, events[0]);
      Coupling.StepKeepsPace(Go, g, h, x, events[0]);
      FoundIsVirtual(g, h, Coupling.Step(Go, g, h, x, events[0]), events[1..]);
    }
  }

  // ---------------------------------------------------------------- the workspace behind the host

  /** How the workspace importer reacts to a request, in time. */
  function Importer(volume: Path -> bool, w: Workspace.Space, p: Pair): Reaction {
    var answer := match Workspace.Import(volume, w, p.from, p.path)
      case Served(canonical, content) => Answered(canonical, content)
      case Denied => Refused
      case ReadError => Broke;
    Reaction(answer, Failed, false, false)
  }

  function PairOf(e: Coupling.Event): Pair
    requires e.AskImport?
  {
    Pair(e.from, e.path)
  }

  /** All imports go to the workspace importer; capability calls may come between them. */
  predicate FromWorkspace(volume: Path -> bool, w: Workspace.Space, events: seq<Coupling.Event>) {
    forall e <- events :: e.AskImport? ==> e.reaction == Importer(volume, w, PairOf(e))
  }

  function PairsIn(events: seq<Coupling.Event>): seq<Pair> {
    if events == [] then []
    else (if events[0].AskImport? then [PairOf(events[0])] else []) + PairsIn(events[1..])
  }

  ghost predicate Setup(g: Guest, h: Host, w: Workspace.Space) {
    && Workspace.WellFormed(w) && h.grants.importer
    && ResponsesRoundTrip(g.codec, h.codec) && RequestsRoundTrip(g.codec, h.codec)
  }

  function Asking(g: Guest, volume: Path -> bool, w: Workspace.Space, p: Pair): Call {
    Coupling.CallFor(g, Coupling.AskImport(p.from, p.path, Importer(volume, w, p)))
  }

  // ---------------------------------------------------------------- what each import returns

  /** The importer serves the pair under a name that the platform does not take for a volume, the request
      can be sent, and content and response are within the limits of one import. */
  ghost predicate Delivers(g: Guest, h: Host, w: Workspace.Space, p: Pair) {
    && Calls(g, EMPTY, p.from, p.path)
    && match Workspace.Import(h.volume, w, p.from, p.path)
       case Served(canonical, content) =>
         && !h.volume(canonical)
         && |content| <= h.limits.maxImportBytes
         && Fits(h, Asking(g, h.volume, w, p), Min(h.limits.maxHostResponseBytes, g.maxResponse))
       case _ => false
  }

  function Content(volume: Path -> bool, w: Workspace.Space, p: Pair): nat {
    match Workspace.Import(volume, w, p.from, p.path) case Served(_, content) => |content| case _ => 0
  }

  /** What is left of the two import budgets is enough for the pair. */
  predicate HasRoom(h: Host, s: State, w: Workspace.Space, p: Pair) {
    && s.importCalls < h.limits.maxImports
    && s.importBytes + Content(h.volume, w, p) <= h.limits.maxTotalImportBytes
  }

  lemma ServedNames(volume: Path -> bool, w: Workspace.Space, p: Pair)
    requires Workspace.WellFormed(w) && Workspace.Import(volume, w, p.from, p.path).Served?
    ensures GoVirtualPath(volume, Workspace.Import(volume, w, p.from, p.path).canonical)
       <==> !volume(Workspace.Import(volume, w, p.from, p.path).canonical)
    ensures Workspace.Import(volume, w, p.from, p.path).canonical != []
    ensures Utf8.Valid(p.from) && Utf8.Valid(p.path) && p.path != [] && GoRelativePath(volume, p.path)
    ensures p.from != [] ==> GoVirtualPath(volume, p.from)
  {
    assert Workspace.Importable(volume, p.from, p.path);
    hide Workspace.WellFormed, Workspace.Import, Clean, Split;
    var root, relative := WorkspaceCanonical.ServedIsGranted(volume, w, p.from, p.path);
    var s := Workspace.Import(volume, w, p.from, p.path);
    WorkspaceCanonical.CanonicalIsVirtual(volume, w, s.canonical, s.content, root, relative);
    WorkspaceCanonical.ServedHasName(volume, w, p.from, p.path);
  }

  /** The host serves exactly the pairs that can be delivered and that its budgets have room for. */
  lemma ServesExactly(g: Guest, h: Host, s: State, w: Workspace.Space, p: Pair)
    requires Setup(g, h, w) && Calls(g, EMPTY, p.from, p.path)
    ensures Serves(Go, h, s, Asking(g, h.volume, w, p)) <==> Delivers(g, h, w, p) && HasRoom(h, s, w, p)
  {
    hide GoVirtualPath, GoRelativePath, Workspace.Import, Workspace.WellFormed, Utf8.Valid, Key, Sendable;
    if Workspace.Import(h.volume, w, p.from, p.path).Served? {
      ServedNames(h.volume, w, p);
    }
  }

  lemma AnswerIsImporters(g: Guest, h: Host, s: State, w: Workspace.Space, p: Pair)
    requires Setup(g, h, w) && Calls(g, EMPTY, p.from, p.path) && Paced(s)
    ensures var reply := GoHost.Answer(h, s, Asking(g, h.volume, w, p));
            && (reply.status == HOST_OK <==> Delivers(g, h, w, p) && HasRoom(h, s, w, p))
            && (reply.status == HOST_OK ==>
                  var t := Workspace.Import(h.volume, w, p.from, p.path);
                  t.Served? && t.canonical != []
                  && g.codec.decodeImport(reply.body) == Decoded(true, t.canonical, t.content))
  {
    hide Workspace.Import, Workspace.WellFormed, Utf8.Valid, Clean, Split, Key, Sendable;
    var c := Asking(g, h.volume, w, p);
    ServesExactly(g, h, s, w, p);
    GuardsDecide(Go, h, s, c);
    AnswerIsVirtual(g, h, s, c);
    hide GoHost.Dispatch, Serves, Counts, ResponsesRoundTrip;
  }

  /** What the import of a pair has to return. */
  ghost predicate Right(g: Guest, h: Host, w: Workspace.Space, p: Pair, r: ImportResult) {
    if Delivers(g, h, w, p) then
      var t := Workspace.Import(h.volume, w, p.from, p.path);
      r == ImportResult(t.content, t.canonical, None)
    else r.error.Some?
  }

  /** The caches hold right results and the importer's contents. */
  ghost predicate CacheIsRight(g: Guest, h: Host, w: Workspace.Space, b: BridgeState) {
    && (forall p: Pair :: NUL !in p.from && Key(p.from, p.path) in b.imports ==>
          Right(g, h, w, p, b.imports[Key(p.from, p.path)]))
    && (forall p: Pair ::
          var t := Workspace.Import(h.volume, w, p.from, p.path);
          t.Served? && t.canonical in b.contents ==> b.contents[t.canonical] == t.content)
  }

  /** The import reaches the host and could be delivered, but a budget is spent. */
  ghost predicate Refuses(g: Guest, h: Host, w: Workspace.Space, x: Coupling.World, p: Pair) {
    Calls(g, x.bridge, p.from, p.path) && Delivers(g, h, w, p) && !HasRoom(h, x.host, w, p)
  }

  lemma PutRight(g: Guest, h: Host, w: Workspace.Space, b: BridgeState, next: BridgeState, p: Pair, r: ImportResult)
    requires Workspace.WellFormed(w) && CacheIsRight(g, h, w, b) && NUL !in p.from && Right(g, h, w, p, r)
    requires next.imports == b.imports[Key(p.from, p.path) := r]
    requires
      var t := Workspace.Import(h.volume, w, p.from, p.path);
      next.contents == b.contents || (t.Served? && next.contents == b.contents[t.canonical := t.content])
    ensures CacheIsRight(g, h, w, next)
  {
    hide Right, Key, Workspace.Import, Workspace.WellFormed;
    forall q: Pair | NUL !in q.from && Key(q.from, q.path) in next.imports
      ensures Right(g, h, w, q, next.imports[Key(q.from, q.path)])
    {
      if Key(q.from, q.path) == Key(p.from, p.path) {
        KeyIsInjective(q.from, q.path, p.from, p.path);
        assert q == p;
      }
    }
    var t := Workspace.Import(h.volume, w, p.from, p.path);
    forall q: Pair |
      var u := Workspace.Import(h.volume, w, q.from, q.path); u.Served? && u.canonical in next.contents
      ensures var u := Workspace.Import(h.volume, w, q.from, q.path); next.contents[u.canonical] == u.content
    {
      var u := Workspace.Import(h.volume, w, q.from, q.path);
      if t.Served? && u.canonical == t.canonical {
        WorkspaceCanonical.ServedContentIsStable(h.volume, w, q.from, q.path, p.from, p.path);
      }
    }
  }

  lemma HeardIsRight(g: Guest, h: Host, w: Workspace.Space, x: Coupling.World, p: Pair)
    requires Setup(g, h, w) && CacheIsRight(g, h, w, x.bridge) && Paced(x.host) && NUL !in p.from
    requires Calls(g, x.bridge, p.from, p.path)
    ensures var heard := Some(GoHost.Answer(h, x.host, Asking(g, h.volume, w, p)));
            var (next, r) := Import(g, x.bridge, p.from, p.path, heard);
            && (Refuses(g, h, w, x, p) ==> r.error.Some?)
            && (!Refuses(g, h, w, x, p) ==> Right(g, h, w, p, r) && CacheIsRight(g, h, w, next))
  {
    var heard := Some(GoHost.Answer(h, x.host, Asking(g, h.volume, w, p)));
    var (next, r) := Import(g, x.bridge, p.from, p.path, heard);
    AnswerIsImporters(g, h, x.host, w, p);
    hide GoHost.Answer, Asking, Key, Workspace.Import, Workspace.WellFormed, Delivers, Sendable, ResponsesRoundTrip,
      RequestsRoundTrip, HasRoom;
    if !Refuses(g, h, w, x, p) {
      var t := Workspace.Import(h.volume, w, p.from, p.path);
      if heard.value.status == HOST_OK {
        assert t.canonical in x.bridge.contents ==> x.bridge.contents[t.canonical] == t.content;
        assert r == ImportResult(t.content, t.canonical, None);
      }
      assert Right(g, h, w, p, r);
      PutRight(g, h, w, x.bridge, next, p, r);
    }
  }

  lemma UnheardIsRight(g: Guest, h: Host, w: Workspace.Space, b: BridgeState, p: Pair)
    requires Workspace.WellFormed(w) && CacheIsRight(g, h, w, b) && NUL !in p.from && !Calls(g, b, p.from, p.path)
    ensures var (next, r) := Import(g, b, p.from, p.path, None);
            Right(g, h, w, p, r) && CacheIsRight(g, h, w, next)
  {
    hide Key, Workspace.Import, Workspace.WellFormed, Asking, Fits;
    var (next, r) := Import(g, b, p.from, p.path, None);
    if Key(p.from, p.path) in b.imports {
      assert Right(g, h, w, p, b.imports[Key(p.from, p.path)]);
    } else if next != b {
      PutRight(g, h, w, b, next, p, r);
    }
  }

  lemma ImportIsRight(g: Guest, h: Host, w: Workspace.Space, x: Coupling.World, e: Coupling.Event)
    requires Setup(g, h, w) && CacheIsRight(g, h, w, x.bridge) && Paced(x.host)
    requires e.AskImport? && e.reaction == Importer(h.volume, w, PairOf(e)) && NUL !in e.from
    ensures Refuses(g, h, w, x, PairOf(e)) ==> ImportOf(g, h, x, e).error.Some?
    ensures !Refuses(g, h, w, x, PairOf(e)) ==>
              Right(g, h, w, PairOf(e), ImportOf(g, h, x, e))
              && CacheIsRight(g, h, w, Coupling.Step(Go, g, h, x, e).bridge)
  {
    var p := PairOf(e);
    assert e == Coupling.AskImport(p.from, p.path, Importer(h.volume, w, p));
    hide Bridge.Import, CacheIsRight, Right, Refuses, Setup, Importer, GoHost.Answer, Hosts.Next;
    if Calls(g, x.bridge, p.from, p.path) {
      HeardIsRight(g, h, w, x, p);
    } else {
      SetupIsWellFormed(g, h, w);
      UnheardIsRight(g, h, w, x.bridge, p);
      NothingRefused(g, h, w, x, p);
    }
  }

  lemma SetupIsWellFormed(g: Guest, h: Host, w: Workspace.Space)
    requires Setup(g, h, w)
    ensures Workspace.WellFormed(w)
  {
    hide Workspace.WellFormed;
  }

  lemma NothingRefused(g: Guest, h: Host, w: Workspace.Space, x: Coupling.World, p: Pair)
    requires !Calls(g, x.bridge, p.from, p.path)
    ensures !Refuses(g, h, w, x, p)
  {
  }

  /** A capability call touches neither the caches nor the import budgets. */
  lemma CapabilityLeavesImports(g: Guest, h: Host, w: Workspace.Space, x: Coupling.World, e: Coupling.Event)
    requires e.AskCapability?
    ensures var n := Coupling.Step(Go, g, h, x, e);
            && n.bridge.imports == x.bridge.imports && n.bridge.contents == x.bridge.contents
            && n.host.importCalls == x.host.importCalls && n.host.importBytes == x.host.importBytes
    ensures CacheIsRight(g, h, w, x.bridge) ==> CacheIsRight(g, h, w, Coupling.Step(Go, g, h, x, e).bridge)
  {
    hide Right, Workspace.Import, Key, GoHost.Answer;
  }

  // ---------------------------------------------------------------- whole runs

  /** How many imports of the run come before the first that a spent budget refuses. */
  ghost function BeforeRefusal(g: Guest, h: Host, w: Workspace.Space, x: Coupling.World, events: seq<Coupling.Event>)
    : nat
    decreases |events|
  {
    if events == [] then 0
    else if events[0].AskImport? && Refuses(g, h, w, x, PairOf(events[0])) then 0
    else (if events[0].AskImport? then 1 else 0)
           + BeforeRefusal(g, h, w, Coupling.Step(Go, g, h, x, events[0]), events[1..])
  }

  lemma {:induction false} ResultsAreRight(g: Guest, h: Host, w: Workspace.Space, x: Coupling.World,
                                           events: seq<Coupling.Event>)
    requires Setup(g, h, w) && FromWorkspace(h.volume, w, events) && forall p <- PairsIn(events) :: NUL !in p.from
    requires CacheIsRight(g, h, w, x.bridge) && Within(h.limits, x.host) && Paced(x.host)
    ensures var results, pairs, n := ImportsIn(g, h, x, events), PairsIn(events), BeforeRefusal(g, h, w, x, events);
            && |results| == |pairs| && n <= |pairs|
            && (forall i :: 0 <= i < n ==> Right(g, h, w, pairs[i], results[i]))
            && (n < |pairs| ==> Delivers(g, h, w, pairs[n]) && results[n].error.Some?)
    decreases |events|
  {
    hide Setup, CacheIsRight, Right, Refuses, ImportOf, Coupling.Step, Within, Paced, Importer, Delivers;
    if events != [] {
      var e, rest := events[0], events[1..];
      var next := Coupling.Step(Go, g, h, x, e);
      assert e in events;
      Coupling.StepKeepsPace(Go, g, h, x, e);
      if e.AskImport? {
        assert PairOf(e) in PairsIn(events);
        ImportIsRight(g, h, w, x, e);
        RefusedIsDeliverable(g, h, w, x, PairOf(e));
        ResultsHaveLength(g, h, next, rest);
      } else {
        CapabilityLeavesImports(g, h, w, x, e);
      }
      if !(e.AskImport? && Refuses(g, h, w, x, PairOf(e))) {
        ResultsAreRight(g, h, w, next, rest);
      }
    }
  }

  lemma RefusedIsDeliverable(g: Guest, h: Host, w: Workspace.Space, x: Coupling.World, p: Pair)
    ensures Refuses(g, h, w, x, p) ==> Delivers(g, h, w, p)
  {
    hide Delivers;
  }

  lemma {:induction false} ResultsHaveLength(g: Guest, h: Host, x: Coupling.World, events: seq<Coupling.Event>)
    ensures |ImportsIn(g, h, x, events)| == |PairsIn(events)|
    decreases |events|
  {
    hide ImportOf, Coupling.Step;
    if events != [] {
      ResultsHaveLength(g, h, Coupling.Step(Go, g, h, x, events[0]), events[1..]);
    }
  }

  /** The importing file of a pair is the evaluation's own (which holds no NUL), or was found by an import
      of the run. */
  ghost predicate Traced(results: seq<ImportResult>, p: Pair) {
    NUL !in p.from || exists r <- results :: r.error.None? && r.foundAt == p.from
  }

  lemma VirtualHasNoNul(volume: Path -> bool, name: Path)
    ensures GoVirtualPath(volume, name) ==> NUL !in name
  {
  }

  /** In a run of imports and capability calls through the guest's caches, the Go host and the workspace
      importer, each import returns what the importer itself answers, or an error exactly when that answer
      cannot be delivered; up to the first import that a spent budget refuses, which gets an error. */
  lemma CachedWorkspaceImports(g: Guest, h: Host, w: Workspace.Space, events: seq<Coupling.Event>)
    requires Setup(g, h, w) && FromWorkspace(h.volume, w, events)
    requires forall p <- PairsIn(events) :: Traced(ImportsIn(g, h, Coupling.World(EMPTY, START), events), p)
    ensures var start := Coupling.World(EMPTY, START);
            var results, pairs := ImportsIn(g, h, start, events), PairsIn(events);
            var n := BeforeRefusal(g, h, w, start, events);
            && |results| == |pairs| && n <= |pairs|
            && (forall i :: 0 <= i < n ==> Right(g, h, w, pairs[i], results[i]))
            && (n < |pairs| ==> Delivers(g, h, w, pairs[n]) && results[n].error.Some?)
  {
    hide Coupling.Step, ImportOf, Right, ImportsIn, PairsIn, BeforeRefusal, GoVirtualPath, Delivers;
    var start := Coupling.World(EMPTY, START);
    assert CacheIsRight(g, h, w, EMPTY) && CacheIsVirtual(h.volume, EMPTY);
    hide CacheIsRight, CacheIsVirtual, FromWorkspace;
    assert ResponsesRoundTrip(g.codec, h.codec);
    hide Setup, ResponsesRoundTrip;
    var results := ImportsIn(g, h, start, events);
    FoundIsVirtual(g, h, start, events);
    forall p | p in PairsIn(events)
      ensures NUL !in p.from
    {
      assert Traced(results, p);
      forall r | r in results && r.error.None?
        ensures NUL !in r.foundAt
      {
        VirtualHasNoNul(h.volume, r.foundAt);
      }
    }
    ResultsAreRight(g, h, w, start, events);
  }

  // ---------------------------------------------------------------- enough for all

  function ContentBytes(volume: Path -> bool, w: Workspace.Space, pairs: seq<Pair>): nat {
    if pairs == [] then 0 else Content(volume, w, pairs[0]) + ContentBytes(volume, w, pairs[1..])
  }

  lemma StepSpends(g: Guest, h: Host, w: Workspace.Space, x: Coupling.World, e: Coupling.Event)
    requires e.AskImport? && e.reaction == Importer(h.volume, w, PairOf(e)) && Paced(x.host)
    ensures var n := Coupling.Step(Go, g, h, x, e).host;
            n.importCalls <= x.host.importCalls + 1
            && n.importBytes <= x.host.importBytes + Content(h.volume, w, PairOf(e))
  {
    var c := Coupling.CallFor(g, e);
    GuardsDecide(Go, h, x.host, c);
    hide GoHost.Dispatch, GoHost.Answer, Workspace.Import, Counts, Fits, Coupling.Consider, Coupling.Sends;
  }

  lemma {:induction false} NothingIsRefused(g: Guest, h: Host, w: Workspace.Space, x: Coupling.World,
                                            events: seq<Coupling.Event>)
    requires FromWorkspace(h.volume, w, events) && Within(h.limits, x.host) && Paced(x.host)
    requires x.host.importCalls + |PairsIn(events)| <= h.limits.maxImports
    requires x.host.importBytes + ContentBytes(h.volume, w, PairsIn(events)) <= h.limits.maxTotalImportBytes
    ensures BeforeRefusal(g, h, w, x, events) == |PairsIn(events)|
    decreases |events|
  {
    hide Coupling.Step, Within, Paced, Importer, Content, Delivers;
    if events != [] {
      var e, rest := events[0], events[1..];
      assert e in events;
      Coupling.StepKeepsPace(Go, g, h, x, e);
      if e.AskImport? {
        StepSpends(g, h, w, x, e);
        assert PairsIn(events)[0] == PairOf(e) && PairsIn(events)[1..] == PairsIn(rest);
      } else {
        CapabilityLeavesImports(g, h, w, x, e);
        assert PairsIn(events) == PairsIn(rest);
      }
      NothingIsRefused(g, h, w, Coupling.Step(Go, g, h, x, e), rest);
    }
  }

  /** When the calls fit their budget and the contents together fit theirs, no import is refused. */
  lemma AffordableWorkspaceImports(g: Guest, h: Host, w: Workspace.Space, events: seq<Coupling.Event>)
    requires Setup(g, h, w) && FromWorkspace(h.volume, w, events)
    requires forall p <- PairsIn(events) :: Traced(ImportsIn(g, h, Coupling.World(EMPTY, START), events), p)
    requires |PairsIn(events)| <= h.limits.maxImports
    requires ContentBytes(h.volume, w, PairsIn(events)) <= h.limits.maxTotalImportBytes
    ensures var results := ImportsIn(g, h, Coupling.World(EMPTY, START), events);
            |results| == |PairsIn(events)|
            && forall i :: 0 <= i < |results| ==> Right(g, h, w, PairsIn(events)[i], results[i])
  {
    hide ImportsIn, PairsIn, BeforeRefusal, Right, Setup, FromWorkspace, Traced, Delivers, ContentBytes;
    CachedWorkspaceImports(g, h, w, events);
    NothingIsRefused(g, h, w, Coupling.World(EMPTY, START), events);
  }
}
