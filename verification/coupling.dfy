/** Guest and host together: an arbitrary evaluator asks, the bridge sends, the Go host or the Rust host
    answers. */
module Coupling {
  import opened Wire
  import opened Paths
  import opened Callbacks
  import opened Bridge
  import opened Hosts
  import GoHost
  import Budgets
  import Memory
  import Utf8

  // ---------------------------------------------------------------- one message

  /** In either host, a call changes guest memory inside the response buffer only, and the guest recovers
      the reply from the packed word and the buffer: the whole payload of a success, and of a diagnostic
      in valid UTF-8 its longest valid start that fits. A success that overflows the buffer comes back as
      a limit, with Go's diagnostic of it and with none of Rust's. */
  lemma MessageRoundTrip(side: Side, h: Host, s: State, memory: Bytes, g: GoHost.GuestCall, r: Reaction)
    requires BuffersInRange(side, h, memory, g)
    ensures var c := GoHost.Received(memory, g, r);
            var reply := Contact(side, h, s, memory, g, r).1;
            var after := Memory.Overwrite(memory, g.responsePtr, reply.body);
            var buffer := after[g.responsePtr..g.responsePtr + g.responseCap];
            && (forall i :: 0 <= i < |memory| && !(g.responsePtr <= i < g.responsePtr + g.responseCap) ==>
                  after[i] == memory[i])
            && Heard(Pack(reply.status, |reply.body|), buffer) == Some(reply)
            && Recovers(side, h, Dispatch(side, h, s, c), g.responseCap, reply)
  {
    hide GoHost.Dispatch, RustHost.Dispatch, Utf8.Valid, Utf8.TrimToValid, Recovers;
    var c := GoHost.Received(memory, g, r);
    var reply := Contact(side, h, s, memory, g, r).1;
    var after := Memory.Overwrite(memory, g.responsePtr, reply.body);
    Memory.OverwriteFrame(memory, g.responsePtr, reply.body);
    PackRoundTrip(reply.status, |reply.body|, 0);
    AnswerRecovers(side, h, s, c);
    var buffer := after[g.responsePtr..g.responsePtr + g.responseCap];
    assert buffer[..|reply.body|] == after[g.responsePtr..g.responsePtr + |reply.body|];
  }

  /** The host acts on the request that the guest placed in its memory. */
  lemma ContactIsCall(side: Side, h: Host, s: State, memory: Bytes, g: GoHost.GuestCall, payload: Bytes, r: Reaction)
    requires BuffersInRange(side, h, memory, g)
    requires g.requestLen == |payload| && memory[g.requestPtr..g.requestPtr + |payload|] == payload
    ensures var c := Call(g.operation, payload, g.responseCap, r);
            Contact(side, h, s, memory, g, r) == (Next(side, h, s, c), Answer(side, h, s, c))
  {
    hide GoHost.Answer, RustHost.Answer, GoHost.Next, RustHost.Next;
  }

  function LongestStart(text: Bytes, room: nat): Bytes {
    Utf8.TrimToValid(text[..Min(|text|, room)])
  }

  /** What the guest recovers of an effect. */
  ghost predicate Recovers(side: Side, h: Host, e: Effect, room: nat, reply: Reply) {
    if GoHost.Overflows(e, room) then
      var words := h.describe(GoHost.CapacityError(e, room));
      && reply.status == HOST_LIMIT
      && (side == Rust ==> reply.body == [])
      && (side == Go && Utf8.Valid(words) ==> reply.body == LongestStart(words, room))
    else
      && reply.status == e.status
      && (e.status == HOST_OK ==> reply.body == e.payload)
      && (e.status != HOST_OK && Utf8.Valid(e.payload) && (side == Rust ==> h.repair(e.payload) == e.payload) ==>
            reply.body == LongestStart(e.payload, room))
  }

  lemma AnswerRecovers(side: Side, h: Host, s: State, c: Call)
    ensures Recovers(side, h, Dispatch(side, h, s, c), c.capacity, Answer(side, h, s, c))
  {
    hide GoHost.Dispatch, RustHost.Dispatch, Utf8.Valid, Utf8.TrimToValid;
    var e := Dispatch(side, h, s, c);
    var words := h.describe(GoHost.CapacityError(e, c.capacity));
    assert e.payload[..|e.payload|] == e.payload && words[..|words|] == words;
    if Utf8.Valid(e.payload) {
      TrimOfValid(e.payload);
    }
    if Utf8.Valid(words) {
      TrimOfValid(words);
    }
  }

  lemma TrimOfValid(s: Bytes)
    requires Utf8.Valid(s)
    ensures Utf8.TrimToValid(s) == s
  {
  }

  // ---------------------------------------------------------------- whole runs

  datatype World = World(bridge: BridgeState, host: State)

  /** What the evaluator may do at any time. */
  datatype Event =
    | AskImport(from: Path, path: Path, reaction: Reaction)
    | AskCapability(name: Bytes, args: seq<Value>, reaction: Reaction)

  /** Does the event reach the host? */
  predicate Sends(g: Guest, b: BridgeState, e: Event) {
    match e
    case AskImport(from, path, _) => Calls(g, b, from, path)
    case AskCapability(name, args, _) =>
      var payload := g.codec.encodeCapability(name, args);
      payload.Some? && Sendable(g, payload.value)
  }

  /** The call it makes then. */
  function CallFor(g: Guest, e: Event): Call {
    var payload :=
      if e.AskImport? then g.codec.encodeImport(e.from, e.path) else g.codec.encodeCapability(e.name, e.args);
    Call(if e.AskImport? then OPERATION_RESOLVE_IMPORT else OPERATION_CALL_CAPABILITY,
         if payload.Some? then payload.value else [], g.maxResponse, e.reaction)
  }

  function Consider(g: Guest, b: BridgeState, e: Event, heard: Option<Reply>): BridgeState {
    match e
    case AskImport(from, path, _) => Import(g, b, from, path, heard).0
    case AskCapability(name, args, _) => Capability(g, b, name, args, heard).0
  }

  function Step(side: Side, g: Guest, h: Host, w: World, e: Event): World {
    if Sends(g, w.bridge, e) then
      var c := CallFor(g, e);
      World(Consider(g, w.bridge, e, Some(Answer(side, h, w.host, c))), Next(side, h, w.host, c))
    else w.(bridge := Consider(g, w.bridge, e, None))
  }

  function Run(side: Side, g: Guest, h: Host, w: World, events: seq<Event>): World
    decreases |events|
  {
    if events == [] then w else Run(side, g, h, Step(side, g, h, w, events[0]), events[1..])
  }

  // ---------------------------------------------------------------- whether the guest understands

  predicate Decodes(g: GuestCodec, imports: bool, body: Bytes) {
    if imports then g.decodeImport(body).ok && g.decodeImport(body).canonical != [] else g.decodeCapability(body).Good?
  }

  /** The guest can decode the response that the host encodes. */
  predicate Readable(g: GuestCodec, h: Host, c: Call) {
    Encoding(h, c).Some? ==> Decodes(g, c.operation == OPERATION_RESOLVE_IMPORT, Encoding(h, c).value)
  }

  /** The host delivers a success that the guest cannot decode. */
  predicate Misread(side: Side, g: Guest, h: Host, w: World, e: Event) {
    var c := CallFor(g, e);
    && Sends(g, w.bridge, e) && Prepares(side, h, w.host, c) && FinalVerdict(h, c).0 == HOST_OK
    && !Readable(g.codec, h, c)
  }

  predicate SomeMisread(side: Side, g: Guest, h: Host, w: World, events: seq<Event>)
    decreases |events|
  {
    events != [] && (Misread(side, g, h, w, events[0])
                     || SomeMisread(side, g, h, Step(side, g, h, w, events[0]), events[1..]))
  }

  /** The guest remembers a failed status exactly when the host recorded an error, a request was too large
      to send, or a success was not understood. */
  ghost predicate Coupled(w: World, misread: bool) {
    w.bridge.lastStatus != HOST_OK <==> w.host.lastError.Some? || w.bridge.localLimit.Some? || misread
  }

  /** A reply is remembered by its status when it fails, and as malformed when it cannot be decoded. */
  lemma RepliesAreRemembered(g: Guest, b: BridgeState, e: Event, r: Reply)
    requires Sends(g, b, e)
    ensures var n := Consider(g, b, e, Some(r));
            && n.localLimit == b.localLimit
            && n.lastStatus == if r.status != HOST_OK then r.status
                               else if !Decodes(g.codec, e.AskImport?, r.body) then HOST_MALFORMED else b.lastStatus
  {
    hide Key;
  }

  /** A request that is not sent is a local limit when it was too large (or empty), and otherwise leaves
      nothing behind: it was answered from the cache, or could not be encoded. */
  lemma UnsentIsALimit(g: Guest, b: BridgeState, e: Event)
    requires !Sends(g, b, e)
    ensures var n, size := Consider(g, b, e, None), |CallFor(g, e).raw|;
            if Encodable(g, e) && !(e.AskImport? && Key(e.from, e.path) in b.imports) then
              && !(0 < size <= g.maxRequest)
              && n.lastStatus == HOST_LIMIT && n.localLimit == Some((g.maxRequest as nat, size))
            else n.lastStatus == b.lastStatus && n.localLimit == b.localLimit
  {
    hide Key;
  }

  predicate Encodable(g: Guest, e: Event) {
    (if e.AskImport? then g.codec.encodeImport(e.from, e.path) else g.codec.encodeCapability(e.name, e.args)).Some?
  }

  lemma StepKeepsCoupling(side: Side, g: Guest, h: Host, w: World, e: Event, misread: bool)
    requires Coupled(w, misread) && Paced(w.host)
    ensures Coupled(Step(side, g, h, w, e), misread || Misread(side, g, h, w, e))
  {
    var c := CallFor(g, e);
    EncodingDecides(side, h, w.host, c);
    hide Hosts.Answer, Hosts.Next, Prepares, Applies, StatusOf, ErrorOf;
    hide Sends, Consider, Decodes, FinalVerdict, Encoding;
    if Sends(g, w.bridge, e) {
      RepliesAreRemembered(g, w.bridge, e, Answer(side, h, w.host, c));
    } else {
      UnsentIsALimit(g, w.bridge, e);
    }
  }

  /** Over every run, from any coupled world. */
  lemma {:induction false} RunsStayCoupled(side: Side, g: Guest, h: Host, w: World, events: seq<Event>, misread: bool)
    requires Coupled(w, misread) && Within(h.limits, w.host) && Paced(w.host)
    ensures Coupled(Run(side, g, h, w, events), misread || SomeMisread(side, g, h, w, events))
    decreases |events|
  {
    hide Step, Coupled, Misread, Within, Paced;
    if events != [] {
      StepKeepsCoupling(side, g, h, w, events[0], misread);
      StepKeepsPace(side, g, h, w, events[0]);
      RunsStayCoupled(side, g, h, Step(side, g, h, w, events[0]), events[1..],
                      misread || Misread(side, g, h, w, events[0]));
    }
  }

  lemma StepKeepsPace(side: Side, g: Guest, h: Host, w: World, e: Event)
    requires Within(h.limits, w.host) && Paced(w.host)
    ensures var n := Step(side, g, h, w, e).host; Within(h.limits, n) && Paced(n)
  {
    hide Within, Paced, Hosts.Next, Hosts.Answer, Sends, Consider;
    Budgets.StepKeepsBudget(side, h, w.host, CallFor(g, e));
  }

  // ---------------------------------------------------------------- what the evaluator gets

  /** What the bridge hears for an event. */
  function HeardFor(side: Side, g: Guest, h: Host, w: World, e: Event): Option<Reply> {
    if Sends(g, w.bridge, e) then Some(Answer(side, h, w.host, CallFor(g, e))) else None
  }

  function ValueOf(side: Side, g: Guest, h: Host, w: World, e: Event): Option<Value>
    requires e.AskCapability?
  {
    Capability(g, w.bridge, e.name, e.args, HeardFor(side, g, h, w, e)).1
  }

  function ImportOf(side: Side, g: Guest, h: Host, w: World, e: Event): ImportResult
    requires e.AskImport?
  {
    Import(g, w.bridge, e.from, e.path, HeardFor(side, g, h, w, e)).1
  }

  /** The host prepares a response to the event and delivers it. */
  predicate Succeeds(side: Side, g: Guest, h: Host, w: World, e: Event) {
    && Sends(g, w.bridge, e) && Prepares(side, h, w.host, CallFor(g, e))
    && FinalVerdict(h, CallFor(g, e)).0 == HOST_OK
  }

  /** A capability call yields the value that the guest decodes from the encoding of the handler's value,
      when the host delivers that, and nothing otherwise. */
  lemma ValueIsDecoded(side: Side, g: Guest, h: Host, w: World, e: Event)
    requires e.AskCapability? && Paced(w.host)
    ensures ValueOf(side, g, h, w, e) ==
              if !Succeeds(side, g, h, w, e) then None
              else match g.codec.decodeCapability(Encoding(h, CallFor(g, e)).value)
                case Good(value) => Some(value)
                case _ => None
    ensures Succeeds(side, g, h, w, e) ==>
              && e.reaction.capabilityAnswer.Returned?
              && Encoding(h, CallFor(g, e)) == h.codec.encodeCapability(e.reaction.capabilityAnswer.value)
              && Encoding(h, CallFor(g, e)).Some?
  {
    EncodingDecides(side, h, w.host, CallFor(g, e));
    hide Hosts.Answer, Hosts.Next, Applies, Counts, Fitting, CountsCapability;
  }

  /** An import that is answered from the cache, or cannot be sent, or is refused by the host, says so; the
      host's refusal with its status and diagnostic. One that the host delivers is what the guest decodes,
      with the content that was first found at its path. */
  lemma ImportIsDecoded(side: Side, g: Guest, h: Host, w: World, e: Event)
    requires e.AskImport? && Paced(w.host)
    ensures var r, c, key := ImportOf(side, g, h, w, e), CallFor(g, e), Key(e.from, e.path);
            if key in w.bridge.imports then r == w.bridge.imports[key]
            else if !Encodable(g, e) then r == ImportResult([], [], Some(Unencodable))
            else if !Sends(g, w.bridge, e) then r == ImportResult([], [], Some(RequestTooLarge))
            else if !Succeeds(side, g, h, w, e) then
              var reply := Answer(side, h, w.host, c);
              reply.status != HOST_OK && r == ImportResult([], [], Some(HostSaid(reply.status, reply.body)))
            else
              var d := g.codec.decodeImport(Encoding(h, c).value);
              && r.foundAt == d.canonical
              && r.content == (if d.canonical in w.bridge.contents then w.bridge.contents[d.canonical] else d.content)
              && r.error == if !d.ok then Some(Undecodable) else if d.canonical == [] then Some(NoCanonical) else None
    ensures Succeeds(side, g, h, w, e) ==> Encoding(h, CallFor(g, e)).Some?
  {
    EncodingDecides(side, h, w.host, CallFor(g, e));
    hide Hosts.Answer, Hosts.Next, Applies, Counts, Prepares, Key;
  }

  /** The values of all capability calls of a run, in order. */
  function ValuesIn(side: Side, g: Guest, h: Host, w: World, events: seq<Event>): seq<Option<Value>>
    decreases |events|
  {
    if events == [] then [] else
      (if events[0].AskCapability? then [ValueOf(side, g, h, w, events[0])] else [])
        + ValuesIn(side, g, h, Step(side, g, h, w, events[0]), events[1..])
  }

  /** What the handlers returned, where the host delivers it. */
  function ReturnedIn(side: Side, g: Guest, h: Host, w: World, events: seq<Event>): seq<Option<Value>>
    decreases |events|
  {
    if events == [] then [] else
      var e := events[0];
      (if !e.AskCapability? then []
       else if Succeeds(side, g, h, w, e) && e.reaction.capabilityAnswer.Returned? then
         [Some(e.reaction.capabilityAnswer.value)]
       else [None])
        + ReturnedIn(side, g, h, Step(side, g, h, w, e), events[1..])
  }

  /** The guest decodes the handler's value from the host's encoding of it. */
  predicate RoundTrips(g: GuestCodec, h: Codec, r: Reaction) {
    r.capabilityAnswer.Returned? && h.encodeCapability(r.capabilityAnswer.value).Some? ==>
      g.decodeCapability(h.encodeCapability(r.capabilityAnswer.value).value) == Good(r.capabilityAnswer.value)
  }

  /** In every run of either host, each capability call whose value survives the codecs gives the evaluator
      exactly the value its handler returned, when the host delivers it, and nothing otherwise. */
  lemma {:induction false} ValuesReturn(side: Side, g: Guest, h: Host, w: World, events: seq<Event>)
    requires Within(h.limits, w.host) && Paced(w.host)
    requires forall e <- events :: e.AskCapability? ==> RoundTrips(g.codec, h.codec, e.reaction)
    ensures ValuesIn(side, g, h, w, events) == ReturnedIn(side, g, h, w, events)
    decreases |events|
  {
    hide Step, Within, Paced, ValueOf, Succeeds, Encoding, CallFor;
    if events != [] {
      var e := events[0];
      assert e in events;
      if e.AskCapability? {
        ValueIsDecoded(side, g, h, w, e);
      }
      StepKeepsPace(side, g, h, w, e);
      ValuesReturn(side, g, h, Step(side, g, h, w, e), events[1..]);
    }
  }

  // ---------------------------------------------------------------- how a failed evaluation is reported

  datatype Verdict = LimitReached | HostFailed | JsonnetFailed

  /** The guest's classification of a failed evaluation. */
  function Classify(b: BridgeState): Verdict {
    if b.localLimit.Some? then LimitReached
    else if b.lastStatus != HOST_OK then HostFailed
    else JsonnetFailed
  }

  /** What the host returns to its caller for that classification: its own first error, or, for a
      guest that reports a host error the host never recorded, the unclassified fall-through. */
  datatype Reported = HostsOwn(error: HostError) | Unclassified | GuestsOwn

  function Report(verdict: Verdict, s: State): Reported {
    if verdict == HostFailed then
      if s.lastError.Some? then HostsOwn(s.lastError.value) else Unclassified
    else GuestsOwn
  }

  /** In every run of either host a failed evaluation falls through, unclassified, if and only if a success
      was not understood while no request was too large and the host recorded no error. Without a local
      limit it is reported with the host's first error exactly when the host recorded one. */
  lemma UnclassifiedExactly(side: Side, g: Guest, h: Host, events: seq<Event>)
    ensures var w := Run(side, g, h, World(EMPTY, START), events);
            var reported := Report(Classify(w.bridge), w.host);
            && (reported == Unclassified
                <==> && w.bridge.localLimit.None? && w.host.lastError.None?
                     && SomeMisread(side, g, h, World(EMPTY, START), events))
            && (w.bridge.localLimit.None? ==> (reported.HostsOwn? <==> w.host.lastError.Some?))
            && (reported.HostsOwn? ==> w.host.lastError == Some(reported.error))
  {
    hide Run, SomeMisread;
    RunsStayCoupled(side, g, h, World(EMPTY, START), events, false);
  }

  /** The guest can decode what the importer or the capability answers, or the host refuses the path. */
  predicate Legible(side: Side, g: Guest, h: Host, e: Event) {
    || Readable(g.codec, h, CallFor(g, e))
    || (e.AskImport? && e.reaction.importAnswer.Answered?
        && !VirtualPath(side, h.volume, e.reaction.importAnswer.canonical))
  }

  lemma {:induction false} LegibleIsUnderstood(side: Side, g: Guest, h: Host, w: World, events: seq<Event>)
    requires forall e <- events :: Legible(side, g, h, e)
    ensures !SomeMisread(side, g, h, w, events)
    decreases |events|
  {
    hide Step, Readable, VirtualPath, FinalVerdict, Sends;
    if events != [] {
      assert events[0] in events;
      LegibleIsUnderstood(side, g, h, Step(side, g, h, w, events[0]), events[1..]);
    }
  }

  /** So the fall-through is unreachable as long as all answers are legible. */
  lemma UnclassifiedIsUnreachable(side: Side, g: Guest, h: Host, events: seq<Event>)
    requires forall e <- events :: Legible(side, g, h, e)
    ensures var w := Run(side, g, h, World(EMPTY, START), events);
            Report(Classify(w.bridge), w.host) != Unclassified
  {
    hide Run, SomeMisread, Legible;
    UnclassifiedExactly(side, g, h, events);
    LegibleIsUnderstood(side, g, h, World(EMPTY, START), events);
  }

  /** A capability returns a value that the host can encode and the guest cannot decode, such as a number
      beyond the range of a double. */
  lemma UnclassifiedIsReachable(args: seq<Value>, value: Value)
    ensures var h := Host(
              Limits(1, 1, 1, 1, 1, 256), Grants(true, map[X := |args|]),
              Codec(raw => None, raw => Some(CapabilityRequest(X, args)), (canonical, content) => None, v => Some([0])),
              NoVolume(), error => [], text => text);
            var g := Guest(1, 256, GuestCodec((from, path) => None, (name, arguments) => Some([0]),
                                              body => Decoded(false, [], []), body => BadValue));
            var call := AskCapability(X, args, Reaction(Refused, Returned(value), false, false));
            var w := Run(Go, g, h, World(EMPTY, START), [call]);
            Report(Classify(w.bridge), w.host) == Unclassified
  {
    assert forall e: Event :: [e][1..] == [];
  }

  /** The sizes the two sides agreed on leave no callback without a buffer check: a request the bridge
      sends from its own buffers passes both range checks of either host. */
  lemma BridgeBuffersAreInRange(side: Side, g: Guest, h: Host, memory: Bytes, operation: U32, payload: Bytes,
                                requestPtr: U32, responsePtr: U32)
    requires g.maxRequest == h.limits.maxHostRequestBytes && g.maxResponse == h.limits.maxHostResponseBytes
    requires Sendable(g, payload) && g.maxResponse > 0 && |memory| <= 0x8000_0000
    requires 0 < requestPtr && requestPtr + |payload| <= |memory|
    requires 0 < responsePtr && responsePtr + g.maxResponse <= |memory|
    ensures BuffersInRange(side, h, memory,
              GoHost.GuestCall(operation, requestPtr, |payload|, responsePtr, g.maxResponse))
  {
  }
}
