/** The two hosts under one name, and what an import has to pass before its content is charged, logged
    and served. */
module Hosts {
  import opened Wire
  import opened Paths
  import opened Callbacks
  import GoHost
  import RustHost
  import Utf8

  datatype Side = Go | Rust

  function Dispatch(side: Side, h: Host, s: State, c: Call): Effect {
    if side == Go then GoHost.Dispatch(h, s, c) else RustHost.Dispatch(h, s, c)
  }

  function Change(side: Side, s: State, e: Effect): State {
    if side == Go then GoHost.Change(s, e) else RustHost.Change(s, e)
  }

  function Next(side: Side, h: Host, s: State, c: Call): State {
    if side == Go then GoHost.Next(h, s, c) else RustHost.Next(h, s, c)
  }

  function Answer(side: Side, h: Host, s: State, c: Call): Reply {
    if side == Go then GoHost.Answer(h, s, c) else RustHost.Answer(h, s, c)
  }

  function Contact(side: Side, h: Host, s: State, memory: Bytes, g: GoHost.GuestCall, r: Reaction): (State, Reply) {
    if side == Go then GoHost.Contact(h, s, memory, g, r) else RustHost.Contact(h, s, memory, g, r)
  }

  predicate BuffersInRange(side: Side, h: Host, memory: Bytes, g: GoHost.GuestCall) {
    if side == Go then GoHost.BuffersInRange(h, memory, g) else RustHost.BuffersInRange(h, memory, g)
  }

  function Run(side: Side, h: Host, s: State, calls: seq<Call>): State
    decreases |calls|
  {
    if calls == [] then s else Run(side, h, Next(side, h, s, calls[0]), calls[1..])
  }

  // ---------------------------------------------------------------- the guards of an import

  predicate VirtualPath(side: Side, volume: Path -> bool, name: Path) {
    if side == Go then GoVirtualPath(volume, name) else RustVirtualPath(volume, name)
  }

  predicate ImportPath(side: Side, volume: Path -> bool, name: Path) {
    if side == Go then GoRelativePath(volume, name) else RustImportPath(volume, name)
  }

  /** The call is a well-formed import request within the call budget. */
  predicate Counts(side: Side, h: Host, s: State, c: Call) {
    && c.operation == OPERATION_RESOLVE_IMPORT
    && s.importCalls < h.limits.maxImports
    && match h.codec.decodeImport(c.raw)
       case None => false
       case Some(q) =>
         && q.path != [] && (q.from == [] || VirtualPath(side, h.volume, q.from))
         && ImportPath(side, h.volume, q.path)
  }

  /** The call is a well-formed capability request. */
  predicate NamesCapability(h: Host, c: Call) {
    && c.operation == OPERATION_CALL_CAPABILITY
    && match h.codec.decodeCapability(c.raw) case None => false case Some(q) => q.name != []
  }

  /** And within the call budget. */
  predicate CountsCapability(h: Host, s: State, c: Call) {
    NamesCapability(h, c) && s.capabilityCalls < h.limits.maxCapabilityCalls
  }

  /** The importer answered in time, with content that fits both byte limits. */
  predicate Charges(side: Side, h: Host, s: State, c: Call) {
    && Counts(side, h, s, c)
    && h.grants.importer
    && !(side == Rust && c.reaction.expiredBefore) && !c.reaction.expiredAfter
    && c.reaction.importAnswer.Answered?
    && VirtualPath(side, h.volume, c.reaction.importAnswer.canonical)
    && |c.reaction.importAnswer.content| <= h.limits.maxImportBytes
    && s.importBytes + |c.reaction.importAnswer.content| <= h.limits.maxTotalImportBytes
  }

  /** The answer can be encoded in the given room. */
  predicate Fits(h: Host, c: Call, room: nat) {
    && c.reaction.importAnswer.Answered?
    && match h.codec.encodeImport(c.reaction.importAnswer.canonical, c.reaction.importAnswer.content)
       case None => false
       case Some(encoded) => |encoded| <= room
  }

  /** Go logs a path once its response is known to be within the response limit, Rust as soon as its
      content is charged. */
  predicate Logs(side: Side, h: Host, s: State, c: Call) {
    Charges(side, h, s, c) && (side == Go ==> Fits(h, c, h.limits.maxHostResponseBytes))
  }

  /** The guest receives the content. */
  predicate Serves(side: Side, h: Host, s: State, c: Call) {
    Charges(side, h, s, c) && Fits(h, c, h.limits.maxHostResponseBytes) && Fits(h, c, c.capacity)
  }

  /** No run gets further: each counted import charges less than 2^32 bytes. */
  ghost predicate Paced(s: State) {
    s.importBytes <= s.importCalls * (TWO_32 - 1)
  }

  /** These guards decide what a callback does: the bytes it charges, the path it logs, and whether its
      import is answered with success. In a paced state Rust's saturating sum is the true sum. */
  lemma GuardsDecide(side: Side, h: Host, s: State, c: Call)
    requires Paced(s)
    ensures var e := Dispatch(side, h, s, c);
            && (e.importCounted <==> Counts(side, h, s, c))
            && (e.capabilityCounted <==> CountsCapability(h, s, c))
            && (e.accepted.Some? <==> Charges(side, h, s, c))
            && (Charges(side, h, s, c) ==>
                  && e.accepted == Some(c.reaction.importAnswer.canonical)
                  && e.charged == |c.reaction.importAnswer.content|
                  && (e.status == HOST_OK <==> Fits(h, c, h.limits.maxHostResponseBytes))
                  && (e.status == HOST_OK ==> Some(e.payload) == h.codec.encodeImport(
                        c.reaction.importAnswer.canonical, c.reaction.importAnswer.content)))
            && (!Charges(side, h, s, c) ==> e.charged == 0)
            && (Serves(side, h, s, c) <==>
                  c.operation == OPERATION_RESOLVE_IMPORT && Answer(side, h, s, c).status == HOST_OK)
  {
    hide GoVirtualPath, RustVirtualPath, GoRelativePath, RustImportPath;
  }

  // ---------------------------------------------------------------- the response of either operation

  /** The capability is granted. */
  predicate Granted(h: Host, c: Call) {
    match h.codec.decodeCapability(c.raw) case None => false case Some(q) => q.name in h.grants.capabilities
  }

  /** And asked for with as many arguments as it declares. */
  predicate Fitting(h: Host, c: Call) {
    match h.codec.decodeCapability(c.raw)
    case None => false
    case Some(q) => q.name in h.grants.capabilities && |q.args| == h.grants.capabilities[q.name]
  }

  /** The capability is granted, was called in time, and returned a value. */
  predicate Returns(side: Side, h: Host, s: State, c: Call) {
    && CountsCapability(h, s, c) && Fitting(h, c)
    && !(side == Rust && c.reaction.expiredBefore) && !c.reaction.expiredAfter
    && c.reaction.capabilityAnswer.Returned?
  }

  /** The callback has something to encode. */
  predicate Prepares(side: Side, h: Host, s: State, c: Call) {
    Charges(side, h, s, c) || Returns(side, h, s, c)
  }

  /** Its encoding, if there is one. */
  function Encoding(h: Host, c: Call): Option<Bytes> {
    if c.operation == OPERATION_RESOLVE_IMPORT && c.reaction.importAnswer.Answered? then
      h.codec.encodeImport(c.reaction.importAnswer.canonical, c.reaction.importAnswer.content)
    else if c.operation == OPERATION_CALL_CAPABILITY && c.reaction.capabilityAnswer.Returned? then
      h.codec.encodeCapability(c.reaction.capabilityAnswer.value)
    else None
  }

  /** What becomes of the callback by its encoding and the response limit alone. */
  function LimitVerdict(h: Host, c: Call): (U32, Option<HostError>) {
    var imports, limit := c.operation == OPERATION_RESOLVE_IMPORT, h.limits.maxHostResponseBytes;
    match Encoding(h, c)
    case None => (HOST_HANDLER_FAILURE, Some(if imports then ImportFailed else CapabilityFailed))
    case Some(b) =>
      if |b| > limit then
        (HOST_LIMIT, Some(LimitExceeded(if imports then ImportResponse else CapabilityResponse, limit, |b|)))
      else (HOST_OK, None)
  }

  /** And by the room in the guest's buffer. */
  function FinalVerdict(h: Host, c: Call): (U32, Option<HostError>) {
    match Encoding(h, c)
    case Some(b) =>
      if LimitVerdict(h, c).0 == HOST_OK && |b| > c.capacity then
        (HOST_LIMIT, Some(LimitExceeded(ResponseCapacity, c.capacity, |b|)))
      else LimitVerdict(h, c)
    case None => LimitVerdict(h, c)
  }

  // ---------------------------------------------------------------- why a callback prepares no response

  datatype Cause =
    | UnknownOperation | Malformed | PathDenied | ImportsSpent | CapabilitiesSpent
    | ExpiredBefore | NoImporter | NotGranted | WrongArity
    | HandlerPanicked | ExpiredAfter | HandlerRefused | HandlerBroke
    | BadCanonical | ContentTooLong | TotalSpent

  /** The request names an importing file that is virtual, or none, and a path. */
  predicate NamesImport(side: Side, h: Host, c: Call) {
    && c.operation == OPERATION_RESOLVE_IMPORT
    && match h.codec.decodeImport(c.raw)
       case None => false
       case Some(q) => q.path != [] && (q.from == [] || VirtualPath(side, h.volume, q.from))
  }

  /** And the path may be imported. */
  predicate NamesPath(side: Side, h: Host, c: Call) {
    NamesImport(side, h, c) && ImportPath(side, h.volume, h.codec.decodeImport(c.raw).value.path)
  }

  /** The call passed every test before its handler is looked for. */
  predicate Admitted(side: Side, h: Host, s: State, c: Call) {
    Counts(side, h, s, c) || CountsCapability(h, s, c)
  }

  /** Rust stops here when the deadline has passed. */
  predicate Late(side: Side, c: Call) {
    side == Rust && c.reaction.expiredBefore
  }

  /** The handler is called. */
  predicate Invokes(side: Side, h: Host, s: State, c: Call) {
    && !Late(side, c)
    && ((Counts(side, h, s, c) && h.grants.importer) || (CountsCapability(h, s, c) && Fitting(h, c)))
  }

  predicate Panics(c: Call) {
    if c.operation == OPERATION_RESOLVE_IMPORT then c.reaction.importAnswer.Panicked?
    else c.reaction.capabilityAnswer.Crashed?
  }

  /** It answered with something to serve. */
  predicate Gives(c: Call) {
    if c.operation == OPERATION_RESOLVE_IMPORT then c.reaction.importAnswer.Answered?
    else c.reaction.capabilityAnswer.Returned?
  }

  /** The answer is looked at: in Go only while the context is alive. */
  predicate Looks(side: Side, h: Host, s: State, c: Call) {
    Invokes(side, h, s, c) && !Panics(c) && !(c.reaction.expiredAfter && (side == Go || Gives(c)))
  }

  /** The import was answered in time, under a virtual path. */
  predicate Named(side: Side, h: Host, s: State, c: Call) {
    && c.operation == OPERATION_RESOLVE_IMPORT && Looks(side, h, s, c) && c.reaction.importAnswer.Answered?
    && VirtualPath(side, h.volume, c.reaction.importAnswer.canonical)
  }

  predicate Applies(side: Side, h: Host, s: State, c: Call, cause: Cause) {
    var imports, asks := c.operation == OPERATION_RESOLVE_IMPORT, c.operation == OPERATION_CALL_CAPABILITY;
    match cause
    case UnknownOperation => !imports && !asks
    case Malformed => (imports && !NamesImport(side, h, c)) || (asks && !NamesCapability(h, c))
    case PathDenied => NamesImport(side, h, c) && !NamesPath(side, h, c)
    case ImportsSpent => NamesPath(side, h, c) && s.importCalls >= h.limits.maxImports
    case CapabilitiesSpent => NamesCapability(h, c) && s.capabilityCalls >= h.limits.maxCapabilityCalls
    case ExpiredBefore => Admitted(side, h, s, c) && Late(side, c)
    case NoImporter => Counts(side, h, s, c) && !Late(side, c) && !h.grants.importer
    case NotGranted => CountsCapability(h, s, c) && !Late(side, c) && !Granted(h, c)
    case WrongArity => CountsCapability(h, s, c) && !Late(side, c) && Granted(h, c) && !Fitting(h, c)
    case HandlerPanicked => Invokes(side, h, s, c) && Panics(c)
    case ExpiredAfter => Invokes(side, h, s, c) && !Panics(c) && !Looks(side, h, s, c)
    case HandlerRefused => imports && Looks(side, h, s, c) && c.reaction.importAnswer.Refused?
    case HandlerBroke =>
      Looks(side, h, s, c) && (if imports then c.reaction.importAnswer.Broke? else c.reaction.capabilityAnswer.Failed?)
    case BadCanonical =>
      imports && Looks(side, h, s, c) && c.reaction.importAnswer.Answered? && !Named(side, h, s, c)
    case ContentTooLong =>
      Named(side, h, s, c) && |c.reaction.importAnswer.content| > h.limits.maxImportBytes
    case TotalSpent =>
      Named(side, h, s, c) && |c.reaction.importAnswer.content| <= h.limits.maxImportBytes
      && s.importBytes + |c.reaction.importAnswer.content| > h.limits.maxTotalImportBytes
  }

  function StatusOf(cause: Cause): U32 {
    match cause
    case UnknownOperation | Malformed | WrongArity => HOST_MALFORMED
    case PathDenied | NoImporter | NotGranted | HandlerRefused => HOST_DENIED
    case ImportsSpent | CapabilitiesSpent | ContentTooLong | TotalSpent => HOST_LIMIT
    case ExpiredBefore | ExpiredAfter => HOST_CANCELED
    case HandlerPanicked | HandlerBroke | BadCanonical => HOST_HANDLER_FAILURE
  }

  function ErrorOf(h: Host, s: State, c: Call, cause: Cause): HostError {
    var length := if c.reaction.importAnswer.Answered? then |c.reaction.importAnswer.content| else 0;
    match cause
    case UnknownOperation | Malformed => AbiViolation
    case PathDenied | NoImporter | HandlerRefused => ImportDenied
    case ExpiredBefore | ExpiredAfter => Canceled
    case NotGranted | WrongArity => CapabilityFailed
    case BadCanonical => ImportFailed
    case HandlerPanicked | HandlerBroke =>
      if c.operation == OPERATION_RESOLVE_IMPORT then ImportFailed else CapabilityFailed
    case ImportsSpent => LimitExceeded(ImportCount, h.limits.maxImports, s.importCalls + 1)
    case CapabilitiesSpent => LimitExceeded(CapabilityCalls, h.limits.maxCapabilityCalls, s.capabilityCalls + 1)
    case ContentTooLong => LimitExceeded(ImportBytes, h.limits.maxImportBytes, length)
    case TotalSpent => LimitExceeded(TotalImportBytes, h.limits.maxTotalImportBytes, s.importBytes + length)
  }

  /** A callback prepares no response for exactly one cause. */
  lemma OneCause(side: Side, h: Host, s: State, c: Call)
    returns (cause: Cause)
    ensures Prepares(side, h, s, c) ==> forall other :: !Applies(side, h, s, c, other)
    ensures !Prepares(side, h, s, c) ==>
              Applies(side, h, s, c, cause) && forall other :: Applies(side, h, s, c, other) ==> other == cause
  {
    hide VirtualPath, ImportPath;
    var imports := c.operation == OPERATION_RESOLVE_IMPORT;
    cause :=
      if !imports && c.operation != OPERATION_CALL_CAPABILITY then UnknownOperation
      else if if imports then !NamesImport(side, h, c) else !NamesCapability(h, c) then Malformed
      else if imports && !NamesPath(side, h, c) then PathDenied
      else if !Admitted(side, h, s, c) then if imports then ImportsSpent else CapabilitiesSpent
      else if Late(side, c) then ExpiredBefore
      else if !Invokes(side, h, s, c) then
        if imports then NoImporter else if Granted(h, c) then WrongArity else NotGranted
      else if Panics(c) then HandlerPanicked
      else if !Looks(side, h, s, c) then ExpiredAfter
      else if !imports || c.reaction.importAnswer.Broke? then HandlerBroke
      else if c.reaction.importAnswer.Refused? then HandlerRefused
      else if !Named(side, h, s, c) then BadCanonical
      else if |c.reaction.importAnswer.content| > h.limits.maxImportBytes then ContentTooLong
      else TotalSpent;
  }

  /** The words that go with an error: none for a panic of a Rust handler. */
  ghost predicate Worded(side: Side, h: Host, c: Call, cause: Option<Cause>, e: Effect) {
    e.error.Some? ==>
      e.payload == if side == Rust && cause == Some(HandlerPanicked) then [] else h.describe(e.error.value)
  }

  lemma GoCauseDecides(h: Host, s: State, c: Call, cause: Cause)
    requires Paced(s) && Applies(Go, h, s, c, cause)
    ensures var e := GoHost.Dispatch(h, s, c);
            e.status == StatusOf(cause) && e.error == Some(ErrorOf(h, s, c, cause)) && Worded(Go, h, c, Some(cause), e)
  {
    hide GoVirtualPath, GoRelativePath;
  }

  lemma RustCauseDecides(h: Host, s: State, c: Call, cause: Cause)
    requires Paced(s) && Applies(Rust, h, s, c, cause)
    ensures var e := RustHost.Dispatch(h, s, c);
            && e.status == StatusOf(cause) && e.error == Some(ErrorOf(h, s, c, cause))
            && Worded(Rust, h, c, Some(cause), e)
  {
    hide RustVirtualPath, RustImportPath;
  }

  // ---------------------------------------------------------------- what becomes of every callback

  /** The effect of a callback that prepares a response is that of its encoding. */
  ghost predicate EffectOfEncoding(side: Side, h: Host, c: Call, e: Effect) {
    && e.status == LimitVerdict(h, c).0 && e.error == LimitVerdict(h, c).1
    && (e.status == HOST_OK ==> Encoding(h, c) == Some(e.payload))
    && Worded(side, h, c, None, e)
  }

  lemma GoEncodingDecides(h: Host, s: State, c: Call)
    requires Prepares(Go, h, s, c)
    ensures EffectOfEncoding(Go, h, c, GoHost.Dispatch(h, s, c))
  {
    hide GoVirtualPath, GoRelativePath;
  }

  lemma RustEncodingDecides(h: Host, s: State, c: Call)
    requires Paced(s) && Prepares(Rust, h, s, c)
    ensures EffectOfEncoding(Rust, h, c, RustHost.Dispatch(h, s, c))
  {
    hide RustVirtualPath, RustImportPath;
  }

  /** The capacity test behind every effect. */
  lemma AnswerOfEffect(side: Side, h: Host, s: State, c: Call)
    ensures var e, reply := Dispatch(side, h, s, c), Answer(side, h, s, c);
            var after, recorded := Next(side, h, s, c).lastError, Record(s, e.error);
            if GoHost.Overflows(e, c.capacity) then
              var overflow := GoHost.CapacityError(e, c.capacity);
              && after == Record(recorded, Some(overflow)).lastError && reply.status == HOST_LIMIT
              && reply.body == if side == Rust then []
                               else Utf8.BoundDiagnostic(h.repair, h.describe(overflow), c.capacity)
            else
              && after == recorded.lastError && reply.status == e.status
              && reply.body == if e.status == HOST_OK then e.payload
                               else if side == Go then Utf8.BoundDiagnostic(h.repair, e.payload, c.capacity)
                               else Utf8.LossyPrefix(h.repair, e.payload, c.capacity)
  {
    hide GoHost.Dispatch, RustHost.Dispatch, Utf8.BoundDiagnostic, Utf8.LossyPrefix;
  }

  /** Every callback of either host: one that prepares a response gets the verdict of its encoding, and
      delivers it on success; any other gets the status and the error of its one cause. */
  lemma EncodingDecides(side: Side, h: Host, s: State, c: Call)
    requires Paced(s)
    ensures var reply, after := Answer(side, h, s, c), Next(side, h, s, c);
            && (Prepares(side, h, s, c) ==>
                  && reply.status == FinalVerdict(h, c).0
                  && (reply.status == HOST_OK ==> Encoding(h, c) == Some(reply.body))
                  && after.lastError == Record(s, FinalVerdict(h, c).1).lastError)
            && (!Prepares(side, h, s, c) ==> exists cause :: Applies(side, h, s, c, cause))
            && (forall cause | Applies(side, h, s, c, cause) ::
                  && !Prepares(side, h, s, c)
                  && reply.status == StatusOf(cause)
                  && after.lastError == Record(s, Some(ErrorOf(h, s, c, cause))).lastError)
  {
    var cause := OneCause(side, h, s, c);
    if Prepares(side, h, s, c) {
      if side == Go { GoEncodingDecides(h, s, c); } else { RustEncodingDecides(h, s, c); }
    } else {
      if side == Go { GoCauseDecides(h, s, c, cause); } else { RustCauseDecides(h, s, c, cause); }
    }
    AnswerOfEffect(side, h, s, c);
    hide GoHost.Dispatch, RustHost.Dispatch, GoHost.Answer, RustHost.Answer, GoHost.Next, RustHost.Next, Prepares,
      Applies, ErrorOf, Utf8.BoundDiagnostic, Utf8.LossyPrefix;
  }

  /** The error a callback records in fresh books. */
  function OwnError(side: Side, h: Host, s: State, c: Call, cause: Cause): Option<HostError> {
    if Prepares(side, h, s, c) then FinalVerdict(h, c).1 else Some(ErrorOf(h, s, c, cause))
  }

  /** A failure brings the guest the words of its own error, as far as they fit; Rust sends none for a
      panic and for a success that overflows the buffer. */
  lemma FailuresAreWorded(side: Side, h: Host, s: State, c: Call, cause: Cause)
    requires Paced(s) && (!Prepares(side, h, s, c) ==> Applies(side, h, s, c, cause))
    ensures var reply := Answer(side, h, s, c);
            reply.status != HOST_OK ==>
              && OwnError(side, h, s, c, cause).Some?
              && var words := h.describe(OwnError(side, h, s, c, cause).value);
                 reply.body ==
                   if side == Go then Utf8.BoundDiagnostic(h.repair, words, c.capacity)
                   else if Prepares(side, h, s, c) && LimitVerdict(h, c).0 == HOST_OK then []
                   else if !Prepares(side, h, s, c) && cause == HandlerPanicked then
                     Utf8.LossyPrefix(h.repair, [], c.capacity)
                   else Utf8.LossyPrefix(h.repair, words, c.capacity)
  {
    if Prepares(side, h, s, c) {
      if side == Go { GoEncodingDecides(h, s, c); } else { RustEncodingDecides(h, s, c); }
    } else {
      if side == Go { GoCauseDecides(h, s, c, cause); } else { RustCauseDecides(h, s, c, cause); }
    }
    AnswerOfEffect(side, h, s, c);
    hide GoHost.Dispatch, RustHost.Dispatch, GoHost.Answer, RustHost.Answer, GoHost.Next, RustHost.Next, Prepares,
      Applies, ErrorOf, Utf8.BoundDiagnostic, Utf8.LossyPrefix;
  }
}
