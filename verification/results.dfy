/** How an evaluation ends: the guest's trace and result buffers, and what the host makes of them. */
module Results {
  import opened Wire
  import opened Bridge
  import Callbacks
  import Coupling
  import Framing
  import GuestErrors
  import Hosts
  import Utf8

  // ---------------------------------------------------------------- buffers the guest exports

  /** The exported pointer: zero for an empty buffer, else where the runtime placed it. */
  function Pointer(data: Bytes, address: U32): U32 {
    if |data| == 0 then 0 else address
  }

  ghost predicate Placed(memory: Bytes, address: U32, data: Bytes) {
    0 < address && address + |data| <= |memory| < TWO_32 && memory[address..address + |data|] == data
  }

  datatype Reading = Got(data: Bytes) | OverLimit | BadPointer | OutsideMemory

  function ReadGuestResult(memory: Bytes, ptr: U32, length: U32, limit: U32): Reading {
    if length > limit then OverLimit
    else if length == 0 then if ptr != 0 then BadPointer else Got([])
    else if ptr == 0 then BadPointer
    else if ptr + length > |memory| then OutsideMemory
    else Got(memory[ptr..ptr + length])
  }

  /** The host accepts exactly a range inside memory and within its limit, or an empty result without a
      pointer. */
  lemma ReadsExactly(memory: Bytes, ptr: U32, length: U32, limit: U32)
    ensures var r := ReadGuestResult(memory, ptr, length, limit);
            && (r.Got? <==> length <= limit && if length == 0 then ptr == 0 else ptr != 0 && ptr + length <= |memory|)
            && (r.Got? ==> |r.data| == length && (length > 0 ==> r.data == memory[ptr..ptr + length]))
            && (r.OverLimit? <==> length > limit)
    ensures forall truncated: U32 ::
              ReadGuestTrace(memory, ptr, length, truncated, limit) ==
                match ReadGuestResult(memory, ptr, length, limit)
                case Got(data) => if truncated > 1 then BadTrace else Trace(data, truncated == 1)
                case _ => BadTrace
  {
  }

  /** The host reads exactly what the guest exports, unless it is longer than the host allows. */
  lemma ExportsReadBack(memory: Bytes, address: U32, data: Bytes, limit: U32)
    requires Placed(memory, address, data)
    ensures ReadGuestResult(memory, Pointer(data, address), |data|, limit)
         == if |data| <= limit then Got(data) else OverLimit
  {
  }

  // ---------------------------------------------------------------- the trace

  function Concat(payloads: seq<Bytes>): Bytes {
    if payloads == [] then [] else Concat(payloads[..|payloads| - 1]) + payloads[|payloads| - 1]
  }

  /** What a writer bounded by `limit` keeps of everything written to it. */
  ghost predicate Keeps(limit: nat, written: Bytes, data: Bytes, truncated: bool) {
    data == written[..Min(limit, |written|)] && (truncated <==> |written| > limit)
  }

  class BoundedWriter {
    const limit: nat
    var data: Bytes
    var truncated: bool

    constructor (limit: nat)
      ensures this.limit == limit && Keeps(limit, [], data, truncated)
    {
      this.limit := limit;
      data, truncated := [], false;
    }

    method Write(payload: Bytes, ghost written: Bytes) returns (n: nat)
      requires Keeps(limit, written, data, truncated)
      modifies this
      ensures Keeps(limit, written + payload, data, truncated) && n == |payload|
    {
      var remaining := limit - |data|;
      if remaining < |payload| {
        truncated := true;
      }
      if remaining > 0 {
        data := data + payload[..Min(remaining, |payload|)];
      }
      return |payload|;
    }
  }

  /** The evaluator's trace writes, in order. */
  method CaptureTrace(limit: nat, payloads: seq<Bytes>) returns (trace: Bytes, truncated: bool)
    ensures Keeps(limit, Concat(payloads), trace, truncated)
  {
    var writer := new BoundedWriter(limit);
    for i := 0 to |payloads|
      invariant writer.limit == limit && Keeps(limit, Concat(payloads[..i]), writer.data, writer.truncated)
    {
      var _ := writer.Write(payloads[i], Concat(payloads[..i]));
      assert payloads[..i + 1][..i] == payloads[..i];
    }
    assert payloads[..|payloads|] == payloads;
    return writer.data, writer.truncated;
  }

  datatype TraceReading = Trace(data: Bytes, truncated: bool) | BadTrace

  function TraceFlag(truncated: bool): U32 {
    if truncated then 1 else 0
  }

  function ReadGuestTrace(memory: Bytes, ptr: U32, length: U32, truncated: U32, limit: U32): TraceReading {
    if truncated > 1 then BadTrace
    else match ReadGuestResult(memory, ptr, length, limit)
      case Got(data) => Trace(data, truncated == 1)
      case _ => BadTrace
  }

  /** Whatever the evaluator writes, the host's trace read passes all its checks and returns the longest
      start of it that the shared limit allows, with a flag that is set exactly when more was
      written. */
  lemma TraceReadsBack(memory: Bytes, address: U32, limit: U32, payloads: seq<Bytes>, trace: Bytes, truncated: bool)
    requires Keeps(limit, Concat(payloads), trace, truncated) && Placed(memory, address, trace)
    ensures ReadGuestTrace(memory, Pointer(trace, address), |trace|, TraceFlag(truncated), limit)
         == Trace(Concat(payloads)[..Min(limit, |Concat(payloads)|)], |Concat(payloads)| > limit)
  {
    ExportsReadBack(memory, address, trace, limit);
  }

  // ---------------------------------------------------------------- the result

  const EVAL_OK: U32 := 0
  const EVAL_JSONNET_ERROR: U32 := 2
  const EVAL_HOST_ERROR: U32 := 3
  const EVAL_LIMIT: U32 := 4

  /** What an evaluation produces, by output mode. */
  datatype Product = Single(output: Bytes) | Multi(files: map<Bytes, Bytes>) | Stream(documents: seq<Bytes>)
  datatype Mode = SingleMode | MultiMode | StreamMode

  /** The bytes the guest's encoders give for a product. */
  ghost predicate Encodes(mode: Mode, p: Product, output: Bytes) {
    match mode
    case SingleMode => p == Single(output)
    case MultiMode => p.Multi? && Framing.CanonicalMulti(p.files, output)
    case StreamMode => p.Stream? && Framing.StreamIn(output) == Ok(p.documents)
  }

  /** What the host's decoders give for the bytes of a successful evaluation. Names are text in Rust. */
  ghost function DecodeResult(side: Hosts.Side, mode: Mode, payload: Bytes): Result<Product> {
    match mode
    case SingleMode => Ok(Single(payload))
    case MultiMode =>
      (match Framing.EntriesIn(payload)
       case Err => Err
       case Ok(entries) =>
         if Framing.Distinct(Framing.Names(entries)) && (side == Hosts.Go || Framing.AllText(Framing.Names(entries)))
         then Ok(Multi(Framing.FilesOf(entries))) else Err)
    case StreamMode =>
      match Framing.StreamIn(payload) case Err => Err case Ok(documents) => Ok(Stream(documents))
  }

  ghost predicate NamesAreText(p: Product) {
    p.Multi? ==> forall name <- p.files :: Utf8.Valid(name)
  }

  lemma DecodeInvertsEncode(side: Hosts.Side, mode: Mode, p: Product, output: Bytes)
    requires Encodes(mode, p, output) && (side == Hosts.Rust ==> NamesAreText(p))
    ensures DecodeResult(side, mode, output) == Ok(p)
  {
    hide Framing.CanonicalMulti, Framing.FilesOf;
    if mode == MultiMode {
      Framing.MultiRoundTrip(p.files, output, [], []);
      Framing.FilesOfKeys(Framing.EntriesIn(output).value);
    }
  }

  /** The host's choice of decoder. */
  method DecodeOutput(side: Hosts.Side, mode: Mode, payload: Bytes) returns (r: Result<Product>)
    ensures r == DecodeResult(side, mode, payload)
  {
    match mode
    case SingleMode =>
      r := Ok(Single(payload));
    case MultiMode =>
      var files: Result<map<Bytes, Bytes>>;
      if side == Hosts.Go {
        files := Framing.DecodeMultiOutput(payload);
      } else {
        files := Framing.RustDecodeMulti(payload);
      }
      r := if files.Ok? then Ok(Multi(files.value)) else Err;
    case StreamMode =>
      var documents: Result<seq<Bytes>>;
      if side == Hosts.Go {
        documents := Framing.DecodeStreamOutput(payload);
      } else {
        documents := Framing.RustDecodeStream(payload);
      }
      r := if documents.Ok? then Ok(Stream(documents.value)) else Err;
  }

  /** The guest's choice of encoder. */
  method EncodeOutput(p: Product) returns (r: Result<Bytes>)
    ensures r.Ok? ==> Encodes(ModeOf(p), p, r.value)
    ensures r.Err? ==>
              || (p.Multi? && (|p.files| >= TWO_32
                               || exists k <- p.files :: |k| >= TWO_32 || |p.files[k]| >= TWO_32))
              || (p.Stream? && (|p.documents| >= TWO_32 || exists d <- p.documents :: |d| >= TWO_32))
  {
    match p
    case Single(output) =>
      r := Ok(output);
    case Multi(files) =>
      r := Framing.EncodeMultiOutput(files);
    case Stream(documents) =>
      r := Framing.EncodeStreamOutput(documents);
  }

  function ModeOf(p: Product): Mode {
    match p case Single(_) => SingleMode case Multi(_) => MultiMode case Stream(_) => StreamMode
  }

  /** "host request bytes", "host", "jsonnet" and "output". */
  const REQUEST_KIND: Bytes :=
    [0x68, 0x6F, 0x73, 0x74, 0x20, 0x72, 0x65, 0x71, 0x75, 0x65, 0x73, 0x74, 0x20, 0x62, 0x79, 0x74, 0x65, 0x73]
  const HOST_KIND: Bytes := [0x68, 0x6F, 0x73, 0x74]
  const JSONNET_KIND: Bytes := [0x6A, 0x73, 0x6F, 0x6E, 0x6E, 0x65, 0x74]
  const OUTPUT_KIND: Bytes := [0x6F, 0x75, 0x74, 0x70, 0x75, 0x74]

  /** The texts of messages: of the evaluator's error, and of the two limits by limit and size. */
  datatype Texts = Texts(error: Bytes, tooLarge: (nat, nat) -> Bytes, tooLong: (nat, nat) -> Bytes)

  /** The encoder of reports, by the limit and the size that they carry. */
  type ReportCodec = (nat, nat) -> GuestErrors.ErrorCodec

  /** result is the bounded report of this kind, message, limit and size. */
  ghost predicate Reports(codec: ReportCodec, resultLimit: nat, kind: Bytes, message: Bytes, limit: nat, size: nat,
                          result: Bytes)
  {
    GuestErrors.Bounded(codec(limit, size), Utf8.Truncate(kind, 64), Utf8.Truncate(message, 0x1_0000), resultLimit,
                        result)
  }

  /** How the guest leaves its status and its result buffer after the evaluator gave `output`, or failed. */
  ghost predicate Ends(codec: ReportCodec, texts: Texts, resultLimit: nat, maxOutput: nat, b: BridgeState,
                       output: Option<Bytes>, status: U32, result: Bytes)
  {
    match output
    case None =>
      if b.localLimit.Some? then
        var (limit, size) := b.localLimit.value;
        && status == EVAL_LIMIT
        && Reports(codec, resultLimit, REQUEST_KIND, texts.tooLarge(limit, size), limit, size, result)
      else if b.lastStatus != HOST_OK then
        status == EVAL_HOST_ERROR && Reports(codec, resultLimit, HOST_KIND, texts.error, 0, 0, result)
      else
        status == EVAL_JSONNET_ERROR && Reports(codec, resultLimit, JSONNET_KIND, texts.error, 0, 0, result)
    case Some(out) =>
      if |out| > maxOutput then
        && status == EVAL_LIMIT
        && Reports(codec, resultLimit, OUTPUT_KIND, texts.tooLong(maxOutput, |out|), maxOutput, |out|, result)
      else
        status == EVAL_OK && result == out
  }

  /** The end of the guest's evaluate function. */
  method FinishEvaluation(out: GuestErrors.GuestOutput, codec: ReportCodec, texts: Texts, maxOutput: nat,
                          b: BridgeState, output: Option<Bytes>)
    returns (status: U32)
    modifies out
    ensures out.resultLimit == old(out.resultLimit)
    ensures Ends(codec, texts, out.resultLimit, maxOutput, b, output, status, out.result)
  {
    hide GuestErrors.Bounded, Utf8.Truncate;
    if output.None? {
      if b.localLimit.Some? {
        var (limit, size) := b.localLimit.value;
        out.SetGuestError(codec(limit, size), REQUEST_KIND, texts.tooLarge(limit, size));
        return EVAL_LIMIT;
      }
      if b.lastStatus != HOST_OK {
        out.SetGuestError(codec(0, 0), HOST_KIND, texts.error);
        return EVAL_HOST_ERROR;
      }
      out.SetGuestError(codec(0, 0), JSONNET_KIND, texts.error);
      return EVAL_JSONNET_ERROR;
    }
    var size := |output.value|;
    if size > maxOutput {
      out.SetGuestError(codec(maxOutput, size), OUTPUT_KIND, texts.tooLong(maxOutput, size));
      return EVAL_LIMIT;
    }
    out.result := output.value;
    return EVAL_OK;
  }

  /** What the host returns to its caller. A report that cannot be decoded is an ABI violation too. */
  datatype Returned =
    | Value(product: Product)
    | HostsOwn(error: Callbacks.HostError)
    | GuestSaid(status: U32, report: Bytes)
    | UnclassifiedHostError(report: Bytes)
    | AbiViolation

  ghost function HostReturns(side: Hosts.Side, decodes: Bytes -> bool, mode: Mode, maxOutput: U32, maxResponse: U32,
                             lastError: Option<Callbacks.HostError>, status: U32, memory: Bytes, ptr: U32, length: U32)
    : Returned
  {
    if status == EVAL_HOST_ERROR && lastError.Some? then HostsOwn(lastError.value)
    else match ReadGuestResult(memory, ptr, length, if status == EVAL_OK then maxOutput else maxResponse)
      case Got(payload) =>
        if status != EVAL_OK then
          if !decodes(payload) then AbiViolation
          else if status == EVAL_HOST_ERROR then UnclassifiedHostError(payload)
          else GuestSaid(status, payload)
        else (match DecodeResult(side, mode, payload) case Ok(p) => Value(p) case Err => AbiViolation)
      case _ => AbiViolation
  }

  /** In either host, from the evaluator's callbacks to the caller's result: a product within the output
      limit comes back as it is; any failure comes back as the host's first error when the guest has no
      limit of its own to report and the host recorded one, and as the guest's own report otherwise. The
      host never finds the guest's buffers at fault, and calls a failure an unclassified host error exactly
      when a success was not understood and nothing else went wrong. */
  lemma EvaluationsReturn(side: Hosts.Side, g: Guest, h: Callbacks.Host, events: seq<Coupling.Event>,
                          codec: ReportCodec, texts: Texts, decodes: Bytes -> bool, mode: Mode, maxOutput: U32,
                          output: Option<Bytes>, product: Product,
                          status: U32, result: Bytes, memory: Bytes, address: U32)
    requires forall limit, size :: GuestErrors.Readable(codec(limit, size), decodes)
    requires h.limits.maxHostResponseBytes >= 60
    requires output.Some? ==> Encodes(mode, product, output.value) && (side == Hosts.Rust ==> NamesAreText(product))
    requires var w := Coupling.Run(side, g, h, Coupling.World(EMPTY, Callbacks.START), events);
             Ends(codec, texts, Min(GuestErrors.MAX_ERROR_BYTES, h.limits.maxHostResponseBytes), maxOutput, w.bridge,
                  output, status, result)
    requires Placed(memory, address, result)
    ensures var start := Coupling.World(EMPTY, Callbacks.START);
            var w := Coupling.Run(side, g, h, start, events);
            var room := Min(0x1_0000, h.limits.maxHostResponseBytes);
            var returned := HostReturns(side, decodes, mode, maxOutput, h.limits.maxHostResponseBytes, w.host.lastError,
                                        status, memory, Pointer(result, address), |result|);
            if output.Some? && |output.value| <= maxOutput then returned == Value(product)
            else if output.Some? then
              && returned == GuestSaid(EVAL_LIMIT, result)
              && var size := |output.value|;
                 Reports(codec, room, OUTPUT_KIND, texts.tooLong(maxOutput, size), maxOutput, size, result)
            else if w.bridge.localLimit.Some? then
              && returned == GuestSaid(EVAL_LIMIT, result)
              && var (limit, size) := w.bridge.localLimit.value;
                 Reports(codec, room, REQUEST_KIND, texts.tooLarge(limit, size), limit, size, result)
            else if w.host.lastError.Some? then returned == HostsOwn(w.host.lastError.value)
            else if Coupling.SomeMisread(side, g, h, start, events) then
              returned == UnclassifiedHostError(result) && Reports(codec, room, HOST_KIND, texts.error, 0, 0, result)
            else
              && returned == GuestSaid(EVAL_JSONNET_ERROR, result)
              && Reports(codec, room, JSONNET_KIND, texts.error, 0, 0, result)
  {
    hide GuestErrors.Readable, GuestErrors.Bounded, Coupling.Run, Coupling.SomeMisread, Utf8.Truncate;
    hide Encodes, NamesAreText, DecodeResult;
    Coupling.UnclassifiedExactly(side, g, h, events);
    var room := Min(GuestErrors.MAX_ERROR_BYTES, h.limits.maxHostResponseBytes);
    if status == EVAL_OK {
      ExportsReadBack(memory, address, result, maxOutput);
      DecodeInvertsEncode(side, mode, product, result);
    } else {
      var kind, message, limit, size := EndsInReport(
        codec, texts, room, maxOutput, Coupling.Run(side, g, h, Coupling.World(EMPTY, Callbacks.START), events).bridge,
        output, status, result);
      ReportsAreRead(codec, decodes, room, kind, message, limit, size, result);
      ExportsReadBack(memory, address, result, h.limits.maxHostResponseBytes);
    }
  }

  lemma EndsInReport(codec: ReportCodec, texts: Texts, resultLimit: nat, maxOutput: nat, b: BridgeState,
                     output: Option<Bytes>, status: U32, result: Bytes)
    returns (kind: Bytes, message: Bytes, limit: nat, size: nat)
    requires Ends(codec, texts, resultLimit, maxOutput, b, output, status, result) && status != EVAL_OK
    ensures Reports(codec, resultLimit, kind, message, limit, size, result)
  {
    hide Reports;
    if output.Some? {
      return OUTPUT_KIND, texts.tooLong(maxOutput, |output.value|), maxOutput, |output.value|;
    }
    if b.localLimit.Some? {
      var (bound, length) := b.localLimit.value;
      return REQUEST_KIND, texts.tooLarge(bound, length), bound, length;
    }
    return if b.lastStatus != HOST_OK then HOST_KIND else JSONNET_KIND, texts.error, 0, 0;
  }

  lemma ReportsAreRead(codec: ReportCodec, decodes: Bytes -> bool, room: nat, kind: Bytes, message: Bytes, limit: nat,
                       size: nat, result: Bytes)
    requires GuestErrors.Readable(codec(limit, size), decodes) && room >= 60
    requires Reports(codec, room, kind, message, limit, size, result)
    ensures |result| <= room && decodes(result)
  {
    hide GuestErrors.Readable, GuestErrors.Bounded, Utf8.Truncate;
    var tag, text := Utf8.Truncate(kind, 64), Utf8.Truncate(message, 0x1_0000);
    GuestErrors.ReportIsShort(codec(limit, size), tag, text, room, result);
    GuestErrors.ReportIsReadable(codec(limit, size), decodes, tag, text, room, result);
  }
}
