/** Preparing a request on the host, and the checks the guest makes of it before it evaluates. */
module Requests {
  import opened Wire
  import opened Paths
  import opened EngineConfigs
  import opened Identifiers
  import Callbacks
  import GuestErrors
  import Utf8

  type Texts = map<Bytes, Bytes>

  datatype Capability = Capability(params: seq<Bytes>, callable: bool)

  datatype Request = Request(
    filename: Path,
    source: Bytes,
    extVars: Texts,
    extCode: Texts,
    tlaVars: Texts,
    tlaCode: Texts,
    capabilities: map<Bytes, Capability>,
    limits: RequestLimits,
    outputMode: nat,
    stringOutput: bool,
    omitNewline: bool,
    captureTrace: bool)

  datatype WireLimits = WireLimits(output: nat, stack: int, hostRequest: nat, hostResponse: nat, trace: nat)

  datatype WireRequest = WireRequest(
    filename: Path,
    source: Bytes,
    inputMode: nat,
    outputMode: nat,
    extVars: Texts,
    extCode: Texts,
    tlaVars: Texts,
    tlaCode: Texts,
    capabilities: map<Bytes, seq<Bytes>>,
    stringOutput: bool,
    outputNewline: bool,
    captureTrace: bool,
    limits: WireLimits)

  const INPUT_FILE := 1
  const INPUT_ANONYMOUS := 2
  const OUTPUT_STREAM := 2

  /** snippet.jsonnet */
  const DEFAULT_FILENAME: Path :=
    [0x73, 0x6E, 0x69, 0x70, 0x70, 0x65, 0x74, 0x2E, 0x6A, 0x73, 0x6F, 0x6E, 0x6E, 0x65, 0x74]

  datatype RequestCodec = RequestCodec(encode: WireRequest -> Option<Bytes>, decode: Bytes -> Option<WireRequest>)

  predicate TextMap(texts: Texts) {
    forall k <- texts :: Utf8.Valid(k) && Utf8.Valid(texts[k])
  }

  predicate AllText(w: WireRequest) {
    && Utf8.Valid(w.filename) && Utf8.Valid(w.source)
    && TextMap(w.extVars) && TextMap(w.extCode) && TextMap(w.tlaVars) && TextMap(w.tlaCode)
    && forall name <- w.capabilities :: Utf8.Valid(name) && forall p <- w.capabilities[name] :: Utf8.Valid(p)
  }

  /** JSON gives back every request whose strings are all valid UTF-8; it replaces other strings. */
  ghost predicate Inverts(codec: RequestCodec) {
    forall w :: AllText(w) && codec.encode(w).Some? ==>
      codec.encode(w).value != [] && codec.decode(codec.encode(w).value) == Some(w)
  }

  // ---------------------------------------------------------------- the host

  predicate ValidParams(params: seq<Bytes>) {
    && (forall p <- params :: Identifier(p))
    && forall i, j :: 0 <= i < j < |params| ==> params[i] != params[j]
  }

  predicate ValidCapability(name: Bytes, c: Capability) {
    name != [] && Utf8.Valid(name) && c.callable && ValidParams(c.params)
  }

  method ValidateCapability(name: Bytes, capability: Capability) returns (r: Checked<seq<Bytes>>)
    ensures r.Accepted? <==>
              && name != [] && Utf8.Valid(name) && capability.callable
              && (forall p <- capability.params :: Identifier(p))
              && forall i, j :: 0 <= i < j < |capability.params| ==> capability.params[i] != capability.params[j]
    ensures r == if ValidCapability(name, capability) then Accepted(capability.params) else Rejected(BadCapability)
  {
    hide Identifier, Utf8.Valid;
    if name == [] || !Utf8.Valid(name) {
      return Rejected(BadCapability);
    }
    if !capability.callable {
      return Rejected(BadCapability);
    }
    var params := capability.params;
    var seen: set<Bytes> := {};
    for i := 0 to |params|
      invariant forall p :: p in seen <==> p in params[..i]
      invariant ValidParams(params[..i])
    {
      var param := params[i];
      assert param in params && params[..i + 1] == params[..i] + [param];
      if !Identifier(param) {
        return Rejected(BadCapability);
      }
      if param in seen {
        var j :| 0 <= j < i && params[..i][j] == param;
        assert params[j] == params[i];
        return Rejected(BadCapability);
      }
      seen := seen + {param};
    }
    assert params[..|params|] == params;
    return Accepted(params);
  }

  /** The guest's loop over the parameters it is sent. */
  method AcceptParams(params: seq<Bytes>) returns (ok: bool)
    ensures ok <==>
              && (forall p <- params :: Identifier(p))
              && forall i, j :: 0 <= i < j < |params| ==> params[i] != params[j]
    ensures ok <==> ValidParams(params)
  {
    hide Identifier;
    var seen: set<Bytes> := {};
    for i := 0 to |params|
      invariant forall p :: p in seen <==> p in params[..i]
      invariant ValidParams(params[..i])
    {
      var param := params[i];
      assert param in params && params[..i + 1] == params[..i] + [param];
      var identifier := IsIdentifier(param);
      if !identifier {
        return false;
      }
      if param in seen {
        var j :| 0 <= j < i && params[..i][j] == param;
        assert params[j] == params[i];
        return false;
      }
      seen := seen + {param};
    }
    assert params[..|params|] == params;
    return true;
  }

  function WireOf(r: Request, inputMode: nat): WireRequest {
    WireRequest(
      r.filename, r.source, inputMode, r.outputMode, r.extVars, r.extCode, r.tlaVars, r.tlaCode,
      map name <- r.capabilities :: r.capabilities[name].params,
      r.stringOutput, !r.omitNewline, r.captureTrace,
      WireLimits(r.limits.output, r.limits.stack, r.limits.hostRequest, r.limits.hostResponse, r.limits.trace))
  }

  predicate TextMaps(r: Request) {
    TextMap(r.extVars) && TextMap(r.extCode) && TextMap(r.tlaVars) && TextMap(r.tlaCode)
  }

  predicate ValidCapabilities(r: Request) {
    forall name <- r.capabilities :: ValidCapability(name, r.capabilities[name])
  }

  function Named(request: Request): Path {
    if request.filename == [] then DEFAULT_FILENAME else request.filename
  }

  function Prepare(volume: Path -> bool, codec: RequestCodec, request: Request, config: EngineConfig, inputMode: nat)
    : Checked<(Bytes, Request)>
  {
    var filename := Named(request);
    if !GoVirtualPath(volume, filename) then Rejected(BadFilename)
    else if request.outputMode > OUTPUT_STREAM then Rejected(BadOutputMode)
    else if inputMode > INPUT_ANONYMOUS then Rejected(BadInputMode)
    else if inputMode == INPUT_FILE && request.source != [] then Rejected(SourceForFile)
    else
      var limits :- NormalizeRequestLimits(request.limits, config);
      if !Utf8.Valid(request.source) then Rejected(SourceNotText)
      else if |request.source| > limits.source then Rejected(SourceTooLong)
      else if !TextMaps(request) then Rejected(BadTextMap)
      else if !ValidCapabilities(request) then Rejected(BadCapability)
      else
        var normalized := request.(filename := filename, limits := limits);
        match codec.encode(WireOf(normalized, inputMode))
        case None => Rejected(Unencodable)
        case Some(encoded) =>
          if |encoded| > limits.hostRequest then Rejected(RequestTooLong) else Accepted((encoded, normalized))
  }

  // ---------------------------------------------------------------- the guest

  const MAX_REQUEST_ALLOCATION := 0x100_0000
  const MAX_HOST_RESPONSE_ALLOCATION := 0x200_0000
  const MAX_OUTPUT_BYTES := 0x400_0000
  const MAX_STACK_DEPTH := 4096

  /** sonnetbox_request_alloc answers with a null pointer for any other size. */
  predicate Allocates(size: nat) {
    0 < size <= MAX_REQUEST_ALLOCATION
  }

  /** EvalInvalidRequest, or the request to evaluate with the limit on error reports. */
  datatype Verdict = InvalidRequest | Evaluates(wire: WireRequest, resultLimit: nat)

  predicate GuestLimits(l: WireLimits) {
    !(|| l.stack <= 0
      || l.stack > MAX_STACK_DEPTH
      || l.output == 0
      || l.output > MAX_OUTPUT_BYTES
      || l.hostRequest == 0
      || l.hostResponse == 0
      || l.trace == 0
      || l.hostRequest > MAX_REQUEST_ALLOCATION
      || l.hostResponse > MAX_HOST_RESPONSE_ALLOCATION
      || l.trace > MAX_OUTPUT_BYTES)
  }

  function GuestReads(codec: RequestCodec, request: Bytes): Verdict {
    if |request| == 0 then InvalidRequest
    else match codec.decode(request)
      case None => InvalidRequest
      case Some(w) =>
        if !GuestLimits(w.limits) then InvalidRequest
        else if w.inputMode > INPUT_ANONYMOUS || w.outputMode > OUTPUT_STREAM then InvalidRequest
        else if w.inputMode == INPUT_FILE && w.source != [] then InvalidRequest
        else if |request| > w.limits.hostRequest then InvalidRequest
        else if exists name <- w.capabilities ::
                  name == [] || !Utf8.Valid(name) || !ValidParams(w.capabilities[name]) then InvalidRequest
        else Evaluates(w, Min(GuestErrors.MAX_ERROR_BYTES, w.limits.hostResponse))
  }

  // ---------------------------------------------------------------- what preparation guarantees

  lemma WireIsText(volume: Path -> bool, codec: RequestCodec, request: Request, config: EngineConfig, inputMode: nat)
    requires Prepare(volume, codec, request, config, inputMode).Accepted?
    ensures AllText(WireOf(Prepare(volume, codec, request, config, inputMode).value.1, inputMode))
  {
    var r := Prepare(volume, codec, request, config, inputMode).value.1;
    assert Utf8.Valid(r.filename);
    hide GoVirtualPath, NormalizeRequestLimits, Utf8.Valid, Identifier;
    var w := WireOf(r, inputMode);
    forall name | name in w.capabilities
      ensures Utf8.Valid(name) && forall p <- w.capabilities[name] :: Utf8.Valid(p)
    {
      assert ValidCapability(name, request.capabilities[name]);
      forall p | p in w.capabilities[name]
        ensures Utf8.Valid(p)
      {
        IdentifierIsText(p);
      }
    }
  }

  lemma PreparedLimitsPass(volume: Path -> bool, codec: RequestCodec, config: EngineConfig, request: Request,
                           inputMode: nat)
    requires Sane(config) && Prepare(volume, codec, request, config, inputMode).Accepted?
    ensures var (encoded, r) := Prepare(volume, codec, request, config, inputMode).value;
            && GuestLimits(WireOf(r, inputMode).limits)
            && |encoded| <= r.limits.hostRequest <= MAX_REQUEST_ALLOCATION
  {
    NormalizeRequestLimitsExact(request.limits, config);
    hide NormalizeRequestLimits, Inherited, GoVirtualPath, Identifier, ValidCapability, Utf8.Valid;
  }

  /** Whatever the host prepares under a normalized configuration, the guest allocates, decodes to the
      same request and evaluates; no check of the guest refuses it. */
  lemma PreparedIsEvaluated(volume: Path -> bool, codec: RequestCodec, c: EngineConfig, request: Request,
                            inputMode: nat)
    requires Inverts(codec) && NormalizeConfig(c).Accepted?
    requires Prepare(volume, codec, request, NormalizeConfig(c).value, inputMode).Accepted?
    ensures var (encoded, normalized) := Prepare(volume, codec, request, NormalizeConfig(c).value, inputMode).value;
            && Allocates(|encoded|)
            && GuestReads(codec, encoded)
               == Evaluates(WireOf(normalized, inputMode),
                            Min(GuestErrors.MAX_ERROR_BYTES, normalized.limits.hostResponse))
  {
    var config := NormalizeConfig(c).value;
    NormalizeConfigExact(c);
    hide NormalizeConfig, Prepare, Sane, GuestReads, WireOf;
    WireIsText(volume, codec, request, config, inputMode);
    PreparedLimitsPass(volume, codec, config, request, inputMode);
    PreparedIsEncoded(volume, codec, config, request, inputMode);
    var (encoded, r) := Prepare(volume, codec, request, config, inputMode).value;
    GuestReadsExactly(codec, encoded, WireOf(r, inputMode), Min(GuestErrors.MAX_ERROR_BYTES, r.limits.hostResponse));
  }

  lemma PreparedIsEncoded(volume: Path -> bool, codec: RequestCodec, config: EngineConfig, request: Request,
                          inputMode: nat)
    requires Prepare(volume, codec, request, config, inputMode).Accepted?
    ensures var (encoded, r) := Prepare(volume, codec, request, config, inputMode).value;
            var w := WireOf(r, inputMode);
            && codec.encode(w) == Some(encoded)
            && w.limits.hostRequest == r.limits.hostRequest && w.limits.hostResponse == r.limits.hostResponse
            && w.inputMode <= 2 && w.outputMode <= 2 && (w.inputMode == 1 ==> w.source == [])
            && forall name <- w.capabilities ::
                 && name != [] && Utf8.Valid(name)
                 && (forall p <- w.capabilities[name] :: Identifier(p))
                 && forall i, j :: 0 <= i < j < |w.capabilities[name]| ==>
                      w.capabilities[name][i] != w.capabilities[name][j]
  {
    CapabilitiesExactly(request);
    hide GoVirtualPath, NormalizeRequestLimits, Utf8.Valid, Identifier, TextMaps, ValidCapabilities, Named;
  }

  /** Field by field, the guest evaluates what the caller asked for: limits as inherited from the engine, and
      the file name as given or by default. */
  lemma GuestEvaluatesWhatWasAsked(volume: Path -> bool, codec: RequestCodec, c: EngineConfig, request: Request,
                                   inputMode: nat)
    requires Inverts(codec) && NormalizeConfig(c).Accepted?
    requires Prepare(volume, codec, request, NormalizeConfig(c).value, inputMode).Accepted?
    ensures var config, asked := NormalizeConfig(c).value, request.limits;
            var seen := GuestReads(codec, Prepare(volume, codec, request, config, inputMode).value.0);
            && seen.Evaluates?
            && seen.wire.filename == (if request.filename == [] then DEFAULT_FILENAME else request.filename)
            && seen.wire.source == request.source
            && seen.wire.inputMode == inputMode && seen.wire.outputMode == request.outputMode
            && seen.wire.extVars == request.extVars && seen.wire.extCode == request.extCode
            && seen.wire.tlaVars == request.tlaVars && seen.wire.tlaCode == request.tlaCode
            && seen.wire.capabilities.Keys == request.capabilities.Keys
            && (forall name <- request.capabilities ::
                  seen.wire.capabilities[name] == request.capabilities[name].params)
            && seen.wire.stringOutput == request.stringOutput
            && seen.wire.outputNewline == !request.omitNewline
            && seen.wire.captureTrace == request.captureTrace
            && seen.wire.limits.output == (if asked.output == 0 then config.output else asked.output)
            && seen.wire.limits.stack == (if asked.stack == 0 then config.stack else asked.stack)
            && seen.wire.limits.hostRequest
               == (if asked.hostRequest == 0 then config.hostRequest else asked.hostRequest)
            && seen.wire.limits.hostResponse
               == (if asked.hostResponse == 0 then config.hostResponse else asked.hostResponse)
            && seen.wire.limits.trace == (if asked.trace == 0 then config.trace else asked.trace)
            && seen.resultLimit == Min(0x1_0000, seen.wire.limits.hostResponse)
  {
    NormalizeConfigExact(c);
    PreparedIsEvaluated(volume, codec, c, request, inputMode);
    PreparedFields(volume, codec, NormalizeConfig(c).value, request, inputMode);
    hide Prepare, NormalizeConfig, Filled, GuestReads, Sane, Inverts;
  }

  lemma PreparedFields(volume: Path -> bool, codec: RequestCodec, config: EngineConfig, request: Request,
                       inputMode: nat)
    requires Sane(config) && Prepare(volume, codec, request, config, inputMode).Accepted?
    ensures Prepare(volume, codec, request, config, inputMode).value.1 == Completed(request, config)
    ensures Narrows(Inherited(request.limits, config), config)
  {
    NormalizeRequestLimitsExact(request.limits, config);
    hide NormalizeRequestLimits, GoVirtualPath, Utf8.Valid, TextMaps, ValidCapabilities, Sane, Inherited, Narrows;
    hide WireOf;
  }

  /** And the host keeps for itself the same request, with those limits and that file name. */
  lemma HostKeepsWhatWasAsked(volume: Path -> bool, codec: RequestCodec, config: EngineConfig, request: Request,
                              inputMode: nat)
    requires Sane(config) && Prepare(volume, codec, request, config, inputMode).Accepted?
    ensures var kept, asked := Prepare(volume, codec, request, config, inputMode).value.1, request.limits;
            && kept.filename == (if request.filename == [] then DEFAULT_FILENAME else request.filename)
            && kept == request.(filename := kept.filename, limits := kept.limits)
            && Narrows(kept.limits, config)
            && var l := HostLimits(kept.limits, config);
               && l.maxImports == (if asked.imports == 0 then config.imports else asked.imports)
               && l.maxImportBytes == (if asked.importBytes == 0 then config.importBytes else asked.importBytes)
               && l.maxTotalImportBytes
                  == (if asked.totalImportBytes == 0 then config.totalImportBytes else asked.totalImportBytes)
               && l.maxCapabilityCalls
                  == (if asked.capabilityCalls == 0 then config.capabilityCalls else asked.capabilityCalls)
               && l.maxHostRequestBytes == (if asked.hostRequest == 0 then config.hostRequest else asked.hostRequest)
               && l.maxHostResponseBytes
                  == (if asked.hostResponse == 0 then config.hostResponse else asked.hostResponse)
  {
    PreparedFields(volume, codec, config, request, inputMode);
    hide Prepare, Sane;
  }

  // ---------------------------------------------------------------- what is refused, and why

  ghost predicate CapabilitiesAreValid(request: Request) {
    forall name <- request.capabilities ::
      && name != [] && Utf8.Valid(name) && request.capabilities[name].callable
      && (forall p <- request.capabilities[name].params :: Identifier(p))
      && var params := request.capabilities[name].params;
         forall i, j :: 0 <= i < j < |params| ==> params[i] != params[j]
  }

  ghost predicate MapsAreText(request: Request) {
    && (forall k <- request.extVars :: Utf8.Valid(k) && Utf8.Valid(request.extVars[k]))
    && (forall k <- request.extCode :: Utf8.Valid(k) && Utf8.Valid(request.extCode[k]))
    && (forall k <- request.tlaVars :: Utf8.Valid(k) && Utf8.Valid(request.tlaVars[k]))
    && (forall k <- request.tlaCode :: Utf8.Valid(k) && Utf8.Valid(request.tlaCode[k]))
  }

  /** The request as it would be prepared. */
  function Completed(request: Request, config: EngineConfig): Request
    requires Sane(config)
  {
    request.(filename := Named(request), limits := Inherited(request.limits, config))
  }

  /** The fault that a rejection names is one the request has. */
  ghost predicate IsFault(volume: Path -> bool, codec: RequestCodec, request: Request, config: EngineConfig,
                          inputMode: nat, why: Rejection)
    requires Sane(config)
  {
    var limits := Inherited(request.limits, config);
    match why
    case BadFilename => !GoVirtualPath(volume, Named(request))
    case BadOutputMode => request.outputMode > 2
    case BadInputMode => inputMode > 2
    case SourceForFile => inputMode == 1 && request.source != []
    case SourceNotText => !Utf8.Valid(request.source)
    case SourceTooLong => |request.source| > limits.source
    case BadTextMap => !MapsAreText(request)
    case BadCapability => !CapabilitiesAreValid(request)
    case Unencodable => codec.encode(WireOf(Completed(request, config), inputMode)).None?
    case RequestTooLong =>
      var encoded := codec.encode(WireOf(Completed(request, config), inputMode));
      encoded.Some? && |encoded.value| > limits.hostRequest
    case _ => !Narrows(limits, config)
  }

  /** A request is rejected for a fault that it has, and only a request without any fault is accepted. */
  lemma RejectionsAreFaults(volume: Path -> bool, codec: RequestCodec, request: Request, config: EngineConfig,
                            inputMode: nat)
    requires Sane(config)
    ensures var r := Prepare(volume, codec, request, config, inputMode);
            && (r.Rejected? ==> IsFault(volume, codec, request, config, inputMode, r.why))
            && (r.Accepted? ==> forall why :: !IsFault(volume, codec, request, config, inputMode, why))
  {
    hide Prepare, IsFault, Sane;
    var r := Prepare(volume, codec, request, config, inputMode);
    if r.Rejected? {
      RejectedForAFault(volume, codec, request, config, inputMode);
    } else {
      forall why
        ensures !IsFault(volume, codec, request, config, inputMode, why)
      {
        AcceptedWithoutFault(volume, codec, request, config, inputMode, why);
      }
    }
  }

  lemma {:induction false} RejectedForAFault(volume: Path -> bool, codec: RequestCodec, request: Request,
                                             config: EngineConfig, inputMode: nat)
    requires Sane(config) && Prepare(volume, codec, request, config, inputMode).Rejected?
    ensures IsFault(volume, codec, request, config, inputMode, Prepare(volume, codec, request, config, inputMode).why)
  {
    NormalizeRequestLimitsExact(request.limits, config);
    LimitReason(request.limits, config);
    MapsExactly(request);
    CapabilitiesExactly(request);
    hide NormalizeRequestLimits, GoVirtualPath, Utf8.Valid, Narrows, Inherited, WireOf, TextMaps, ValidCapabilities,
      MapsAreText, CapabilitiesAreValid, Sane, Named;
  }

  lemma LimitReason(r: RequestLimits, c: EngineConfig)
    requires Sane(c)
    ensures var n := NormalizeRequestLimits(r, c);
            n.Rejected? ==> n.why.OverCeiling? || n.why.Negative? || n.why.ResponseTooSmall?
  {
    RequestRejections(r, c);
    hide NormalizeRequestLimits, Sane;
  }

  lemma {:induction false} AcceptedWithoutFault(volume: Path -> bool, codec: RequestCodec, request: Request,
                                                config: EngineConfig, inputMode: nat, why: Rejection)
    requires Sane(config) && Prepare(volume, codec, request, config, inputMode).Accepted?
    ensures !IsFault(volume, codec, request, config, inputMode, why)
  {
    NormalizeRequestLimitsExact(request.limits, config);
    MapsExactly(request);
    CapabilitiesExactly(request);
    hide NormalizeRequestLimits, GoVirtualPath, Utf8.Valid, Narrows, Inherited, WireOf, TextMaps, ValidCapabilities,
      MapsAreText, CapabilitiesAreValid, Sane, Named;
  }

  /** A request without a file name is prepared as one with the default name. */
  lemma EmptyNameIsDefault(volume: Path -> bool, codec: RequestCodec, request: Request, config: EngineConfig,
                           inputMode: nat)
    ensures Prepare(volume, codec, request.(filename := []), config, inputMode)
         == Prepare(volume, codec, request.(filename := DEFAULT_FILENAME), config, inputMode)
  {
    hide GoVirtualPath, NormalizeRequestLimits, Utf8.Valid, TextMap, ValidCapability;
    var a, b := request.(filename := []), request.(filename := DEFAULT_FILENAME);
    assert Named(a) == Named(b);
    assert TextMaps(a) == TextMaps(b) && ValidCapabilities(a) == ValidCapabilities(b);
  }

  /** The default file name is acceptable wherever it names no volume. */
  lemma DefaultFilenameIsVirtual(volume: Path -> bool)
    requires !volume(DEFAULT_FILENAME)
    ensures GoVirtualPath(volume, DEFAULT_FILENAME)
  {
    hide *;
    DefaultFilenameIsPlain();
    PlainNameIsVirtual(volume, DEFAULT_FILENAME);
  }

  predicate Plain(name: Bytes) {
    |name| > 2 && forall b <- name :: 0 < b <= 0x7F && b != SLASH && b != BACKSLASH
  }

  lemma DefaultFilenameIsPlain()
    ensures Plain(DEFAULT_FILENAME)
  {
  }

  lemma PlainNameIsVirtual(volume: Path -> bool, name: Path)
    requires Plain(name) && !volume(name)
    ensures GoVirtualPath(volume, name)
  {
    AsciiIsText(name);
    assert name[0] in name;
    SplitAt(name, []);
    hide Split, Clean, Utf8.Valid, CleanFold;
    assert Canonical(name);
    CanonicalShape(name);
  }

  lemma {:induction false} AsciiIsText(s: Bytes)
    requires forall b <- s :: b <= 0x7F
    ensures Utf8.Valid(s)
  {
    if s != [] {
      assert s[0] in s && forall b <- s[1..] :: b in s;
      AsciiIsText(s[1..]);
    }
  }

  lemma MapsExactly(request: Request)
    ensures MapsAreText(request) <==> TextMaps(request)
  {
    hide Utf8.Valid;
  }

  lemma CapabilitiesExactly(request: Request)
    ensures CapabilitiesAreValid(request) <==> ValidCapabilities(request)
  {
    hide Utf8.Valid, Identifier;
  }

  /** The guest allocates and evaluates exactly the requests that pass these tests. */
  lemma GuestReadsExactly(codec: RequestCodec, request: Bytes, w: WireRequest, limit: nat)
    ensures Allocates(|request|) <==> 0 < |request| <= 0x100_0000
    ensures GuestReads(codec, request) == Evaluates(w, limit) <==>
              && request != [] && codec.decode(request) == Some(w)
              && 0 < w.limits.stack <= 4096
              && 0 < w.limits.output <= 0x400_0000
              && 0 < w.limits.hostRequest <= 0x100_0000
              && 0 < w.limits.hostResponse <= 0x200_0000
              && 0 < w.limits.trace <= 0x400_0000
              && w.inputMode <= 2 && w.outputMode <= 2 && (w.inputMode == 1 ==> w.source == [])
              && |request| <= w.limits.hostRequest
              && (forall name <- w.capabilities ::
                    && name != [] && Utf8.Valid(name)
                    && (forall p <- w.capabilities[name] :: Identifier(p))
                    && forall i, j :: 0 <= i < j < |w.capabilities[name]| ==>
                         w.capabilities[name][i] != w.capabilities[name][j])
              && limit == Min(0x1_0000, w.limits.hostResponse)
  {
    hide Identifier, Utf8.Valid;
  }

  /** Preparing a prepared request again changes nothing. */
  lemma PrepareIsIdempotent(volume: Path -> bool, codec: RequestCodec, config: EngineConfig, request: Request,
                            inputMode: nat)
    requires Sane(config) && Prepare(volume, codec, request, config, inputMode).Accepted?
    ensures Prepare(volume, codec, Prepare(volume, codec, request, config, inputMode).value.1, config, inputMode)
         == Prepare(volume, codec, request, config, inputMode)
  {
    NormalizeRequestLimitsIsIdempotent(request.limits, config);
    hide GoVirtualPath, NormalizeRequestLimits, Utf8.Valid, Identifier, TextMap, ValidCapability;
  }

  // ---------------------------------------------------------------- what the limits give the callbacks

  function HostLimits(l: RequestLimits, c: EngineConfig): Callbacks.Limits
    requires Sane(c) && Narrows(l, c)
  {
    Callbacks.Limits(l.imports, l.importBytes, l.totalImportBytes, l.capabilityCalls, l.hostRequest, l.hostResponse)
  }

  /** Prepared limits keep guest memory where the hosts' range checks agree, and every bounded error report
      fits what the host is willing to read. */
  lemma LimitsServeTheCallbacks(c: EngineConfig, l: RequestLimits, h: Callbacks.Host, codec: GuestErrors.ErrorCodec,
                                kind: Bytes, message: Bytes, report: Bytes)
    requires Sane(c) && Narrows(l, c) && h.limits == HostLimits(l, c)
    requires GuestErrors.Bounded(codec, kind, message, Min(GuestErrors.MAX_ERROR_BYTES, l.hostResponse), report)
    ensures h.limits.maxHostResponseBytes >= 60 && c.memory <= 0x8000_0000
    ensures |report| <= h.limits.maxHostResponseBytes
  {
    hide GuestErrors.Bounded;
    GuestErrors.ReportIsShort(codec, kind, message, Min(GuestErrors.MAX_ERROR_BYTES, l.hostResponse), report);
  }
}
