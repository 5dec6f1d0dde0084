/** Engine configuration and request limits: zero selects a default, nothing exceeds its ceiling. */
module EngineConfigs {
  datatype Field =
    | MaxMemoryBytes | MaxWasmStackBytes | MaxFuel | MaxSourceBytes | MaxOutputBytes | MaxStack | MaxImports
    | MaxImportBytes | MaxTotalImportBytes | MaxCapabilityCalls | MaxHostRequestBytes | MaxHostResponseBytes
    | MaxTraceBytes | MaxConcurrentEvaluations

  datatype Rejection =
    | OverCeiling(field: Field) | Negative(field: Field) | NotPages | ResponseTooSmall
    | BadFilename | BadOutputMode | BadInputMode | SourceForFile | SourceNotText | SourceTooLong
    | BadTextMap | BadCapability | Unencodable | RequestTooLong

  /** A value, or the first reason to refuse it. */
  datatype Checked<+T> = Accepted(value: T) | Rejected(why: Rejection) {
    predicate IsFailure() {
      Rejected?
    }

    function PropagateFailure<U>(): Checked<U>
      requires Rejected?
    {
      Rejected(why)
    }

    function Extract(): T
      requires Accepted?
    {
      value
    }
  }

  datatype EngineConfig = EngineConfig(
    memory: nat,
    wasmStack: nat,
    fuel: nat,
    source: nat,
    output: nat,
    stack: int,
    imports: nat,
    importBytes: nat,
    totalImportBytes: nat,
    capabilityCalls: nat,
    hostRequest: nat,
    hostResponse: nat,
    trace: nat,
    concurrent: nat)

  datatype RequestLimits = RequestLimits(
    fuel: nat,
    source: nat,
    output: nat,
    stack: int,
    imports: nat,
    importBytes: nat,
    totalImportBytes: nat,
    capabilityCalls: nat,
    hostRequest: nat,
    hostResponse: nat,
    trace: nat)

  const PAGE := 0x1_0000
  const MIN_HOST_RESPONSE := 256

  const DEFAULTS := EngineConfig(
    0x800_0000, 50_000_000, 100_000_000, 0x4_0000, 0x10_0000, 256, 64, 0x4_0000, 0x20_0000, 128, 0x8_0000, 0x8_0000,
    0x1_0000, 4)

  const CEILINGS := EngineConfig(
    0x4000_0000, 0x1000_0000, 10_000_000_000, 0x100_0000, 0x400_0000, 4096, 4096, 0x100_0000, 0x400_0000, 10_000,
    0x100_0000, 0x200_0000, 0x40_0000, 1024)

  function NormalizeUnsigned(field: Field, value: nat, fallback: nat, ceiling: nat): Checked<nat> {
    if value == 0 then Accepted(fallback)
    else if value > ceiling then Rejected(OverCeiling(field))
    else Accepted(value)
  }

  function InheritRequestLimit(field: Field, value: nat, ceiling: nat): Checked<nat> {
    if value == 0 then Accepted(ceiling)
    else if value > ceiling then Rejected(OverCeiling(field))
    else Accepted(value)
  }

  function NormalizeStack(value: int, fallback: int, ceiling: int): Checked<int> {
    if value == 0 then Accepted(fallback)
    else if value < 0 then Rejected(Negative(MaxStack))
    else if value > ceiling then Rejected(OverCeiling(MaxStack))
    else Accepted(value)
  }

  function NormalizeConfig(c: EngineConfig): Checked<EngineConfig> {
    var d, max := DEFAULTS, CEILINGS;
    var memory :- NormalizeUnsigned(MaxMemoryBytes, c.memory, d.memory, max.memory);
    var wasmStack :- NormalizeUnsigned(MaxWasmStackBytes, c.wasmStack, d.wasmStack, max.wasmStack);
    var fuel :- NormalizeUnsigned(MaxFuel, c.fuel, d.fuel, max.fuel);
    var source :- NormalizeUnsigned(MaxSourceBytes, c.source, d.source, max.source);
    var output :- NormalizeUnsigned(MaxOutputBytes, c.output, d.output, max.output);
    var stack :- NormalizeStack(c.stack, d.stack, max.stack);
    var imports :- NormalizeUnsigned(MaxImports, c.imports, d.imports, max.imports);
    var importBytes :- NormalizeUnsigned(MaxImportBytes, c.importBytes, d.importBytes, max.importBytes);
    var total :- NormalizeUnsigned(MaxTotalImportBytes, c.totalImportBytes, d.totalImportBytes, max.totalImportBytes);
    var calls :- NormalizeUnsigned(MaxCapabilityCalls, c.capabilityCalls, d.capabilityCalls, max.capabilityCalls);
    var request :- NormalizeUnsigned(MaxHostRequestBytes, c.hostRequest, d.hostRequest, max.hostRequest);
    var response :- NormalizeUnsigned(MaxHostResponseBytes, c.hostResponse, d.hostResponse, max.hostResponse);
    var trace :- NormalizeUnsigned(MaxTraceBytes, c.trace, d.trace, max.trace);
    var concurrent :- NormalizeUnsigned(MaxConcurrentEvaluations, c.concurrent, d.concurrent, max.concurrent);
    if memory % PAGE != 0 then Rejected(NotPages)
    else if response < MIN_HOST_RESPONSE then Rejected(ResponseTooSmall)
    else Accepted(EngineConfig(memory, wasmStack, fuel, source, output, stack, imports, importBytes, total, calls,
                               request, response, trace, concurrent))
  }

  function NormalizeRequestLimits(r: RequestLimits, max: EngineConfig): Checked<RequestLimits> {
    var fuel :- InheritRequestLimit(MaxFuel, r.fuel, max.fuel);
    var source :- InheritRequestLimit(MaxSourceBytes, r.source, max.source);
    var output :- InheritRequestLimit(MaxOutputBytes, r.output, max.output);
    var stack :- NormalizeStack(r.stack, max.stack, max.stack);
    var imports :- InheritRequestLimit(MaxImports, r.imports, max.imports);
    var importBytes :- InheritRequestLimit(MaxImportBytes, r.importBytes, max.importBytes);
    var total :- InheritRequestLimit(MaxTotalImportBytes, r.totalImportBytes, max.totalImportBytes);
    var calls :- InheritRequestLimit(MaxCapabilityCalls, r.capabilityCalls, max.capabilityCalls);
    var request :- InheritRequestLimit(MaxHostRequestBytes, r.hostRequest, max.hostRequest);
    var response :- InheritRequestLimit(MaxHostResponseBytes, r.hostResponse, max.hostResponse);
    if response < MIN_HOST_RESPONSE then Rejected(ResponseTooSmall)
    else
      var trace :- InheritRequestLimit(MaxTraceBytes, r.trace, max.trace);
      Accepted(RequestLimits(fuel, source, output, stack, imports, importBytes, total, calls, request, response, trace))
  }

  // ---------------------------------------------------------------- what normalization means

  /** Every field is positive and within its ceiling. */
  predicate Sane(c: EngineConfig) {
    var max := CEILINGS;
    && 0 < c.memory <= max.memory && c.memory % PAGE == 0
    && 0 < c.wasmStack <= max.wasmStack
    && 0 < c.fuel <= max.fuel
    && 0 < c.source <= max.source
    && 0 < c.output <= max.output
    && 0 < c.stack <= max.stack
    && 0 < c.imports <= max.imports
    && 0 < c.importBytes <= max.importBytes
    && 0 < c.totalImportBytes <= max.totalImportBytes
    && 0 < c.capabilityCalls <= max.capabilityCalls
    && 0 < c.hostRequest <= max.hostRequest
    && MIN_HOST_RESPONSE <= c.hostResponse <= max.hostResponse
    && 0 < c.trace <= max.trace
    && 0 < c.concurrent <= max.concurrent
  }

  function Or(value: int, fallback: int): int {
    if value == 0 then fallback else value
  }

  /** The configuration with its zeros filled in. */
  function Filled(c: EngineConfig): EngineConfig {
    var d := DEFAULTS;
    EngineConfig(
      Or(c.memory, d.memory), Or(c.wasmStack, d.wasmStack), Or(c.fuel, d.fuel), Or(c.source, d.source),
      Or(c.output, d.output), Or(c.stack, d.stack), Or(c.imports, d.imports), Or(c.importBytes, d.importBytes),
      Or(c.totalImportBytes, d.totalImportBytes), Or(c.capabilityCalls, d.capabilityCalls),
      Or(c.hostRequest, d.hostRequest), Or(c.hostResponse, d.hostResponse), Or(c.trace, d.trace),
      Or(c.concurrent, d.concurrent))
  }

  /** A configuration is accepted exactly when filling in its zeros gives a sane one, which is then the
      result. */
  lemma NormalizeConfigExact(c: EngineConfig)
    ensures NormalizeConfig(c).Accepted? <==> Sane(Filled(c))
    ensures NormalizeConfig(c).Accepted? ==> NormalizeConfig(c).value == Filled(c)
  {
    var d, max := DEFAULTS, CEILINGS;
    UnsignedExact(MaxMemoryBytes, c.memory, d.memory, max.memory);
    UnsignedExact(MaxWasmStackBytes, c.wasmStack, d.wasmStack, max.wasmStack);
    UnsignedExact(MaxFuel, c.fuel, d.fuel, max.fuel);
    UnsignedExact(MaxSourceBytes, c.source, d.source, max.source);
    UnsignedExact(MaxOutputBytes, c.output, d.output, max.output);
    StackExact(c.stack, d.stack, max.stack);
    UnsignedExact(MaxImports, c.imports, d.imports, max.imports);
    UnsignedExact(MaxImportBytes, c.importBytes, d.importBytes, max.importBytes);
    UnsignedExact(MaxTotalImportBytes, c.totalImportBytes, d.totalImportBytes, max.totalImportBytes);
    UnsignedExact(MaxCapabilityCalls, c.capabilityCalls, d.capabilityCalls, max.capabilityCalls);
    UnsignedExact(MaxHostRequestBytes, c.hostRequest, d.hostRequest, max.hostRequest);
    UnsignedExact(MaxHostResponseBytes, c.hostResponse, d.hostResponse, max.hostResponse);
    UnsignedExact(MaxTraceBytes, c.trace, d.trace, max.trace);
    UnsignedExact(MaxConcurrentEvaluations, c.concurrent, d.concurrent, max.concurrent);
    hide NormalizeUnsigned, NormalizeStack, Or;
  }

  lemma UnsignedExact(field: Field, value: nat, fallback: nat, ceiling: nat)
    requires 0 < fallback <= ceiling
    ensures NormalizeUnsigned(field, value, fallback, ceiling)
         == if 0 < Or(value, fallback) <= ceiling then Accepted(Or(value, fallback)) else Rejected(OverCeiling(field))
  {
  }

  lemma InheritedExact(field: Field, value: nat, ceiling: nat)
    requires 0 < ceiling
    ensures InheritRequestLimit(field, value, ceiling)
         == if 0 < Or(value, ceiling) <= ceiling then Accepted(Or(value, ceiling)) else Rejected(OverCeiling(field))
  {
  }

  lemma StackExact(value: int, fallback: int, ceiling: int)
    requires 0 < fallback <= ceiling
    ensures var r := NormalizeStack(value, fallback, ceiling);
            r == if 0 < Or(value, fallback) <= ceiling then Accepted(Or(value, fallback))
                 else if value < 0 then Rejected(Negative(MaxStack)) else Rejected(OverCeiling(MaxStack))
  {
  }

  function FieldOf(c: EngineConfig, f: Field): int {
    match f
    case MaxMemoryBytes => c.memory
    case MaxWasmStackBytes => c.wasmStack
    case MaxFuel => c.fuel
    case MaxSourceBytes => c.source
    case MaxOutputBytes => c.output
    case MaxStack => c.stack
    case MaxImports => c.imports
    case MaxImportBytes => c.importBytes
    case MaxTotalImportBytes => c.totalImportBytes
    case MaxCapabilityCalls => c.capabilityCalls
    case MaxHostRequestBytes => c.hostRequest
    case MaxHostResponseBytes => c.hostResponse
    case MaxTraceBytes => c.trace
    case MaxConcurrentEvaluations => c.concurrent
  }

  /** A rejection names a field that is at fault. */
  lemma ConfigRejections(c: EngineConfig)
    ensures NormalizeConfig(c).Rejected? ==>
              match NormalizeConfig(c).why
              case OverCeiling(f) => FieldOf(c, f) > FieldOf(CEILINGS, f)
              case Negative(f) => f == MaxStack && c.stack < 0
              case NotPages => Filled(c).memory % 0x1_0000 != 0
              case ResponseTooSmall => Filled(c).hostResponse < 256
              case _ => false
  {
    var d, max := DEFAULTS, CEILINGS;
    UnsignedExact(MaxMemoryBytes, c.memory, d.memory, max.memory);
    UnsignedExact(MaxWasmStackBytes, c.wasmStack, d.wasmStack, max.wasmStack);
    UnsignedExact(MaxFuel, c.fuel, d.fuel, max.fuel);
    UnsignedExact(MaxSourceBytes, c.source, d.source, max.source);
    UnsignedExact(MaxOutputBytes, c.output, d.output, max.output);
    StackExact(c.stack, d.stack, max.stack);
    UnsignedExact(MaxImports, c.imports, d.imports, max.imports);
    UnsignedExact(MaxImportBytes, c.importBytes, d.importBytes, max.importBytes);
    UnsignedExact(MaxTotalImportBytes, c.totalImportBytes, d.totalImportBytes, max.totalImportBytes);
    UnsignedExact(MaxCapabilityCalls, c.capabilityCalls, d.capabilityCalls, max.capabilityCalls);
    UnsignedExact(MaxHostRequestBytes, c.hostRequest, d.hostRequest, max.hostRequest);
    UnsignedExact(MaxHostResponseBytes, c.hostResponse, d.hostResponse, max.hostResponse);
    UnsignedExact(MaxTraceBytes, c.trace, d.trace, max.trace);
    UnsignedExact(MaxConcurrentEvaluations, c.concurrent, d.concurrent, max.concurrent);
    hide NormalizeUnsigned, NormalizeStack, Or;
    OrAbove();
  }

  lemma OrAbove()
    ensures forall value: int, fallback: int ::
              Or(value, fallback) == value || (value == 0 && Or(value, fallback) == fallback)
  {
  }

  /** What an engine gets that asks for nothing, and the most that it can ask for. */
  lemma DefaultsAndCeilings()
    ensures NormalizeConfig(EngineConfig(0, 0, 0, 0, 0, 0, 0, 0, 0, 0, 0, 0, 0, 0)) == Accepted(EngineConfig(
              128 * 1024 * 1024, 50_000_000, 100_000_000, 256 * 1024, 1024 * 1024, 256, 64, 256 * 1024,
              2 * 1024 * 1024, 128, 512 * 1024, 512 * 1024, 64 * 1024, 4))
    ensures CEILINGS == EngineConfig(
              1024 * 1024 * 1024, 256 * 1024 * 1024, 10_000_000_000, 16 * 1024 * 1024, 64 * 1024 * 1024, 4096, 4096,
              16 * 1024 * 1024, 64 * 1024 * 1024, 10_000, 16 * 1024 * 1024, 32 * 1024 * 1024, 4 * 1024 * 1024, 1024)
  {
  }

  /** The request's limits, as an engine's whose other fields are at their ceilings. */
  function AsConfig(r: RequestLimits): EngineConfig {
    CEILINGS.(fuel := r.fuel, source := r.source, output := r.output, stack := r.stack, imports := r.imports,
              importBytes := r.importBytes, totalImportBytes := r.totalImportBytes,
              capabilityCalls := r.capabilityCalls, hostRequest := r.hostRequest, hostResponse := r.hostResponse,
              trace := r.trace)
  }

  lemma RequestRejections(r: RequestLimits, c: EngineConfig)
    requires Sane(c)
    ensures NormalizeRequestLimits(r, c).Rejected? ==>
              match NormalizeRequestLimits(r, c).why
              case OverCeiling(f) => FieldOf(AsConfig(r), f) > FieldOf(c, f)
              case Negative(f) => f == MaxStack && r.stack < 0
              case ResponseTooSmall => Or(r.hostResponse, c.hostResponse) < 256
              case _ => false
  {
    InheritedExact(MaxFuel, r.fuel, c.fuel);
    InheritedExact(MaxSourceBytes, r.source, c.source);
    InheritedExact(MaxOutputBytes, r.output, c.output);
    StackExact(r.stack, c.stack, c.stack);
    InheritedExact(MaxImports, r.imports, c.imports);
    InheritedExact(MaxImportBytes, r.importBytes, c.importBytes);
    InheritedExact(MaxTotalImportBytes, r.totalImportBytes, c.totalImportBytes);
    InheritedExact(MaxCapabilityCalls, r.capabilityCalls, c.capabilityCalls);
    InheritedExact(MaxHostRequestBytes, r.hostRequest, c.hostRequest);
    InheritedExact(MaxHostResponseBytes, r.hostResponse, c.hostResponse);
    InheritedExact(MaxTraceBytes, r.trace, c.trace);
    hide InheritRequestLimit, NormalizeStack, Sane;
  }

  /** Normalizing once is enough. */
  lemma NormalizeConfigIsIdempotent(c: EngineConfig)
    requires NormalizeConfig(c).Accepted?
    ensures NormalizeConfig(NormalizeConfig(c).value) == NormalizeConfig(c)
  {
    NormalizeConfigExact(c);
    hide NormalizeConfig;
    NormalizeConfigExact(Filled(c));
  }

  /** The request's limits within those of the engine: what a request may ask for. */
  predicate Narrows(r: RequestLimits, c: EngineConfig) {
    && 0 < r.fuel <= c.fuel
    && 0 < r.source <= c.source
    && 0 < r.output <= c.output
    && 0 < r.stack <= c.stack
    && 0 < r.imports <= c.imports
    && 0 < r.importBytes <= c.importBytes
    && 0 < r.totalImportBytes <= c.totalImportBytes
    && 0 < r.capabilityCalls <= c.capabilityCalls
    && 0 < r.hostRequest <= c.hostRequest
    && MIN_HOST_RESPONSE <= r.hostResponse <= c.hostResponse
    && 0 < r.trace <= c.trace
  }

  function Inherited(r: RequestLimits, c: EngineConfig): RequestLimits
    requires Sane(c)
  {
    RequestLimits(
      Or(r.fuel, c.fuel), Or(r.source, c.source), Or(r.output, c.output), Or(r.stack, c.stack),
      Or(r.imports, c.imports), Or(r.importBytes, c.importBytes), Or(r.totalImportBytes, c.totalImportBytes),
      Or(r.capabilityCalls, c.capabilityCalls), Or(r.hostRequest, c.hostRequest), Or(r.hostResponse, c.hostResponse),
      Or(r.trace, c.trace))
  }

  /** A request inherits what it leaves at zero and can otherwise only narrow the engine's limits. */
  lemma NormalizeRequestLimitsExact(r: RequestLimits, c: EngineConfig)
    requires Sane(c)
    ensures NormalizeRequestLimits(r, c).Accepted? <==> Narrows(Inherited(r, c), c)
    ensures NormalizeRequestLimits(r, c).Accepted? ==> NormalizeRequestLimits(r, c).value == Inherited(r, c)
  {
    InheritedExact(MaxFuel, r.fuel, c.fuel);
    InheritedExact(MaxSourceBytes, r.source, c.source);
    InheritedExact(MaxOutputBytes, r.output, c.output);
    StackExact(r.stack, c.stack, c.stack);
    InheritedExact(MaxImports, r.imports, c.imports);
    InheritedExact(MaxImportBytes, r.importBytes, c.importBytes);
    InheritedExact(MaxTotalImportBytes, r.totalImportBytes, c.totalImportBytes);
    InheritedExact(MaxCapabilityCalls, r.capabilityCalls, c.capabilityCalls);
    InheritedExact(MaxHostRequestBytes, r.hostRequest, c.hostRequest);
    InheritedExact(MaxHostResponseBytes, r.hostResponse, c.hostResponse);
    InheritedExact(MaxTraceBytes, r.trace, c.trace);
    hide InheritRequestLimit, NormalizeStack, Or, Sane;
  }

  lemma NormalizeRequestLimitsIsIdempotent(r: RequestLimits, c: EngineConfig)
    requires Sane(c) && NormalizeRequestLimits(r, c).Accepted?
    ensures NormalizeRequestLimits(NormalizeRequestLimits(r, c).value, c) == NormalizeRequestLimits(r, c)
  {
    NormalizeRequestLimitsExact(r, c);
    hide NormalizeRequestLimits, Sane;
    NormalizeRequestLimitsExact(Inherited(r, c), c);
  }
}
