/** What a host callback is: its limits, its inputs, the state it changes and the effect it has. Both
    hosts are described in these terms. */
module Callbacks {
  import opened Wire
  import opened Paths

  /** A JSON value, by its text. */
  type Value = Bytes

  datatype Limits = Limits(
    maxImports: U32,
    maxImportBytes: U32,
    maxTotalImportBytes: U64,
    maxCapabilityCalls: U32,
    maxHostRequestBytes: U32,
    maxHostResponseBytes: U32)

  datatype Resource =
    | ImportCount | ImportBytes | TotalImportBytes | ImportResponse
    | CapabilityCalls | CapabilityResponse | ResponseCapacity | HostMessage

  datatype HostError =
    | AbiViolation
    | ImportDenied
    | ImportFailed
    | CapabilityFailed
    | Canceled
    | LimitExceeded(resource: Resource, limit: nat, actual: nat)

  datatype ImportRequest = ImportRequest(from: Path, path: Path)
  datatype CapabilityRequest = CapabilityRequest(name: Bytes, args: seq<Value>)

  /** The host's half of the JSON codec. Encoding can fail in the host's language. */
  datatype Codec = Codec(
    decodeImport: Bytes -> Option<ImportRequest>,
    decodeCapability: Bytes -> Option<CapabilityRequest>,
    encodeImport: (Path, Bytes) -> Option<Bytes>,
    encodeCapability: Value -> Option<Bytes>)

  /** What the evaluation granted: an importer or none, and capabilities with their arities. */
  datatype Grants = Grants(importer: bool, capabilities: map<Bytes, nat>)

  /** `describe` gives the text of an error and `repair` replaces invalid UTF-8; both are the
      host's own. `volume` is the platform's volume test. */
  datatype Host = Host(
    limits: Limits,
    grants: Grants,
    codec: Codec,
    volume: Path -> bool,
    describe: HostError -> Bytes,
    repair: Bytes -> Bytes)

  datatype ImportAnswer = Answered(canonical: Path, content: Bytes) | Refused | Broke | Panicked
  datatype CapabilityAnswer = Returned(value: Value) | Failed | Crashed

  /** Everything the outside world decides during one callback. */
  datatype Reaction = Reaction(
    importAnswer: ImportAnswer,
    capabilityAnswer: CapabilityAnswer,
    expiredBefore: bool,
    expiredAfter: bool)

  datatype State = State(
    importCalls: nat,
    importBytes: nat,
    resolved: seq<Path>,
    seen: set<Path>,
    capabilityCalls: nat,
    lastError: Option<HostError>)

  const START := State(0, 0, [], {}, 0, None)

  /** One callback as the host carries it out: whether it counted against a call budget, the bytes
      it charged, and the canonical path whose content it accepted. */
  datatype Effect = Effect(
    status: U32,
    error: Option<HostError>,
    payload: Bytes,
    importCounted: bool,
    capabilityCounted: bool,
    charged: nat,
    accepted: Option<Path>)

  datatype Reply = Reply(status: U32, body: Bytes)

  /** One callback as the guest issues it, with the capacity of its response buffer. */
  datatype Call = Call(operation: U32, raw: Bytes, capacity: nat, reaction: Reaction)

  function Refusal(h: Host, status: U32, error: HostError): Effect {
    Effect(status, Some(error), h.describe(error), false, false, 0, None)
  }

  function Log(s: State, path: Path): State {
    if path in s.seen then s else s.(resolved := s.resolved + [path], seen := s.seen + {path})
  }

  function Record(s: State, error: Option<HostError>): State {
    if s.lastError.None? then s.(lastError := error) else s
  }

  function Count(s: State, e: Effect): State {
    s.(importCalls := s.importCalls + (if e.importCounted then 1 else 0),
       capabilityCalls := s.capabilityCalls + (if e.capabilityCounted then 1 else 0),
       importBytes := s.importBytes + e.charged)
  }

  // ---------------------------------------------------------------- budgets

  ghost predicate Within(limits: Limits, s: State) {
    && s.importCalls <= limits.maxImports
    && s.capabilityCalls <= limits.maxCapabilityCalls
    && s.importBytes <= limits.maxTotalImportBytes
    && LogIsSet(s)
    && |s.resolved| <= s.importCalls
  }

  /** The resolution list is duplicate-free and lists the set of seen paths. */
  ghost predicate LogIsSet(s: State) {
    && (forall p :: p in s.resolved <==> p in s.seen)
    && (forall i, j :: 0 <= i < j < |s.resolved| ==> s.resolved[i] != s.resolved[j])
  }

  lemma LogKeepsSet(s: State, path: Path)
    requires LogIsSet(s)
    ensures LogIsSet(Log(s, path)) && |Log(s, path).resolved| <= |s.resolved| + 1
  {
  }

  /** The integer tests for the byte total. Go adds modulo 2^64 and looks for a wrap; Rust saturates. */
  function GoTotal(bytes: U64, length: nat): U64 {
    (bytes + length) % TWO_64
  }

  predicate GoTotalFits(bytes: U64, length: nat, limit: U64) {
    GoTotal(bytes, length) >= bytes && GoTotal(bytes, length) <= limit
  }

  function RustTotal(bytes: U64, length: nat): U64 {
    Min(bytes + length, TWO_64 - 1)
  }

  predicate RustTotalFits(bytes: U64, length: nat, limit: U64) {
    RustTotal(bytes, length) <= limit
  }

  /** Go's test is exact for every limit; Rust's is exact unless the limit is the largest 64-bit
      number, where it accepts everything. Below that the totals themselves agree too. */
  lemma TotalsAreExact(bytes: U64, length: U32, limit: U64)
    ensures GoTotalFits(bytes, length, limit) <==> bytes + length <= limit
    ensures RustTotalFits(bytes, length, limit) <==> (bytes + length <= limit || limit == TWO_64 - 1)
    ensures GoTotalFits(bytes, length, limit) ==> GoTotal(bytes, length) == bytes + length
    ensures bytes <= TWO_64 - TWO_32 ==> GoTotal(bytes, length) == RustTotal(bytes, length) == bytes + length
  {
    if bytes + length >= TWO_64 {
      assert GoTotal(bytes, length) == bytes + length - TWO_64;
    }
  }
}
