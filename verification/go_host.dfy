/** The Go host's side of the callback protocol. */
module GoHost {
  import opened Wire
  import opened Paths
  import opened Callbacks
  import Utf8
  import Memory

  // ---------------------------------------------------------------- what a callback does

  function Import(h: Host, s: State, raw: Bytes, r: Reaction): Effect {
    match h.codec.decodeImport(raw)
    case None => Refusal(h, HOST_MALFORMED, AbiViolation)
    case Some(q) =>
      if q.path == [] || (q.from != [] && !GoVirtualPath(h.volume, q.from)) then
        Refusal(h, HOST_MALFORMED, AbiViolation)
      else if !GoRelativePath(h.volume, q.path) then
        Refusal(h, HOST_DENIED, ImportDenied)
      else if s.importCalls >= h.limits.maxImports then
        Refusal(h, HOST_LIMIT, LimitExceeded(ImportCount, h.limits.maxImports, s.importCalls + 1))
      else
        Served(h, s, r).(importCounted := true)
  }

  /** The part of an import behind the call count. */
  function Served(h: Host, s: State, r: Reaction): Effect {
    if !h.grants.importer then Refusal(h, HOST_DENIED, ImportDenied)
    else if r.importAnswer.Panicked? then Refusal(h, HOST_HANDLER_FAILURE, ImportFailed)
    else if r.expiredAfter then Refusal(h, HOST_CANCELED, Canceled)
    else match r.importAnswer
      case Refused => Refusal(h, HOST_DENIED, ImportDenied)
      case Answered(canonical, content) =>
        if !GoVirtualPath(h.volume, canonical) then Refusal(h, HOST_HANDLER_FAILURE, ImportFailed)
        else if |content| > h.limits.maxImportBytes then
          Refusal(h, HOST_LIMIT, LimitExceeded(ImportBytes, h.limits.maxImportBytes, |content|))
        else if s.importBytes + |content| > h.limits.maxTotalImportBytes then
          Refusal(h, HOST_LIMIT, LimitExceeded(TotalImportBytes, h.limits.maxTotalImportBytes,
                                               (s.importBytes + |content|) % TWO_64))
        else
          Encoded(h, canonical, content).(charged := |content|, accepted := Some(canonical))
      case _ => Refusal(h, HOST_HANDLER_FAILURE, ImportFailed)
  }

  function Encoded(h: Host, canonical: Path, content: Bytes): Effect {
    match h.codec.encodeImport(canonical, content)
    case None => Refusal(h, HOST_HANDLER_FAILURE, ImportFailed)
    case Some(encoded) =>
      if |encoded| > h.limits.maxHostResponseBytes then
        Refusal(h, HOST_LIMIT, LimitExceeded(ImportResponse, h.limits.maxHostResponseBytes, |encoded|))
      else Effect(HOST_OK, None, encoded, false, false, 0, None)
  }

  function Capability(h: Host, s: State, raw: Bytes, r: Reaction): Effect {
    match h.codec.decodeCapability(raw)
    case None => Refusal(h, HOST_MALFORMED, AbiViolation)
    case Some(q) =>
      if q.name == [] then Refusal(h, HOST_MALFORMED, AbiViolation)
      else if s.capabilityCalls >= h.limits.maxCapabilityCalls then
        Refusal(h, HOST_LIMIT, LimitExceeded(CapabilityCalls, h.limits.maxCapabilityCalls, s.capabilityCalls + 1))
      else Invoked(h, q, r).(capabilityCounted := true)
  }

  function Invoked(h: Host, q: CapabilityRequest, r: Reaction): Effect {
    if q.name !in h.grants.capabilities then Refusal(h, HOST_DENIED, CapabilityFailed)
    else if |q.args| != h.grants.capabilities[q.name] then Refusal(h, HOST_MALFORMED, CapabilityFailed)
    else if r.capabilityAnswer.Crashed? then Refusal(h, HOST_HANDLER_FAILURE, CapabilityFailed)
    else if r.expiredAfter then Refusal(h, HOST_CANCELED, Canceled)
    else match r.capabilityAnswer
      case Returned(value) =>
        (match h.codec.encodeCapability(value)
         case None => Refusal(h, HOST_HANDLER_FAILURE, CapabilityFailed)
         case Some(encoded) =>
           if |encoded| > h.limits.maxHostResponseBytes then
             Refusal(h, HOST_LIMIT, LimitExceeded(CapabilityResponse, h.limits.maxHostResponseBytes, |encoded|))
           else Effect(HOST_OK, None, encoded, false, false, 0, None))
      case _ => Refusal(h, HOST_HANDLER_FAILURE, CapabilityFailed)
  }

  function Dispatch(h: Host, s: State, c: Call): Effect {
    if c.operation == OPERATION_RESOLVE_IMPORT then Import(h, s, c.raw, c.reaction)
    else if c.operation == OPERATION_CALL_CAPABILITY then Capability(h, s, c.raw, c.reaction)
    else Refusal(h, HOST_MALFORMED, AbiViolation)
  }

  /** Only a served path enters the log. */
  function Change(s: State, e: Effect): State {
    var counted := Count(s, e);
    if e.status == HOST_OK && e.accepted.Some? then Log(counted, e.accepted.value) else counted
  }

  predicate Overflows(e: Effect, capacity: nat) {
    e.status == HOST_OK && |e.payload| > capacity
  }

  function CapacityError(e: Effect, capacity: nat): HostError {
    LimitExceeded(ResponseCapacity, capacity, |e.payload|)
  }

  function Next(h: Host, s: State, c: Call): State {
    var e := Dispatch(h, s, c);
    var changed := Record(Change(s, e), e.error);
    if Overflows(e, c.capacity) then Record(changed, Some(CapacityError(e, c.capacity))) else changed
  }

  function Answer(h: Host, s: State, c: Call): (r: Reply)
    ensures |r.body| <= c.capacity
  {
    var e := Dispatch(h, s, c);
    if Overflows(e, c.capacity) then
      Reply(HOST_LIMIT, Utf8.BoundDiagnostic(h.repair, h.describe(CapacityError(e, c.capacity)), c.capacity))
    else if e.status == HOST_OK then Reply(HOST_OK, e.payload)
    else Reply(e.status, Utf8.BoundDiagnostic(h.repair, e.payload, c.capacity))
  }

  // ---------------------------------------------------------------- through guest memory

  datatype GuestCall = GuestCall(operation: U32, requestPtr: U32, requestLen: U32, responsePtr: U32, responseCap: U32)

  predicate BuffersInRange(h: Host, memory: Bytes, g: GuestCall) {
    && Memory.GoRange(|memory|, g.responsePtr, g.responseCap, h.limits.maxHostResponseBytes)
    && Memory.GoRange(|memory|, g.requestPtr, g.requestLen, h.limits.maxHostRequestBytes)
  }

  /** The call that the guest's words and memory amount to. */
  function Received(memory: Bytes, g: GuestCall, r: Reaction): Call
    requires g.requestPtr + g.requestLen <= |memory|
  {
    Call(g.operation, memory[g.requestPtr..g.requestPtr + g.requestLen], g.responseCap, r)
  }

  /** A call with a bad buffer leaves its mark as the first error, unless there is one already. */
  function Contact(h: Host, s: State, memory: Bytes, g: GuestCall, r: Reaction): (State, Reply) {
    if !BuffersInRange(h, memory, g) then (Record(s, Some(AbiViolation)), Reply(HOST_MALFORMED, []))
    else (Next(h, s, Received(memory, g, r)), Answer(h, s, Received(memory, g, r)))
  }

  // ---------------------------------------------------------------- the invocation

  class Invocation {
    const host: Host
    var importCalls: U32
    var importBytes: U64
    var resolved: seq<Path>
    var resolvedSeen: set<Path>
    var capabilityCalls: U32
    var lastErr: Option<HostError>

    constructor (host: Host)
      ensures this.host == host && Value() == START
    {
      this.host := host;
      importCalls, importBytes, capabilityCalls := 0, 0, 0;
      resolved, resolvedSeen, lastErr := [], {}, None;
    }

    function Value(): State
      reads this
    {
      State(importCalls, importBytes, resolved, resolvedSeen, capabilityCalls, lastErr)
    }

    method RecordResolved(canonical: Path)
      modifies this`resolved, this`resolvedSeen
      ensures Value() == Log(old(Value()), canonical)
    {
      if canonical in resolvedSeen {
        return;
      }
      resolvedSeen := resolvedSeen + {canonical};
      resolved := resolved + [canonical];
    }

    method RecordError(error: HostError)
      modifies this`lastErr
      ensures Value() == Record(old(Value()), Some(error))
    {
      if lastErr.None? {
        lastErr := Some(error);
      }
    }

    /** The first critical section of an import: count the call unless the budget is spent. */
    method CountImport() returns (counted: bool)
      modifies this`importCalls
      ensures counted <==> old(importCalls) < host.limits.maxImports
      ensures importCalls == if counted then old(importCalls) + 1 else old(importCalls)
    {
      if importCalls >= host.limits.maxImports {
        return false;
      }
      importCalls := importCalls + 1;
      return true;
    }

    /** The second critical section: charge the content unless the total would pass its limit. */
    method ChargeImport(length: U32) returns (charged: bool, next: U64)
      modifies this`importBytes
      ensures charged <==> old(importBytes) + length <= host.limits.maxTotalImportBytes
      ensures next == (old(importBytes) + length) % TWO_64
      ensures importBytes == if charged then old(importBytes) + length else old(importBytes)
    {
      TotalsAreExact(importBytes, length, host.limits.maxTotalImportBytes);
      next := (importBytes + length) % TWO_64;
      if next < importBytes || next > host.limits.maxTotalImportBytes {
        return false, next;
      }
      importBytes := next;
      return true, next;
    }

    /** A panic of the handler leaves through `panicked`; the other results then mean nothing. */
    method ResolveImport(raw: Bytes, r: Reaction)
      returns (status: U32, payload: Bytes, error: Option<HostError>, panicked: bool)
      modifies this
      ensures var e := Import(host, old(Value()), raw, r);
              && Value() == Change(old(Value()), e)
              && (panicked ==> e == Refusal(host, HOST_HANDLER_FAILURE, ImportFailed).(importCounted := true))
              && (!panicked ==> status == e.status && payload == e.payload && error == e.error)
    {
      hide GoVirtualPath, GoRelativePath, Log;
      status, payload, error, panicked := HOST_MALFORMED, [], None, false;
      var request := host.codec.decodeImport(raw);
      if request.None? || request.value.path == [] {
        return HOST_MALFORMED, host.describe(AbiViolation), Some(AbiViolation), false;
      }
      if request.value.from != [] {
        if !GoVirtualPath(host.volume, request.value.from) {
          return HOST_MALFORMED, host.describe(AbiViolation), Some(AbiViolation), false;
        }
      }
      if !GoRelativePath(host.volume, request.value.path) {
        return HOST_DENIED, host.describe(ImportDenied), Some(ImportDenied), false;
      }
      var counted := CountImport();
      if !counted {
        var limit := LimitExceeded(ImportCount, host.limits.maxImports, importCalls + 1);
        return HOST_LIMIT, host.describe(limit), Some(limit), false;
      }
      if !host.grants.importer {
        return HOST_DENIED, host.describe(ImportDenied), Some(ImportDenied), false;
      }
      if r.importAnswer.Panicked? {
        panicked := true;
        return;
      }
      if r.expiredAfter {
        return HOST_CANCELED, host.describe(Canceled), Some(Canceled), false;
      }
      if r.importAnswer.Refused? {
        return HOST_DENIED, host.describe(ImportDenied), Some(ImportDenied), false;
      }
      if r.importAnswer.Broke? {
        return HOST_HANDLER_FAILURE, host.describe(ImportFailed), Some(ImportFailed), false;
      }
      var canonical, content := r.importAnswer.canonical, r.importAnswer.content;
      if !GoVirtualPath(host.volume, canonical) {
        return HOST_HANDLER_FAILURE, host.describe(ImportFailed), Some(ImportFailed), false;
      }
      if |content| > host.limits.maxImportBytes {
        var limit := LimitExceeded(ImportBytes, host.limits.maxImportBytes, |content|);
        return HOST_LIMIT, host.describe(limit), Some(limit), false;
      }
      var charged, next := ChargeImport(|content|);
      if !charged {
        var limit := LimitExceeded(TotalImportBytes, host.limits.maxTotalImportBytes, next);
        return HOST_LIMIT, host.describe(limit), Some(limit), false;
      }
      var encoded := host.codec.encodeImport(canonical, content);
      if encoded.None? {
        return HOST_HANDLER_FAILURE, host.describe(ImportFailed), Some(ImportFailed), false;
      }
      if |encoded.value| > host.limits.maxHostResponseBytes {
        var limit := LimitExceeded(ImportResponse, host.limits.maxHostResponseBytes, |encoded.value|);
        return HOST_LIMIT, host.describe(limit), Some(limit), false;
      }
      RecordResolved(canonical);
      return HOST_OK, encoded.value, None, false;
    }

    method CallCapability(raw: Bytes, r: Reaction)
      returns (status: U32, payload: Bytes, error: Option<HostError>, panicked: bool)
      modifies this`capabilityCalls
      ensures var e := Capability(host, old(Value()), raw, r);
              && Value() == Change(old(Value()), e)
              && (panicked ==> e == Refusal(host, HOST_HANDLER_FAILURE, CapabilityFailed).(capabilityCounted := true))
              && (!panicked ==> status == e.status && payload == e.payload && error == e.error)
    {
      status, payload, error, panicked := HOST_MALFORMED, [], None, false;
      var request := host.codec.decodeCapability(raw);
      if request.None? || request.value.name == [] {
        return HOST_MALFORMED, host.describe(AbiViolation), Some(AbiViolation), false;
      }
      if capabilityCalls >= host.limits.maxCapabilityCalls {
        var limit := LimitExceeded(CapabilityCalls, host.limits.maxCapabilityCalls, capabilityCalls + 1);
        return HOST_LIMIT, host.describe(limit), Some(limit), false;
      }
      capabilityCalls := capabilityCalls + 1;
      if request.value.name !in host.grants.capabilities {
        return HOST_DENIED, host.describe(CapabilityFailed), Some(CapabilityFailed), false;
      }
      if |request.value.args| != host.grants.capabilities[request.value.name] {
        return HOST_MALFORMED, host.describe(CapabilityFailed), Some(CapabilityFailed), false;
      }
      if r.capabilityAnswer.Crashed? {
        panicked := true;
        return;
      }
      if r.expiredAfter {
        return HOST_CANCELED, host.describe(Canceled), Some(Canceled), false;
      }
      if r.capabilityAnswer.Failed? {
        return HOST_HANDLER_FAILURE, host.describe(CapabilityFailed), Some(CapabilityFailed), false;
      }
      var encoded := host.codec.encodeCapability(r.capabilityAnswer.value);
      if encoded.None? {
        return HOST_HANDLER_FAILURE, host.describe(CapabilityFailed), Some(CapabilityFailed), false;
      }
      if |encoded.value| > host.limits.maxHostResponseBytes {
        var limit := LimitExceeded(CapabilityResponse, host.limits.maxHostResponseBytes, |encoded.value|);
        return HOST_LIMIT, host.describe(limit), Some(limit), false;
      }
      return HOST_OK, encoded.value, None, false;
    }

    /** The exported function: check both buffers, serve, and write the response into guest memory.
        Nothing outside the response buffer changes, and a call with a bad buffer changes nothing
        but the recorded error. */
    method HostCall(memory: array<Byte>, g: GuestCall, r: Reaction) returns (packed: U64)
      modifies this, memory
      ensures var (next, reply) := Contact(host, old(Value()), old(memory[..]), g, r);
              && Value() == next
              && packed == Pack(reply.status, |reply.body|)
              && memory[..] == if BuffersInRange(host, old(memory[..]), g)
                               then Memory.Overwrite(old(memory[..]), g.responsePtr, reply.body) else old(memory[..])
    {
      if !Memory.GoRange(memory.Length, g.responsePtr, g.responseCap, host.limits.maxHostResponseBytes) {
        RecordError(AbiViolation);
        return Pack(HOST_MALFORMED, 0);
      }
      if !Memory.GoRange(memory.Length, g.requestPtr, g.requestLen, host.limits.maxHostRequestBytes) {
        RecordError(AbiViolation);
        return Pack(HOST_MALFORMED, 0);
      }
      var raw := memory[g.requestPtr..g.requestPtr + g.requestLen];
      ghost var c := Received(memory[..], g, r);
      assert c.raw == raw;
      ghost var before := Value();
      var status: U32, payload: Bytes, error: Option<HostError>, panicked: bool := HOST_MALFORMED, [], None, false;
      if g.operation == OPERATION_RESOLVE_IMPORT {
        status, payload, error, panicked := ResolveImport(raw, r);
      } else if g.operation == OPERATION_CALL_CAPABILITY {
        status, payload, error, panicked := CallCapability(raw, r);
      } else {
        error := Some(AbiViolation);
        payload := host.describe(AbiViolation);
      }
      if panicked {
        var recovered := if g.operation == OPERATION_RESOLVE_IMPORT then ImportFailed else CapabilityFailed;
        RecordError(recovered);
        packed := Memory.WriteHostResponse(host.repair, memory, g.responsePtr, g.responseCap,
                                           HOST_HANDLER_FAILURE, host.describe(recovered));
        return;
      }
      if error.Some? {
        RecordError(error.value);
      }
      if status == HOST_OK && |payload| > g.responseCap {
        var limit := LimitExceeded(ResponseCapacity, g.responseCap, |payload|);
        RecordError(limit);
        packed := Memory.WriteHostResponse(host.repair, memory, g.responsePtr, g.responseCap,
                                           HOST_LIMIT, host.describe(limit));
        return;
      }
      packed := Memory.WriteHostResponse(host.repair, memory, g.responsePtr, g.responseCap, status, payload);
    }
  }
}
