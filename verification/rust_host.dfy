/** The Rust host's side of the callback protocol. */
module RustHost {
  import opened Wire
  import opened Paths
  import opened Callbacks
  import Utf8
  import Memory
  import GoHost

  // ---------------------------------------------------------------- what a callback does

  function Import(h: Host, s: State, raw: Bytes, r: Reaction): Effect {
    match h.codec.decodeImport(raw)
    case None => Refusal(h, HOST_MALFORMED, AbiViolation)
    case Some(q) =>
      if q.path == [] || (q.from != [] && !RustVirtualPath(h.volume, q.from)) then
        Refusal(h, HOST_MALFORMED, AbiViolation)
      else if !RustImportPath(h.volume, q.path) then
        Refusal(h, HOST_DENIED, ImportDenied)
      else if s.importCalls >= h.limits.maxImports then
        Refusal(h, HOST_LIMIT, LimitExceeded(ImportCount, h.limits.maxImports, s.importCalls + 1))
      else
        Served(h, s, r).(importCounted := true)
  }

  /** A panic of the handler is answered without a diagnostic. */
  function Panic(h: Host, error: HostError): Effect {
    Refusal(h, HOST_HANDLER_FAILURE, error).(payload := [])
  }

  /** Expiry is tested before the grant and again behind the handler's answer. */
  function Served(h: Host, s: State, r: Reaction): Effect {
    if r.expiredBefore then Refusal(h, HOST_CANCELED, Canceled)
    else if !h.grants.importer then Refusal(h, HOST_DENIED, ImportDenied)
    else match r.importAnswer
      case Panicked => Panic(h, ImportFailed)
      case Refused => Refusal(h, HOST_DENIED, ImportDenied)
      case Broke => Refusal(h, HOST_HANDLER_FAILURE, ImportFailed)
      case Answered(canonical, content) =>
        if r.expiredAfter then Refusal(h, HOST_CANCELED, Canceled)
        else if !RustVirtualPath(h.volume, canonical) then Refusal(h, HOST_HANDLER_FAILURE, ImportFailed)
        else if |content| > h.limits.maxImportBytes then
          Refusal(h, HOST_LIMIT, LimitExceeded(ImportBytes, h.limits.maxImportBytes, |content|))
        else
          var total := Min(s.importBytes + |content|, TWO_64 - 1);
          if total > h.limits.maxTotalImportBytes then
            Refusal(h, HOST_LIMIT, LimitExceeded(TotalImportBytes, h.limits.maxTotalImportBytes, total))
          else
            var charged := if total < s.importBytes then 0 else total - s.importBytes;
            GoHost.Encoded(h, canonical, content).(charged := charged, accepted := Some(canonical))
  }

  function Capability(h: Host, s: State, raw: Bytes, r: Reaction): Effect {
    match h.codec.decodeCapability(raw)
    case None => Refusal(h, HOST_MALFORMED, AbiViolation)
    case Some(q) =>
      if q.name == [] then Refusal(h, HOST_MALFORMED, AbiViolation)
      else if s.capabilityCalls >= h.limits.maxCapabilityCalls then
        Refusal(h, HOST_LIMIT, LimitExceeded(CapabilityCalls, h.limits.maxCapabilityCalls, s.capabilityCalls + 1))
      else Invoked(h, q, r).(capabilityCounted := true)
  }

  function Invoked(h: Host, q: CapabilityRequest, r: Reaction): Effect {
    if r.expiredBefore then Refusal(h, HOST_CANCELED, Canceled)
    else if q.name !in h.grants.capabilities then Refusal(h, HOST_DENIED, CapabilityFailed)
    else if |q.args| != h.grants.capabilities[q.name] then Refusal(h, HOST_MALFORMED, CapabilityFailed)
    else match r.capabilityAnswer
      case Crashed => Panic(h, CapabilityFailed)
      case Failed => Refusal(h, HOST_HANDLER_FAILURE, CapabilityFailed)
      case Returned(value) =>
        if r.expiredAfter then Refusal(h, HOST_CANCELED, Canceled)
        else match h.codec.encodeCapability(value)
          case None => Refusal(h, HOST_HANDLER_FAILURE, CapabilityFailed)
          case Some(encoded) =>
            if |encoded| > h.limits.maxHostResponseBytes then
              Refusal(h, HOST_LIMIT, LimitExceeded(CapabilityResponse, h.limits.maxHostResponseBytes, |encoded|))
            else Effect(HOST_OK, None, encoded, false, false, 0, None)
  }

  function Dispatch(h: Host, s: State, c: Call): Effect {
    if c.operation == OPERATION_RESOLVE_IMPORT then Import(h, s, c.raw, c.reaction)
    else if c.operation == OPERATION_CALL_CAPABILITY then Capability(h, s, c.raw, c.reaction)
    else Refusal(h, HOST_MALFORMED, AbiViolation)
  }

  /** The path enters the log as soon as its content is charged, before the response is encoded. */
  function Change(s: State, e: Effect): State {
    var counted := Count(s, e);
    if e.accepted.Some? then Log(counted, e.accepted.value) else counted
  }

  function Next(h: Host, s: State, c: Call): State {
    var e := Dispatch(h, s, c);
    var changed := Record(Change(s, e), e.error);
    if GoHost.Overflows(e, c.capacity) then Record(changed, Some(GoHost.CapacityError(e, c.capacity))) else changed
  }

  function Answer(h: Host, s: State, c: Call): (r: Reply)
    ensures |r.body| <= c.capacity
  {
    var e := Dispatch(h, s, c);
    if GoHost.Overflows(e, c.capacity) then Reply(HOST_LIMIT, [])
    else if e.status == HOST_OK then Reply(HOST_OK, e.payload)
    else Reply(e.status, Utf8.LossyPrefix(h.repair, e.payload, c.capacity))
  }

  // ---------------------------------------------------------------- the invocation

  predicate BuffersInRange(h: Host, memory: Bytes, g: GoHost.GuestCall) {
    && Memory.RustRange(|memory|, g.requestPtr, g.requestLen, h.limits.maxHostRequestBytes)
    && Memory.RustRange(|memory|, g.responsePtr, g.responseCap, h.limits.maxHostResponseBytes)
  }

  /** The error of a rejected range: a length over its limit, or anything else. */
  function RangeError(ptr: U32, length: U32, limit: U32): HostError {
    if Memory.Signed(ptr) > 0 && Memory.Signed(length) > 0 && length > limit then
      LimitExceeded(HostMessage, limit, length)
    else AbiViolation
  }

  /** The request is looked at first. */
  function FirstRangeError(h: Host, memory: Bytes, g: GoHost.GuestCall): HostError {
    if Memory.RustRange(|memory|, g.requestPtr, g.requestLen, h.limits.maxHostRequestBytes) then
      RangeError(g.responsePtr, g.responseCap, h.limits.maxHostResponseBytes)
    else
      RangeError(g.requestPtr, g.requestLen, h.limits.maxHostRequestBytes)
  }

  function Contact(h: Host, s: State, memory: Bytes, g: GoHost.GuestCall, r: Reaction): (State, Reply) {
    if !BuffersInRange(h, memory, g) then
      (Record(s, Some(FirstRangeError(h, memory, g))), Reply(HOST_MALFORMED, []))
    else
      (Next(h, s, GoHost.Received(memory, g, r)), Answer(h, s, GoHost.Received(memory, g, r)))
  }

  class Invocation {
    const host: Host
    var importCalls: U32
    var importBytes: U64
    var resolved: seq<Path>
    var resolvedSeen: set<Path>
    var capabilityCalls: U32
    var lastError: Option<HostError>

    constructor (host: Host)
      ensures this.host == host && Value() == START
    {
      this.host := host;
      importCalls, importBytes, capabilityCalls := 0, 0, 0;
      resolved, resolvedSeen, lastError := [], {}, None;
    }

    function Value(): State
      reads this
    {
      State(importCalls, importBytes, resolved, resolvedSeen, capabilityCalls, lastError)
    }

    method RecordError(error: HostError)
      modifies this`lastError
      ensures Value() == Record(old(Value()), Some(error))
    {
      if lastError.None? {
        lastError := Some(error);
      }
    }

    /** A panic of the handler unwinds through this function; `panicked` stands for that exit. */
    method ResolveImport(raw: Bytes, r: Reaction)
      returns (status: U32, payload: Bytes, error: Option<HostError>, panicked: bool)
      modifies this
      ensures var e := Import(host, old(Value()), raw, r);
              && Value() == Change(old(Value()), e)
              && (panicked ==> e == Panic(host, ImportFailed).(importCounted := true))
              && (!panicked ==> status == e.status && payload == e.payload && error == e.error)
    {
      hide RustVirtualPath, RustImportPath;
      status, payload, error, panicked := HOST_MALFORMED, [], None, false;
      var request := host.codec.decodeImport(raw);
      if request.None? || request.value.path == [] {
        return HOST_MALFORMED, host.describe(AbiViolation), Some(AbiViolation), false;
      }
      if request.value.from != [] && !RustVirtualPath(host.volume, request.value.from) {
        return HOST_MALFORMED, host.describe(AbiViolation), Some(AbiViolation), false;
      }
      if !RustImportPath(host.volume, request.value.path) {
        return HOST_DENIED, host.describe(ImportDenied), Some(ImportDenied), false;
      }
      if importCalls >= host.limits.maxImports {
        var limit := LimitExceeded(ImportCount, host.limits.maxImports, importCalls + 1);
        return HOST_LIMIT, host.describe(limit), Some(limit), false;
      }
      importCalls := importCalls + 1;
      if r.expiredBefore {
        return HOST_CANCELED, host.describe(Canceled), Some(Canceled), false;
      }
      if !host.grants.importer {
        return HOST_DENIED, host.describe(ImportDenied), Some(ImportDenied), false;
      }
      match r.importAnswer
      case Panicked =>
        panicked := true;
        return;
      case Refused =>
        return HOST_DENIED, host.describe(ImportDenied), Some(ImportDenied), false;
      case Broke =>
        return HOST_HANDLER_FAILURE, host.describe(ImportFailed), Some(ImportFailed), false;
      case Answered(canonical, content) =>
        if r.expiredAfter {
          return HOST_CANCELED, host.describe(Canceled), Some(Canceled), false;
        }
        if !RustVirtualPath(host.volume, canonical) {
          return HOST_HANDLER_FAILURE, host.describe(ImportFailed), Some(ImportFailed), false;
        }
        if |content| > host.limits.maxImportBytes {
          var limit := LimitExceeded(ImportBytes, host.limits.maxImportBytes, |content|);
          return HOST_LIMIT, host.describe(limit), Some(limit), false;
        }
        var total: U64 := Min(importBytes + |content|, TWO_64 - 1);
        if total > host.limits.maxTotalImportBytes {
          var limit := LimitExceeded(TotalImportBytes, host.limits.maxTotalImportBytes, total);
          return HOST_LIMIT, host.describe(limit), Some(limit), false;
        }
        importBytes := total;
        if canonical !in resolvedSeen {
          resolvedSeen := resolvedSeen + {canonical};
          resolved := resolved + [canonical];
        }
        var encoded := host.codec.encodeImport(canonical, content);
        if encoded.None? {
          return HOST_HANDLER_FAILURE, host.describe(ImportFailed), Some(ImportFailed), false;
        }
        if |encoded.value| > host.limits.maxHostResponseBytes {
          var limit := LimitExceeded(ImportResponse, host.limits.maxHostResponseBytes, |encoded.value|);
          return HOST_LIMIT, host.describe(limit), Some(limit), false;
        }
        return HOST_OK, encoded.value, None, false;
    }

    method CallCapability(raw: Bytes, r: Reaction)
      returns (status: U32, payload: Bytes, error: Option<HostError>, panicked: bool)
      modifies this`capabilityCalls
      ensures var e := Capability(host, old(Value()), raw, r);
              && Value() == Change(old(Value()), e)
              && (panicked ==> e == Panic(host, CapabilityFailed).(capabilityCounted := true))
              && (!panicked ==> status == e.status && payload == e.payload && error == e.error)
    {
      status, payload, error, panicked := HOST_MALFORMED, [], None, false;
      var request := host.codec.decodeCapability(raw);
      if request.None? || request.value.name == [] {
        return HOST_MALFORMED, host.describe(AbiViolation), Some(AbiViolation), false;
      }
      if capabilityCalls >= host.limits.maxCapabilityCalls {
        var limit := LimitExceeded(CapabilityCalls, host.limits.maxCapabilityCalls, capabilityCalls + 1);
        return HOST_LIMIT, host.describe(limit), Some(limit), false;
      }
      capabilityCalls := capabilityCalls + 1;
      if r.expiredBefore {
        return HOST_CANCELED, host.describe(Canceled), Some(Canceled), false;
      }
      if request.value.name !in host.grants.capabilities {
        return HOST_DENIED, host.describe(CapabilityFailed), Some(CapabilityFailed), false;
      }
      if |request.value.args| != host.grants.capabilities[request.value.name] {
        return HOST_MALFORMED, host.describe(CapabilityFailed), Some(CapabilityFailed), false;
      }
      if r.capabilityAnswer.Crashed? {
        panicked := true;
        return;
      }
      if r.capabilityAnswer.Failed? {
        return HOST_HANDLER_FAILURE, host.describe(CapabilityFailed), Some(CapabilityFailed), false;
      }
      if r.expiredAfter {
        return HOST_CANCELED, host.describe(Canceled), Some(Canceled), false;
      }
      var encoded := host.codec.encodeCapability(r.capabilityAnswer.value);
      if encoded.None? {
        return HOST_HANDLER_FAILURE, host.describe(CapabilityFailed), Some(CapabilityFailed), false;
      }
      if |encoded.value| > host.limits.maxHostResponseBytes {
        var limit := LimitExceeded(CapabilityResponse, host.limits.maxHostResponseBytes, |encoded.value|);
        return HOST_LIMIT, host.describe(limit), Some(limit), false;
      }
      return HOST_OK, encoded.value, None, false;
    }

    /** host_call around host_call_inner. */
    method HostCall(memory: array<Byte>, g: GoHost.GuestCall, r: Reaction) returns (packed: U64)
      requires host.repair([]) == []
      modifies this, memory
      ensures var (next, reply) := Contact(host, old(Value()), old(memory[..]), g, r);
              && Value() == next
              && packed == Pack(reply.status, |reply.body|)
              && memory[..] == if BuffersInRange(host, old(memory[..]), g)
                               then Memory.Overwrite(old(memory[..]), g.responsePtr, reply.body) else old(memory[..])
    {
      hide Import, Capability, Utf8.Valid, Utf8.TrimToValid;
      if !Memory.RustRange(memory.Length, g.requestPtr, g.requestLen, host.limits.maxHostRequestBytes) {
        RecordError(RangeError(g.requestPtr, g.requestLen, host.limits.maxHostRequestBytes));
        return Pack(HOST_MALFORMED, 0);
      }
      var raw := memory[g.requestPtr..g.requestPtr + g.requestLen];
      if !Memory.RustRange(memory.Length, g.responsePtr, g.responseCap, host.limits.maxHostResponseBytes) {
        RecordError(RangeError(g.responsePtr, g.responseCap, host.limits.maxHostResponseBytes));
        return Pack(HOST_MALFORMED, 0);
      }
      ghost var c := GoHost.Received(memory[..], g, r);
      assert c.raw == raw;
      var status: U32, payload: Bytes, error: Option<HostError>, panicked: bool := HOST_MALFORMED, [], None, false;
      if g.operation == OPERATION_RESOLVE_IMPORT {
        status, payload, error, panicked := ResolveImport(raw, r);
      } else if g.operation == OPERATION_CALL_CAPABILITY {
        status, payload, error, panicked := CallCapability(raw, r);
      } else {
        error := Some(AbiViolation);
        payload := host.describe(AbiViolation);
      }
      if panicked {
        RecordError(if g.operation == OPERATION_RESOLVE_IMPORT then ImportFailed else CapabilityFailed);
        NothingWritten(memory[..], g.responsePtr);
        return Pack(HOST_HANDLER_FAILURE, 0);
      }
      if error.Some? {
        RecordError(error.value);
      }
      if status == HOST_OK && |payload| > g.responseCap {
        RecordError(LimitExceeded(ResponseCapacity, g.responseCap, |payload|));
        NothingWritten(memory[..], g.responsePtr);
        return Pack(HOST_LIMIT, 0);
      }
      if status != HOST_OK {
        payload := Utf8.Utf8Prefix(host.repair, payload, g.responseCap);
      }
      Memory.Write(memory, g.responsePtr, payload);
      return Pack(status, |payload|);
    }
  }

  lemma NothingWritten(memory: Bytes, at: nat)
    requires at <= |memory|
    ensures Memory.Overwrite(memory, at, []) == memory
    ensures forall lossy: Bytes -> Bytes, capacity: nat ::
              lossy([]) == [] ==> Utf8.LossyPrefix(lossy, [], capacity) == []
  {
  }
}
