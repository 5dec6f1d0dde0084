/** Ranges of guest memory and the response buffer. */
module Memory {
  import opened Wire
  import Utf8

  /** Go: a pointer and a length are unsigned words. The runtime's Read succeeds inside memory. */
  predicate GoRange(size: nat, ptr: U32, length: U32, limit: U32) {
    length != 0 && ptr != 0 && length <= limit && ptr + length <= size
  }

  /** A 32-bit pattern as a signed word. */
  function Signed(word: U32): int {
    if word < 0x8000_0000 then word else word - TWO_32
  }

  /** Rust: the same patterns arrive as signed words. */
  predicate RustRange(size: nat, ptr: U32, length: U32, limit: U32) {
    && Signed(ptr) > 0
    && Signed(length) > 0
    && Signed(length) <= limit
    && Signed(ptr) + Signed(length) <= size
  }

  /** The two checks accept the same patterns exactly for memories up to 2 GiB (the hosts cap them at
      1 GiB); an accepted range lies inside memory. */
  lemma RangeChecksAgree(size: nat, limit: U32)
    requires limit >= 1
    ensures (forall ptr: U32, length: U32 :: GoRange(size, ptr, length, limit) <==> RustRange(size, ptr, length, limit))
        <==> size <= 0x8000_0000
    ensures forall ptr: U32, length: U32 ::
              RustRange(size, ptr, length, limit) ==>
                GoRange(size, ptr, length, limit) && 0 < ptr < ptr + length <= size
  {
    var high: U32 := 0x8000_0000;
    assert !RustRange(size, high, 1, limit);
    assert size > 0x8000_0000 ==> GoRange(size, high, 1, limit);
  }

  function Overwrite(memory: Bytes, at: nat, body: Bytes): (m: Bytes)
    requires at + |body| <= |memory|
    ensures |m| == |memory|
  {
    memory[..at] + body + memory[at + |body|..]
  }

  /** Only the written range changes, and it reads back as what was written. */
  lemma OverwriteFrame(memory: Bytes, at: nat, body: Bytes)
    requires at + |body| <= |memory|
    ensures var m := Overwrite(memory, at, body);
            && m[at..at + |body|] == body
            && forall i :: 0 <= i < |memory| && !(at <= i < at + |body|) ==> m[i] == memory[i]
  {
  }

  lemma OverwriteAt(before: Bytes, after: Bytes, at: nat, body: Bytes)
    requires at + |body| <= |before| == |after|
    requires forall k :: 0 <= k < |body| ==> after[at + k] == body[k]
    requires forall k :: 0 <= k < |before| && !(at <= k < at + |body|) ==> after[k] == before[k]
    ensures after == Overwrite(before, at, body)
  {
    var m := Overwrite(before, at, body);
    forall k | 0 <= k < |after|
      ensures after[k] == m[k]
    {
      if at <= k < at + |body| {
        assert m[k] == body[k - at] && after[at + (k - at)] == body[k - at];
      }
    }
  }

  /** A copy into guest memory. */
  method Write(memory: array<Byte>, at: nat, body: Bytes)
    requires at + |body| <= memory.Length
    modifies memory
    ensures memory[..] == Overwrite(old(memory[..]), at, body)
  {
    ghost var before := memory[..];
    for i := 0 to |body|
      invariant forall k :: 0 <= k < i ==> memory[at + k] == body[k]
      invariant forall k :: 0 <= k < memory.Length && !(at <= k < at + i) ==> memory[k] == before[k]
    {
      memory[at + i] := body[i];
    }
    OverwriteAt(before, memory[..], at, body);
  }

  function Bounded(repair: Bytes -> Bytes, capacity: nat, status: U32, payload: Bytes): Bytes
    requires status == HOST_OK ==> |payload| <= capacity
  {
    if status == HOST_OK then payload else Utf8.BoundDiagnostic(repair, payload, capacity)
  }

  method WriteHostResponse(repair: Bytes -> Bytes, memory: array<Byte>, ptr: U32, capacity: U32, status: U32,
                           payload: Bytes)
    returns (packed: U64)
    requires ptr + capacity <= memory.Length
    modifies memory
    ensures status == HOST_OK && |payload| > capacity ==>
              packed == Pack(HOST_LIMIT, 0) && memory[..] == old(memory[..])
    ensures status != HOST_OK || |payload| <= capacity ==>
              var body := Bounded(repair, capacity, status, payload);
              && |body| <= capacity
              && packed == Pack(status, |body|)
              && memory[..] == Overwrite(old(memory[..]), ptr, body)
  {
    if status == HOST_OK && |payload| > capacity {
      return Pack(HOST_LIMIT, 0);
    }
    var body := payload;
    if status != HOST_OK {
      body := Utf8.ValidUtf8Prefix(repair, body, capacity);
    }
    Write(memory, ptr, body);
    return Pack(status, |body|);
  }
}
