/** Bytes, machine integers and the message words that the host and the guest exchange. */
module Wire {

  type Byte = x: int | 0 <= x < 0x100
  type Bytes = seq<Byte>

  const TWO_32 := 0x1_0000_0000
  const TWO_64 := 0x1_0000_0000_0000_0000

  type U32 = x: int | 0 <= x < 0x1_0000_0000
  type U64 = x: int | 0 <= x < 0x1_0000_0000_0000_0000

  datatype Option<+T> = None | Some(value: T)
  datatype Result<+T> = Ok(value: T) | Err

  /** Host callback statuses. */
  const HOST_OK: U32 := 0
  const HOST_DENIED: U32 := 1
  const HOST_HANDLER_FAILURE: U32 := 2
  const HOST_LIMIT: U32 := 3
  const HOST_CANCELED: U32 := 4
  const HOST_MALFORMED: U32 := 5

  const OPERATION_RESOLVE_IMPORT: U32 := 1
  const OPERATION_CALL_CAPABILITY: U32 := 2

  function Min(a: int, b: int): int {
    if a <= b then a else b
  }

  /** Status in the high half, payload length in the low half. The halves share no bit, so the
      source's `or` is a sum. */
  function Pack(status: U32, length: U32): U64 {
    status * TWO_32 + length
  }

  function Unpack(packed: U64): (U32, U32) {
    (packed / TWO_32, packed % TWO_32)
  }

  lemma PackRoundTrip(status: U32, length: U32, packed: U64)
    ensures Unpack(Pack(status, length)) == (status, length)
    ensures Pack(Unpack(packed).0, Unpack(packed).1) == packed
  {
  }

  function LittleEndian(n: U32): (b: Bytes)
    ensures |b| == 4
  {
    [n % 0x100, n / 0x100 % 0x100, n / 0x1_0000 % 0x100, n / 0x100_0000]
  }

  function FromLittleEndian(b: Bytes): U32
    requires |b| == 4
  {
    var b0: int, b1: int, b2: int, b3: int := b[0], b[1], b[2], b[3];
    b0 + 0x100 * b1 + 0x1_0000 * b2 + 0x100_0000 * b3
  }

  /** The four-byte word is a bijection, so a length prefix can be read in one way only. */
  lemma LittleEndianBijective(n: U32, b: Bytes)
    requires |b| == 4
    ensures FromLittleEndian(LittleEndian(n)) == n
    ensures LittleEndian(FromLittleEndian(b)) == b
  {
    var high := n / 0x100;
    assert n == n % 0x100 + 0x100 * high;
    assert n / 0x1_0000 == high / 0x100 && n / 0x100_0000 == high / 0x100 / 0x100;
    var m := FromLittleEndian(b);
    var b0: int, b1: int, b2: int, b3: int := b[0], b[1], b[2], b[3];
    var upper: int := b1 + 0x100 * b2 + 0x1_0000 * b3;
    assert m == b0 + 0x100 * upper;
    assert m % 0x100 == b0 && m / 0x100 == upper;
    assert upper % 0x100 == b1 && upper / 0x100 == b2 + 0x100 * b3;
    assert m / 0x1_0000 == upper / 0x100 && m / 0x100_0000 == upper / 0x100 / 0x100;
  }
}
