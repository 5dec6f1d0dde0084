/** UTF-8 as section 4 of RFC 3629 defines it, and the loops that cut a message at a character
    boundary. */
module Utf8 {
  import opened Wire

  predicate Tail(b: Byte) {
    0x80 <= b <= 0xBF
  }

  predicate ThreeByteLead(a: Byte, b: Byte) {
    || (a == 0xE0 && 0xA0 <= b <= 0xBF)
    || ((0xE1 <= a <= 0xEC || 0xEE <= a <= 0xEF) && Tail(b))
    || (a == 0xED && 0x80 <= b <= 0x9F)
  }

  predicate FourByteLead(a: Byte, b: Byte) {
    || (a == 0xF0 && 0x90 <= b <= 0xBF)
    || (0xF1 <= a <= 0xF3 && Tail(b))
    || (a == 0xF4 && 0x80 <= b <= 0x8F)
  }

  /** Size of the well-formed character that s starts with; zero when it starts with none. */
  function CharLength(s: Bytes): (n: nat)
    ensures n <= 4 && n <= |s|
    ensures forall i :: 1 <= i < n ==> Tail(s[i])
    ensures n > 0 ==> !Tail(s[0])
  {
    if |s| >= 1 && s[0] <= 0x7F then 1
    else if |s| >= 2 && 0xC2 <= s[0] <= 0xDF && Tail(s[1]) then 2
    else if |s| >= 3 && ThreeByteLead(s[0], s[1]) && Tail(s[2]) then 3
    else if |s| >= 4 && FourByteLead(s[0], s[1]) && Tail(s[2]) && Tail(s[3]) then 4
    else 0
  }

  predicate Valid(s: Bytes)
    decreases |s|
  {
    s == [] || (CharLength(s) > 0 && Valid(s[CharLength(s)..]))
  }

  // ---------------------------------------------------------------- characters are encoded scalar values

  predicate Scalar(n: nat) {
    n < 0xD800 || 0xE000 <= n <= 0x10FFFF
  }

  /** Section 3 of RFC 3629. */
  function EncodeScalar(n: nat): Bytes
    requires Scalar(n)
  {
    if n < 0x80 then [n]
    else if n < 0x800 then [0xC0 + n / 0x40, 0x80 + n % 0x40]
    else if n < 0x1_0000 then [0xE0 + n / 0x1000, 0x80 + n / 0x40 % 0x40, 0x80 + n % 0x40]
    else [0xF0 + n / 0x4_0000, 0x80 + n / 0x1000 % 0x40, 0x80 + n / 0x40 % 0x40, 0x80 + n % 0x40]
  }

  function Bits(b: Byte, from: nat): nat {
    if b >= from then b - from else 0
  }

  /** The number that the leading character of s encodes. */
  function DecodeScalar(s: Bytes): nat
    requires CharLength(s) > 0
  {
    match CharLength(s)
    case 1 => s[0]
    case 2 => 0x40 * Bits(s[0], 0xC0) + Bits(s[1], 0x80)
    case 3 => 0x1000 * Bits(s[0], 0xE0) + 0x40 * Bits(s[1], 0x80) + Bits(s[2], 0x80)
    case _ =>
      0x4_0000 * Bits(s[0], 0xF0) + 0x1000 * Bits(s[1], 0x80) + 0x40 * Bits(s[2], 0x80) + Bits(s[3], 0x80)
  }

  lemma SixBits(upper: nat, low: nat)
    requires low < 0x40
    ensures (0x40 * upper + low) / 0x40 == upper && (0x40 * upper + low) % 0x40 == low
  {
  }

  /** The characters that validity is made of are exactly the encodings of scalar values. */
  lemma CharactersAreScalars(s: Bytes)
    ensures CharLength(s) > 0 ==> Scalar(DecodeScalar(s)) && s[..CharLength(s)] == EncodeScalar(DecodeScalar(s))
  {
    if CharLength(s) == 2 {
      SixBits(Bits(s[0], 0xC0), Bits(s[1], 0x80));
    } else if CharLength(s) == 3 {
      ThreeBytes(s);
    } else if CharLength(s) == 4 {
      FourBytes(s);
    }
  }

  lemma ThreeBytes(s: Bytes)
    requires CharLength(s) == 3
    ensures Scalar(DecodeScalar(s)) && s[..3] == EncodeScalar(DecodeScalar(s))
  {
    var a, b, c, n := Bits(s[0], 0xE0), Bits(s[1], 0x80), Bits(s[2], 0x80), DecodeScalar(s);
    SixBits(0x40 * a + b, c);
    SixBits(a, b);
    assert n == 0x40 * (0x40 * a + b) + c && n / 0x1000 == n / 0x40 / 0x40;
  }

  lemma FourBytes(s: Bytes)
    requires CharLength(s) == 4
    ensures Scalar(DecodeScalar(s)) && s[..4] == EncodeScalar(DecodeScalar(s))
  {
    var a, b, c, d, n := Bits(s[0], 0xF0), Bits(s[1], 0x80), Bits(s[2], 0x80), Bits(s[3], 0x80), DecodeScalar(s);
    SixBits(0x1000 * a + 0x40 * b + c, d);
    SixBits(0x40 * a + b, c);
    SixBits(a, b);
    assert n == 0x40 * (0x1000 * a + 0x40 * b + c) + d;
    assert n / 0x1000 == n / 0x40 / 0x40 && n / 0x4_0000 == n / 0x1000 / 0x40;
  }

  lemma ScalarsAreCharacters(n: nat, rest: Bytes)
    requires Scalar(n)
    ensures CharLength(EncodeScalar(n) + rest) == |EncodeScalar(n)|
  {
    var s := EncodeScalar(n) + rest;
    if n >= 0x1_0000 {
      assert n / 0x4_0000 == n / 0x1000 / 0x40;
    } else if n >= 0x800 {
      assert n / 0x1000 == n / 0x40 / 0x40;
    }
  }

  /** What follows a character does not change where it ends. */
  lemma CharLengthIsLocal(s: Bytes, t: Bytes)
    ensures CharLength(s) > 0 ==> CharLength(s + t) == CharLength(s)
    ensures 0 < CharLength(s + t) <= |s| ==> CharLength(s) == CharLength(s + t)
  {
    assert forall i :: 0 <= i < |s| ==> (s + t)[i] == s[i];
  }

  /** Characters form a prefix code: a valid start can be cut off without changing the verdict. */
  lemma {:induction false} ValidConcat(a: Bytes, b: Bytes)
    requires Valid(a)
    ensures Valid(a + b) <==> Valid(b)
    decreases |a|
  {
    if a == [] {
      assert a + b == b;
    } else {
      var n := CharLength(a);
      CharLengthIsLocal(a, b);
      assert (a + b)[n..] == a[n..] + b;
      ValidConcat(a[n..], b);
    }
  }

  /** A cut through valid text leaves a valid start exactly when it leaves a valid rest. */
  lemma {:induction false} CutAtBoundary(s: Bytes, j: nat)
    requires Valid(s) && j <= |s|
    ensures Valid(s[..j]) <==> Valid(s[j..])
    decreases |s|
  {
    if j == 0 {
      assert s[j..] == s;
    } else {
      var n := CharLength(s);
      if j < n {
        assert Tail(s[j]) && s[j..][0] == s[j];
        assert s[..j] + s[j..] == s;
        if Valid(s[..j]) {
          CharLengthIsLocal(s[..j], s[j..]);
        }
      } else {
        CutAtBoundary(s[n..], j - n);
        assert s[n..][..j - n] == s[..j][n..];
        assert s[n..][j - n..] == s[j..];
        assert s[..j] + s[j..] == s;
        CharLengthIsLocal(s[..j], s[j..]);
      }
    }
  }

  /** An ASCII byte never lies inside a character, so valid text can be cut in front of it. */
  lemma {:induction false} CutBeforeAscii(a: Bytes, t: Bytes)
    requires t != [] && t[0] <= 0x7F && Valid(a + t)
    ensures Valid(a) && Valid(t) && Valid(t[1..])
    decreases |a|
  {
    if a == [] {
      assert a + t == t && CharLength(t) == 1;
    } else {
      CharLengthIsLocal(a, t);
      hide CharLength;
      var s := a + t;
      var n := CharLength(s);
      assert s[|a|] == t[0];
      assert s[n..] == a[n..] + t;
      CutBeforeAscii(a[n..], t);
    }
  }

  /** The longest valid start of s. */
  function TrimToValid(s: Bytes): (r: Bytes)
    ensures Valid(r) && r <= s
    ensures forall j :: |r| < j <= |s| ==> !Valid(s[..j])
    decreases |s|
  {
    if Valid(s) then s
    else
      var shorter := s[..|s| - 1];
      var r := TrimToValid(shorter);
      assert forall j :: |r| < j < |s| ==> shorter[..j] == s[..j];
      assert s[..|s|] == s;
      r
  }

  function Truncate(value: Bytes, limit: nat): Bytes {
    if |value| <= limit then value else TrimToValid(value[..limit])
  }

  /** A valid start of s[..k] is a start of the trimmed text as well. */
  lemma TrimIsLongest(s: Bytes, k: nat, p: Bytes)
    requires k <= |s| && Valid(p) && p <= s && |p| <= k
    ensures p <= TrimToValid(s[..k])
  {
    assert s[..k][..|p|] == p;
  }

  /** Cutting valid text costs at most the three bytes of an unfinished character. */
  lemma {:induction false} TrimLosesAtMostThree(s: Bytes, k: nat)
    requires Valid(s) && k <= |s|
    ensures k - 3 <= |TrimToValid(s[..k])|
    decreases |s|
  {
    hide CharLength, TrimToValid;
    if k > 3 {
      var n := CharLength(s);
      var head, rest := s[..n], s[n..];
      TrimLosesAtMostThree(rest, k - n);
      var r := TrimToValid(rest[..k - n]);
      assert s == head + rest;
      CharLengthIsLocal(head, rest);
      assert head[n..] == [];
      ValidConcat(head, r);
      assert r == rest[..|r|];
      assert head + r == s[..n + |r|];
      TrimIsLongest(s, k, head + r);
    }
  }

  /** The guest's truncation: cut, then drop bytes until the text is valid again. */
  method TruncateUtf8(value: Bytes, limit: nat) returns (r: Bytes)
    ensures r <= value
    ensures |value| <= limit ==> r == value
    ensures |value| > limit ==> |r| <= limit && Valid(r)
    ensures |value| > limit ==> forall p :: Valid(p) && p <= value && |p| <= limit ==> p <= r
    ensures r == Truncate(value, limit)
  {
    if |value| <= limit {
      return value;
    }
    r := DropUntilValid(value[..limit]);
    forall p | Valid(p) && p <= value && |p| <= limit
      ensures p <= r
    {
      TrimIsLongest(value, limit, p);
    }
  }

  /** The loop that both hosts and the guest share. */
  method DropUntilValid(start: Bytes) returns (r: Bytes)
    ensures r == TrimToValid(start)
  {
    r := start;
    while !Valid(r)
      invariant r <= start && TrimToValid(r) == TrimToValid(start)
      decreases |r|
    {
      r := r[..|r| - 1];
    }
  }

  /** The Go host's bounding of a diagnostic. `repair` stands for strings.ToValidUTF8. */
  function BoundDiagnostic(repair: Bytes -> Bytes, payload: Bytes, limit: nat): Bytes {
    var text := if Valid(payload) then payload else repair(payload);
    if |text| <= limit then text else TrimToValid(text[..limit])
  }

  method ValidUtf8Prefix(repair: Bytes -> Bytes, payload: Bytes, limit: nat) returns (r: Bytes)
    ensures |r| <= limit
    ensures Valid(payload) ==> r == TrimToValid(payload[..Min(|payload|, limit)])
    ensures !Valid(payload) ==>
              r == if |repair(payload)| <= limit then repair(payload) else TrimToValid(repair(payload)[..limit])
    ensures r == BoundDiagnostic(repair, payload, limit)
  {
    var text := payload;
    if !Valid(text) {
      text := repair(text);
    }
    if |text| <= limit {
      assert text[..|text|] == text;
      return text;
    }
    r := DropUntilValid(text[..limit]);
  }

  /** The Rust host's bounding. `lossy` stands for String::from_utf8_lossy. */
  function LossyPrefix(lossy: Bytes -> Bytes, payload: Bytes, capacity: nat): (r: Bytes)
    ensures Valid(r) && |r| <= capacity
  {
    var text := lossy(payload);
    TrimToValid(text[..Min(|text|, capacity)])
  }

  method Utf8Prefix(lossy: Bytes -> Bytes, payload: Bytes, capacity: nat) returns (r: Bytes)
    ensures r <= lossy(payload) && Valid(r) && |r| <= capacity
    ensures forall p :: Valid(p) && p <= lossy(payload) && |p| <= capacity ==> p <= r
    ensures r == LossyPrefix(lossy, payload, capacity)
  {
    var text := lossy(payload);
    r := DropUntilValid(text[..Min(|text|, capacity)]);
    forall p | Valid(p) && p <= text && |p| <= capacity
      ensures p <= r
    {
      TrimIsLongest(text, Min(|text|, capacity), p);
    }
  }

  /** On valid diagnostics, which neither host repairs, the two bounds are the same. */
  lemma BoundsAgree(repair: Bytes -> Bytes, lossy: Bytes -> Bytes, payload: Bytes, limit: nat)
    requires Valid(payload) && lossy(payload) == payload
    ensures LossyPrefix(lossy, payload, limit) == BoundDiagnostic(repair, payload, limit)
    ensures LossyPrefix(lossy, payload, limit) == TrimToValid(payload[..Min(|payload|, limit)])
  {
    assert payload[..|payload|] == payload;
  }
}
