/** How the guest bounds its error report: a binary search over truncations of the message. */
module GuestErrors {
  import opened Wire
  import Utf8

  const MAX_ERROR_BYTES := 0x1_0000
  const MAX_KIND_BYTES := 64

  /** The JSON encoder as far as the search can see it: the text before the message (a function of
      the kind), the text after it, and the encoding of one character of the message. A byte that
      starts no character is encoded on its own. */
  datatype ErrorCodec = ErrorCodec(open: Bytes -> Bytes, close: Bytes, escape: Bytes -> Bytes)

  function Escaped(escape: Bytes -> Bytes, s: Bytes): Bytes
    decreases |s|
  {
    if s == [] then [] else
      var n := if Utf8.CharLength(s) == 0 then 1 else Utf8.CharLength(s);
      escape(s[..n]) + Escaped(escape, s[n..])
  }

  function Encode(codec: ErrorCodec, kind: Bytes, message: Bytes): Bytes {
    codec.open(kind) + Escaped(codec.escape, message) + codec.close
  }

  /** {"kind":"internal","message":"could not encode guest error"} */
  const FALLBACK: Bytes :=
    [0x7B, 0x22, 0x6B, 0x69, 0x6E, 0x64, 0x22, 0x3A, 0x22, 0x69, 0x6E, 0x74, 0x65, 0x72, 0x6E, 0x61,
     0x6C, 0x22, 0x2C, 0x22, 0x6D, 0x65, 0x73, 0x73, 0x61, 0x67, 0x65, 0x22, 0x3A, 0x22, 0x63, 0x6F,
     0x75, 0x6C, 0x64, 0x20, 0x6E, 0x6F, 0x74, 0x20, 0x65, 0x6E, 0x63, 0x6F, 0x64, 0x65, 0x20, 0x67,
     0x75, 0x65, 0x73, 0x74, 0x20, 0x65, 0x72, 0x72, 0x6F, 0x72, 0x22, 0x7D]

  /** Encoding distributes over a cut behind valid text. */
  lemma {:induction false} EscapedConcat(escape: Bytes -> Bytes, a: Bytes, b: Bytes)
    requires Utf8.Valid(a)
    ensures Escaped(escape, a + b) == Escaped(escape, a) + Escaped(escape, b)
    decreases |a|
  {
    if a == [] {
      assert a + b == b;
    } else {
      var n := Utf8.CharLength(a);
      Utf8.CharLengthIsLocal(a, b);
      hide Utf8.CharLength;
      assert (a + b)[..n] == a[..n] && (a + b)[n..] == a[n..] + b;
      EscapedConcat(escape, a[n..], b);
    }
  }

  /** Truncating later never encodes shorter, whatever the message. */
  lemma EncodingIsMonotone(codec: ErrorCodec, kind: Bytes, message: Bytes, j: nat, k: nat)
    requires j <= k
    ensures |Encode(codec, kind, Utf8.Truncate(message, j))| <= |Encode(codec, kind, Utf8.Truncate(message, k))|
  {
    hide Escaped;
    var short, long := Utf8.Truncate(message, j), Utf8.Truncate(message, k);
    if j < |message| {
      if k < |message| {
        Utf8.TrimIsLongest(message, k, short);
      }
      assert long == short + long[|short|..];
      EscapedConcat(codec.escape, short, long[|short|..]);
    }
  }

  /** p is the longest valid start of message whose encoding fits. */
  ghost predicate LongestFitting(codec: ErrorCodec, kind: Bytes, message: Bytes, limit: nat, p: Bytes) {
    && Fits(codec, kind, message, limit, p)
    && forall q :: Fits(codec, kind, message, limit, q) ==> |q| <= |p|
  }

  ghost predicate Fits(codec: ErrorCodec, kind: Bytes, message: Bytes, limit: nat, p: Bytes) {
    Utf8.Valid(p) && p <= message && |Encode(codec, kind, p)| <= limit
  }

  /** What the report of a kind and a message must be under a limit. */
  ghost predicate Bounded(codec: ErrorCodec, kind: Bytes, message: Bytes, limit: nat, report: Bytes) {
    if |Encode(codec, kind, message)| <= limit then
      report == Encode(codec, kind, message)
    else if exists p :: Fits(codec, kind, message, limit, p) then
      exists p :: LongestFitting(codec, kind, message, limit, p) && report == Encode(codec, kind, p)
    else
      report == FALLBACK
  }

  /** A report that is bounded this way can be read by a decoder of reports. */
  lemma ReportIsReadable(codec: ErrorCodec, decodes: Bytes -> bool, kind: Bytes, message: Bytes, limit: nat,
                         report: Bytes)
    requires Readable(codec, decodes) && Bounded(codec, kind, message, limit, report)
    ensures decodes(report)
  {
    hide Encode, FALLBACK;
  }

  /** A strict decoder decodes what the encoder writes, and the fallback. */
  ghost predicate Readable(codec: ErrorCodec, decodes: Bytes -> bool) {
    (forall kind, message :: decodes(Encode(codec, kind, message))) && decodes(FALLBACK)
  }

  lemma FallbackSize()
    ensures |FALLBACK| == 60
  {
  }

  /** A report that is bounded this way respects every limit that leaves room for the fallback. */
  lemma ReportIsShort(codec: ErrorCodec, kind: Bytes, message: Bytes, limit: nat, report: Bytes)
    requires limit >= 60 && Bounded(codec, kind, message, limit, report)
    ensures |report| <= limit
  {
    hide Encode, FALLBACK;
    FallbackSize();
  }

  /** The requirement leaves one report. */
  lemma BoundedIsUnique(codec: ErrorCodec, kind: Bytes, message: Bytes, limit: nat, a: Bytes, b: Bytes)
    requires Bounded(codec, kind, message, limit, a) && Bounded(codec, kind, message, limit, b)
    ensures a == b
  {
    hide Encode, FALLBACK;
    if |Encode(codec, kind, message)| > limit && exists p :: Fits(codec, kind, message, limit, p) {
      var p :| LongestFitting(codec, kind, message, limit, p) && a == Encode(codec, kind, p);
      var q :| LongestFitting(codec, kind, message, limit, q) && b == Encode(codec, kind, q);
      assert p == message[..|p|] && q == message[..|q|];
    }
  }

  /** The package variables that the report functions write. */
  class GuestOutput {
    var result: Bytes
    var resultLimit: nat

    constructor ()
      ensures result == [] && resultLimit == MAX_ERROR_BYTES
    {
      result, resultLimit := [], MAX_ERROR_BYTES;
    }

    method SetGuestError(codec: ErrorCodec, kind: Bytes, message: Bytes)
      modifies this`result
      ensures Bounded(codec, Utf8.Truncate(kind, MAX_KIND_BYTES), Utf8.Truncate(message, MAX_ERROR_BYTES),
                      resultLimit, result)
    {
      hide Encode, Utf8.Valid, Utf8.Truncate, Bounded;
      var tag := Utf8.TruncateUtf8(kind, MAX_KIND_BYTES);
      var text := Utf8.TruncateUtf8(message, MAX_ERROR_BYTES);
      var encoded := Encode(codec, tag, text);
      if |encoded| <= resultLimit {
        result := encoded;
        WholeReportFits(codec, tag, text, resultLimit);
        return;
      }
      var low, high := 0, |text|;
      var bounded: Option<Bytes> := None;
      ghost var best := 0;
      while low <= high
        invariant 0 <= low <= |text| + 1 && -1 <= high <= |text|
        invariant low <= high + 1
        invariant bounded.None? <==> low == 0
        invariant bounded.Some? ==>
            && low == best + 1
            && bounded.value == Encode(codec, tag, Utf8.Truncate(text, best))
            && |bounded.value| <= resultLimit
        invariant forall k :: high < k <= |text| ==> |Encode(codec, tag, Utf8.Truncate(text, k))| > resultLimit
        decreases high - low
      {
        var mid := low + (high - low) / 2;
        var cut := Utf8.TruncateUtf8(text, mid);
        var candidate := Encode(codec, tag, cut);
        if |candidate| <= resultLimit {
          bounded := Some(candidate);
          best := mid;
          low := mid + 1;
        } else {
          forall k | mid <= k <= |text|
            ensures |Encode(codec, tag, Utf8.Truncate(text, k))| > resultLimit
          {
            EncodingIsMonotone(codec, tag, text, mid, k);
          }
          high := mid - 1;
        }
      }
      if bounded.None? {
        result := FALLBACK;
      } else {
        result := bounded.value;
      }
      SearchIsExact(codec, tag, text, resultLimit, high, result);
    }
  }

  /** Where the search ends: nothing above `high` fits, and `high` itself fits unless it is -1. */
  lemma SearchIsExact(codec: ErrorCodec, kind: Bytes, message: Bytes, limit: nat, high: int, report: Bytes)
    requires |Encode(codec, kind, message)| > limit
    requires -1 <= high <= |message|
    requires forall k :: high < k <= |message| ==> |Encode(codec, kind, Utf8.Truncate(message, k))| > limit
    requires high >= 0 ==> |Encode(codec, kind, Utf8.Truncate(message, high))| <= limit
    requires report == if high < 0 then FALLBACK else Encode(codec, kind, Utf8.Truncate(message, high))
    ensures Bounded(codec, kind, message, limit, report)
  {
    hide Encode;
    forall p | Fits(codec, kind, message, limit, p)
      ensures high >= 0 && |p| <= |Utf8.Truncate(message, high)|
    {
      TruncateAtOwnLength(message, p);
      if high < |message| {
        Utf8.TrimIsLongest(message, high, p);
      }
    }
    if high >= 0 {
      assert Utf8.Truncate(message, |message|) == message;
      assert LongestFitting(codec, kind, message, limit, Utf8.Truncate(message, high));
    }
  }

  lemma WholeReportFits(codec: ErrorCodec, kind: Bytes, message: Bytes, limit: nat)
    requires |Encode(codec, kind, message)| <= limit
    ensures Bounded(codec, kind, message, limit, Encode(codec, kind, message))
  {
  }

  /** A valid start is what truncating at its length keeps. */
  lemma TruncateAtOwnLength(message: Bytes, p: Bytes)
    requires Utf8.Valid(p) && p <= message
    ensures Utf8.Truncate(message, |p|) == p
  {
    hide Utf8.Valid;
    if |p| < |message| {
      Utf8.TrimIsLongest(message, |p|, p);
    }
  }
}
