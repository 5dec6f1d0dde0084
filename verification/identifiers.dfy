/** Jsonnet identifiers: the host's regular expression, the guest's byte loop and the Rust host's walk
    over characters. */
module Identifiers {
  import opened Wire
  import Utf8

  datatype Regex = OneOf(bytes: set<Byte>) | Then(first: Regex, rest: Regex) | Star(inner: Regex)

  /** The language of an expression that is anchored at both ends. */
  predicate Matches(r: Regex, s: Bytes)
    decreases r, |s|
  {
    match r
    case OneOf(bytes) => |s| == 1 && s[0] in bytes
    case Then(first, rest) => exists i :: 0 <= i <= |s| && Matches(first, s[..i]) && Matches(rest, s[i..])
    case Star(inner) => s == [] || exists i :: 0 < i <= |s| && Matches(inner, s[..i]) && Matches(r, s[i..])
  }

  predicate Starts(b: Byte) {
    b == 0x5F || 0x41 <= b <= 0x5A || 0x61 <= b <= 0x7A
  }

  predicate Follows(b: Byte) {
    Starts(b) || 0x30 <= b <= 0x39
  }

  const STARTERS: set<Byte> := set b: Byte | 0 <= b < 0x100 && Starts(b) :: b
  const FOLLOWERS: set<Byte> := set b: Byte | 0 <= b < 0x100 && Follows(b) :: b

  /** ^[A-Za-z_][A-Za-z0-9_]*$ */
  const PATTERN := Then(OneOf(STARTERS), Star(OneOf(FOLLOWERS)))

  predicate Identifier(s: Bytes) {
    Matches(PATTERN, s)
  }

  lemma {:induction false} StarOfClass(bytes: set<Byte>, s: Bytes)
    ensures Matches(Star(OneOf(bytes)), s) <==> forall k :: 0 <= k < |s| ==> s[k] in bytes
    decreases |s|
  {
    if s != [] {
      StarOfClass(bytes, s[1..]);
      assert Matches(OneOf(bytes), s[..1]) <==> s[0] in bytes;
      assert forall i :: 0 <= i <= |s| && Matches(OneOf(bytes), s[..i]) ==> i == 1;
      if forall k :: 0 <= k < |s| ==> s[k] in bytes {
        assert Matches(OneOf(bytes), s[..1]) && Matches(Star(OneOf(bytes)), s[1..]);
      }
    }
  }

  /** What the expression says of each byte. */
  lemma IdentifierBytes(s: Bytes)
    ensures Identifier(s) <==> s != [] && Starts(s[0]) && forall k :: 1 <= k < |s| ==> Follows(s[k])
  {
    var first, rest := OneOf(STARTERS), Star(OneOf(FOLLOWERS));
    assert forall i :: 0 <= i <= |s| && Matches(first, s[..i]) ==> i == 1;
    if s != [] {
      StarOfClass(FOLLOWERS, s[1..]);
      assert Matches(first, s[..1]) <==> Starts(s[0]);
      assert forall k :: 0 <= k < |s[1..]| ==> s[1..][k] == s[1 + k];
      assert (forall k :: 0 <= k < |s[1..]| ==> Follows(s[1..][k])) <==> forall k :: 1 <= k < |s| ==> Follows(s[k]) by {
        assert forall k :: 1 <= k < |s| ==> s[k] == s[1..][k - 1];
      }
    }
  }

  /** The guest's loop decides the language of the host's expression. */
  method IsIdentifier(value: Bytes) returns (ok: bool)
    ensures ok <==> Identifier(value)
  {
    hide Identifier;
    IdentifierBytes(value);
    if value == [] {
      return false;
    }
    for i := 0 to |value|
      invariant i > 0 ==> Starts(value[0])
      invariant forall k :: 1 <= k < i ==> Follows(value[k])
    {
      var b := value[i];
      if i == 0 {
        if b != 0x5F && (b < 0x41 || b > 0x5A) && (b < 0x61 || b > 0x7A) {
          return false;
        }
        continue;
      }
      if b != 0x5F && (b < 0x41 || b > 0x5A) && (b < 0x61 || b > 0x7A) && (b < 0x30 || b > 0x39) {
        return false;
      }
    }
    return true;
  }

  /** The characters of a string, each as its bytes. */
  function Chars(s: Bytes): seq<Bytes>
    requires Utf8.Valid(s)
  {
    if s == [] then [] else [s[..Utf8.CharLength(s)]] + Chars(s[Utf8.CharLength(s)..])
  }

  /** Rust: the first character starts an identifier and all others continue it. */
  predicate RustIsIdentifier(value: Bytes)
    requires Utf8.Valid(value)
  {
    var chars := Chars(value);
    && chars != []
    && |chars[0]| == 1 && Starts(chars[0][0])
    && forall c <- chars[1..] :: |c| == 1 && Follows(c[0])
  }

  lemma {:induction false} CharsFollow(s: Bytes)
    requires Utf8.Valid(s)
    ensures (forall c <- Chars(s) :: |c| == 1 && Follows(c[0])) <==> forall k :: 0 <= k < |s| ==> Follows(s[k])
  {
    if s != [] {
      var n := Utf8.CharLength(s);
      var rest := Chars(s[n..]);
      CharsFollow(s[n..]);
      assert Chars(s) == [s[..n]] + rest;
      assert s[..n] in Chars(s) && forall c <- rest :: c in Chars(s);
      if forall k :: 0 <= k < |s| ==> Follows(s[k]) {
        assert n == 1;
      }
      if forall c <- Chars(s) :: |c| == 1 && Follows(c[0]) {
        assert forall k :: 1 <= k < |s| ==> s[k] == s[n..][k - 1];
      }
    }
  }

  lemma RustAgrees(value: Bytes)
    requires Utf8.Valid(value)
    ensures RustIsIdentifier(value) <==> Identifier(value)
  {
    IdentifierBytes(value);
    if value != [] {
      var n := Utf8.CharLength(value);
      CharsFollow(value[n..]);
      assert Chars(value)[1..] == Chars(value[n..]);
      if n == 1 {
        assert forall k :: 1 <= k < |value| ==> value[k] == value[1..][k - 1];
      }
    }
  }

  /** Identifiers are ASCII, so they are text. */
  lemma {:induction false} FollowersAreText(s: Bytes)
    requires forall k :: 0 <= k < |s| ==> Follows(s[k])
    ensures Utf8.Valid(s)
  {
    if s != [] {
      FollowersAreText(s[1..]);
    }
  }

  lemma IdentifierIsText(s: Bytes)
    requires Identifier(s)
    ensures s != [] && Utf8.Valid(s)
  {
    IdentifierBytes(s);
    FollowersAreText(s);
  }
}
