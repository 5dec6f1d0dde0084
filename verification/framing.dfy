/** Length-prefixed output frames: the encoders of the guest and the decoders of the two hosts, each
    proved against one reading of the wire grammar. */
module Framing {
  import opened Wire
  import Utf8

  // ---------------------------------------------------------------- grammar

  predicate Small(values: seq<Bytes>) {
    forall v <- values :: |v| < TWO_32
  }

  function Frame(v: Bytes): (f: Bytes)
    requires |v| < TWO_32
    ensures |f| == 4 + |v|
  {
    LittleEndian(|v|) + v
  }

  function Frames(values: seq<Bytes>): (f: Bytes)
    requires Small(values)
    ensures |f| >= 4 * |values|
  {
    if values == [] then [] else
      assert values[0] in values;
      Frame(values[0]) + Frames(values[1..])
  }

  /** data is a count, then the frames of values, then rest. */
  ghost predicate Reads(count: U32, values: seq<Bytes>, rest: Bytes, data: Bytes) {
    Small(values) && data == LittleEndian(count) + Frames(values) + rest
  }

  datatype Entry = Entry(name: Bytes, output: Bytes)

  function Flatten(entries: seq<Entry>): (values: seq<Bytes>)
    ensures |values| == 2 * |entries|
  {
    if entries == [] then [] else [entries[0].name, entries[0].output] + Flatten(entries[1..])
  }

  ghost predicate StreamEncodes(documents: seq<Bytes>, data: Bytes) {
    |documents| < TWO_32 && Reads(|documents|, documents, [], data)
  }

  ghost predicate MultiEncodes(entries: seq<Entry>, data: Bytes) {
    |entries| < TWO_32 && Reads(|entries|, Flatten(entries), [], data)
  }

  /** The documents that data encodes, if there are any. */
  ghost function StreamIn(data: Bytes): (r: Result<seq<Bytes>>)
    ensures r.Ok? ==> StreamEncodes(r.value, data)
    ensures r.Err? ==> forall documents :: !StreamEncodes(documents, data)
  {
    if documents :| StreamEncodes(documents, data) then Ok(documents) else Err
  }

  ghost function EntriesIn(data: Bytes): (r: Result<seq<Entry>>)
    ensures r.Ok? ==> MultiEncodes(r.value, data)
    ensures r.Err? ==> forall entries :: !MultiEncodes(entries, data)
  {
    if entries :| MultiEncodes(entries, data) then Ok(entries) else Err
  }

  function Names(entries: seq<Entry>): (names: seq<Bytes>)
    ensures |names| == |entries| && forall i :: 0 <= i < |names| ==> names[i] == entries[i].name
  {
    seq(|entries|, i requires 0 <= i < |entries| => entries[i].name)
  }

  predicate Distinct(names: seq<Bytes>) {
    forall i, j :: 0 <= i < j < |names| ==> names[i] != names[j]
  }

  predicate AllText(names: seq<Bytes>) {
    forall name <- names :: Utf8.Valid(name)
  }

  function FilesOf(entries: seq<Entry>): map<Bytes, Bytes> {
    if entries == [] then map[] else
      var last := |entries| - 1;
      FilesOf(entries[..last])[entries[last].name := entries[last].output]
  }

  // ---------------------------------------------------------------- the grammar is unambiguous

  lemma LittleEndianInjective(m: U32, n: U32)
    requires LittleEndian(m) == LittleEndian(n)
    ensures m == n
  {
    LittleEndianBijective(m, LittleEndian(m));
    LittleEndianBijective(n, LittleEndian(n));
  }

  lemma FrameUnique(v: Bytes, r: Bytes, w: Bytes, s: Bytes)
    requires |v| < TWO_32 && |w| < TWO_32 && Frame(v) + r == Frame(w) + s
    ensures v == w && r == s
  {
    hide LittleEndian;
    var whole := Frame(v) + r;
    assert whole[..4] == LittleEndian(|v|) && whole[..4] == LittleEndian(|w|);
    LittleEndianInjective(|v|, |w|);
    var body := whole[4..];
    assert body == v + r && body == w + s;
    assert body[..|v|] == v && body[..|w|] == w && body[|v|..] == r && body[|w|..] == s;
  }

  /** Frames read from one text agree as far as both go. */
  lemma {:induction false} FramesUnique(a: seq<Bytes>, r: Bytes, b: seq<Bytes>)
    requires Small(a) && Small(b) && |a| <= |b| && Frames(a) + r == Frames(b)
    ensures a == b[..|a|] && Small(b[|a|..]) && r == Frames(b[|a|..])
  {
    hide Frame;
    if a == [] {
      assert b[0..] == b && Frames(a) + r == r;
    } else {
      assert a[0] in a && b[0] in b;
      var s, t := a[1..], b[1..];
      Regroup(Frame(a[0]), Frames(s), r);
      FrameUnique(a[0], Frames(s) + r, b[0], Frames(t));
      FramesUnique(s, r, t);
      ConsPrefix(a, b);
    }
  }

  lemma Regroup(a: Bytes, b: Bytes, c: Bytes)
    ensures a + b + c == a + (b + c)
  {
  }

  lemma ConsPrefix<T>(a: seq<T>, b: seq<T>)
    requires 0 < |a| <= |b| && a[0] == b[0] && a[1..] == b[1..][..|a| - 1]
    ensures a == b[..|a|] && b[1..][|a| - 1..] == b[|a|..]
  {
    assert forall i :: 1 <= i < |a| ==> a[i] == a[1..][i - 1] && b[i] == b[1..][i - 1];
  }

  lemma {:induction false} FramesAppend(values: seq<Bytes>, v: Bytes)
    requires Small(values) && |v| < TWO_32
    ensures Small(values + [v]) && Frames(values + [v]) == Frames(values) + Frame(v)
  {
    hide Frame;
    if values == [] {
      assert values + [v] == [v] && [v][1..] == [] && Frames([v]) == Frame(v) + Frames([]);
    } else {
      FramesAppend(values[1..], v);
      assert values[0] in values;
      assert (values + [v])[1..] == values[1..] + [v];
      Regroup(Frame(values[0]), Frames(values[1..]), Frame(v));
    }
  }

  lemma {:induction false} FlattenAppend(entries: seq<Entry>, e: Entry)
    ensures Flatten(entries + [e]) == Flatten(entries) + [e.name] + [e.output]
  {
    if entries == [] {
      assert entries + [e] == [e] && [e][1..] == [];
    } else {
      FlattenAppend(entries[1..], e);
      assert (entries + [e])[1..] == entries[1..] + [e];
    }
  }

  /** A sequence of entries is told by its flattening. */
  lemma {:induction false} FlattenPrefix(a: seq<Entry>, b: seq<Entry>)
    requires |a| <= |b| && Flatten(a) == Flatten(b)[..2 * |a|]
    ensures a == b[..|a|]
  {
    if a != [] {
      var x, y := Flatten(a), Flatten(b);
      assert x[2..] == Flatten(a[1..]) && y[2..] == Flatten(b[1..]);
      assert x[0] == y[0] && x[1] == y[1];
      assert x[2..] == y[2..][..2 * |a| - 2];
      FlattenPrefix(a[1..], b[1..]);
      ConsPrefix(a, b);
    }
  }

  lemma {:induction false} FlattenAt(entries: seq<Entry>, i: nat)
    requires i < |entries|
    ensures Flatten(entries)[2 * i] == entries[i].name
  {
    if i > 0 {
      FlattenAt(entries[1..], i - 1);
    }
  }

  /** A reading in progress agrees with every complete reading of the same data, and stops only
      where that one ends. */
  lemma ReadsUnique(count: U32, read: seq<Bytes>, rest: Bytes, n: U32, all: seq<Bytes>, data: Bytes)
    requires Reads(count, read, rest, data) && Reads(n, all, [], data)
    ensures n == count
    ensures |read| <= |all| ==> read == all[..|read|]
    ensures |read| < |all| ==> ConsumeBytes(rest).Some? && 4 * (|all| - |read|) <= |rest|
    ensures |read| == |all| ==> rest == []
  {
    hide LittleEndian, Frame, ConsumeBytes;
    assert data[..4] == LittleEndian(count) && data[..4] == LittleEndian(n);
    LittleEndianInjective(count, n);
    assert data[4..] == Frames(read) + rest && data[4..] == Frames(all);
    if |read| <= |all| {
      FramesUnique(read, rest, all);
      var more := all[|read|..];
      if more != [] {
        assert more[0] in more && rest == Frame(more[0]) + Frames(more[1..]);
      }
    }
  }

  /** A payload has one reading. */
  lemma StreamUnique(a: seq<Bytes>, b: seq<Bytes>, data: Bytes)
    requires StreamEncodes(a, data) && StreamEncodes(b, data)
    ensures a == b
  {
    hide Reads;
    ReadsUnique(|a|, a, [], |b|, b, data);
    assert b[..|b|] == b;
  }

  lemma MultiUnique(a: seq<Entry>, b: seq<Entry>, data: Bytes)
    requires MultiEncodes(a, data) && MultiEncodes(b, data)
    ensures a == b
  {
    hide Reads;
    ReadsUnique(|a|, Flatten(a), [], |b|, Flatten(b), data);
    FlattenPrefix(a, b);
    assert b[..|b|] == b;
  }

  // ---------------------------------------------------------------- reading frames

  function ConsumeUint32(data: Bytes): (r: Option<(U32, Bytes)>)
    ensures r.None? <==> |data| < 4
    ensures r.Some? ==> data == LittleEndian(r.value.0) + r.value.1
  {
    if |data| < 4 then None else
      LittleEndianBijective(0, data[..4]);
      Some((FromLittleEndian(data[..4]), data[4..]))
  }

  /** Reading one frame succeeds exactly when data starts with one. */
  function ConsumeBytes(data: Bytes): (r: Option<(Bytes, Bytes)>)
    ensures r.Some? ==> |r.value.0| < TWO_32 && data == Frame(r.value.0) + r.value.1
    ensures r.None? ==> forall v: Bytes, rest: Bytes :: |v| < TWO_32 ==> data != Frame(v) + rest
  {
    match ConsumeUint32(data)
    case None => None
    case Some((length, rest)) =>
      FrameLength(data, length, rest);
      if length > |rest| then None
      else
        assert data == Frame(rest[..length]) + rest[length..];
        Some((rest[..length], rest[length..]))
  }

  lemma FrameLength(data: Bytes, length: U32, rest: Bytes)
    requires data == LittleEndian(length) + rest
    ensures forall v: Bytes, s: Bytes :: |v| < TWO_32 && data == Frame(v) + s ==> |v| == length <= |rest|
  {
    hide LittleEndian;
    forall v: Bytes, s: Bytes | |v| < TWO_32 && data == Frame(v) + s
      ensures |v| == length <= |rest|
    {
      assert data[..4] == LittleEndian(|v|) && data[..4] == LittleEndian(length);
      LittleEndianInjective(|v|, length);
    }
  }

  lemma ReadsStart(count: U32, rest: Bytes, data: Bytes)
    requires data == LittleEndian(count) + rest
    ensures Reads(count, [], rest, data) && Reads(count, Flatten([]), rest, data)
  {
    hide LittleEndian;
    assert LittleEndian(count) + Frames([]) + rest == LittleEndian(count) + rest;
  }

  lemma ReadsNext(count: U32, values: seq<Bytes>, before: Bytes, v: Bytes, after: Bytes, data: Bytes)
    requires Reads(count, values, before, data)
    requires |v| < TWO_32 && before == Frame(v) + after
    ensures Reads(count, values + [v], after, data)
  {
    hide LittleEndian, Frame, Frames;
    FramesAppend(values, v);
    assert LittleEndian(count) + Frames(values) + (Frame(v) + after)
        == LittleEndian(count) + (Frames(values) + Frame(v)) + after;
  }

  /** A reading that is stuck, or that a count test cuts off, belongs to no encoding: the early
      count tests reject nothing that the loops would accept. */
  lemma NoStream(count: U32, read: seq<Bytes>, rest: Bytes, data: Bytes)
    requires Reads(count, read, rest, data) && |read| <= count
    requires |read| == count ==> rest != []
    requires |read| < count ==> ConsumeBytes(rest).None? || count - |read| > |rest| / 4
    ensures StreamIn(data).Err?
  {
    hide Reads, ConsumeBytes;
    if StreamIn(data).Ok? {
      var documents := StreamIn(data).value;
      ReadsUnique(count, read, rest, |documents|, documents, data);
    }
  }

  lemma NoEntries(count: U32, read: seq<Bytes>, rest: Bytes, data: Bytes)
    requires Reads(count, read, rest, data) && |read| <= 2 * count
    requires |read| == 2 * count ==> rest != []
    requires |read| < 2 * count ==> ConsumeBytes(rest).None? || (read == [] && count > |rest| / 8)
    ensures EntriesIn(data).Err?
  {
    hide Reads, ConsumeBytes, Flatten;
    if EntriesIn(data).Ok? {
      var entries := EntriesIn(data).value;
      ReadsUnique(count, read, rest, |entries|, Flatten(entries), data);
    }
  }

  lemma NoHeader(data: Bytes)
    requires |data| < 4
    ensures StreamIn(data).Err? && EntriesIn(data).Err?
  {
    hide LittleEndian, Frames;
  }

  // ---------------------------------------------------------------- decoders

  method DecodeStreamOutput(data: Bytes) returns (r: Result<seq<Bytes>>)
    ensures r == StreamIn(data)
  {
    hide Reads, ConsumeBytes, ConsumeUint32, StreamIn, LittleEndian, Frame;
    var header := ConsumeUint32(data);
    if header.None? {
      NoHeader(data);
      return Err;
    }
    var (count, rest) := header.value;
    ReadsStart(count, rest, data);
    if count > |rest| / 4 {
      NoStream(count, [], rest, data);
      return Err;
    }
    var documents: seq<Bytes> := [];
    for i := 0 to count
      invariant |documents| == i && Reads(count, documents, rest, data)
    {
      var next := ConsumeBytes(rest);
      if next.None? {
        NoStream(count, documents, rest, data);
        return Err;
      }
      ReadsNext(count, documents, rest, next.value.0, next.value.1, data);
      documents := documents + [next.value.0];
      rest := next.value.1;
    }
    if rest != [] {
      NoStream(count, documents, rest, data);
      return Err;
    }
    StreamIsFound(documents, data);
    return Ok(documents);
  }

  lemma StreamIsFound(documents: seq<Bytes>, data: Bytes)
    requires |documents| < TWO_32 && Reads(|documents|, documents, [], data)
    ensures StreamIn(data) == Ok(documents)
  {
    hide Reads;
    assert StreamEncodes(documents, data);
    StreamUnique(documents, StreamIn(data).value, data);
  }

  /** The Rust host has no early count test. */
  method RustDecodeStream(data: Bytes) returns (r: Result<seq<Bytes>>)
    ensures r == StreamIn(data)
  {
    hide Reads, ConsumeBytes, ConsumeUint32, StreamIn, LittleEndian, Frame;
    var header := ConsumeUint32(data);
    if header.None? {
      NoHeader(data);
      return Err;
    }
    var (count, input) := header.value;
    ReadsStart(count, input, data);
    var documents: seq<Bytes> := [];
    for i := 0 to count
      invariant |documents| == i && Reads(count, documents, input, data)
    {
      var next := ConsumeBytes(input);
      if next.None? {
        NoStream(count, documents, input, data);
        return Err;
      }
      ReadsNext(count, documents, input, next.value.0, next.value.1, data);
      documents, input := documents + [next.value.0], next.value.1;
    }
    if input != [] {
      NoStream(count, documents, input, data);
      return Err;
    }
    StreamIsFound(documents, data);
    return Ok(documents);
  }

  /** Looking a name up in the decoded files finds the output it was framed with. */
  lemma {:induction false} FilesOfKeys(entries: seq<Entry>)
    ensures forall k :: k in FilesOf(entries) <==> k in Names(entries)
    ensures Distinct(Names(entries)) ==>
              forall i :: 0 <= i < |entries| ==> FilesOf(entries)[Names(entries)[i]] == entries[i].output
    decreases |entries|
  {
    if entries != [] {
      var last := |entries| - 1;
      var front := entries[..last];
      FilesOfKeys(front);
      assert Names(entries) == Names(front) + [entries[last].name];
    }
  }

  lemma FilesOfAppend(entries: seq<Entry>, e: Entry)
    ensures FilesOf(entries + [e]) == FilesOf(entries)[e.name := e.output]
    ensures Names(entries + [e]) == Names(entries) + [e.name]
  {
    assert (entries + [e])[..|entries|] == entries;
  }

  /** What a reading in progress has in common with the one reading of the data. */
  lemma EntriesSoFar(count: U32, entries: seq<Entry>, name: Bytes, rest: Bytes, data: Bytes)
    requires Reads(count, Flatten(entries) + [name], rest, data) && |entries| < count
    ensures EntriesIn(data).Ok? ==>
              && |EntriesIn(data).value| == count
              && entries <= EntriesIn(data).value
              && EntriesIn(data).value[|entries|].name == name
  {
    hide Reads, ConsumeBytes, Flatten, EntriesIn;
    if EntriesIn(data).Ok? {
      var all := EntriesIn(data).value;
      var read := Flatten(entries) + [name];
      ReadsUnique(count, read, rest, |all|, Flatten(all), data);
      FlattenPrefixAndName(entries, name, all, read);
    }
  }

  lemma FlattenPrefixAndName(entries: seq<Entry>, name: Bytes, all: seq<Entry>, read: seq<Bytes>)
    requires read == Flatten(entries) + [name]
    requires |entries| < |all| && |read| <= |Flatten(all)| && read == Flatten(all)[..|read|]
    ensures entries <= all && all[|entries|].name == name
  {
    hide Flatten;
    var whole, n := Flatten(all), 2 * |entries|;
    assert Flatten(entries) == whole[..n] by {
      assert forall i :: 0 <= i < n ==> read[i] == Flatten(entries)[i] && read[i] == whole[i];
    }
    FlattenPrefix(entries, all);
    FlattenAt(all, |entries|);
    assert read[n] == name && read[n] == whole[n];
  }

  lemma ReadsEntry(count: U32, entries: seq<Entry>, before: Bytes, name: Bytes, middle: Bytes, output: Bytes,
                   after: Bytes, data: Bytes)
    requires Reads(count, Flatten(entries), before, data)
    requires |name| < TWO_32 && before == Frame(name) + middle
    requires |output| < TWO_32 && middle == Frame(output) + after
    ensures Reads(count, Flatten(entries + [Entry(name, output)]), after, data)
  {
    hide Reads, Frame, Flatten;
    FlattenAppend(entries, Entry(name, output));
    ReadsNext(count, Flatten(entries), before, name, middle, data);
    ReadsNext(count, Flatten(entries) + [name], middle, output, after, data);
  }

  /** A name met twice is met twice in the one reading of the data. */
  lemma RepeatedName(count: U32, entries: seq<Entry>, name: Bytes, rest: Bytes, data: Bytes)
    requires Reads(count, Flatten(entries) + [name], rest, data) && |entries| < count
    requires name in FilesOf(entries)
    ensures EntriesIn(data).Ok? ==> !Distinct(Names(EntriesIn(data).value))
  {
    hide Reads, Flatten;
    EntriesSoFar(count, entries, name, rest, data);
    FilesOfKeys(entries);
    if EntriesIn(data).Ok? {
      var all := Names(EntriesIn(data).value);
      var i :| 0 <= i < |entries| && Names(entries)[i] == name;
      assert all[i] == all[|entries|];
    }
  }

  lemma FilesAreFound(entries: seq<Entry>, data: Bytes)
    requires |entries| < TWO_32 && Reads(|entries|, Flatten(entries), [], data)
    ensures EntriesIn(data) == Ok(entries)
  {
    hide Reads, Flatten;
    assert MultiEncodes(entries, data);
    MultiUnique(entries, EntriesIn(data).value, data);
  }

  lemma FreshNameStaysDistinct(entries: seq<Entry>, e: Entry)
    requires Distinct(Names(entries)) && e.name !in FilesOf(entries)
    ensures Distinct(Names(entries + [e]))
  {
    FilesOfKeys(entries);
    FilesOfAppend(entries, e);
    hide FilesOf;
  }

  method DecodeMultiOutput(data: Bytes) returns (r: Result<map<Bytes, Bytes>>)
    ensures r == match EntriesIn(data)
                 case Err => Err
                 case Ok(entries) => if Distinct(Names(entries)) then Ok(FilesOf(entries)) else Err
  {
    hide Reads, ConsumeBytes, ConsumeUint32, EntriesIn, Flatten, LittleEndian, Frame, Distinct;
    var header := ConsumeUint32(data);
    if header.None? {
      NoHeader(data);
      return Err;
    }
    var (count, rest) := header.value;
    ReadsStart(count, rest, data);
    if count > |rest| / 8 {
      NoEntries(count, [], rest, data);
      return Err;
    }
    ghost var entries: seq<Entry> := [];
    var files: map<Bytes, Bytes> := map[];
    assert Distinct(Names(entries)) by { NoNamesAreDistinct(); }
    for i := 0 to count
      invariant |entries| == i && Distinct(Names(entries)) && files == FilesOf(entries)
      invariant Reads(count, Flatten(entries), rest, data)
    {
      hide FilesOf;
      var name := ConsumeBytes(rest);
      if name.None? {
        NoEntries(count, Flatten(entries), rest, data);
        return Err;
      }
      ReadsNext(count, Flatten(entries), rest, name.value.0, name.value.1, data);
      var output := ConsumeBytes(name.value.1);
      if output.None? {
        NoEntries(count, Flatten(entries) + [name.value.0], name.value.1, data);
        return Err;
      }
      if name.value.0 in files {
        RepeatedName(count, entries, name.value.0, name.value.1, data);
        return Err;
      }
      ghost var e := Entry(name.value.0, output.value.0);
      ReadsEntry(count, entries, rest, name.value.0, name.value.1, output.value.0, output.value.1, data);
      FreshNameStaysDistinct(entries, e);
      FilesOfAppend(entries, e);
      files := files[name.value.0 := output.value.0];
      entries := entries + [e];
      rest := output.value.1;
    }
    if rest != [] {
      NoEntries(count, Flatten(entries), rest, data);
      return Err;
    }
    FilesAreFound(entries, data);
    return Ok(files);
  }

  lemma NoNamesAreDistinct()
    ensures Distinct(Names([])) && AllText(Names([]))
  {
  }

  /** The Rust host refuses in addition exactly the payloads with a name that is not text. */
  method RustDecodeMulti(data: Bytes) returns (r: Result<map<Bytes, Bytes>>)
    ensures r == match EntriesIn(data)
                 case Err => Err
                 case Ok(entries) =>
                   if Distinct(Names(entries)) && AllText(Names(entries)) then Ok(FilesOf(entries)) else Err
  {
    hide Reads, ConsumeBytes, ConsumeUint32, EntriesIn, Flatten, LittleEndian, Frame, Distinct, AllText;
    var header := ConsumeUint32(data);
    if header.None? {
      NoHeader(data);
      return Err;
    }
    var (count, input) := header.value;
    ReadsStart(count, input, data);
    ghost var entries: seq<Entry> := [];
    var files: map<Bytes, Bytes> := map[];
    NoNamesAreDistinct();
    for i := 0 to count
      invariant |entries| == i && Distinct(Names(entries)) && AllText(Names(entries)) && files == FilesOf(entries)
      invariant Reads(count, Flatten(entries), input, data)
    {
      hide FilesOf;
      var name := ConsumeBytes(input);
      if name.None? {
        NoEntries(count, Flatten(entries), input, data);
        return Err;
      }
      ReadsNext(count, Flatten(entries), input, name.value.0, name.value.1, data);
      if !Utf8.Valid(name.value.0) {
        NameIsNotText(count, entries, name.value.0, name.value.1, data);
        return Err;
      }
      var output := ConsumeBytes(name.value.1);
      if output.None? {
        NoEntries(count, Flatten(entries) + [name.value.0], name.value.1, data);
        return Err;
      }
      if name.value.0 in files {
        RepeatedName(count, entries, name.value.0, name.value.1, data);
        return Err;
      }
      ghost var e := Entry(name.value.0, output.value.0);
      ReadsEntry(count, entries, input, name.value.0, name.value.1, output.value.0, output.value.1, data);
      FreshNameStaysDistinct(entries, e);
      TextNameStaysText(entries, e);
      FilesOfAppend(entries, e);
      files := files[name.value.0 := output.value.0];
      entries := entries + [e];
      input := output.value.1;
    }
    if input != [] {
      NoEntries(count, Flatten(entries), input, data);
      return Err;
    }
    FilesAreFound(entries, data);
    return Ok(files);
  }

  lemma TextNameStaysText(entries: seq<Entry>, e: Entry)
    requires AllText(Names(entries)) && Utf8.Valid(e.name)
    ensures AllText(Names(entries + [e]))
  {
    FilesOfAppend(entries, e);
  }

  lemma NameIsNotText(count: U32, entries: seq<Entry>, name: Bytes, rest: Bytes, data: Bytes)
    requires Reads(count, Flatten(entries) + [name], rest, data) && |entries| < count
    requires !Utf8.Valid(name)
    ensures EntriesIn(data).Ok? ==> !AllText(Names(EntriesIn(data).value))
  {
    hide Reads, Flatten, Utf8.Valid;
    EntriesSoFar(count, entries, name, rest, data);
    if EntriesIn(data).Ok? {
      assert name == Names(EntriesIn(data).value)[|entries|];
    }
  }

  // ---------------------------------------------------------------- encoders

  method AppendFramedString(out: Bytes, value: Bytes) returns (r: Result<Bytes>)
    ensures r == if |value| >= TWO_32 then Err else Ok(out + Frame(value))
  {
    hide LittleEndian;
    if |value| >= TWO_32 {
      return Err;
    }
    var prefixed := out + LittleEndian(|value|);
    assert prefixed + value == out + (LittleEndian(|value|) + value);
    return Ok(prefixed + value);
  }

  lemma ReadsAppend(count: U32, values: seq<Bytes>, out: Bytes, v: Bytes)
    requires Reads(count, values, [], out) && |v| < TWO_32
    ensures Reads(count, values + [v], [], out + Frame(v))
  {
    hide LittleEndian, Frame, Frames;
    FramesAppend(values, v);
    assert LittleEndian(count) + Frames(values) + [] + Frame(v)
        == LittleEndian(count) + (Frames(values) + Frame(v)) + [];
  }

  /** Encoding fails exactly for documents that do not fit, and otherwise produces the one payload
      that reads back as those documents. */
  method EncodeStreamOutput(documents: seq<Bytes>) returns (r: Result<Bytes>)
    ensures r.Ok? <==> |documents| < TWO_32 && Small(documents)
    ensures r.Ok? ==> StreamIn(r.value) == Ok(documents)
  {
    hide Reads, LittleEndian, Frame, StreamIn;
    if |documents| >= TWO_32 {
      return Err;
    }
    var out := LittleEndian(|documents|);
    assert out + [] == out;
    ReadsStart(|documents|, [], out);
    assert documents[..0] == [];
    for i := 0 to |documents|
      invariant Small(documents[..i]) && Reads(|documents|, documents[..i], [], out)
    {
      assert documents[i] in documents;
      var next := AppendFramedString(out, documents[i]);
      if next.Err? {
        return Err;
      }
      ReadsAppend(|documents|, documents[..i], out, documents[i]);
      assert documents[..i] + [documents[i]] == documents[..i + 1];
      out := next.value;
    }
    assert documents[..|documents|] == documents;
    StreamIsFound(documents, out);
    return Ok(out);
  }

  /** Re-encoding an accepted stream payload returns it: the payload is told by its documents. */
  lemma StreamRoundTrip(documents: seq<Bytes>, data: Bytes, again: Bytes)
    requires StreamIn(data) == Ok(documents) && StreamIn(again) == Ok(documents)
    ensures data == again
  {
    hide LittleEndian, Frames;
  }

  /** Byte order, as sort.Strings uses it. */
  predicate Less(a: Bytes, b: Bytes) {
    b != [] && (a == [] || a[0] < b[0] || (a[0] == b[0] && Less(a[1..], b[1..])))
  }

  /** The order is decided at the first difference; a proper start comes first. */
  lemma {:induction false} LessExactly(a: Bytes, b: Bytes)
    ensures Less(a, b) <==>
              exists k :: 0 <= k <= |a| && k < |b| && a[..k] == b[..k] && (k == |a| || a[k] < b[k])
  {
    if a != [] && b != [] && a[0] == b[0] {
      LessExactly(a[1..], b[1..]);
      forall k | 0 <= k <= |a| - 1 && k < |b| - 1
        ensures a[1..][..k] == b[1..][..k] <==> a[..k + 1] == b[..k + 1]
      {
        assert a[..k + 1] == [a[0]] + a[1..][..k] && b[..k + 1] == [b[0]] + b[1..][..k];
        assert a[..k + 1][1..] == a[1..][..k] && b[..k + 1][1..] == b[1..][..k];
      }
      if k :| 0 <= k <= |a| && k < |b| && a[..k] == b[..k] && (k == |a| || a[k] < b[k]) {
        assert k > 0;
        assert a[1..][..k - 1] == b[1..][..k - 1];
      }
      if k :| 0 <= k <= |a| - 1 && k < |b| - 1 && a[1..][..k] == b[1..][..k]
              && (k == |a| - 1 || a[1..][k] < b[1..][k]) {
        assert a[..k + 1] == b[..k + 1];
      }
    } else {
      assert a[..0] == b[..0];
    }
  }

  lemma {:induction false} LessIsTotal(a: Bytes, b: Bytes)
    ensures a == b || Less(a, b) || Less(b, a)
    ensures !(Less(a, b) && Less(b, a)) && !Less(a, a)
  {
    if a != [] {
      LessIsTotal(a[1..], if b == [] then [] else b[1..]);
      if b != [] && a[0] == b[0] && a[1..] == b[1..] {
        assert a == [a[0]] + a[1..] && b == [b[0]] + b[1..];
      }
    }
  }

  lemma {:induction false} LessIsTransitive(a: Bytes, b: Bytes, c: Bytes)
    requires Less(a, b) && Less(b, c)
    ensures Less(a, c)
  {
    if a != [] && a[0] == b[0] && b[0] == c[0] {
      LessIsTransitive(a[1..], b[1..], c[1..]);
    }
  }

  predicate Sorted(names: seq<Bytes>) {
    forall i, j :: 0 <= i < j < |names| ==> Less(names[i], names[j])
  }

  /** The payload that encodes files with their names in order. */
  ghost predicate CanonicalMulti(files: map<Bytes, Bytes>, data: Bytes) {
    exists entries :: MultiEncodes(entries, data) && Sorted(Names(entries)) && FilesOf(entries) == files
  }

  /** Map iteration yields the keys in any order; sorting makes the result independent of it. */
  method SortedKeys(files: map<Bytes, Bytes>) returns (names: seq<Bytes>)
    ensures Sorted(names) && |names| == |files|
    ensures forall k :: k in files <==> k in names
  {
    names := [];
    var left := files.Keys;
    while left != {}
      invariant left <= files.Keys && |names| + |left| == |files.Keys|
      invariant Sorted(names)
      invariant forall k :: k in names <==> k in files.Keys - left
      decreases left
    {
      var name :| name in left;
      left := left - {name};
      names := InsertSorted(names, name);
    }
  }

  method InsertSorted(names: seq<Bytes>, name: Bytes) returns (r: seq<Bytes>)
    requires Sorted(names) && name !in names
    ensures Sorted(r) && |r| == |names| + 1
    ensures forall k :: k in r <==> k in names || k == name
  {
    hide Less;
    var at := 0;
    while at < |names| && Less(names[at], name)
      invariant 0 <= at <= |names|
      invariant forall i :: 0 <= i < at ==> Less(names[i], name)
    {
      at := at + 1;
    }
    r := names[..at] + [name] + names[at..];
    forall i | at <= i < |names|
      ensures Less(name, names[i])
    {
      LessIsTotal(name, names[at]);
      if i > at {
        LessIsTransitive(name, names[at], names[i]);
      }
    }
    assert names == names[..at] + names[at..];
  }

  method EncodeMultiOutput(files: map<Bytes, Bytes>) returns (r: Result<Bytes>)
    ensures r.Ok? <==> |files| < TWO_32 && forall k <- files :: |k| < TWO_32 && |files[k]| < TWO_32
    ensures r.Ok? ==> CanonicalMulti(files, r.value)
  {
    hide Reads, LittleEndian, Frame, Less, Flatten, FilesOf;
    if |files| >= TWO_32 {
      return Err;
    }
    var names := SortedKeys(files);
    var out := LittleEndian(|names|);
    assert out + [] == out;
    ReadsStart(|names|, [], out);
    ghost var entries: seq<Entry> := [];
    for i := 0 to |names|
      invariant |entries| == i && forall j :: 0 <= j < i ==> entries[j] == Entry(names[j], files[names[j]])
      invariant Reads(|names|, Flatten(entries), [], out)
      invariant forall j :: 0 <= j < i ==> |names[j]| < TWO_32 && |files[names[j]]| < TWO_32
    {
      var name := names[i];
      assert name in names;
      var named := AppendFramedString(out, name);
      if named.Err? {
        return Err;
      }
      var full := AppendFramedString(named.value, files[name]);
      if full.Err? {
        return Err;
      }
      FlattenAppend(entries, Entry(name, files[name]));
      ReadsAppend(|names|, Flatten(entries), out, name);
      ReadsAppend(|names|, Flatten(entries) + [name], named.value, files[name]);
      entries := entries + [Entry(name, files[name])];
      out := full.value;
    }
    FilesOfSorted(entries, files);
    assert Names(entries) == names;
    assert MultiEncodes(entries, out);
    return Ok(out);
  }

  lemma {:induction false} FilesOfSorted(entries: seq<Entry>, files: map<Bytes, Bytes>)
    requires Sorted(Names(entries)) && forall k :: k in files <==> k in Names(entries)
    requires forall j :: 0 <= j < |entries| ==> files[Names(entries)[j]] == entries[j].output
    ensures FilesOf(entries) == files
  {
    hide Less, FilesOf, Names;
    SortedIsDistinct(Names(entries));
    FilesOfKeys(entries);
    hide Sorted, Distinct;
    SameFiles(FilesOf(entries), files, Names(entries));
  }

  lemma SameFiles(f: map<Bytes, Bytes>, g: map<Bytes, Bytes>, names: seq<Bytes>)
    requires forall k :: k in f <==> k in names
    requires forall k :: k in g <==> k in names
    requires forall j :: 0 <= j < |names| ==> f[names[j]] == g[names[j]]
    ensures f == g
  {
    forall k | k in f
      ensures f[k] == g[k]
    {
      var j :| 0 <= j < |names| && names[j] == k;
    }
  }

  lemma SortedIsDistinct(names: seq<Bytes>)
    requires Sorted(names)
    ensures Distinct(names)
  {
    hide Less;
    forall i, j | 0 <= i < j < |names|
      ensures names[i] != names[j]
    {
      LessIsTotal(names[i], names[j]);
    }
  }

  /** Sorted names are told by the set they list. */
  lemma {:induction false} SortedUnique(a: seq<Bytes>, b: seq<Bytes>)
    requires Sorted(a) && Sorted(b) && forall k :: k in a <==> k in b
    ensures a == b
    decreases |a|
  {
    hide Less;
    if b != [] {
      assert b[0] in a;
    }
    if a != [] {
      assert a[0] in b;
      LessIsTotal(a[0], b[0]);
      SortedIsDistinct(a);
      SortedIsDistinct(b);
      var x, y := a[1..], b[1..];
      assert a == [a[0]] + x && b == [b[0]] + y;
      forall k
        ensures k in x <==> k in y
      {
        assert k in x <==> k in a && k != a[0];
        assert k in y <==> k in b && k != b[0];
      }
      SortedUnique(x, y);
    }
  }

  lemma SortedEntriesUnique(a: seq<Entry>, b: seq<Entry>)
    requires Sorted(Names(a)) && Sorted(Names(b)) && FilesOf(a) == FilesOf(b)
    ensures a == b
  {
    hide FilesOf, Less;
    FilesOfKeys(a);
    FilesOfKeys(b);
    SortedUnique(Names(a), Names(b));
    SortedIsDistinct(Names(a));
    forall i | 0 <= i < |a|
      ensures a[i] == b[i]
    {
      assert Names(a)[i] == Names(b)[i];
    }
  }

  /** Decoding what the guest encoded returns the files, and encoding what was decoded returns the
      payload exactly when its names were in order. */
  lemma MultiRoundTrip(files: map<Bytes, Bytes>, data: Bytes, entries: seq<Entry>, again: Bytes)
    ensures CanonicalMulti(files, data) ==>
              && EntriesIn(data).Ok?
              && Distinct(Names(EntriesIn(data).value))
              && FilesOf(EntriesIn(data).value) == files
    ensures EntriesIn(data) == Ok(entries) && CanonicalMulti(FilesOf(entries), again) ==>
              (again == data <==> Sorted(Names(entries)))
  {
    hide Reads, Less, FilesOf, Flatten;
    if CanonicalMulti(files, data) {
      var es :| MultiEncodes(es, data) && Sorted(Names(es)) && FilesOf(es) == files;
      MultiUnique(es, EntriesIn(data).value, data);
      SortedIsDistinct(Names(es));
    }
    if EntriesIn(data) == Ok(entries) && CanonicalMulti(FilesOf(entries), again) {
      var es :| MultiEncodes(es, again) && Sorted(Names(es)) && FilesOf(es) == FilesOf(entries);
      if again == data {
        MultiUnique(es, entries, data);
      }
      if Sorted(Names(entries)) {
        SortedEntriesUnique(es, entries);
        SamePayload(es, data, again);
      }
    }
  }

  lemma SamePayload(entries: seq<Entry>, data: Bytes, again: Bytes)
    requires MultiEncodes(entries, data) && MultiEncodes(entries, again)
    ensures data == again
  {
    hide LittleEndian, Frames, Flatten;
  }
}
