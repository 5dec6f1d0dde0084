/** The guest's side of the callback protocol: the import caches and the sticky status, against any host at
    all and against a host that answers as a function. */
module Bridge {
  import opened Wire
  import opened Paths
  import opened Callbacks

  datatype Decoded = Decoded(ok: bool, canonical: Path, content: Bytes)
  datatype DecodedValue = Good(value: Value) | BadEnvelope | NoValue | BadValue

  /** The guest's half of the JSON codec. A response that fails to decode may leave some of its
      fields filled in. */
  datatype GuestCodec = GuestCodec(
    encodeImport: (Path, Path) -> Option<Bytes>,
    encodeCapability: (Bytes, seq<Value>) -> Option<Bytes>,
    decodeImport: Bytes -> Decoded,
    decodeCapability: Bytes -> DecodedValue)

  datatype Guest = Guest(maxRequest: U32, maxResponse: U32, codec: GuestCodec)

  datatype Failure =
    | Unencodable
    | RequestTooLarge
    | HostSaid(status: U32, message: Bytes)
    | BadLength
    | Undecodable
    | NoCanonical

  datatype ImportResult = ImportResult(content: Bytes, foundAt: Path, error: Option<Failure>)

  datatype BridgeState = BridgeState(
    imports: map<Bytes, ImportResult>,
    contents: map<Path, Bytes>,
    lastStatus: U32,
    localLimit: Option<(nat, nat)>)

  const EMPTY := BridgeState(map[], map[], HOST_OK, None)

  function Key(importedFrom: Path, importedPath: Path): Bytes {
    importedFrom + [NUL] + importedPath
  }

  /** The joined key tells two requests apart as long as importing paths hold no NUL, which every
      canonical path observes. */
  lemma KeyIsInjective(a: Path, p: Path, b: Path, q: Path)
    requires NUL !in a && NUL !in b && Key(a, p) == Key(b, q)
    ensures a == b && p == q
  {
    var k := Key(a, p);
    assert k[|a|] == NUL && k[|b|] == NUL;
    assert k[..|a|] == a && k[..|b|] == b;
    assert forall i :: 0 <= i < |a| ==> k[i] == a[i];
    assert forall i :: 0 <= i < |b| ==> k[i] == b[i];
    assert k[|a| + 1..] == p && k[|b| + 1..] == q;
  }

  /** Without that, two requests can share a key. */
  lemma KeysCollideOnNul()
    ensures Key([0x61, NUL, 0x62], [0x63]) == Key([0x61], [0x62, NUL, 0x63])
  {
  }

  // ---------------------------------------------------------------- one request

  predicate Sendable(g: Guest, payload: Bytes) {
    0 < |payload| <= g.maxRequest
  }

  /** The response as the guest reads it out of its buffer; None when the length is impossible. */
  function Heard(packed: U64, buffer: Bytes): Option<Reply> {
    var (status, length) := Unpack(packed);
    if length > |buffer| then None else Some(Reply(status, buffer[..length]))
  }

  /** What a response means: an error with the status to remember, or a body. */
  function Outcome(heard: Option<Reply>): HostOutcome {
    match heard
    case None => Lost(HOST_MALFORMED, BadLength)
    case Some(r) => if r.status != HOST_OK then Lost(r.status, HostSaid(r.status, r.body)) else Body(r.body)
  }

  datatype HostOutcome = Lost(status: U32, failure: Failure) | Body(body: Bytes)

  /** What a response word and buffer mean: an impossible length is malformed, a failure carries the host's
      status and message, and a success its body. */
  lemma ResponsesAreRead(status: U32, length: U32, buffer: Bytes)
    ensures Outcome(Heard(Pack(status, length), buffer)) ==
              if length > |buffer| then Lost(HOST_MALFORMED, BadLength)
              else if status == HOST_OK then Body(buffer[..length])
              else Lost(status, HostSaid(status, buffer[..length]))
  {
    PackRoundTrip(status, length, 0);
  }

  function Import(g: Guest, b: BridgeState, importedFrom: Path, importedPath: Path, heard: Option<Reply>)
    : (BridgeState, ImportResult)
  {
    var key := Key(importedFrom, importedPath);
    if key in b.imports then (b, b.imports[key])
    else match g.codec.encodeImport(importedFrom, importedPath)
      case None => (b, ImportResult([], [], Some(Unencodable)))
      case Some(payload) =>
        if !Sendable(g, payload) then
          var r := ImportResult([], [], Some(RequestTooLarge));
          (b.(imports := b.imports[key := r], lastStatus := HOST_LIMIT,
              localLimit := Some((g.maxRequest as nat, |payload|))), r)
        else Resolve(g, b, key, Outcome(heard))
  }

  function Resolve(g: Guest, b: BridgeState, key: Bytes, outcome: HostOutcome): (BridgeState, ImportResult) {
    match outcome
    case Lost(status, failure) =>
      var r := ImportResult([], [], Some(failure));
      (b.(imports := b.imports[key := r], lastStatus := status), r)
    case Body(body) =>
      var d := g.codec.decodeImport(body);
      var error := if !d.ok then Some(Undecodable) else if d.canonical == [] then Some(NoCanonical) else None;
      var content := if d.canonical in b.contents then b.contents[d.canonical] else d.content;
      var r := ImportResult(content, d.canonical, error);
      (b.(imports := b.imports[key := r],
          contents := if d.canonical in b.contents then b.contents else b.contents[d.canonical := content],
          lastStatus := if error.Some? then HOST_MALFORMED else b.lastStatus), r)
  }

  /** Every result is kept for its pair but one: a request that cannot be encoded is not remembered. The
      first content decoded for a path is kept for that path. */
  lemma CachesExactly(g: Guest, b: BridgeState, from: Path, path: Path, heard: Option<Reply>)
    ensures var (next, r), key := Import(g, b, from, path, heard), Key(from, path);
            var payload, outcome := g.codec.encodeImport(from, path), Outcome(heard);
            && next.imports == (if key in b.imports || payload.None? then b.imports else b.imports[key := r])
            && next.contents ==
                 if key !in b.imports && payload.Some? && 0 < |payload.value| <= g.maxRequest && outcome.Body? then
                   var d := g.codec.decodeImport(outcome.body);
                   if d.canonical in b.contents then b.contents else b.contents[d.canonical := d.content]
                 else b.contents
  {
    hide Key, Outcome;
  }

  /** Does this request reach the host? */
  predicate Calls(g: Guest, b: BridgeState, importedFrom: Path, importedPath: Path) {
    && Key(importedFrom, importedPath) !in b.imports
    && g.codec.encodeImport(importedFrom, importedPath).Some?
    && Sendable(g, g.codec.encodeImport(importedFrom, importedPath).value)
  }

  function Capability(g: Guest, b: BridgeState, name: Bytes, args: seq<Value>, heard: Option<Reply>)
    : (BridgeState, Option<Value>)
  {
    match g.codec.encodeCapability(name, args)
    case None => (b, None)
    case Some(payload) =>
      if !Sendable(g, payload) then
        (b.(lastStatus := HOST_LIMIT, localLimit := Some((g.maxRequest as nat, |payload|))), None)
      else match Outcome(heard)
        case Lost(status, _) => (b.(lastStatus := status), None)
        case Body(body) =>
          var d := g.codec.decodeCapability(body);
          if d.Good? then (b, Some(d.value)) else (b.(lastStatus := HOST_MALFORMED), None)
  }

  class HostBridge {
    const guest: Guest
    var imports: map<Bytes, ImportResult>
    var contents: map<Path, Bytes>
    var lastStatus: U32
    var localLimit: Option<(nat, nat)>

    constructor (guest: Guest)
      ensures this.guest == guest && Value() == EMPTY
    {
      this.guest := guest;
      imports, contents, lastStatus, localLimit := map[], map[], HOST_OK, None;
    }

    function Value(): BridgeState
      reads this
    {
      BridgeState(imports, contents, lastStatus, localLimit)
    }

    /** `packed` and `buffer` are what the host call returns and leaves in the response buffer; they
        are looked at only when the call is made. */
    method CallHost(payload: Bytes, packed: U64, buffer: Bytes) returns (r: HostOutcome, called: bool)
      modifies this`lastStatus, this`localLimit
      ensures called <==> 0 < |payload| <= guest.maxRequest
      ensures called ==> r == Outcome(Heard(packed, buffer)) && Value() == old(Value())
      ensures !called ==>
                && r == Lost(HOST_LIMIT, RequestTooLarge)
                && Value() == old(Value()).(lastStatus := HOST_LIMIT,
                                            localLimit := Some((guest.maxRequest as nat, |payload|)))
    {
      if |payload| == 0 || |payload| > guest.maxRequest {
        lastStatus := HOST_LIMIT;
        localLimit := Some((guest.maxRequest as nat, |payload|));
        return Lost(HOST_LIMIT, RequestTooLarge), false;
      }
      var (status, length) := Unpack(packed);
      if length > |buffer| {
        return Lost(HOST_MALFORMED, BadLength), true;
      }
      var body := buffer[..length];
      if status != HOST_OK {
        return Lost(status, HostSaid(status, body)), true;
      }
      return Body(body), true;
    }

    method ImportFile(importedFrom: Path, importedPath: Path, packed: U64, buffer: Bytes)
      returns (r: ImportResult, called: bool)
      modifies this
      ensures (Value(), r) == Import(guest, old(Value()), importedFrom, importedPath, Heard(packed, buffer))
      ensures called <==> Calls(guest, old(Value()), importedFrom, importedPath)
    {
      var key := Key(importedFrom, importedPath);
      if key in imports {
        return imports[key], false;
      }
      var payload := guest.codec.encodeImport(importedFrom, importedPath);
      if payload.None? {
        return ImportResult([], [], Some(Unencodable)), false;
      }
      var outcome: HostOutcome;
      outcome, called := CallHost(payload.value, packed, buffer);
      if outcome.Lost? {
        lastStatus := outcome.status;
        r := ImportResult([], [], Some(outcome.failure));
        imports := imports[key := r];
        return;
      }
      var decoded := guest.codec.decodeImport(outcome.body);
      var error: Option<Failure> := None;
      if !decoded.ok {
        lastStatus := HOST_MALFORMED;
        error := Some(Undecodable);
      } else if decoded.canonical == [] {
        lastStatus := HOST_MALFORMED;
        error := Some(NoCanonical);
      }
      var content := decoded.content;
      if decoded.canonical in contents {
        content := contents[decoded.canonical];
      } else {
        contents := contents[decoded.canonical := content];
      }
      r := ImportResult(content, decoded.canonical, error);
      imports := imports[key := r];
    }

    method CallCapability(name: Bytes, args: seq<Value>, packed: U64, buffer: Bytes)
      returns (r: Option<Value>)
      modifies this`lastStatus, this`localLimit
      ensures (Value(), r) == Capability(guest, old(Value()), name, args, Heard(packed, buffer))
    {
      var payload := guest.codec.encodeCapability(name, args);
      if payload.None? {
        return None;
      }
      var outcome, _ := CallHost(payload.value, packed, buffer);
      if outcome.Lost? {
        lastStatus := outcome.status;
        return None;
      }
      match guest.codec.decodeCapability(outcome.body)
      case Good(value) =>
        return Some(value);
      case _ =>
        lastStatus := HOST_MALFORMED;
        return None;
    }
  }

  // ---------------------------------------------------------------- any host at all

  datatype Query = Query(from: Path, path: Path, heard: Option<Reply>)

  function Results(g: Guest, b: BridgeState, queries: seq<Query>): seq<ImportResult>
    decreases |queries|
  {
    if queries == [] then [] else
      var (next, r) := Import(g, b, queries[0].from, queries[0].path, queries[0].heard);
      [r] + Results(g, next, queries[1..])
  }

  /** Every cached success carries the content stored for its path. */
  ghost predicate ContentsRule(b: BridgeState) {
    forall k <- b.imports :: Settled(b, b.imports[k])
  }

  ghost predicate Settled(b: BridgeState, r: ImportResult) {
    r.error.None? ==> r.foundAt in b.contents && b.contents[r.foundAt] == r.content
  }

  lemma ImportKeepsContents(g: Guest, b: BridgeState, q: Query)
    requires ContentsRule(b)
    ensures var (next, r) := Import(g, b, q.from, q.path, q.heard);
            && ContentsRule(next) && Settled(next, r)
            && forall c <- b.contents :: c in next.contents && next.contents[c] == b.contents[c]
  {
  }

  lemma {:induction false} ResultsAreSettled(g: Guest, b: BridgeState, queries: seq<Query>)
    returns (end: BridgeState)
    requires ContentsRule(b)
    ensures forall r <- Results(g, b, queries) :: Settled(end, r)
    ensures forall c <- b.contents :: c in end.contents && end.contents[c] == b.contents[c]
    decreases |queries|
  {
    hide Import, ContentsRule;
    if queries == [] {
      end := b;
    } else {
      var q := queries[0];
      ImportKeepsContents(g, b, q);
      var (next, r) := Import(g, b, q.from, q.path, q.heard);
      end := ResultsAreSettled(g, next, queries[1..]);
    }
  }

  /** Whatever the host answers, two successful imports found at one path carry one content, which is
      what the evaluator's own cache relies on. */
  lemma OnePathOneContent(g: Guest, queries: seq<Query>, i: nat, j: nat)
    requires i < |Results(g, EMPTY, queries)| && j < |Results(g, EMPTY, queries)|
    ensures var r, s := Results(g, EMPTY, queries)[i], Results(g, EMPTY, queries)[j];
            r.error.None? && s.error.None? && r.foundAt == s.foundAt ==> r.content == s.content
  {
    hide Import;
    var end := ResultsAreSettled(g, EMPTY, queries);
    var results := Results(g, EMPTY, queries);
    assert results[i] in results && results[j] in results;
  }

  // ---------------------------------------------------------------- a host that answers as a function

  type Oracle = (Path, Path) -> Option<Reply>

  /** The import result without caches. */
  function Uncached(g: Guest, host: Oracle, from: Path, path: Path): ImportResult {
    Import(g, EMPTY, from, path, host(from, path)).1
  }

  /** The response that an import of this pair decodes, if one is received. */
  function Response(g: Guest, host: Oracle, from: Path, path: Path): Option<Decoded> {
    var outcome := Outcome(host(from, path));
    if Calls(g, EMPTY, from, path) && outcome.Body? then Some(g.codec.decodeImport(outcome.body)) else None
  }

  /** Importers promise that a canonical path keeps its content during an evaluation. */
  ghost predicate Stable(g: Guest, host: Oracle) {
    forall a, p, b, q ::
      && Response(g, host, a, p).Some? && Response(g, host, b, q).Some?
      && Response(g, host, a, p).value.canonical == Response(g, host, b, q).value.canonical
      ==> Response(g, host, a, p).value.content == Response(g, host, b, q).value.content
  }

  ghost predicate Faithful(g: Guest, host: Oracle, b: BridgeState) {
    && (forall from, path :: NUL !in from && Key(from, path) in b.imports ==>
          b.imports[Key(from, path)] == Uncached(g, host, from, path))
    && (forall from, path :: Response(g, host, from, path).Some? ==>
          var d := Response(g, host, from, path).value;
          d.canonical in b.contents ==> b.contents[d.canonical] == d.content)
  }

  lemma ImportIsFaithful(g: Guest, host: Oracle, b: BridgeState, from: Path, path: Path)
    requires Stable(g, host) && Faithful(g, host, b) && NUL !in from
    ensures var (next, r) := Import(g, b, from, path, host(from, path));
            Faithful(g, host, next) && r == Uncached(g, host, from, path)
  {
    hide Key, Stable, Outcome, Sendable;
    var (next, r) := Import(g, b, from, path, host(from, path));
    var d := Response(g, host, from, path);
    assert r == Uncached(g, host, from, path);
    forall a, p | NUL !in a && Key(a, p) in next.imports
      ensures next.imports[Key(a, p)] == Uncached(g, host, a, p)
    {
      if Key(a, p) == Key(from, path) {
        KeyIsInjective(a, p, from, path);
      }
    }
    forall a, p | Response(g, host, a, p).Some? && Response(g, host, a, p).value.canonical in next.contents
      ensures next.contents[Response(g, host, a, p).value.canonical] == Response(g, host, a, p).value.content
    {
      if Response(g, host, a, p).value.canonical !in b.contents {
        StableFor(g, host, a, p, from, path);
      }
    }
  }

  lemma StableFor(g: Guest, host: Oracle, a: Path, p: Path, b: Path, q: Path)
    requires Stable(g, host)
    requires Response(g, host, a, p).Some? && Response(g, host, b, q).Some?
    requires Response(g, host, a, p).value.canonical == Response(g, host, b, q).value.canonical
    ensures Response(g, host, a, p).value.content == Response(g, host, b, q).value.content
  {
  }

  datatype Pair = Pair(from: Path, path: Path)

  function Asked(host: Oracle, pairs: seq<Pair>): seq<Query> {
    if pairs == [] then []
    else [Query(pairs[0].from, pairs[0].path, host(pairs[0].from, pairs[0].path))] + Asked(host, pairs[1..])
  }

  /** The pairs for which the run calls the host, in order. */
  function HostCalls(g: Guest, b: BridgeState, queries: seq<Query>): seq<Pair>
    decreases |queries|
  {
    if queries == [] then [] else
      var q := queries[0];
      (if Calls(g, b, q.from, q.path) then [Pair(q.from, q.path)] else [])
        + HostCalls(g, Import(g, b, q.from, q.path, q.heard).0, queries[1..])
  }

  ghost predicate NoRepeats(calls: seq<Pair>) {
    forall i, j :: 0 <= i < j < |calls| ==> calls[i] != calls[j]
  }

  /** A host call leaves its pair in the cache, so the pair never reaches the host again. */
  lemma {:induction false} CallsAreFresh(g: Guest, b: BridgeState, queries: seq<Query>)
    ensures var calls := HostCalls(g, b, queries);
            && (forall c <- calls :: Key(c.from, c.path) !in b.imports)
            && NoRepeats(calls)
    decreases |queries|
  {
    hide Key, Resolve, Outcome, Sendable;
    if queries != [] {
      var q := queries[0];
      var next := Import(g, b, q.from, q.path, q.heard).0;
      CallsAreFresh(g, next, queries[1..]);
      CacheGrows(g, b, q);
      var rest := HostCalls(g, next, queries[1..]);
      if Calls(g, b, q.from, q.path) {
        assert HostCalls(g, b, queries) == [Pair(q.from, q.path)] + rest;
        assert forall c <- rest :: c != Pair(q.from, q.path);
      } else {
        assert HostCalls(g, b, queries) == rest;
      }
    }
  }

  lemma CacheGrows(g: Guest, b: BridgeState, q: Query)
    ensures var next := Import(g, b, q.from, q.path, q.heard).0;
            && (forall k <- b.imports :: k in next.imports)
            && (Calls(g, b, q.from, q.path) ==> Key(q.from, q.path) in next.imports)
  {
    hide Key, Outcome;
  }

  lemma {:induction false} CachedRunIsFaithful(g: Guest, host: Oracle, b: BridgeState, pairs: seq<Pair>)
    requires Stable(g, host) && Faithful(g, host, b) && forall p <- pairs :: NUL !in p.from
    ensures |Results(g, b, Asked(host, pairs))| == |pairs|
    ensures forall i :: 0 <= i < |pairs| ==>
              Results(g, b, Asked(host, pairs))[i] == Uncached(g, host, pairs[i].from, pairs[i].path)
    decreases |pairs|
  {
    hide Stable, Faithful, Import, Uncached;
    if pairs != [] {
      var p := pairs[0];
      ImportIsFaithful(g, host, b, p.from, p.path);
      CachedRunIsFaithful(g, host, Import(g, b, p.from, p.path, host(p.from, p.path)).0, pairs[1..]);
    }
  }

  /** For a host that answers as a function and keeps the content of each path, any sequence of
      imports from NUL-free files returns what uncached imports would, with at most one host call for
      each pair. */
  lemma CachesAreTransparent(g: Guest, host: Oracle, pairs: seq<Pair>)
    requires Stable(g, host) && forall p <- pairs :: NUL !in p.from
    ensures |Results(g, EMPTY, Asked(host, pairs))| == |pairs|
    ensures forall i :: 0 <= i < |pairs| ==>
              Results(g, EMPTY, Asked(host, pairs))[i] == Uncached(g, host, pairs[i].from, pairs[i].path)
    ensures NoRepeats(HostCalls(g, EMPTY, Asked(host, pairs)))
  {
    CachedRunIsFaithful(g, host, EMPTY, pairs);
    CallsAreFresh(g, EMPTY, Asked(host, pairs));
  }
}
