/** The two hosts answer every run of callbacks alike, and exactly when they do not. */
module Lockstep {
  import opened Wire
  import opened Paths
  import opened Callbacks
  import opened Hosts
  import Budgets
  import GoHost
  import Memory
  import RustHost
  import Utf8

  /** Two hosts with the same limits, grants and platform. Their encoders may differ: Go's escapes more
      characters than Rust's. */
  ghost predicate SameSetup(go: Host, rust: Host) {
    go.limits == rust.limits && go.grants == rust.grants && go.volume == rust.volume
  }

  /** Everything but the logs and the first error. */
  ghost predicate SameBooks(a: State, b: State) {
    && a.importCalls == b.importCalls
    && a.importBytes == b.importBytes
    && a.capabilityCalls == b.capabilityCalls
  }

  /** Both hosts read the same request, whose paths are text, as is the handler's canonical path (they are
      strings of the Rust host); and a deadline that has passed stays passed. */
  ghost predicate Comparable(go: Host, rust: Host, c: Call) {
    && (c.operation == OPERATION_RESOLVE_IMPORT ==> go.codec.decodeImport(c.raw) == rust.codec.decodeImport(c.raw))
    && (c.operation == OPERATION_CALL_CAPABILITY ==>
          go.codec.decodeCapability(c.raw) == rust.codec.decodeCapability(c.raw))
    && (c.reaction.expiredBefore ==> c.reaction.expiredAfter)
    && (c.reaction.importAnswer.Answered? ==> Utf8.Valid(c.reaction.importAnswer.canonical))
    && (go.codec.decodeImport(c.raw).Some? ==>
          && Utf8.Valid(go.codec.decodeImport(c.raw).value.from)
          && Utf8.Valid(go.codec.decodeImport(c.raw).value.path))
  }

  // ---------------------------------------------------------------- where expiry shows

  /** Go looks at the clock behind the importer's answer only, and before it looks at the answer; Rust
      looks before it asks, and then only behind an answer that served. */
  predicate ImportExpiryShows(h: Host, r: Reaction) {
    if r.expiredBefore then !h.grants.importer || r.importAnswer.Panicked?
    else r.expiredAfter && h.grants.importer && (r.importAnswer.Refused? || r.importAnswer.Broke?)
  }

  predicate CapabilityExpiryShows(h: Host, q: CapabilityRequest, r: Reaction) {
    var callable := q.name in h.grants.capabilities && |q.args| == h.grants.capabilities[q.name];
    if r.expiredBefore then !callable || r.capabilityAnswer.Crashed?
    else r.expiredAfter && callable && r.capabilityAnswer.Failed?
  }

  predicate ExpiryShows(h: Host, s: State, c: Call) {
    if c.operation == OPERATION_RESOLVE_IMPORT then Counts(Go, h, s, c) && ImportExpiryShows(h, c.reaction)
    else if c.operation == OPERATION_CALL_CAPABILITY then
      match h.codec.decodeCapability(c.raw)
      case None => false
      case Some(q) =>
        q.name != [] && s.capabilityCalls < h.limits.maxCapabilityCalls && CapabilityExpiryShows(h, q, c.reaction)
    else false
  }

  // ---------------------------------------------------------------- one call

  ghost predicate SameCharges(a: Effect, b: Effect) {
    && a.importCounted == b.importCounted && a.capabilityCounted == b.capabilityCounted
    && a.charged == b.charged && a.accepted == b.accepted
  }

  ghost predicate OtherFailure(a: Effect, b: Effect) {
    && a.status != HOST_OK && b.status != HOST_OK && a.status != b.status
    && a.error.Some? && b.error.Some? && a.error != b.error
  }

  /** How two effects compare: the same charges always; another failure where expiry shows; and the same
      failure in a call that prepares no response. */
  ghost predicate Alike(a: Effect, b: Effect, shows: bool, prepares: bool) {
    && SameCharges(a, b)
    && (shows ==> !prepares && OtherFailure(a, b))
    && (!shows && !prepares ==> a.status == b.status && a.error == b.error)
  }

  lemma ImportsAgree(go: Host, rust: Host, a: State, b: State, c: Call)
    requires SameSetup(go, rust) && SameBooks(a, b) && Comparable(go, rust, c) && Paced(a)
    requires c.operation == OPERATION_RESOLVE_IMPORT
    ensures Prepares(Go, go, a, c) == Prepares(Rust, rust, b, c)
    ensures Alike(GoHost.Import(go, a, c.raw, c.reaction), RustHost.Import(rust, b, c.raw, c.reaction),
                  ExpiryShows(go, a, c), Prepares(Go, go, a, c))
  {
    hide GoVirtualPath, RustVirtualPath, GoRelativePath, RustImportPath, Utf8.Valid;
    var q := go.codec.decodeImport(c.raw);
    if q.Some? {
      ValidatorsAgree(go.volume, q.value.from);
      ValidatorsAgree(go.volume, q.value.path);
    }
    if c.reaction.importAnswer.Answered? {
      ValidatorsAgree(go.volume, c.reaction.importAnswer.canonical);
    }
  }

  lemma CapabilitiesAgree(go: Host, rust: Host, a: State, b: State, c: Call)
    requires SameSetup(go, rust) && SameBooks(a, b) && Comparable(go, rust, c)
    requires c.operation == OPERATION_CALL_CAPABILITY
    ensures Prepares(Go, go, a, c) == Prepares(Rust, rust, b, c)
    ensures Alike(GoHost.Capability(go, a, c.raw, c.reaction), RustHost.Capability(rust, b, c.raw, c.reaction),
                  ExpiryShows(go, a, c), Prepares(Go, go, a, c))
  {
  }

  lemma DispatchesAgree(go: Host, rust: Host, a: State, b: State, c: Call)
    requires SameSetup(go, rust) && SameBooks(a, b) && Comparable(go, rust, c) && Paced(a)
    ensures Prepares(Go, go, a, c) == Prepares(Rust, rust, b, c)
    ensures Alike(GoHost.Dispatch(go, a, c), RustHost.Dispatch(rust, b, c), ExpiryShows(go, a, c),
                  Prepares(Go, go, a, c))
  {
    hide GoHost.Import, GoHost.Capability, RustHost.Import, RustHost.Capability, SameSetup, Comparable;
    if c.operation == OPERATION_RESOLVE_IMPORT {
      ImportsAgree(go, rust, a, b, c);
    } else if c.operation == OPERATION_CALL_CAPABILITY {
      CapabilitiesAgree(go, rust, a, b, c);
    }
  }

  /** How closely one listens to a success: to its status, its size, or its bytes. The words of a
      diagnostic are never compared. */
  datatype Detail = Statuses | Sizes | Contents
  datatype Told = Told(status: U32, size: nat, body: Bytes)

  function Tell(r: Reply, detail: Detail): Told {
    if r.status != HOST_OK then Told(r.status, 0, [])
    else Told(r.status, if detail == Statuses then 0 else |r.body|, if detail == Contents then r.body else [])
  }

  /** What the guest is told of a call that prepares a response, by its encoding alone. */
  function TellEncoding(h: Host, c: Call, detail: Detail): Told {
    Tell(Reply(FinalVerdict(h, c).0, if Encoding(h, c).Some? then Encoding(h, c).value else []), detail)
  }

  /** The guest can tell the hosts apart: expiry shows, or the two encodings do. */
  predicate ReplyShows(go: Host, rust: Host, s: State, c: Call, detail: Detail) {
    || ExpiryShows(go, s, c)
    || (Prepares(Go, go, s, c) && TellEncoding(go, c, detail) != TellEncoding(rust, c, detail))
  }

  /** The call's own error differs. */
  predicate ErrorShows(go: Host, rust: Host, s: State, c: Call) {
    || ExpiryShows(go, s, c)
    || (Prepares(Go, go, s, c) && FinalVerdict(go, c).1 != FinalVerdict(rust, c).1)
  }

  lemma CallsAgree(go: Host, rust: Host, a: State, b: State, c: Call, detail: Detail)
    requires SameSetup(go, rust) && SameBooks(a, b) && Comparable(go, rust, c) && Paced(a) && Paced(b)
    ensures SameBooks(GoHost.Next(go, a, c), RustHost.Next(rust, b, c))
    ensures Tell(GoHost.Answer(go, a, c), detail) == Tell(RustHost.Answer(rust, b, c), detail)
       <==> !ReplyShows(go, rust, a, c, detail)
    ensures a.lastError == b.lastError ==>
              (GoHost.Next(go, a, c).lastError == RustHost.Next(rust, b, c).lastError
               <==> a.lastError.Some? || !ErrorShows(go, rust, a, c))
  {
    DispatchesAgree(go, rust, a, b, c);
    EncodingDecides(Go, go, a, c);
    EncodingDecides(Rust, rust, b, c);
    AnswerOfEffect(Go, go, a, c);
    AnswerOfEffect(Rust, rust, b, c);
    NextBooks(Go, go, a, c);
    NextBooks(Rust, rust, b, c);
    hide GoHost.Dispatch, RustHost.Dispatch, GoHost.Next, RustHost.Next, GoHost.Answer, RustHost.Answer;
    hide ExpiryShows, SameSetup, Comparable, Prepares, FinalVerdict, Encoding;
  }

  lemma NextBooks(side: Side, h: Host, s: State, c: Call)
    ensures SameBooks(Next(side, h, s, c), Count(s, Dispatch(side, h, s, c)))
  {
    hide GoHost.Dispatch, RustHost.Dispatch;
  }

  // ---------------------------------------------------------------- one contact through guest memory

  datatype Meeting = Meeting(memory: Bytes, call: GoHost.GuestCall, reaction: Reaction)

  function Meet(side: Side, h: Host, s: State, m: Meeting): State {
    Contact(side, h, s, m.memory, m.call, m.reaction).0
  }

  function Hear(side: Side, h: Host, s: State, m: Meeting): Reply {
    Contact(side, h, s, m.memory, m.call, m.reaction).1
  }

  function CallOf(m: Meeting): Call
    requires m.call.requestPtr + m.call.requestLen <= |m.memory|
  {
    GoHost.Received(m.memory, m.call, m.reaction)
  }

  /** Guest memory has at most 2 GiB (the ceiling is half of that), and a call that arrives can be
      compared. */
  ghost predicate Sound(go: Host, rust: Host, m: Meeting) {
    && |m.memory| <= 0x8000_0000
    && (GoHost.BuffersInRange(go, m.memory, m.call) ==> Comparable(go, rust, CallOf(m)))
  }

  /** The first range that Rust rejects is well placed but longer than its limit. */
  predicate OverLong(h: Host, m: Meeting) {
    var request := Memory.RustRange(|m.memory|, m.call.requestPtr, m.call.requestLen, h.limits.maxHostRequestBytes);
    var ptr := if request then m.call.responsePtr else m.call.requestPtr;
    var length := if request then m.call.responseCap else m.call.requestLen;
    var limit := if request then h.limits.maxHostResponseBytes else h.limits.maxHostRequestBytes;
    Memory.Signed(ptr) > 0 && Memory.Signed(length) > 0 && length > limit
  }

  predicate RepliesDiffer(go: Host, rust: Host, s: State, m: Meeting, detail: Detail) {
    GoHost.BuffersInRange(go, m.memory, m.call) && ReplyShows(go, rust, s, CallOf(m), detail)
  }

  predicate ErrorsDiffer(go: Host, rust: Host, s: State, m: Meeting) {
    if GoHost.BuffersInRange(go, m.memory, m.call) then ErrorShows(go, rust, s, CallOf(m)) else OverLong(go, m)
  }

  /** A bad buffer is an ABI violation to Go always, and to Rust unless the first range it rejects is an
      over-long one, which is a limit with its numbers. */
  lemma BadBuffersAreRecorded(side: Side, h: Host, s: State, m: Meeting)
    requires !BuffersInRange(side, h, m.memory, m.call)
    ensures var request := Memory.RustRange(|m.memory|, m.call.requestPtr, m.call.requestLen,
                                            h.limits.maxHostRequestBytes);
            var error :=
              if side == Go || !OverLong(h, m) then AbiViolation
              else if request then LimitExceeded(HostMessage, h.limits.maxHostResponseBytes, m.call.responseCap)
              else LimitExceeded(HostMessage, h.limits.maxHostRequestBytes, m.call.requestLen);
            && Meet(side, h, s, m) == Record(s, Some(error))
            && Hear(side, h, s, m) == Reply(HOST_MALFORMED, [])
  {
  }

  /** Two hosts reject the same buffers, with the same reply. On a bad buffer they record the same error
      if and only if the first range that Rust rejects is not an over-long one. */
  lemma BadBuffersAgree(go: Host, rust: Host, a: State, b: State, m: Meeting)
    requires go.limits == rust.limits && |m.memory| <= 0x8000_0000
    ensures GoHost.BuffersInRange(go, m.memory, m.call) <==> RustHost.BuffersInRange(rust, m.memory, m.call)
    ensures !GoHost.BuffersInRange(go, m.memory, m.call) ==>
              && Hear(Go, go, a, m) == Hear(Rust, rust, b, m)
              && (a.lastError.None? && b.lastError.None? ==>
                    (Meet(Go, go, a, m).lastError == Meet(Rust, rust, b, m).lastError <==> !OverLong(go, m)))
  {
  }

  lemma MeetingsAgree(go: Host, rust: Host, a: State, b: State, m: Meeting, detail: Detail)
    requires SameSetup(go, rust) && SameBooks(a, b) && Sound(go, rust, m) && Paced(a) && Paced(b)
    ensures SameBooks(Meet(Go, go, a, m), Meet(Rust, rust, b, m))
    ensures Tell(Hear(Go, go, a, m), detail) == Tell(Hear(Rust, rust, b, m), detail)
       <==> !RepliesDiffer(go, rust, a, m, detail)
    ensures a.lastError == b.lastError ==>
              (Meet(Go, go, a, m).lastError == Meet(Rust, rust, b, m).lastError
               <==> a.lastError.Some? || !ErrorsDiffer(go, rust, a, m))
  {
    BadBuffersAgree(go, rust, a, b, m);
    hide GoHost.BuffersInRange, RustHost.BuffersInRange, GoHost.Next, RustHost.Next, GoHost.Answer, RustHost.Answer;
    hide ReplyShows, ErrorShows, Comparable, SameSetup, RustHost.FirstRangeError, OverLong;
    if GoHost.BuffersInRange(go, m.memory, m.call) {
      CallsAgree(go, rust, a, b, CallOf(m), detail);
    }
  }

  // ---------------------------------------------------------------- whole runs

  function Replies(side: Side, h: Host, s: State, meetings: seq<Meeting>, detail: Detail): seq<Told>
    decreases |meetings|
  {
    if meetings == [] then []
    else [Tell(Hear(side, h, s, meetings[0]), detail)]
           + Replies(side, h, Meet(side, h, s, meetings[0]), meetings[1..], detail)
  }

  function End(side: Side, h: Host, s: State, meetings: seq<Meeting>): State
    decreases |meetings|
  {
    if meetings == [] then s else End(side, h, Meet(side, h, s, meetings[0]), meetings[1..])
  }

  /** In no call of the run does expiry or an encoding show. */
  predicate NoReplyDiffers(go: Host, rust: Host, s: State, meetings: seq<Meeting>, detail: Detail)
    decreases |meetings|
  {
    meetings != [] ==>
      && !RepliesDiffer(go, rust, s, meetings[0], detail)
      && NoReplyDiffers(go, rust, Meet(Go, go, s, meetings[0]), meetings[1..], detail)
  }

  /** After each call of the run the hosts have recorded the same first error, or none. */
  predicate ErrorsAlwaysAgree(go: Host, rust: Host, a: State, b: State, meetings: seq<Meeting>)
    decreases |meetings|
  {
    && a.lastError == b.lastError
    && (meetings != [] ==>
          ErrorsAlwaysAgree(go, rust, Meet(Go, go, a, meetings[0]), Meet(Rust, rust, b, meetings[0]), meetings[1..]))
  }

  /** Up to the first error no error of a call differs, by expiry, by an encoding, or by an over-long
      buffer. */
  predicate FirstErrorIsShared(go: Host, rust: Host, s: State, meetings: seq<Meeting>)
    decreases |meetings|
  {
    s.lastError.None? && meetings != [] ==>
      && !ErrorsDiffer(go, rust, s, meetings[0])
      && FirstErrorIsShared(go, rust, Meet(Go, go, s, meetings[0]), meetings[1..])
  }

  lemma MeetingKeepsPace(side: Side, h: Host, s: State, m: Meeting)
    requires Within(h.limits, s) && Paced(s)
    ensures Within(h.limits, Meet(side, h, s, m)) && Paced(Meet(side, h, s, m))
    ensures s.lastError.Some? ==> Meet(side, h, s, m).lastError == s.lastError
  {
    if BuffersInRange(side, h, m.memory, m.call) {
      Budgets.StepKeepsBudget(side, h, s, CallOf(m));
    }
    hide GoHost.Dispatch, RustHost.Dispatch, GoHost.BuffersInRange, RustHost.BuffersInRange;
  }

  /** Every run of guest calls leaves the same counters in both hosts, whatever their encoders. The guest is
      told the same, as closely as one listens, if and only if in no call expiry or an encoding shows; and
      the first error, with its numbers, is the same all along if and only if up to it no error of a call
      differs. */
  lemma {:induction false} HostsRunInLockstep(go: Host, rust: Host, a: State, b: State, meetings: seq<Meeting>,
                                              detail: Detail)
    requires SameSetup(go, rust)
    requires SameBooks(a, b) && Within(go.limits, a) && Within(rust.limits, b) && Paced(a) && Paced(b)
    requires forall m <- meetings :: Sound(go, rust, m)
    ensures SameBooks(End(Go, go, a, meetings), End(Rust, rust, b, meetings))
    ensures Replies(Go, go, a, meetings, detail) == Replies(Rust, rust, b, meetings, detail)
       <==> NoReplyDiffers(go, rust, a, meetings, detail)
    ensures a.lastError == b.lastError ==>
              (ErrorsAlwaysAgree(go, rust, a, b, meetings) <==> FirstErrorIsShared(go, rust, a, meetings))
    decreases |meetings|
  {
    hide Meet, Hear, RepliesDiffer, ErrorsDiffer, Sound, Within, Paced, SameSetup, Tell;
    if meetings != [] {
      var m := meetings[0];
      assert m in meetings;
      MeetingsAgree(go, rust, a, b, m, detail);
      MeetingKeepsPace(Go, go, a, m);
      MeetingKeepsPace(Rust, rust, b, m);
      var c, d := Meet(Go, go, a, m), Meet(Rust, rust, b, m);
      HostsRunInLockstep(go, rust, c, d, meetings[1..], detail);
      var x, y := Replies(Go, go, a, meetings, detail), Replies(Rust, rust, b, meetings, detail);
      assert x[0] == Tell(Hear(Go, go, a, m), detail) && y[0] == Tell(Hear(Rust, rust, b, m), detail);
      assert x[1..] == Replies(Go, go, c, meetings[1..], detail);
      assert y[1..] == Replies(Rust, rust, d, meetings[1..], detail);
    }
  }

  /** Where every response has one encoding, only expiry and over-long buffers show. */
  lemma EqualEncodingsDoNotShow(go: Host, rust: Host, s: State, c: Call, detail: Detail)
    requires go.limits == rust.limits && Encoding(go, c) == Encoding(rust, c)
    ensures ReplyShows(go, rust, s, c, detail) <==> ExpiryShows(go, s, c)
    ensures ErrorShows(go, rust, s, c) <==> ExpiryShows(go, s, c)
  {
    hide ExpiryShows, Prepares, Encoding;
  }

  // ---------------------------------------------------------------- what the logs have in common

  lemma CallLogsLess(go: Host, rust: Host, a: State, b: State, c: Call)
    requires SameSetup(go, rust) && SameBooks(a, b) && Comparable(go, rust, c) && Paced(a) && Paced(b)
    requires a.seen <= b.seen
    ensures Next(Go, go, a, c).seen <= Next(Rust, rust, b, c).seen
  {
    DispatchesAgree(go, rust, a, b, c);
    hide GoHost.Dispatch, RustHost.Dispatch, ExpiryShows, SameSetup, Comparable;
  }

  lemma MeetingLogsLess(go: Host, rust: Host, a: State, b: State, m: Meeting)
    requires SameSetup(go, rust) && SameBooks(a, b) && Sound(go, rust, m) && Paced(a) && Paced(b)
    requires a.seen <= b.seen
    ensures Meet(Go, go, a, m).seen <= Meet(Rust, rust, b, m).seen
  {
    BadBuffersAgree(go, rust, a, b, m);
    if GoHost.BuffersInRange(go, m.memory, m.call) {
      CallLogsLess(go, rust, a, b, CallOf(m));
    }
    hide GoHost.BuffersInRange, RustHost.BuffersInRange, GoHost.Next, RustHost.Next, GoHost.Answer, RustHost.Answer;
  }

  /** What Go logged in a run, Rust logged. */
  lemma {:induction false} GoLogsNoMore(go: Host, rust: Host, a: State, b: State, meetings: seq<Meeting>)
    requires SameSetup(go, rust) && SameBooks(a, b) && a.seen <= b.seen
    requires Within(go.limits, a) && Within(rust.limits, b) && Paced(a) && Paced(b)
    requires forall m <- meetings :: Sound(go, rust, m)
    ensures End(Go, go, a, meetings).seen <= End(Rust, rust, b, meetings).seen
    decreases |meetings|
  {
    hide Meet, Hear, Sound, Within, Paced, SameSetup, Tell, RepliesDiffer, ErrorsDiffer;
    if meetings != [] {
      var m := meetings[0];
      assert m in meetings;
      MeetingsAgree(go, rust, a, b, m, Statuses);
      MeetingLogsLess(go, rust, a, b, m);
      MeetingKeepsPace(Go, go, a, m);
      MeetingKeepsPace(Rust, rust, b, m);
      GoLogsNoMore(go, rust, Meet(Go, go, a, m), Meet(Rust, rust, b, m), meetings[1..]);
    }
  }

  // ---------------------------------------------------------------- when the logs agree

  /** The import is charged, and its response does not encode or is over the response limit. */
  predicate ChargedInVain(h: Host, s: State, c: Call) {
    Charges(Go, h, s, c) && !Fits(h, c, h.limits.maxHostResponseBytes)
  }

  /** The guards say of a call what its effects show: content accepted and charged, and no success. */
  lemma VainIsAcceptedAndRefused(h: Host, s: State, c: Call)
    requires Paced(s)
    ensures var e := GoHost.Dispatch(h, s, c);
            ChargedInVain(h, s, c) <==> e.accepted.Some? && e.status != HOST_OK
  {
    GuardsDecide(Go, h, s, c);
    hide GoHost.Dispatch, Charges, Fits, Counts;
  }

  /** After each call of the run the two logs are the same list. */
  ghost predicate LogsAlwaysAgree(go: Host, rust: Host, a: State, b: State, meetings: seq<Meeting>)
    decreases |meetings|
  {
    && a.resolved == b.resolved
    && (meetings != [] ==>
          LogsAlwaysAgree(go, rust, Meet(Go, go, a, meetings[0]), Meet(Rust, rust, b, meetings[0]), meetings[1..]))
  }

  /** The contact arrives, and its import is charged in vain. */
  predicate Wastes(h: Host, s: State, m: Meeting) {
    GoHost.BuffersInRange(h, m.memory, m.call) && ChargedInVain(h, s, CallOf(m))
  }

  /** Each path charged in vain was in the log already. */
  ghost predicate VainPathsWereLogged(h: Host, s: State, meetings: seq<Meeting>)
    decreases |meetings|
  {
    meetings != [] ==>
      && (Wastes(h, s, meetings[0]) ==> meetings[0].reaction.importAnswer.canonical in s.seen)
      && VainPathsWereLogged(h, Meet(Go, h, s, meetings[0]), meetings[1..])
  }

  lemma LogsStep(go: Host, rust: Host, a: State, b: State, c: Call)
    requires SameSetup(go, rust) && SameBooks(a, b) && Comparable(go, rust, c) && Paced(a) && Paced(b)
    ensures Logs(Rust, rust, b, c) <==> Logs(Go, go, a, c) || ChargedInVain(go, a, c)
    ensures !(Logs(Go, go, a, c) && ChargedInVain(go, a, c))
    ensures Logs(Rust, rust, b, c) ==> c.reaction.importAnswer.Answered?
  {
    DispatchesAgree(go, rust, a, b, c);
    GuardsDecide(Go, go, a, c);
    GuardsDecide(Rust, rust, b, c);
    Budgets.LoggedWasAnswered(Rust, rust, b, c);
    hide GoHost.Next, RustHost.Next, GoHost.Dispatch, RustHost.Dispatch, Charges, Fits, Counts, ExpiryShows;
  }

  /** One contact keeps equal logs equal, unless it wastes a path that is not logged yet. */
  lemma LogsOfMeeting(go: Host, rust: Host, a: State, b: State, m: Meeting)
    requires SameSetup(go, rust) && SameBooks(a, b) && Sound(go, rust, m) && Paced(a) && Paced(b)
    requires LogIsSet(a) && a.resolved == b.resolved && a.seen == b.seen
    ensures Wastes(go, a, m) ==> m.reaction.importAnswer.Answered?
    ensures Meet(Go, go, a, m).resolved == Meet(Rust, rust, b, m).resolved
       <==> !(Wastes(go, a, m) && m.reaction.importAnswer.canonical !in a.seen)
  {
    BadBuffersAgree(go, rust, a, b, m);
    hide GoHost.BuffersInRange, RustHost.BuffersInRange, Logs, ChargedInVain, Comparable, SameSetup;
    if GoHost.BuffersInRange(go, m.memory, m.call) {
      var c := CallOf(m);
      LogsStep(go, rust, a, b, c);
      Budgets.NextLogs(Go, go, a, c);
      Budgets.NextLogs(Rust, rust, b, c);
      hide Hosts.Next, GoHost.Next, RustHost.Next;
      if Wastes(go, a, m) && c.reaction.importAnswer.canonical !in a.seen {
        assert Meet(Rust, rust, b, m).resolved == b.resolved + [c.reaction.importAnswer.canonical];
      }
    }
  }

  /** The Rust host logs a path before it knows that the response fits. The logs agree throughout a run of
      guest calls exactly when every path charged in vain was in the log already. */
  lemma {:induction false} LogsAgreeExactly(go: Host, rust: Host, a: State, b: State, meetings: seq<Meeting>)
    requires SameSetup(go, rust) && SameBooks(a, b)
    requires Within(go.limits, a) && Within(rust.limits, b) && Paced(a) && Paced(b)
    requires a.resolved == b.resolved
    requires forall m <- meetings :: Sound(go, rust, m)
    ensures LogsAlwaysAgree(go, rust, a, b, meetings) <==> VainPathsWereLogged(go, a, meetings)
    decreases |meetings|
  {
    hide Meet, Hear, Tell, Sound, SameSetup, Paced, RepliesDiffer, ErrorsDiffer;
    if meetings != [] {
      var m := meetings[0];
      assert m in meetings;
      assert a.seen == b.seen;
      MeetingsAgree(go, rust, a, b, m, Statuses);
      LogsOfMeeting(go, rust, a, b, m);
      MeetingKeepsPace(Go, go, a, m);
      MeetingKeepsPace(Rust, rust, b, m);
      hide Within, Wastes;
      if !(Wastes(go, a, m) && m.reaction.importAnswer.canonical !in a.seen) {
        LogsAgreeExactly(go, rust, Meet(Go, go, a, m), Meet(Rust, rust, b, m), meetings[1..]);
      }
    }
  }

  /** The contact brings a content that one import may have, and its response is within the limit. */
  predicate AnswerFits(h: Host, m: Meeting) {
    GoHost.BuffersInRange(h, m.memory, m.call) && Budgets.Acceptable(h, CallOf(m)) ==>
      Fits(h, CallOf(m), h.limits.maxHostResponseBytes)
  }

  /** Known before any run: when every content that one import may have encodes within the response limit,
      the logs always agree. */
  lemma LogsAgreeWhenAnswersFit(go: Host, rust: Host, meetings: seq<Meeting>)
    requires SameSetup(go, rust) && forall m <- meetings :: Sound(go, rust, m) && AnswerFits(go, m)
    ensures LogsAlwaysAgree(go, rust, START, START, meetings)
  {
    hide AnswerFits, Sound, SameSetup;
    NothingIsInVain(go, START, meetings);
    LogsAgreeExactly(go, rust, START, START, meetings);
  }

  lemma {:induction false} NothingIsInVain(h: Host, s: State, meetings: seq<Meeting>)
    requires forall m <- meetings :: AnswerFits(h, m)
    ensures VainPathsWereLogged(h, s, meetings)
    decreases |meetings|
  {
    hide Meet, Fits, Counts, VirtualPath, GoHost.BuffersInRange;
    if meetings != [] {
      assert meetings[0] in meetings;
      NothingIsInVain(h, Meet(Go, h, s, meetings[0]), meetings[1..]);
    }
  }
}
