# Sonnetbox: the protocol around the sandbox

Sonnetbox evaluates Jsonnet in a WebAssembly guest. The guest calls its host back for imports and native
functions, and the host serves it under strict budgets. There are two hosts, one in Go and one in Rust, which
implement the same contract independently. This project models the code around the evaluator and proves what
that code is for:

- **One contract, two hosts** (`callbacks`, `memory`, `go_host`, `rust_host`, `hosts`, `budgets`, `sections`,
  `lockstep`): the callback functions of both hosts as classes over an invocation's fields, each proved against
  a step function. Over any sequence of callbacks no budget is passed and both hosts keep the same counters; the
  exact conditions under which their replies, first errors and resolution logs agree are proved both ways.
- **The guest's bridge** (`bridge`, `coupling`): import caches that nobody can see, a sticky status that tells
  whether the host recorded an error, and messages that cross guest memory unharmed.
- **Virtual paths and the workspace** (`paths`, `workspace`, `workspace_search`, `workspace_canonical`,
  `workspace_precedence`, `workspace_run`): lexical cleaning and the push/pop stack agree; which file an import
  serves; skipping repeated virtual paths in the search is harmless exactly when no library path is declared
  behind an equal mount name; a reported path leads back to its file; and what imports return through caches,
  host and importer together.
- **Output framing** (`framing`): one grammar, two encoders, four decoders.
- **Bounded reports** (`utf8`, `guest_error`, `results`): the binary search finds the longest report that fits;
  trace and result buffers read back; what an evaluation returns, end to end.
- **Configuration and requests** (`identifiers`, `config`, `requests`): whatever the host prepares, the guest
  accepts and evaluates, field by field as it was asked for; and every rejection names a fault.
- **Concurrency** (`gate`, `lifecycle`): the Rust gate and the Go engine's life as interleaved steps.

## What is assumed

- JSON is an abstract codec, given as functions. Where a theorem needs that decoding inverts encoding, it says
  so in its `requires`, and for strings of valid UTF-8 only: JSON replaces other text. For error reports the
  encoding of a message is the concatenation of the encodings of its characters.
- A file system is a map from paths to files and directories that does not change. Opening a host directory
  either fails or gives such a map.
- `path.Clean`, `path.Join` and `path.Dir` are written out from their documented rules.
- Whether a path carries a volume name is a parameter: Go asks the platform, Rust looks for a letter and a
  colon.
- The repair of invalid UTF-8 in diagnostics and the texts of errors are parameters of each host; Rust's repair
  leaves the empty text empty.
- An instantiation may fail at any time, and fails once the runtime is closed.
- What importers, capabilities, clocks and the evaluator do is arbitrary: it enters as the reaction of a
  callback, or as the sequence of events of a run.
- Strings are sequences of bytes. UTF-8 is defined by section 4 of RFC 3629.

## Where the code differs from what one may expect

- The Rust host logs a resolved path before it knows that the response fits, the Go host after
  (`rust/sonnetbox-wasmtime/src/lib.rs:915-941`, `engine.go:771-781`). `Lockstep.LogsAgreeExactly` gives the
  exact condition under which the logs agree.
- Both hosts log a path before they know that the response fits the guest's buffer (`engine.go:624-632`), so the
  resolution list can name a path that the guest was not served: `Budgets.UnservedPathIsLogged`, with the exact
  condition in `Budgets.LogIsServiceExactly`. The guest's own bridge always offers enough room.
- The hosts look at the clock at different points of a callback. `Lockstep.ExpiryShows` says in which calls the
  guest can tell.
- The hosts' encoders differ: Go's escapes `<`, `>` and `&` (`engine.go:759`), Rust's does not
  (`rust/sonnetbox-wasmtime/src/lib.rs:919`), so a response near a limit can fit in one host only.
  `Lockstep.ReplyShows` and `Lockstep.ErrorShows` say in which calls it matters; the counters agree regardless.
- A capability of the Go host may return a value that Go encodes and the guest cannot decode, such as the number
  1e999 (`engine.go:851`, `cmd/sonnetbox-guest/main_wasm.go:398-401`). The host then records no error and the
  caller gets an unclassified host error, which is not the host's: `Coupling.UnclassifiedIsReachable`, with the
  exact condition in `Coupling.UnclassifiedExactly`.
- The comment at `importer.go:230-232` says that a mount name that the workspace root uses is refused, so that
  virtual paths are not ambiguous. But nothing compares mount names with library paths, and a library directory
  need not exist when the importer is opened. With a library path declared behind an equal mount name the importer
  can miss a file in that mount: `WorkspaceSearch.ShadowLosesAFile`.
- A Go host on a platform without volume names resolves `./c:x` to `c:x`, which the Rust host refuses:
  `Paths.VolumesCanDiffer`.
- For a well-placed buffer whose length is over its limit the Go host records an ABI violation and the Rust host
  a limit error; both answer with the same status and write nothing (`Lockstep.BadBuffersAgree`).
- For a total import limit of 2^64 - 1 Rust's saturating test accepts everything (`Callbacks.TotalsAreExact`). No
  run gets there, because each of fewer than 2^32 imports charges less than 2^32 bytes (`Hosts.GuardsDecide`).
- Close keeps no guest from starting whose evaluation is past its second check: `Lifecycle.GuestsAfterClose`.

## Model

| member | source | states |
|---|---|---|
| `Wire.PackRoundTrip` | internal/protocol/protocol.go:144-151 | status and length survive the packed word, and every word is a packed one |
| `Wire.LittleEndianBijective` | internal/protocol/protocol.go:275-280 | a four-byte length prefix and its number determine each other |
| `Utf8.ValidConcat` | cmd/sonnetbox-guest/main_wasm.go:484-493 | valid text can be cut off the front of a string without changing whether it is valid |
| `Utf8.CutAtBoundary` | cmd/sonnetbox-guest/main_wasm.go:484-493 | in valid text the part before a cut is valid exactly when the part behind it is |
| `Utf8.CharactersAreScalars` | cmd/sonnetbox-guest/main_wasm.go:484-493 | every character that validity is made of is the encoding of a Unicode scalar value |
| `Utf8.ScalarsAreCharacters` | cmd/sonnetbox-guest/main_wasm.go:484-493 | and every such encoding is one character |
| `Utf8.TrimLosesAtMostThree` | cmd/sonnetbox-guest/main_wasm.go:484-493 | cutting valid text at any limit loses at most three bytes more than the limit asks for |
| `Utf8.TruncateUtf8` | cmd/sonnetbox-guest/main_wasm.go:484-493 | the cut text is the longest valid start within the limit; a value within the limit is kept as it is |
| `Utf8.ValidUtf8Prefix` | engine.go:1601-1613 | the Go bound of a diagnostic: within the limit, and the longest valid start when the diagnostic is valid |
| `Utf8.Utf8Prefix` | rust/sonnetbox-wasmtime/src/lib.rs:1286-1293 | the Rust bound: the longest valid start of the repaired diagnostic within the capacity |
| `Utf8.BoundsAgree` | rust/sonnetbox-wasmtime/src/lib.rs:1286-1293 | on valid diagnostics the Go and the Rust bound are the same text |
| `Callbacks.LogKeepsSet` | engine.go:127-138 | logging a path keeps the list duplicate-free and equal, as a set, to the seen paths |
| `Callbacks.TotalsAreExact` | engine.go:744-756 | the wrapping and the saturating total test both agree with unbounded arithmetic; for Rust's, unless the limit is the largest 64-bit number |
| `Memory.RangeChecksAgree` | rust/sonnetbox-wasmtime/src/lib.rs:1055-1089 | the signed and the unsigned range check accept the same words for all pointers and lengths if and only if memory has at most 2 GiB; an accepted range is nonempty and inside memory |
| `Memory.OverwriteFrame` | engine.go:1586-1599 | writing a response changes its own range only and reads back |
| `Memory.WriteHostResponse` | engine.go:1586-1599 | memory becomes the old memory with the bounded payload in the response buffer, the word tells status and length; an oversized success writes nothing |
| `GoHost.Invocation.RecordResolved` | engine.go:127-138 | a path enters list and set once |
| `GoHost.Invocation.RecordError` | engine.go:1615-1621 | the first error sticks |
| `GoHost.Invocation.CountImport` | engine.go:682-694 | the first critical section counts a call exactly when the budget is not spent |
| `GoHost.Invocation.ChargeImport` | engine.go:744-756 | the second critical section, with 64-bit wrap-around, charges exactly when the true total is within its limit |
| `GoHost.Invocation.ResolveImport` | engine.go:637-783 | the import callback has the effect `GoHost.Import` gives it on counters, log, status, payload and error; a handler's panic leaves only the counted call behind |
| `GoHost.Invocation.CallCapability` | engine.go:785-870 | the same for the capability callback |
| `GoHost.Invocation.HostCall` | engine.go:565-635 | with both buffers in range the new state, the packed word and the whole guest memory are those of one protocol step; with a bad buffer only an ABI violation is recorded |
| `RustHost.Invocation.ResolveImport` | rust/sonnetbox-wasmtime/src/lib.rs:804-943 | the Rust import callback has the effect `RustHost.Import` gives it; the path is logged before the response is encoded |
| `RustHost.Invocation.CallCapability` | rust/sonnetbox-wasmtime/src/lib.rs:945-1030 | the same for the Rust capability callback |
| `RustHost.Invocation.HostCall` | rust/sonnetbox-wasmtime/src/lib.rs:694-802 | the Rust host call, with its signed range checks and unwinding panics, is one protocol step on state, word and whole memory; with a bad range only the error of the first bad range is recorded |
| `Hosts.GuardsDecide` | engine.go:637-783 | what either host charges, logs and serves is decided by the request, the importer's answer and the limits; Rust's saturating sum is the true sum in every run |
| `Hosts.EncodingDecides` | engine.go:616-635 | every callback of either host: one that prepares a response gets the status, the error and the bytes of its encoding and its two size tests; any other gets the status and the error, with its numbers, of its one cause |
| `Hosts.OneCause` | engine.go:637-870 | a callback prepares no response for exactly one of sixteen causes, each given by tests on the request, the limits, the grants and the handler's reaction |
| `Hosts.GoCauseDecides` | engine.go:637-870 | in Go each cause has its status, its error and its diagnostic; a context that is done behind the handler's answer is told as canceled, whatever the answer was |
| `Hosts.RustCauseDecides` | rust/sonnetbox-wasmtime/src/lib.rs:804-1030 | the same in Rust, where expiry is looked at before the handler is asked and behind an answer that serves |
| `Hosts.FailuresAreWorded` | engine.go:624-635 | a failure brings the guest the words of its own error, bounded; Rust sends none for a panic and for a success that overflows the buffer |
| `Budgets.StepKeepsBudget` | engine.go:637-870 | no callback of either host takes a counter or the byte total past its limit, and the log stays duplicate-free and no longer than the number of counted imports |
| `Budgets.RunsKeepBudget` | engine.go:112-122 | over every run of callbacks in either host every budget holds, and the importer's content in all imports answered with success is within the total import limit |
| `Budgets.ServedBytesAreCharged` | engine.go:744-756 | the byte total accounts for all content that the guest received in a run, in either host |
| `Budgets.GoLosesByOverflow` | engine.go:624-632 | Go logs a path without serving it exactly when the success overflows the guest's buffer |
| `Budgets.LogIsServiceExactly` | engine.go:771-781 | in either host the log is, after every call, the first occurrences of the paths served so far, if and only if every path logged without being served had been served before |
| `Budgets.LogIsFirstOccurrences` | engine.go:112-150 | with buffers as large as the response limit (and, in Rust, answers that encode within it) the resolution list of a run is the served paths, each once, in the order of first service |
| `Budgets.UnservedPathIsLogged` | engine.go:624-632 | a contact with both buffers in order that logs a path and does not serve it, in either host |
| `Budgets.LateServiceHidesTheLoss` | engine.go:624-632 | two such calls whose log and service agree again at the end |
| `Sections.SchedulesKeepBudget` | engine.go:682-694 | in every interleaving of the separately locked sections of overlapping callbacks the budgets hold, the content of logged imports is within the total import limit, and the log lists them by first occurrence |
| `Sections.CallIsASchedule` | engine.go:637-783 | a whole callback is one such sequence of sections, with the same final state |
| `Lockstep.BadBuffersAgree` | rust/sonnetbox-wasmtime/src/lib.rs:1037-1089 | both hosts reject the same buffers with the same reply, and record the same error if and only if the first range that Rust rejects is not well placed and over its limit |
| `Lockstep.BadBuffersAreRecorded` | rust/sonnetbox-wasmtime/src/lib.rs:1037-1089 | what a bad buffer records: an ABI violation in Go, and in Rust a limit with its numbers when the first range it rejects is over-long |
| `Lockstep.HostsRunInLockstep` | rust/sonnetbox-wasmtime/src/lib.rs:694-1030 | with equal limits and grants, whatever the encoders, every run of guest calls leaves both hosts with the same counters; the guest is told the same (statuses, sizes or bytes) if and only if in no call expiry or the two encodings show; the first error, with its numbers, is the same all along if and only if up to it no call's error differs |
| `Lockstep.EqualEncodingsDoNotShow` | rust/sonnetbox-wasmtime/src/lib.rs:918-941 | where a response has one encoding, only expiry shows |
| `Lockstep.GoLogsNoMore` | rust/sonnetbox-wasmtime/src/lib.rs:914-941 | in every run, what Go logged, Rust logged |
| `Lockstep.LogsAgreeExactly` | rust/sonnetbox-wasmtime/src/lib.rs:914-941 | the two logs are the same list after every contact of a run, bad buffers included, if and only if every path that Go charged and then refused was in the log already |
| `Lockstep.VainIsAcceptedAndRefused` | engine.go:744-780 | an import is charged in vain, by the guards of its request and answer, exactly when its effect shows content accepted and no success |
| `Lockstep.LogsAgreeWhenAnswersFit` | rust/sonnetbox-wasmtime/src/lib.rs:914-941 | when every content that one import may have encodes within the response limit, the logs always agree |
| `Bridge.KeyIsInjective` | cmd/sonnetbox-guest/main_wasm.go:341-346 | the joined cache key determines importing file and import path as long as importing paths hold no NUL |
| `Bridge.KeysCollideOnNul` | cmd/sonnetbox-guest/main_wasm.go:341-346 | without that, two requests share a key |
| `Bridge.HostBridge.CallHost` | cmd/sonnetbox-guest/main_wasm.go:405-441 | a request is sent exactly when it is nonempty and within the limit; otherwise the local limit is noted; the response is split by status after its length was checked |
| `Bridge.HostBridge.ImportFile` | cmd/sonnetbox-guest/main_wasm.go:341-376 | the import, its caches and its sticky status follow the step function, and the host is called exactly for an uncached, sendable request |
| `Bridge.HostBridge.CallCapability` | cmd/sonnetbox-guest/main_wasm.go:378-403 | a capability call follows the step function and leaves the caches alone |
| `Bridge.ResponsesAreRead` | cmd/sonnetbox-guest/main_wasm.go:416-441 | an impossible length is malformed, a failure carries the host's status and message, and a success its body |
| `Bridge.CachesExactly` | cmd/sonnetbox-guest/main_wasm.go:341-376 | every result is cached for its pair unless the request could not be encoded, and the first content decoded for a path stays |
| `Bridge.OnePathOneContent` | cmd/sonnetbox-guest/main_wasm.go:341-376 | for any host at all, two successful imports of a run found at one path carry one content |
| `Bridge.CallsAreFresh` | cmd/sonnetbox-guest/main_wasm.go:341-376 | no run calls the host twice for one pair of importing file and import path |
| `Bridge.CachesAreTransparent` | cmd/sonnetbox-guest/main_wasm.go:341-376 | for a host that answers as a function with one content per path, every sequence of cached imports returns what uncached imports would |
| `Coupling.MessageRoundTrip` | engine.go:574-635 | in either host a call changes guest memory inside the response buffer only; the guest recovers the payload of a success, and of a valid diagnostic its longest valid start that fits, the diagnostic of an overflowing success included (Rust sends none) |
| `Coupling.ContactIsCall` | engine.go:574-615 | either host acts on the request that the guest placed in its memory |
| `Coupling.RunsStayCoupled` | cmd/sonnetbox-guest/main_wasm.go:331-441 | over every run of imports and capability calls against either host, with any codecs, the guest's status is failed if and only if the host recorded an error, a request was too large, or a success could not be decoded |
| `Coupling.RepliesAreRemembered` | cmd/sonnetbox-guest/main_wasm.go:341-403 | the sticky status becomes that of a failing reply, or malformed for a success that cannot be decoded, and otherwise stays |
| `Coupling.UnsentIsALimit` | cmd/sonnetbox-guest/main_wasm.go:405-415 | a request of a forbidden size is noted with the limit and its size; one that is cached or cannot be encoded leaves nothing behind |
| `Coupling.ValueIsDecoded` | cmd/sonnetbox-guest/main_wasm.go:378-403 | with either host a capability call yields what the guest decodes from the encoding of the handler's value, when the host delivers that, and nothing otherwise |
| `Coupling.ValuesReturn` | cmd/sonnetbox-guest/main_wasm.go:378-403 | over every run against either host, each capability call whose value survives the codecs gives exactly the value its handler returned when the host delivers it, and nothing otherwise |
| `Coupling.ImportIsDecoded` | cmd/sonnetbox-guest/main_wasm.go:341-376 | with either host an import yields the cached result, or the reason it was not sent, or the host's status and diagnostic, or the decoded path with the content first found there |
| `Coupling.UnclassifiedExactly` | engine.go:471-473 | with either host a failure is reported as an unclassified host error if and only if a success could not be decoded while no request was too large and the host recorded no error; without a local limit the host's own first error is returned exactly when there is one |
| `Coupling.UnclassifiedIsUnreachable` | engine.go:471-473 | it is never reported when the guest can decode all answers |
| `Coupling.UnclassifiedIsReachable` | cmd/sonnetbox-guest/main_wasm.go:378-403 | a run of one capability call, whose value the guest cannot decode, that ends in an unclassified host error |
| `Coupling.BridgeBuffersAreInRange` | cmd/sonnetbox-guest/main_wasm.go:405-441 | what the bridge sends from its own buffers passes both range checks of either host |
| `Paths.CanonicalIffCleanAndNormal` | importer.go:424-437 | canonical paths are the fixed points of Clean without empty, dot and dot-dot segments |
| `Paths.ValidatorsAgree` | rust/sonnetbox-wasmtime/src/lib.rs:1301-1337 | the Go and the Rust validators accept the same text |
| `Paths.CleanRefinesStack` | importer.go:387-396 | lexical cleaning of a joined path and the push/pop stack agree segment by segment, and a path that cleaning lets escape is one the stack refuses |
| `Paths.ResolutionsAgree` | importer.go:357-396 | Go's resolution succeeds exactly when the stack stays below the root, with the walked path, a canonical fixed point of Clean |
| `Paths.RustResolve` | rust/sonnetbox-wasmtime/src/lib.rs:1339-1369 | the Rust loop returns what Go's join, clean and reject returns, for all paths |
| `Paths.VolumeOnlyRejects` | importer.go:418-420 | a platform's volume test changes resolution by rejecting exactly the cases where an input or the result carries a volume name |
| `Paths.VolumesAgreeExactly` | importer.go:418-420 | two platforms agree on an import if and only if it does not resolve anyway, or both or neither see a volume in it |
| `Paths.VolumesCanDiffer` | rust/sonnetbox-wasmtime/src/lib.rs:1314-1318 | an import that a platform without volume names resolves and Rust's test refuses |
| `Workspace.NothingBelowMissing` | importer.go:233-246 | in a closed file system nothing exists below a missing entry |
| `Workspace.Config.WithLibraryPaths` | importer.go:78-100 | all paths are declared, in order, exactly when all are virtual paths |
| `Workspace.Config.WithSearchRoot` | importer.go:106-125 | a mount is declared exactly when it is a single valid segment with a host path and a fresh name; mount names stay distinct |
| `Workspace.Importer.AddSearchPath` | importer.go:209-246 | a declaration adds one search place, and a mount only when its name is free in the workspace root and its directory opens; a refused one changes nothing |
| `Workspace.Importer.AddAll` | importer.go:172-205 | construction succeeds exactly when every mount is free and opens, and gives a well-formed importer that searches the declarations in order |
| `Workspace.Importer.ImportFile` | importer.go:265-304 | the import loop returns the first candidate that exists among those whose virtual path was not tried before, or nothing once a check of its context fails |
| `Workspace.ImportOutlivesContext` | importer.go:273-301 | cancellation changes no answer: an import has it exactly if its context outlives the reads that fail |
| `Workspace.Importer.CollectCandidates` | importer.go:309-324 | the candidates are those of the owner's directory and then of the search places, last declared first |
| `Workspace.OwnerThenSearches` | importer.go:309-324 | the list of candidates, one search location at a time |
| `Workspace.Importer.LocateOwner` | importer.go:329-339 | the first mount that prefixes the importing path owns it, else the workspace root |
| `WorkspaceSearch.RootedImportMoves` | importer.go:341-355 | an import that resolves at a root resolves below any directory to the same relative path |
| `WorkspacePrecedence.OwnerExactly` | importer.go:329-339 | the entry file belongs to the workspace root, a path under a mount to that mount with its directory inside, any other path to the workspace root |
| `WorkspacePrecedence.ImportPrecedence` | importer.go:265-324 | an acceptable import gives what the first place has that neither misses it nor repeats an earlier virtual path: the owner's directory, then the search locations backwards; it is denied if there is none, and any other import is denied |
| `WorkspacePrecedence.OwnDirectoryWins` | importer.go:306-324 | the importing file's own directory wins whenever it has the file |
| `WorkspacePrecedence.LaterSearchesComeFirst` | importer.go:306-324 | without shadowed mounts a search location is served from if and only if it has the file and the own directory and all search locations declared later miss it; the import is denied if and only if all miss it |
| `WorkspaceSearch.DedupIsTransparent` | importer.go:285-304 | with no library path declared behind an equal mount name, skipping repeated virtual paths never changes the answer, for any file systems and any import |
| `WorkspaceSearch.ShadowLosesAFile` | importer.go:285-304 | with such a declaration there are file systems where the importer denies an import that the precedence order finds |
| `WorkspaceSearch.DedupIsExact` | importer.go:285-304 | on platforms without volume names the skipping is harmless for all file systems and imports if and only if no library path is declared behind an equal mount name |
| `WorkspaceCanonical.CanonicalIsLocated` | importer.go:329-339 | the canonical name of a granted file is owned by its grant, with the file's directory as the place to search |
| `WorkspaceCanonical.CanonicalIsFaithful` | importer.go:136-141 | importing a served file's base name from its own canonical path serves the same file again, exactly when neither name looks like a volume |
| `WorkspaceCanonical.ServedContentIsStable` | importer.go:265-304 | one canonical path is served with one content, from wherever it is imported |
| `WorkspaceRun.FoundIsVirtual` | engine.go:728-735 | in every run against the Go host, each import that succeeds is found at a virtual path, whatever the importer does |
| `WorkspaceRun.CachedWorkspaceImports` | cmd/sonnetbox-guest/main_wasm.go:341-376 | in a run of imports and capability calls through the guest's caches, the Go host and the workspace importer each import returns what the importer itself answers, or an error exactly when that cannot be delivered, up to the first import that a spent budget refuses, which gets an error |
| `WorkspaceRun.AffordableWorkspaceImports` | engine.go:682-756 | when the number of imports and the sum of their contents fit the budgets, none is refused |
| `Framing.FramesUnique` | internal/protocol/protocol.go:267-291 | frames can be read in one way only |
| `Framing.DecodeStreamOutput` | internal/protocol/protocol.go:244-265 | the Go decoder accepts exactly the payloads that encode a sequence and returns it; its early count test rejects nothing else |
| `Framing.RustDecodeStream` | rust/sonnetbox-wasmtime/src/protocol.rs:174-184 | the Rust decoder, which has no such test, computes the same |
| `Framing.DecodeMultiOutput` | internal/protocol/protocol.go:195-226 | the Go decoder accepts exactly the payloads that encode entries with distinct names, and returns their map |
| `Framing.RustDecodeMulti` | rust/sonnetbox-wasmtime/src/protocol.rs:157-172 | the Rust decoder differs only in refusing names that are not UTF-8 |
| `Framing.EncodeStreamOutput` | internal/protocol/protocol.go:228-242 | encoding succeeds exactly for 32-bit sizes, and decoding the payload gives the documents back |
| `Framing.StreamRoundTrip` | internal/protocol/protocol.go:228-265 | re-encoding an accepted stream payload gives the same bytes |
| `Framing.SortedKeys` | internal/protocol/protocol.go:170-176 | the names are the keys of the map in strictly increasing order |
| `Framing.LessExactly` | internal/protocol/protocol.go:174-178 | the order of names is decided at the first difference, and a proper start comes first |
| `Framing.EncodeMultiOutput` | internal/protocol/protocol.go:170-193 | encoding succeeds exactly for 32-bit sizes, and the payload holds the map's entries in sorted order |
| `Framing.MultiRoundTrip` | internal/protocol/protocol.go:170-226 | decoding an encoded map gives it back; re-encoding an accepted payload gives the same bytes if and only if its names were sorted |
| `GuestErrors.EncodingIsMonotone` | cmd/sonnetbox-guest/main_wasm.go:447-482 | truncating a message later never makes its report shorter, whatever the message |
| `GuestErrors.GuestOutput.SetGuestError` | cmd/sonnetbox-guest/main_wasm.go:447-482 | for every message and limit the search ends with the whole report, or the report of the longest valid start that fits, or the fallback when none does |
| `GuestErrors.BoundedIsUnique` | cmd/sonnetbox-guest/main_wasm.go:447-482 | this requirement leaves one report |
| `GuestErrors.ReportIsShort` | cmd/sonnetbox-guest/main_wasm.go:474-482 | for every limit of at least 60 bytes the report is within it |
| `Results.BoundedWriter.Write` | cmd/sonnetbox-guest/main_wasm.go:308-323 | a write keeps the data the longest start of all that was written, and the flag telling whether more was |
| `Results.CaptureTrace` | cmd/sonnetbox-guest/main_wasm.go:308-323 | the same over any sequence of writes |
| `Results.ExportsReadBack` | engine.go:1530-1552 | the host reads exactly what the guest exports, or finds it over the limit; its pointer checks never fail |
| `Results.ReadsExactly` | engine.go:1530-1584 | the host accepts exactly a nonempty range inside memory within the limit, or an empty result without a pointer, and a trace only with a flag of zero or one |
| `Results.TraceReadsBack` | engine.go:1554-1584 | whatever is written, the host's trace read succeeds and returns the longest start the limit allows, with the flag set exactly when more was written |
| `Results.DecodeInvertsEncode` | engine.go:1383-1402 | in each output mode either host decodes the product that the guest encoded, Rust if its file names are text |
| `Results.DecodeOutput` | engine.go:1383-1402 | either host's choice of decoder by output mode |
| `Results.EncodeOutput` | cmd/sonnetbox-guest/main_wasm.go:203-265 | the guest's choice of encoder by output mode, which fails for 32-bit sizes only |
| `Results.FinishEvaluation` | cmd/sonnetbox-guest/main_wasm.go:173-201 | the end of the guest's evaluate: status by local limit, sticky status and output size, and the output or the bounded report of exactly that failure's kind, message, limit and size |
| `Results.EvaluationsReturn` | engine.go:432-512 | in either host, from the evaluator's callbacks to the caller: a product within the limit is returned as it is, and a failure as the host's first error or as the guest's report of that failure's kind and message; an unclassified host error exactly when a success could not be decoded and nothing else went wrong; the guest's buffers and reports are never at fault |
| `Identifiers.StarOfClass` | engine.go:34 | a repeated class matches exactly the strings made of its bytes |
| `Identifiers.IdentifierBytes` | engine.go:34 | the language of the host's regular expression, byte by byte |
| `Identifiers.IsIdentifier` | cmd/sonnetbox-guest/main_wasm.go:495-515 | the guest's loop decides that language |
| `Identifiers.RustAgrees` | rust/sonnetbox-wasmtime/src/lib.rs:1295-1299 | so does the Rust host's walk over characters |
| `EngineConfigs.NormalizeConfigExact` | engine.go:976-1113 | a configuration is accepted exactly when filling its zeros with defaults leaves every field positive and within its ceiling, memory in whole pages and responses of at least 256 bytes; that is then the result |
| `EngineConfigs.ConfigRejections` | engine.go:976-1113 | a rejected configuration is at fault in the field that the rejection names |
| `EngineConfigs.DefaultsAndCeilings` | engine.go:36-68 | what an engine gets that asks for nothing, and the most it can ask for |
| `EngineConfigs.NormalizeConfigIsIdempotent` | engine.go:976-1113 | normalizing twice changes nothing |
| `EngineConfigs.NormalizeRequestLimitsExact` | engine.go:1115-1222 | a request inherits its zeros and is accepted exactly when it otherwise narrows the engine's limits |
| `EngineConfigs.RequestRejections` | engine.go:1115-1222 | rejected limits are at fault in the field that the rejection names |
| `EngineConfigs.NormalizeRequestLimitsIsIdempotent` | engine.go:1115-1222 | the same once more changes nothing |
| `Requests.ValidateCapability` | engine.go:1407-1437 | a declaration is accepted exactly when it has a text name, a handler and distinct identifiers as parameters |
| `Requests.AcceptParams` | cmd/sonnetbox-guest/main_wasm.go:144-163 | the guest's loop accepts the same parameter lists |
| `Requests.WireIsText` | engine.go:1279-1381 | every string of a prepared request is valid UTF-8 |
| `Requests.PreparedIsEvaluated` | cmd/sonnetbox-guest/main_wasm.go:53-115 | whatever the host prepares under a normalized configuration, the guest allocates, decodes to the same request and lets through all its checks |
| `Requests.GuestEvaluatesWhatWasAsked` | engine.go:1333-1366 | field by field, the request that the guest evaluates is the caller's: source, the four text maps, parameters, flags, modes and limits as inherited, and the file name as given or by default |
| `Requests.HostKeepsWhatWasAsked` | engine.go:1313-1380 | the host keeps the caller's request with those limits, each callback budget from its own field |
| `Requests.RejectionsAreFaults` | engine.go:1284-1380 | a request is rejected for a fault that it has, and accepted only without any |
| `Requests.EmptyNameIsDefault` | engine.go:1284-1286 | a request without a file name is prepared as one with the default name |
| `Requests.DefaultFilenameIsVirtual` | engine.go:1284-1289 | the default name is acceptable wherever it names no volume |
| `Requests.GuestReadsExactly` | cmd/sonnetbox-guest/main_wasm.go:53-163 | the guest allocates and evaluates exactly the requests that pass its tests, each stated with its bounds |
| `Requests.PrepareIsIdempotent` | engine.go:1279-1381 | preparing a prepared request again gives the same request and the same bytes |
| `Requests.LimitsServeTheCallbacks` | engine.go:53-68 | prepared limits meet what the callback theorems need, and every bounded report fits what the host reads |
| `Gates.Gate.Acquire` | rust/sonnetbox-wasmtime/src/lib.rs:1386-1406 | the loop waits through exactly the passes that find the gate full in time, and its last pass decides the outcome and the counter |
| `Gates.Gate.Drop` | rust/sonnetbox-wasmtime/src/lib.rs:1413-1418 | dropping a permit leaves the counter where the machine's release step does, and never underflows |
| `Gates.StepCounts` | rust/sonnetbox-wasmtime/src/lib.rs:1377-1419 | how each step of the machine moves threads between its phases |
| `Gates.RunsKeepSlots` | rust/sonnetbox-wasmtime/src/lib.rs:1377-1419 | in every interleaving the counter is the number of live permits within the maximum, and while a thread sleeps, free slots never outnumber woken threads |
| `Gates.CounterNeverUnderflows` | rust/sonnetbox-wasmtime/src/lib.rs:1413-1418 | dropping a permit always finds a positive counter |
| `Gates.CanceledOnlyWhenFull` | rust/sonnetbox-wasmtime/src/lib.rs:1386-1406 | a pass gives up if and only if all slots are held by live permits and its deadline or its wait is over |
| `Gates.FreeSlotIsTaken` | rust/sonnetbox-wasmtime/src/lib.rs:1386-1406 | while a thread sleeps beside a free slot, some woken thread takes a slot with its next pass, whatever its wait reports |
| `Gates.OwnRunsAreBounded` | rust/sonnetbox-wasmtime/src/lib.rs:1377-1419 | without arrivals and timeouts every schedule ends |
| `Gates.GateDrains` | rust/sonnetbox-wasmtime/src/lib.rs:1377-1419 | from every reachable state that end is reached with every thread gone: nobody is forgotten |
| `Lifecycle.Engine.AcquireSlot` | engine.go:515-522 | the select blocks exactly when the gate is full and the context is not done, and otherwise takes a slot or gives up |
| `Lifecycle.Engine.ReleaseSlot` | engine.go:524-526 | releasing takes one slot back |
| `Lifecycle.Engine.Close` | engine.go:530-543 | after Close the engine is closed, and the runtime was closed by this call exactly if the engine was open before |
| `Lifecycle.EngineStaysBounded` | engine.go:363-391 | in every interleaving the gate holds one slot for each evaluation between acquire and release, guests never outnumber the maximum, and the runtime is closed at most once |
| `Lifecycle.ClosedNeverInstantiates` | engine.go:384-401 | an evaluation whose second check follows any call of Close instantiates no guest in the whole run |
| `Lifecycle.StepsAreEarned` | engine.go:360-402 | every step of a run is preceded by those that entitle to it: preparation by a first check of an open engine, acquiring by a preparation with success, instantiation by a second check of an open engine, return and release by what they end |
| `Lifecycle.InstantiateMayFollowClose` | engine.go:384-401 | a run where Close strikes between the second check and the start of a guest |
| `Lifecycle.GuestsAfterClose` | engine.go:384-401 | once the engine is closed, a run can still attempt to instantiate an evaluation's guest if and only if the evaluation is past its second check and has not tried, and can start one if and only if the runtime is open as well |
| `Lifecycle.SlotsAreReturnedOnce` | engine.go:378-388 | an evaluation acquires at most once, and what it acquired it has released exactly once as soon as it holds no slot |
| `Lifecycle.EvaluationsAreShort` | engine.go:342-512 | an evaluation passes at most eight steps |
| `Lifecycle.DrainedGateIsEmpty` | engine.go:342-526 | when no evaluation can go on without a cancellation, all are over and the gate is empty |

## Left out

- The WebAssembly runtimes, WASI, fuel, the epoch ticker, module validation and the compilation cache.
- The Jsonnet evaluator: it is an arbitrary caller of the bridge with an arbitrary outcome.
- Real files, symbolic links and `os.Root`: the file systems are frozen maps.
- Error texts, observers, statistics and the string matching of `runtimeError`.
- The command line, the examples, the compatibility package and the Rust configuration's field checks.
- `MapImporter` and the Rust request preparation: they would repeat members that are here.
- Workspace.Importer.AddSearchPath: does not model a `Stat` that fails with an error other than "does not exist"; like an existing entry it refuses the mount.
- WorkspaceSearch.DedupIsExact: is stated for platforms without volume names; `WorkspaceSearch.DedupIsTransparent`, its useful half, holds for every volume test.
- Lockstep.HostsRunInLockstep: is stated for guest memory of at most 2 GiB, twice the hard ceiling, for requests that both hosts decode alike (as they do what the guest encodes), and for a clock on which a deadline stays passed.
- WorkspaceRun.CachedWorkspaceImports: is stated for the Go host and for imports that do not expire.
- RustHost.Invocation.HostCall: does not model a guest without an exported memory, nor a write that fails inside a checked range.
- GoHost.Invocation.HostCall: does not model a call outside an evaluation, which has no invocation to record in.
- Framing.RustDecodeStream: does not model that the Rust decoder reserves room for the announced number of documents before it reads them.
- Bridge.CachesAreTransparent: is about imports alone; capability calls leave the caches as they are, which `Bridge.HostBridge.CallCapability` states.
- GuestErrors.GuestOutput.SetGuestError: does not model a JSON encoder that fails, which strings and numbers never make it do.
- Results.FinishEvaluation: takes the texts of messages as parameters, and does not model a guest that panics.
- Requests.PreparedIsEvaluated: does not model `withDefaults`, which only adds the engine's importer and capabilities before the request is prepared, nor which of several faults in a map is reported first.
- Lifecycle.Engine.AcquireSlot: stands for a select whose choice between two ready arms is a parameter.
- Gates.Gate.Acquire: takes the lock for granted; a poisoned lock is not modelled.
