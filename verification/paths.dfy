/** Virtual paths. The Go host joins and cleans lexically and then rejects what escaped; the Rust
    host pushes and pops segments. Both are related to one another here. */
module Paths {
  import opened Wire
  import Utf8

  type Path = Bytes

  const NUL: Byte := 0x00
  const DOT: Byte := 0x2E
  const SLASH: Byte := 0x2F
  const COLON: Byte := 0x3A
  const BACKSLASH: Byte := 0x5C
  const DOTDOT: Bytes := [DOT, DOT]

  // ---------------------------------------------------------------- segments

  function FirstSlash(s: Bytes): (i: nat)
    ensures i <= |s| && SLASH !in s[..i]
    ensures i < |s| ==> s[i] == SLASH
  {
    if s == [] || s[0] == SLASH then 0 else 1 + FirstSlash(s[1..])
  }

  function Split(s: Bytes): (parts: seq<Bytes>)
    ensures parts != []
    decreases |s|
  {
    var i := FirstSlash(s);
    if i == |s| then [s] else [s[..i]] + Split(s[i + 1..])
  }

  function Join(parts: seq<Bytes>): Bytes
    requires parts != []
  {
    if |parts| == 1 then parts[0] else parts[0] + [SLASH] + Join(parts[1..])
  }

  lemma FirstSlashAt(a: Bytes, b: Bytes)
    requires SLASH !in a
    ensures FirstSlash(a + [SLASH] + b) == |a|
    ensures FirstSlash(a) == |a|
  {
    var s := a + [SLASH] + b;
    var i := FirstSlash(s);
    assert s[|a|] == SLASH && s[..|a|] == a;
    assert forall k :: 0 <= k < i ==> s[k] in s[..i];
  }

  lemma SplitAt(a: Bytes, b: Bytes)
    requires SLASH !in a
    ensures Split(a + [SLASH] + b) == [a] + Split(b)
    ensures Split(a) == [a]
  {
    FirstSlashAt(a, b);
    var s := a + [SLASH] + b;
    assert s[..|a|] == a && s[|a| + 1..] == b;
  }

  lemma {:induction false} SplitConcat(a: Bytes, b: Bytes)
    ensures Split(a + [SLASH] + b) == Split(a) + Split(b)
    decreases |a|
  {
    hide *;
    if SLASH !in a {
      SplitAt(a, b);
    } else {
      var i := FirstSlash(a);
      assert i < |a| by {
        assert a[..|a|] == a;
      }
      var head, rest := a[..i], a[i + 1..];
      var tail := rest + [SLASH] + b;
      assert a == head + [SLASH] + rest;
      assert a + [SLASH] + b == head + [SLASH] + tail;
      SplitAt(head, rest);
      SplitAt(head, tail);
      SplitConcat(rest, b);
      assert [head] + (Split(rest) + Split(b)) == [head] + Split(rest) + Split(b);
    }
  }

  lemma {:induction false} JoinSplit(s: Bytes)
    ensures Join(Split(s)) == s
    decreases |s|
  {
    hide FirstSlash;
    var i := FirstSlash(s);
    if i < |s| {
      var rest := s[i + 1..];
      JoinSplit(rest);
      var parts := Split(s);
      assert parts[0] == s[..i] && parts[1..] == Split(rest);
      assert s == s[..i] + [SLASH] + rest;
    }
  }

  lemma {:induction false} SplitJoin(parts: seq<Bytes>)
    requires parts != [] && forall part <- parts :: SLASH !in part
    ensures Split(Join(parts)) == parts
  {
    var head := parts[0];
    FirstSlashAt(head, []);
    assert Split(head) == [head];
    if |parts| > 1 {
      SplitJoin(parts[1..]);
      SplitConcat(head, Join(parts[1..]));
    }
  }

  lemma {:induction false} SplitHasNoSlash(s: Bytes)
    ensures forall part <- Split(s) :: SLASH !in part
    decreases |s|
  {
    hide FirstSlash;
    var i := FirstSlash(s);
    if i == |s| {
      assert s[..i] == s;
    } else {
      SplitHasNoSlash(s[i + 1..]);
    }
  }

  // ---------------------------------------------------------------- lexical cleaning

  predicate Normal(part: Bytes) {
    part != [] && part != [DOT] && part != DOTDOT
  }

  predicate AllNormal(parts: seq<Bytes>) {
    forall part <- parts :: Normal(part)
  }

  /** One segment under the rules of path.Clean: drop empty and dot segments; let a dot-dot take
      back a named segment, vanish at a root, or stay in front of a relative path. */
  function CleanStep(rooted: bool, stack: seq<Bytes>, part: Bytes): seq<Bytes> {
    if part == [] || part == [DOT] then stack
    else if part != DOTDOT then stack + [part]
    else if stack != [] && stack[|stack| - 1] != DOTDOT then stack[..|stack| - 1]
    else if rooted then stack
    else stack + [part]
  }

  function CleanFold(rooted: bool, stack: seq<Bytes>, parts: seq<Bytes>): seq<Bytes>
    decreases |parts|
  {
    if parts == [] then stack else CleanFold(rooted, CleanStep(rooted, stack, parts[0]), parts[1..])
  }

  function Clean(s: Bytes): Bytes {
    var rooted := s != [] && s[0] == SLASH;
    var stack := CleanFold(rooted, [], Split(s));
    if rooted then [SLASH] + (if stack == [] then [] else Join(stack))
    else if stack == [] then [DOT]
    else Join(stack)
  }

  /** path.Join of two elements. */
  function PathJoin(a: Bytes, b: Bytes): Bytes {
    if a == [] then (if b == [] then [] else Clean(b)) else Clean(a + [SLASH] + b)
  }

  /** Everything up to and including the last slash. */
  function DirPart(s: Bytes): (d: Bytes)
    ensures d <= s && SLASH !in s[|d|..]
    ensures d != [] ==> d[|d| - 1] == SLASH
  {
    if s == [] || s[|s| - 1] == SLASH then s else DirPart(s[..|s| - 1])
  }

  /** The directory holding name, empty at the root. */
  function VirtualDirectory(name: Path): Path {
    if name == [] then [] else
      var directory := Clean(DirPart(name));
      if directory != [DOT] then directory else []
  }

  lemma {:induction false} CleanFoldConcat(rooted: bool, stack: seq<Bytes>, a: seq<Bytes>, b: seq<Bytes>)
    ensures CleanFold(rooted, stack, a + b) == CleanFold(rooted, CleanFold(rooted, stack, a), b)
    decreases |a|
  {
    if a == [] {
      assert a + b == b;
    } else {
      assert (a + b)[0] == a[0] && (a + b)[1..] == a[1..] + b;
      CleanFoldConcat(rooted, CleanStep(rooted, stack, a[0]), a[1..], b);
    }
  }

  lemma {:induction false} CleanFoldKeepsNormal(rooted: bool, stack: seq<Bytes>, parts: seq<Bytes>)
    requires AllNormal(parts)
    ensures CleanFold(rooted, stack, parts) == stack + parts
    decreases |parts|
  {
    if parts != [] {
      assert parts[0] in parts;
      CleanFoldKeepsNormal(rooted, stack + [parts[0]], parts[1..]);
      assert stack + parts == stack + [parts[0]] + parts[1..];
    }
  }

  /** The path begins with a dot-dot segment. */
  predicate Escapes(s: Path) {
    s == DOTDOT || DOTDOT + [SLASH] <= s
  }

  lemma EscapesWhenFirstSegmentDoes(s: Path)
    ensures Split(s)[0] == DOTDOT <==> Escapes(s)
  {
    var i := FirstSlash(s);
    if s == DOTDOT {
      FirstSlashAt(DOTDOT, []);
    } else if DOTDOT + [SLASH] <= s {
      assert s == DOTDOT + [SLASH] + s[3..];
      FirstSlashAt(DOTDOT, s[3..]);
    } else {
      assert i < |s| ==> s[..i + 1] == s[..i] + [SLASH];
    }
  }

  /** A path is canonical when none of its segments is empty, dot or dot-dot. */
  predicate Canonical(s: Path) {
    AllNormal(Split(s))
  }

  lemma CanonicalShape(s: Path)
    requires Canonical(s)
    ensures s != [] && s[0] != SLASH && s != [DOT] && !Escapes(s)
    ensures Clean(s) == s
  {
    var i := FirstSlash(s);
    assert Split(s)[0] == s[..i] && Split(s)[0] in Split(s);
    assert s[0] == s[..i][0];
    assert i == |s| ==> s[..i] == s;
    EscapesWhenFirstSegmentDoes(s);
    JoinSplit(s);
    CleanFoldKeepsNormal(false, [], Split(s));
    assert [] + Split(s) == Split(s);
  }

  /** Among paths that do not start at a slash, the fixed points of Clean without dot, dot-dot and
      empty segments are the canonical paths: the explicit segment test of the validators decides
      alone. */
  lemma CanonicalIffCleanAndNormal(s: Path)
    ensures Canonical(s) <==> (Clean(s) == s && AllNormal(Split(s)))
  {
    if Canonical(s) {
      CanonicalShape(s);
    }
  }

  // ---------------------------------------------------------------- validation

  /** Text that a path segment may hold. */
  predicate Text(s: Bytes) {
    Utf8.Valid(s) && NUL !in s && BACKSLASH !in s
  }

  /** Go: validateRelativeSlashPath. `volume` answers whether the platform sees a volume name. */
  predicate GoRelativePath(volume: Path -> bool, name: Path) {
    && name != []
    && Utf8.Valid(name)
    && NUL !in name
    && BACKSLASH !in name
    && name[0] != SLASH
    && !volume(name)
  }

  predicate GoVirtualPath(volume: Path -> bool, name: Path) {
    && GoRelativePath(volume, name)
    && Clean(name) == name
    && AllNormal(Split(name))
  }

  /** Rust: validate_import_path. A Rust string is UTF-8 already. */
  predicate RustImportPath(volume: Path -> bool, name: Path) {
    && name != []
    && NUL !in name
    && BACKSLASH !in name
    && name[0] != SLASH
    && !volume(name)
  }

  /** Rust: Path::components of a relative path drops empty and inner dot segments and keeps a
      leading dot and every dot-dot as components that are not Normal. */
  predicate OnlyNormalComponents(name: Path) {
    var parts := Split(name);
    parts[0] != [DOT] && forall part <- parts :: part != DOTDOT
  }

  predicate RustVirtualPath(volume: Path -> bool, name: Path) {
    && RustImportPath(volume, name)
    && OnlyNormalComponents(name)
    && AllNormal(Split(name))
  }

  function LetterColon(): Path -> bool {
    (name: Path) =>
      |name| >= 2 && name[1] == COLON && (0x41 <= name[0] <= 0x5A || 0x61 <= name[0] <= 0x7A)
  }

  function NoVolume(): Path -> bool {
    (name: Path) => false
  }

  lemma ValidatorsAgree(volume: Path -> bool, name: Path)
    requires Utf8.Valid(name)
    ensures GoVirtualPath(volume, name) <==> RustVirtualPath(volume, name)
    ensures GoRelativePath(volume, name) <==> RustImportPath(volume, name)
  {
    if AllNormal(Split(name)) {
      assert Split(name)[0] in Split(name);
      CanonicalShape(name);
    }
  }

  /** A one-letter file name for counterexamples. */
  const X: Path := [0x78]

  lemma XIsVirtual()
    ensures GoVirtualPath(NoVolume(), X) && GoRelativePath(NoVolume(), X)
    ensures RustVirtualPath(NoVolume(), X) && RustImportPath(NoVolume(), X)
  {
    SplitAt(X, []);
    assert X[1..] == [];
    hide Split, Clean;
    ValidatorsAgree(NoVolume(), X);
    CanonicalShape(X);
  }

  // ---------------------------------------------------------------- resolution

  function ResolveAgainst(volume: Path -> bool, directory: Path, importedPath: Path): Option<Path> {
    var canonical := Clean(PathJoin(directory, importedPath));
    if canonical == [DOT] || Escapes(canonical) then None
    else if !GoVirtualPath(volume, canonical) then None
    else Some(canonical)
  }

  /** Go: resolveVirtualImport. */
  function GoResolve(volume: Path -> bool, importedFrom: Path, importedPath: Path): Option<Path> {
    if importedFrom != [] && !GoVirtualPath(volume, importedFrom) then None
    else if !GoRelativePath(volume, importedPath) then None
    else ResolveAgainst(volume, VirtualDirectory(importedFrom), importedPath)
  }

  /** The push/pop machine: None once a dot-dot finds nothing to take back. */
  function StackFold(stack: seq<Bytes>, parts: seq<Bytes>): Option<seq<Bytes>>
    decreases |parts|
  {
    if parts == [] then Some(stack)
    else if parts[0] == [] || parts[0] == [DOT] then StackFold(stack, parts[1..])
    else if parts[0] != DOTDOT then StackFold(stack + [parts[0]], parts[1..])
    else if stack == [] then None
    else StackFold(stack[..|stack| - 1], parts[1..])
  }

  /** Both hosts compute this: walk from the importing file's directory and stay below the root. */
  function Walk(importedFrom: Path, importedPath: Path): Option<Path> {
    var directory := Split(importedFrom);
    match StackFold(directory[..|directory| - 1], Split(importedPath))
    case None => None
    case Some(stack) => if stack == [] then None else Some(Join(stack))
  }

  /** The Rust host's loop. */
  method RustResolve(volume: Path -> bool, importedFrom: Path, importedPath: Path)
    returns (r: Option<Path>)
    requires Utf8.Valid(importedFrom) && Utf8.Valid(importedPath)
    ensures r == GoResolve(volume, importedFrom, importedPath)
  {
    ValidatorsAgree(volume, importedFrom);
    ValidatorsAgree(volume, importedPath);
    hide GoVirtualPath, GoRelativePath, RustVirtualPath, RustImportPath, ResolveAgainst, Canonical, Clean, Split, Join;
    if importedFrom != [] && !RustVirtualPath(volume, importedFrom) {
      return None;
    }
    if !RustImportPath(volume, importedPath) {
      return None;
    }
    ResolutionsAgree(volume, importedFrom, importedPath);
    var parts := Split(importedFrom);
    parts := parts[..|parts| - 1];
    ghost var start := parts;
    var pieces := Split(importedPath);
    var i := 0;
    while i < |pieces|
      invariant 0 <= i <= |pieces|
      invariant StackFold(parts, pieces[i..]) == StackFold(start, pieces)
    {
      var part := pieces[i];
      assert pieces[i..][1..] == pieces[i + 1..];
      if part == [] || part == [DOT] {
      } else if part == DOTDOT {
        if parts == [] {
          return None;
        }
        parts := parts[..|parts| - 1];
      } else {
        parts := parts + [part];
      }
      i := i + 1;
    }
    if parts == [] {
      return None;
    }
    var canonical := Join(parts);
    if !RustVirtualPath(volume, canonical) {
      return None;
    }
    return Some(canonical);
  }

  /** Once a dot-dot stands in front of a relative path it stays there. */
  lemma {:induction false} EscapeIsForever(stack: seq<Bytes>, parts: seq<Bytes>)
    requires stack != [] && stack[0] == DOTDOT
    ensures CleanFold(false, stack, parts) != [] && CleanFold(false, stack, parts)[0] == DOTDOT
    decreases |parts|
  {
    if parts != [] {
      EscapeIsForever(CleanStep(false, stack, parts[0]), parts[1..]);
    }
  }

  /** Cleaning and the stack machine agree until the machine fails, and then the cleaned path
      starts with a dot-dot. */
  lemma {:induction false} CleanRefinesStack(stack: seq<Bytes>, parts: seq<Bytes>)
    requires AllNormal(stack)
    ensures match StackFold(stack, parts)
            case Some(end) => AllNormal(end) && CleanFold(false, stack, parts) == end
            case None => CleanFold(false, stack, parts) != [] && CleanFold(false, stack, parts)[0] == DOTDOT
    decreases |parts|
  {
    if parts != [] {
      var part := parts[0];
      assert stack != [] ==> stack[|stack| - 1] in stack;
      if part == DOTDOT && stack == [] {
        assert stack + [part] == [DOTDOT];
        EscapeIsForever([DOTDOT], parts[1..]);
      } else {
        CleanRefinesStack(CleanStep(false, stack, part), parts[1..]);
      }
    }
  }

  /** Segments of text are text. */
  lemma {:induction false} SplitKeepsText(s: Bytes)
    requires Text(s)
    ensures forall part <- Split(s) :: Text(part)
    decreases |s|
  {
    hide FirstSlash;
    var i := FirstSlash(s);
    if i < |s| {
      assert s == s[..i] + s[i..] && s[i..][1..] == s[i + 1..];
      Utf8.CutBeforeAscii(s[..i], s[i..]);
      SplitKeepsText(s[i + 1..]);
    }
  }

  lemma {:induction false} JoinKeepsText(parts: seq<Bytes>)
    requires parts != [] && forall part <- parts :: Text(part)
    ensures Text(Join(parts))
  {
    assert parts[0] in parts;
    if |parts| > 1 {
      JoinKeepsText(parts[1..]);
      var rest := Join(parts[1..]);
      assert Utf8.Valid(parts[0]);
      assert ([SLASH] + rest)[1..] == rest && Utf8.CharLength([SLASH] + rest) == 1;
      Utf8.ValidConcat(parts[0], [SLASH] + rest);
      assert parts[0] + ([SLASH] + rest) == parts[0] + [SLASH] + rest;
    }
  }

  /** The machine makes up no segments. */
  lemma {:induction false} StackFoldElements(stack: seq<Bytes>, parts: seq<Bytes>)
    ensures StackFold(stack, parts).Some? ==>
              forall part <- StackFold(stack, parts).value :: part in stack || part in parts
    decreases |parts|
  {
    if parts != [] {
      var part := parts[0];
      var next :=
        if part == [] || part == [DOT] then stack
        else if part != DOTDOT then stack + [part]
        else if stack == [] then stack
        else stack[..|stack| - 1];
      StackFoldElements(next, parts[1..]);
    }
  }

  lemma DirectoryBelow(above: Path)
    requires Canonical(above)
    ensures Clean(above + [SLASH]) == above
  {
    var d := above + [SLASH];
    assert d == above + [SLASH] + [];
    SplitConcat(above, []);
    FirstSlashAt([], []);
    CanonicalShape(above);
    CleanFoldKeepsNormal(false, [], Split(above));
    assert [] + Split(above) == Split(above);
    CleanFoldConcat(false, [], Split(above), [[]]);
    var last: seq<Bytes> := [[]];
    assert last[1..] == [] && CleanFold(false, Split(above), last) == Split(above);
    JoinSplit(above);
  }

  /** The directory of a canonical path is the path without its last segment. */
  lemma DirectoryAbove(above: Path, base: Path)
    requires Canonical(above + [SLASH] + base) && Split(base) == [base]
    ensures Split(above + [SLASH] + base) == Split(above) + [base]
    ensures Clean(above + [SLASH]) == above != [DOT] && Join(Split(above)) == above
  {
    hide Join, FirstSlash, Clean, CleanFold, CleanStep, Escapes, Split;
    SplitConcat(above, base);
    assert Canonical(above) by {
      assert forall part <- Split(above) :: part in Split(above) + [base];
    }
    CanonicalShape(above);
    DirectoryBelow(above);
    JoinSplit(above);
  }

  lemma DirectoryOfCanonical(name: Path)
    requires Canonical(name)
    ensures var parts := Split(name);
            var above := parts[..|parts| - 1];
            && VirtualDirectory(name) == (if above == [] then [] else Join(above))
            && (above != [] ==> Split(VirtualDirectory(name)) == above)
            && parts[|parts| - 1] == name[|DirPart(name)|..]
  {
    hide Split, Join, FirstSlash, DirPart, Clean, CleanFold, CleanStep, Escapes;
    CanonicalShape(name);
    var d := DirPart(name);
    var base := name[|d|..];
    SplitAt(base, []);
    if d == [] {
      assert base == name;
      EmptyCleansToDot();
    } else {
      var above := d[..|d| - 1];
      assert d == above + [SLASH] && name == above + [SLASH] + base;
      DirectoryAbove(above, base);
    }
  }

  lemma EmptyCleansToDot()
    ensures Split([]) == [[]] && Clean([]) == [DOT]
  {
    FirstSlashAt([], []);
    var parts := Split([]);
    assert parts == [[]] && parts[1..] == [];
  }

  /** Joining a stack that leads with a dot-dot gives an escaping path, and cleaning never loses
      that dot-dot. */
  lemma CleanKeepsEscape(s: Path)
    requires s != [] && s[0] != SLASH
    requires CleanFold(false, [], Split(s)) != [] && CleanFold(false, [], Split(s))[0] == DOTDOT
    ensures Escapes(Clean(s)) && Escapes(Clean(Clean(s)))
  {
    var stack := CleanFold(false, [], Split(s));
    var c := Join(stack);
    assert Escapes(c) by {
      if |stack| > 1 {
        assert c == DOTDOT + [SLASH] + Join(stack[1..]);
      }
    }
    EscapesWhenFirstSegmentDoes(c);
    assert [] + [DOTDOT] == [DOTDOT];
    EscapeIsForever([DOTDOT], Split(c)[1..]);
    var again := CleanFold(false, [], Split(c));
    if |again| > 1 {
      assert Join(again) == DOTDOT + [SLASH] + Join(again[1..]);
    }
  }

  /** What joining a directory and an import path cleans to. */
  lemma JoinedStack(directory: Path, importedPath: Path)
    requires importedPath != [] && importedPath[0] != SLASH
    requires directory != [] ==> Canonical(directory)
    ensures var above := if directory == [] then [] else Split(directory);
            match StackFold(above, Split(importedPath))
            case Some(stack) =>
              && AllNormal(stack)
              && PathJoin(directory, importedPath) == if stack == [] then [DOT] else Join(stack)
            case None => Escapes(Clean(PathJoin(directory, importedPath)))
  {
    var above := if directory == [] then [] else Split(directory);
    var s := if directory == [] then importedPath else directory + [SLASH] + importedPath;
    if directory != [] {
      SplitConcat(directory, importedPath);
      CanonicalShape(directory);
      CleanFoldConcat(false, [], above, Split(importedPath));
      CleanFoldKeepsNormal(false, [], above);
      assert [] + above == above;
    }
    CleanRefinesStack(above, Split(importedPath));
    assert s[0] != SLASH && PathJoin(directory, importedPath) == Clean(s);
    if StackFold(above, Split(importedPath)).None? {
      CleanKeepsEscape(s);
    }
  }

  lemma DotIsItsOwnCleaning()
    ensures Clean([DOT]) == [DOT]
  {
    FirstSlashAt([DOT], []);
    var parts := Split([DOT]);
    assert parts == [[DOT]] && parts[1..] == [];
    assert CleanStep(false, [], parts[0]) == [];
    assert CleanFold(false, [], parts) == CleanFold(false, [], parts[1..]);
  }

  /** The Go and the Rust host resolve alike: both succeed exactly when the inputs are acceptable,
      the walk stays below the root and its end carries no volume name, and then both return the
      walked path, a canonical fixed point of Clean. */
  lemma ResolutionsAgree(volume: Path -> bool, importedFrom: Path, importedPath: Path)
    requires importedFrom != [] ==> GoVirtualPath(volume, importedFrom)
    requires GoRelativePath(volume, importedPath)
    ensures match Walk(importedFrom, importedPath)
            case None => GoResolve(volume, importedFrom, importedPath).None?
            case Some(c) =>
              && Canonical(c) && Clean(c) == c && Text(c)
              && (RustVirtualPath(volume, c) <==> !volume(c))
              && GoResolve(volume, importedFrom, importedPath) == if volume(c) then None else Some(c)
  {
    hide Split, Join, Clean, DirPart, CleanFold, StackFold;
    var directory := VirtualDirectory(importedFrom);
    var parts := Split(importedFrom);
    var above := parts[..|parts| - 1];
    EmptyCleansToDot();
    if importedFrom != [] {
      DirectoryOfCanonical(importedFrom);
      SplitKeepsText(importedFrom);
      SplitHasNoSlash(importedFrom);
      assert AllNormal(above);
    }
    assert above == [] <==> directory == [] by {
      assert above != [] ==> above[0] in above;
    }
    assert above == if directory == [] then [] else Split(directory);
    JoinedStack(directory, importedPath);
    SplitKeepsText(importedPath);
    SplitHasNoSlash(importedPath);
    StackFoldElements(above, Split(importedPath));
    DotIsItsOwnCleaning();
    match StackFold(above, Split(importedPath))
    case None =>
    case Some(stack) =>
      if stack != [] {
        var c := Join(stack);
        SplitJoin(stack);
        JoinKeepsText(stack);
        CanonicalShape(c);
        ValidatorsAgree(volume, c);
      }
  }

  /** Does the test see a volume in an input or in the walked path? */
  predicate SeesVolume(volume: Path -> bool, importedFrom: Path, importedPath: Path, walked: Path) {
    (importedFrom != [] && volume(importedFrom)) || volume(importedPath) || volume(walked)
  }

  /** A volume test can only reject: with one, resolution equals resolution without one, minus the
      cases where an input or the walked path carries a volume name. */
  lemma VolumeOnlyRejects(volume: Path -> bool, importedFrom: Path, importedPath: Path)
    ensures var plain := GoResolve(NoVolume(), importedFrom, importedPath);
            GoResolve(volume, importedFrom, importedPath) ==
              if plain.None? || SeesVolume(volume, importedFrom, importedPath, plain.value) then None else plain
  {
    if (importedFrom != [] ==> GoVirtualPath(NoVolume(), importedFrom)) && GoRelativePath(NoVolume(), importedPath) {
      ResolutionsAgree(NoVolume(), importedFrom, importedPath);
      if (importedFrom != [] ==> !volume(importedFrom)) && !volume(importedPath) {
        ResolutionsAgree(volume, importedFrom, importedPath);
      }
    }
  }

  /** Two hosts whose platforms see different volumes agree on an import exactly when no platform
      resolves it or both see a volume somewhere or neither does. */
  lemma VolumesAgreeExactly(volume: Path -> bool, other: Path -> bool, importedFrom: Path, importedPath: Path)
    ensures GoResolve(volume, importedFrom, importedPath) == GoResolve(other, importedFrom, importedPath)
       <==> match GoResolve(NoVolume(), importedFrom, importedPath)
            case None => true
            case Some(walked) =>
              SeesVolume(volume, importedFrom, importedPath, walked)
              <==> SeesVolume(other, importedFrom, importedPath, walked)
  {
    hide GoResolve;
    VolumeOnlyRejects(volume, importedFrom, importedPath);
    VolumeOnlyRejects(other, importedFrom, importedPath);
  }

  /** A case where they differ: "./c:x" reaches "c:x", which a platform without volumes serves and the Rust
      host's letter-and-colon test refuses. */
  lemma VolumesCanDiffer()
    ensures var c: Path := [0x63, COLON, 0x78];
            && GoResolve(NoVolume(), [], [DOT, SLASH] + c) == Some(c)
            && GoResolve(LetterColon(), [], [DOT, SLASH] + c) == None
  {
    var c: Path := [0x63, COLON, 0x78];
    var p := [DOT] + [SLASH] + c;
    assert [DOT, SLASH] + c == p;
    FirstSlashAt([], []);
    FirstSlashAt(c, []);
    FirstSlashAt([DOT], c);
    assert Split(c) == [c];
    assert p[1 + 1..] == c && p[..1] == [DOT];
    var pieces := Split(p);
    assert pieces == [[DOT]] + Split(c) == [[DOT], c];
    var rest: seq<Bytes> := pieces[1..];
    var none: seq<Bytes> := rest[1..];
    assert rest == [c] && none == [];
    assert StackFold([], rest) == StackFold([c], none) by {
      assert [] + [c] == [c];
    }
    assert Walk([], p) == Some(c);
    assert Utf8.Valid(c[3..]) && Utf8.Valid(c[2..]) && Utf8.Valid(c[1..]) && Utf8.Valid(c) by {
      assert c[2..][1..] == c[3..] && c[1..][1..] == c[2..];
    }
    assert Utf8.Valid(p[1..]) && Utf8.Valid(p) by {
      assert p[1..][1..] == c;
    }
    ResolutionsAgree(NoVolume(), [], p);
    VolumeOnlyRejects(LetterColon(), [], p);
  }
}
