/** What the workspace importer's search guarantees: when skipping repeated virtual paths is harmless,
    and that the canonical path it reports leads back to the same file. */
module WorkspaceSearch {
  import opened Wire
  import opened Paths
  import opened Workspace
  import Utf8

  // ---------------------------------------------------------------- resolving below a directory

  function Segments(directory: Path): seq<Bytes> {
    if directory == [] then [] else Split(directory)
  }

  function Below(directory: Path, relative: Path): Path {
    if directory == [] then relative else directory + [SLASH] + relative
  }

  predicate DirectoryLike(directory: Path) {
    directory == [] || Canonical(directory)
  }

  /** A resolved path is the stack that the walk from the directory ends with. */
  lemma ResolvedStack(volume: Path -> bool, directory: Path, importedPath: Path)
    requires DirectoryLike(directory) && importedPath != [] && importedPath[0] != SLASH
    requires ResolveAgainst(volume, directory, importedPath).Some?
    ensures var walked := StackFold(Segments(directory), Split(importedPath));
            && walked.Some? && walked.value != []
            && ResolveAgainst(volume, directory, importedPath).value == Join(walked.value)
            && Canonical(Join(walked.value))
  {
    hide Clean, Split, Join, StackFold, GoVirtualPath, PathJoin, Escapes;
    JoinedStack(directory, importedPath);
    var walked := StackFold(Segments(directory), Split(importedPath));
    DotIsItsOwnCleaning();
    if walked.Some? && walked.value != [] {
      StackFoldElements(Segments(directory), Split(importedPath));
      SplitHasNoSlash(directory);
      SplitHasNoSlash(importedPath);
      SplitJoin(walked.value);
      CanonicalShape(Join(walked.value));
    }
  }

  /** A walk that stays below its start does the same from any directory. */
  lemma {:induction false} WalkIsRelative(base: seq<Bytes>, stack: seq<Bytes>, parts: seq<Bytes>)
    requires StackFold(stack, parts).Some?
    ensures StackFold(base + stack, parts) == Some(base + StackFold(stack, parts).value)
    decreases |parts|
  {
    if parts != [] {
      var part := parts[0];
      if part == [] || part == [DOT] {
        WalkIsRelative(base, stack, parts[1..]);
      } else if part != DOTDOT {
        WalkIsRelative(base, stack + [part], parts[1..]);
        assert base + stack + [part] == base + (stack + [part]);
      } else {
        var shorter := stack[..|stack| - 1];
        WalkIsRelative(base, shorter, parts[1..]);
        assert (base + stack)[..|base + stack| - 1] == base + shorter;
      }
    }
  }

  lemma {:induction false} JoinConcat(a: seq<Bytes>, b: seq<Bytes>)
    requires a != [] && b != []
    ensures Join(a + b) == Join(a) + [SLASH] + Join(b)
  {
    if |a| == 1 {
      assert (a + b)[1..] == b;
    } else {
      JoinConcat(a[1..], b);
      assert (a + b)[1..] == a[1..] + b;
      var s, t := Join(a[1..]), Join(b);
      assert a[0] + [SLASH] + (s + [SLASH] + t) == a[0] + [SLASH] + s + [SLASH] + t;
    }
  }

  /** An import that resolves at a root resolves below every directory to the same relative path. */
  lemma RootedImportMoves(volume: Path -> bool, directory: Path, importedPath: Path, other: Path -> bool)
    requires DirectoryLike(directory) && importedPath != [] && importedPath[0] != SLASH
    requires ResolveAgainst(volume, [], importedPath).Some?
    requires ResolveAgainst(other, directory, importedPath).Some?
    ensures ResolveAgainst(other, directory, importedPath).value
         == Below(directory, ResolveAgainst(volume, [], importedPath).value)
  {
    hide ResolveAgainst, Split, Join, StackFold;
    ResolvedStack(volume, [], importedPath);
    ResolvedStack(other, directory, importedPath);
    var parts := Split(importedPath);
    WalkIsRelative(Segments(directory), [], parts);
    assert Segments(directory) + [] == Segments(directory);
    var q := StackFold([], parts).value;
    if directory != [] {
      JoinConcat(Split(directory), q);
      JoinSplit(directory);
    } else {
      assert [] + q == q;
    }
  }

  /** A base name resolves in its own directory. */
  lemma ResolveChild(volume: Path -> bool, directory: Path, base: Path)
    requires DirectoryLike(directory) && Normal(base) && SLASH !in base
    requires GoVirtualPath(volume, Below(directory, base))
    ensures ResolveAgainst(volume, directory, base) == Some(Below(directory, base))
  {
    hide Clean, Join;
    SplitAt(base, []);
    var above, parts := Segments(directory), Split(base);
    var none: seq<Bytes> := parts[1..];
    assert none == [] && StackFold(above, parts) == StackFold(above + [base], none);
    JoinedStack(directory, base);
    hide Split, StackFold, PathJoin;
    var whole := Below(directory, base);
    if directory != [] {
      JoinConcat(above, [base]);
      JoinSplit(directory);
    }
    SingletonJoin(base);
    assert [] + [base] == [base];
    CanonicalShape(whole);
  }

  lemma SingletonJoin(base: Bytes)
    ensures Join([base]) == base
  {
  }

  /** A mount and the rest of a path can be told from the whole. */
  lemma MountPrefix(m: Path, n: Path, a: Path, b: Path)
    requires SLASH !in m && SLASH !in n
    requires n + [SLASH] <= m + [SLASH] + a || m + [SLASH] + a == n + [SLASH] + b
    ensures m == n
  {
    var s := m + [SLASH] + a;
    assert s[|m|] == SLASH && s[|n|] == SLASH && s[..|m|] == m && s[..|n|] == n;
    assert forall i :: 0 <= i < |m| ==> s[i] == m[i];
    assert forall i :: 0 <= i < |n| ==> s[i] == n[i];
  }

  // ---------------------------------------------------------------- who owns a path

  lemma {:induction false} OwnerOfMounted(mounts: seq<Root>, primary: Root, m: Root, rest: Path)
    requires m in mounts && forall n <- mounts :: SLASH !in n.mount
    requires MountedApart(mounts)
    ensures Owner(mounts, primary, m.mount + [SLASH] + rest) == Place(m, VirtualDirectory(rest))
  {
    hide VirtualDirectory;
    var p := m.mount + [SLASH] + rest;
    var first := mounts[0];
    assert first in mounts;
    if first.mount + [SLASH] <= p {
      MountPrefix(m.mount, first.mount, rest, []);
      assert first == m by {
        var i :| 0 <= i < |mounts| && mounts[i] == m;
      }
      assert p[|m.mount| + 1..] == rest;
    } else {
      assert first != m by {
        assert m.mount + [SLASH] <= p;
      }
      OwnerOfMounted(mounts[1..], primary, m, rest);
    }
  }

  lemma {:induction false} OwnerOfUnmounted(mounts: seq<Root>, primary: Root, p: Path)
    requires forall n <- mounts :: !(n.mount + [SLASH] <= p)
    ensures Owner(mounts, primary, p) == Place(primary, VirtualDirectory(p))
  {
    if mounts != [] {
      assert mounts[0] in mounts;
      OwnerOfUnmounted(mounts[1..], primary, p);
    }
  }

  /** The last segment of a canonical path. */
  function BaseName(name: Path): Path {
    var parts := Split(name);
    parts[|parts| - 1]
  }

  /** A canonical path is its directory and its base name. */
  lemma DirectoryAndBase(name: Path)
    requires Canonical(name)
    ensures DirectoryLike(VirtualDirectory(name))
    ensures name == Below(VirtualDirectory(name), BaseName(name))
    ensures Normal(BaseName(name)) && SLASH !in BaseName(name)
  {
    hide Split, Join, VirtualDirectory, CleanFold;
    DirectoryOfCanonical(name);
    JoinSplit(name);
    var parts, base := Split(name), BaseName(name);
    var above := parts[..|parts| - 1];
    assert base in parts && parts == above + [base];
    SplitHasNoSlash(name);
    SingletonJoin(base);
    if above == [] {
      assert parts == [base];
    } else {
      JoinConcat(above, [base]);
      assert Canonical(VirtualDirectory(name)) by {
        assert forall part <- above :: part in parts;
      }
      CanonicalShape(VirtualDirectory(name));
    }
  }

  lemma RestIsCanonical(m: Path, rest: Path)
    requires Canonical(m + [SLASH] + rest)
    ensures Canonical(rest)
  {
    SplitConcat(m, rest);
    hide Split;
    assert forall part <- Split(rest) :: part in Split(m) + Split(rest);
  }

  /** Where a search may look: a grant, and a directory that is empty or canonical. */
  ghost predicate PlaceRule(w: Space, p: Place) {
    && (p.root == w.primary || p.root in w.mounts)
    && DirectoryLike(p.directory)
  }

  lemma {:induction false} OwnerRule(mounts: seq<Root>, w: Space, from: Path)
    requires Canonical(from) && forall m <- mounts :: m in w.mounts
    ensures var o := Owner(mounts, w.primary, from);
            && PlaceRule(w, o)
            && (o.root == w.primary && w.primary !in mounts ==>
                  o.directory == VirtualDirectory(from) && forall m <- mounts :: !(m.mount + [SLASH] <= from))
  {
    hide VirtualDirectory, Split;
    if mounts == [] {
      DirectoryAndBase(from);
    } else {
      var m := mounts[0];
      assert m in mounts;
      if m.mount + [SLASH] <= from {
        var rest := from[|m.mount| + 1..];
        assert from == m.mount + [SLASH] + rest;
        RestIsCanonical(m.mount, rest);
        DirectoryAndBase(rest);
      } else {
        OwnerRule(mounts[1..], w, from);
      }
    }
  }

  lemma PlacesRule(w: Space, from: Path)
    requires WellFormed(w) && (from != [] ==> Canonical(from))
    ensures forall p <- Places(w, from) :: PlaceRule(w, p)
  {
    hide Split, Closed, VirtualDirectory, Owner;
    if from != [] {
      OwnerRule(w.mounts, w, from);
    }
    var places := Places(w, from);
    forall i | 0 <= i < |places|
      ensures PlaceRule(w, places[i])
    {
      if i > 0 {
        assert places[i] == w.searches[|w.searches| - i] && places[i] in w.searches;
      }
    }
  }

  // ---------------------------------------------------------------- when skipping is harmless

  /** No library path is declared behind a search root that is mounted under its name. */
  ghost predicate NoShadow(declared: seq<Declared>) {
    forall i, j :: 0 <= i < j < |declared| && declared[i].mount != [] && declared[j].mount == [] ==>
      declared[j].path != declared[i].mount
  }

  /** The two candidates have one virtual path; if the first is missing, so is the second. */
  ghost predicate Redundant(x: Candidate, y: Candidate) {
    x.virtual == y.virtual && ReadFile(x.root.tree, x.relative) == Missing ==>
      ReadFile(y.root.tree, y.relative) == Missing
  }

  /** A primary place named like a mount would hide that mount. */
  lemma PlaceOfMountName(w: Space, declared: seq<Declared>, from: Path, a: nat, b: nat)
    requires WellFormed(w) && Declares(w, declared) && NoShadow(declared)
    requires from != [] ==> Canonical(from)
    requires a < b < |Places(w, from)|
    requires Places(w, from)[a].root == w.primary && Places(w, from)[b].root in w.mounts
    ensures Places(w, from)[a].directory != Places(w, from)[b].root.mount
  {
    hide Closed, Split, VirtualDirectory, Owner;
    var places, n := Places(w, from), |w.searches|;
    assert places[b] == w.searches[n - b];
    var m := places[b].root;
    if a > 0 {
      assert places[a] == w.searches[n - a];
    } else if from != [] {
      OwnerRule(w.mounts, w, from);
      DirectoryAndBase(from);
      assert places[a].directory != [] ==> places[a].directory + [SLASH] <= from;
    }
  }

  /** A mounted candidate behind a primary one has another virtual path. */
  lemma MountedIsNotHidden(volume: Path -> bool, w: Space, declared: seq<Declared>, from: Path, path: Path,
                           a: nat, b: nat)
    requires WellFormed(w) && Declares(w, declared) && NoShadow(declared) && Importable(volume, from, path)
    requires a < b < |Places(w, from)|
    requires Places(w, from)[a].root == w.primary && Places(w, from)[b].root in w.mounts
    requires Resolve(volume, Places(w, from)[a], path).Some? && Resolve(volume, Places(w, from)[b], path).Some?
    ensures Resolve(volume, Places(w, from)[a], path).value.virtual
         != Resolve(volume, Places(w, from)[b], path).value.virtual
  {
    ImportableShape(volume, from, path);
    hide ResolveAgainst, Split, Places, Importable, Declares, NoShadow, Resolve, DirectoryLike;
    var p, q := Places(w, from)[a], Places(w, from)[b];
    HiddenPlaces(w, declared, from, a, b);
    hide WellFormed;
    OtherDirectory(volume, p, q, path);
  }

  lemma ImportableShape(volume: Path -> bool, from: Path, path: Path)
    requires Importable(volume, from, path)
    ensures from != [] ==> Canonical(from)
    ensures path != [] && path[0] != SLASH
  {
  }

  lemma HiddenPlaces(w: Space, declared: seq<Declared>, from: Path, a: nat, b: nat)
    requires WellFormed(w) && Declares(w, declared) && NoShadow(declared)
    requires from != [] ==> Canonical(from)
    requires a < b < |Places(w, from)|
    requires Places(w, from)[a].root == w.primary && Places(w, from)[b].root in w.mounts
    ensures var p, q := Places(w, from)[a], Places(w, from)[b];
            && p.root.mount == [] && DirectoryLike(p.directory)
            && q.root.mount != [] && q.directory == [] && p.directory != q.root.mount
  {
    hide Closed, Split, Owner, Locate, VirtualDirectory, Declares, NoShadow;
    var p, q := Places(w, from)[a], Places(w, from)[b];
    assert q == w.searches[|w.searches| - b] && q in w.searches;
    assert w.primary.mount == [];
    hide Places, WellFormed;
    PlacesRule(w, from);
    assert p in Places(w, from);
    PlaceOfMountName(w, declared, from, a, b);
    MountsAreNotPrimary(w, q);
  }

  lemma OtherDirectory(volume: Path -> bool, p: Place, q: Place, path: Path)
    requires path != [] && path[0] != SLASH
    requires p.root.mount == [] && DirectoryLike(p.directory)
    requires q.root.mount != [] && q.directory == [] && p.directory != q.root.mount
    requires Resolve(volume, p, path).Some? && Resolve(volume, q, path).Some?
    ensures Resolve(volume, p, path).value.virtual != Resolve(volume, q, path).value.virtual
  {
    hide ResolveAgainst, Split;
    RootedImportMoves(volume, p.directory, path, volume);
    var y := Resolve(volume, q, path).value;
    if Below(p.directory, y.relative) == q.root.mount + [SLASH] + y.relative {
      SameEnds(p.directory, q.root.mount, y.relative);
    }
  }

  lemma MountsAreNotPrimary(w: Space, q: Place)
    requires WellFormed(w) && q in w.searches && q.root in w.mounts
    ensures q.root.mount != [] && q.directory == []
  {
    hide Closed, Split;
  }

  lemma PairIsRedundant(volume: Path -> bool, w: Space, declared: seq<Declared>, from: Path, path: Path, a: nat, b: nat)
    requires WellFormed(w) && Declares(w, declared) && NoShadow(declared) && Importable(volume, from, path)
    requires a < b < |Places(w, from)|
    requires Resolve(volume, Places(w, from)[a], path).Some? && Resolve(volume, Places(w, from)[b], path).Some?
    ensures Redundant(Resolve(volume, Places(w, from)[a], path).value, Resolve(volume, Places(w, from)[b], path).value)
  {
    var p, q := Places(w, from)[a], Places(w, from)[b];
    ImportableShape(volume, from, path);
    hide ResolveAgainst, Split, Places, Importable, ReadFile, Declares, NoShadow, Closed;
    PlacesRule(w, from);
    assert p in Places(w, from) && q in Places(w, from);
    var x, y := Resolve(volume, p, path).value, Resolve(volume, q, path).value;
    if x.virtual == y.virtual {
      if p.root == q.root {
        VirtualIsInjective(p.root, x.relative, y.relative);
      } else if q.root == w.primary {
        NothingBelowMissing(w.primary.tree, p.root.mount, x.relative);
      } else if p.root == w.primary {
        MountedIsNotHidden(volume, w, declared, from, path, a, b);
      } else {
        MountPrefix(p.root.mount, q.root.mount, x.relative, y.relative);
      }
    }
  }

  lemma VirtualIsInjective(root: Root, a: Path, b: Path)
    requires Virtual(root, a) == Virtual(root, b)
    ensures a == b
  {
    if root.mount != [] {
      assert Virtual(root, a)[|root.mount| + 1..] == a && Virtual(root, b)[|root.mount| + 1..] == b;
    }
  }

  lemma SameEnds(d: Path, m: Path, rest: Path)
    requires Below(d, rest) == m + [SLASH] + rest && m != []
    ensures d == m
  {
    var s := m + [SLASH] + rest;
    assert |d| == |m| && s[..|m|] == m;
    assert (d + [SLASH] + rest)[..|d|] == d;
  }

  /** Skipping is harmless when no candidate before hides one behind. */
  lemma {:induction false} SkippingIsHarmless(volume: Path -> bool, before: seq<Place>, places: seq<Place>, path: Path,
                                              seen: set<Path>)
    requires var all := before + places;
             forall i, j ::
               0 <= i < j < |all| && Resolve(volume, all[i], path).Some? && Resolve(volume, all[j], path).Some? ==>
               Redundant(Resolve(volume, all[i], path).value, Resolve(volume, all[j], path).value)
    requires forall v <- seen :: exists i :: 0 <= i < |before| && Tried(Resolve(volume, before[i], path), v)
    ensures FirstUnseen(Candidates(volume, places, path), seen) == FirstExisting(Candidates(volume, places, path))
    decreases |places|
  {
    hide Resolve, ReadFile;
    if places != [] {
      var all := before + places;
      var next := before + [places[0]];
      assert next + places[1..] == all;
      var c := Resolve(volume, places[0], path);
      if c.None? {
        assert forall i :: 0 <= i < |before| ==> next[i] == before[i];
        SkippingIsHarmless(volume, next, places[1..], path, seen);
      } else {
        var v := c.value.virtual;
        if v in seen {
          var i :| 0 <= i < |before| && Tried(Resolve(volume, before[i], path), v);
          assert all[i] == before[i] && all[|before|] == places[0];
          assert ReadFile(c.value.root.tree, c.value.relative) == Missing;
          assert forall i :: 0 <= i < |before| ==> next[i] == before[i];
          SkippingIsHarmless(volume, next, places[1..], path, seen);
        } else if ReadFile(c.value.root.tree, c.value.relative) == Missing {
          forall u <- seen + {v}
            ensures exists i :: 0 <= i < |next| && Tried(Resolve(volume, next[i], path), u)
          {
            if u == v {
              assert next[|before|] == places[0];
            } else {
              var i :| 0 <= i < |before| && Tried(Resolve(volume, before[i], path), u);
              assert next[i] == before[i];
            }
          }
          SkippingIsHarmless(volume, next, places[1..], path, seen + {v});
        }
      }
    }
  }

  ghost predicate Tried(c: Option<Candidate>, v: Path) {
    c.Some? && c.value.virtual == v && ReadFile(c.value.root.tree, c.value.relative) == Missing
  }

  /** With no shadowed mount, the importer returns the first existing candidate in precedence order. */
  lemma DedupIsTransparent(volume: Path -> bool, w: Space, declared: seq<Declared>, from: Path, path: Path)
    requires WellFormed(w) && Declares(w, declared) && NoShadow(declared)
    ensures Import(volume, w, from, path) == PlainImport(volume, w, from, path)
  {
    hide Resolve, WellFormed, Declares, NoShadow, Places, FirstUnseen, FirstExisting, Redundant;
    if Importable(volume, from, path) {
      var places := Places(w, from);
      var none: seq<Place> := [];
      assert none + places == places;
      forall i, j | 0 <= i < j < |places|
                    && Resolve(volume, places[i], path).Some? && Resolve(volume, places[j], path).Some?
        ensures Redundant(Resolve(volume, places[i], path).value, Resolve(volume, places[j], path).value)
      {
        PairIsRedundant(volume, w, declared, from, path, i, j);
      }
      SkippingIsHarmless(volume, none, places, path, {});
    }
  }

  // ---------------------------------------------------------------- and when it is not

  ghost predicate MissingAt(volume: Path -> bool, p: Place, path: Path) {
    var c := Resolve(volume, p, path);
    c.Some? ==> ReadFile(c.value.root.tree, c.value.relative) == Missing
  }

  /** Of all places only one can have the file. */
  ghost predicate OnlyAt(volume: Path -> bool, places: seq<Place>, path: Path, hidden: nat) {
    forall k :: 0 <= k < |places| && k != hidden ==> MissingAt(volume, places[k], path)
  }

  lemma {:induction false} FoundWhereItIs(volume: Path -> bool, places: seq<Place>, path: Path, hidden: nat)
    requires hidden < |places| && OnlyAt(volume, places, path, hidden)
    requires Resolve(volume, places[hidden], path).Some? && !MissingAt(volume, places[hidden], path)
    ensures FirstExisting(Candidates(volume, places, path))
         == FirstExisting([Resolve(volume, places[hidden], path).value])
  {
    hide Resolve, ReadFile;
    if hidden > 0 {
      assert MissingAt(volume, places[0], path);
      FoundWhereItIs(volume, places[1..], path, hidden - 1);
    }
  }

  /** A search that finds nothing but a hidden candidate finds nothing. */
  lemma {:induction false} HiddenIsDenied(volume: Path -> bool, places: seq<Place>, path: Path, hidden: nat, cover: nat,
                                          seen: set<Path>)
    requires hidden < |places| && OnlyAt(volume, places, path, hidden) && Resolve(volume, places[hidden], path).Some?
    requires cover < hidden || Resolve(volume, places[hidden], path).value.virtual in seen
    requires cover < hidden ==>
               && Resolve(volume, places[cover], path).Some?
               && Resolve(volume, places[cover], path).value.virtual
                  == Resolve(volume, places[hidden], path).value.virtual
    ensures FirstUnseen(Candidates(volume, places, path), seen) == Denied
    decreases |places|
  {
    hide Resolve, ReadFile;
    var v := Resolve(volume, places[hidden], path).value.virtual;
    var c, rest := Resolve(volume, places[0], path), places[1..];
    if hidden == 0 {
      MissingAreDenied(volume, rest, path, seen);
    } else {
      assert MissingAt(volume, places[0], path);
      var next := if c.None? || c.value.virtual in seen then seen else seen + {c.value.virtual};
      if cover == 0 || v in seen {
        HiddenIsDenied(volume, rest, path, hidden - 1, hidden - 1, next);
      } else if cover < hidden {
        HiddenIsDenied(volume, rest, path, hidden - 1, cover - 1, next);
      }
    }
  }

  lemma {:induction false} MissingAreDenied(volume: Path -> bool, places: seq<Place>, path: Path, seen: set<Path>)
    requires forall k :: 0 <= k < |places| ==> MissingAt(volume, places[k], path)
    ensures FirstUnseen(Candidates(volume, places, path), seen) == Denied
    decreases |places|
  {
    hide Resolve, ReadFile;
    if places != [] {
      assert MissingAt(volume, places[0], path);
      var c := Resolve(volume, places[0], path);
      var next := if c.None? || c.value.virtual in seen then seen else seen + {c.value.virtual};
      MissingAreDenied(volume, places[1..], path, next);
    }
  }

  /** Only the mount named m holds anything: a file X. */
  function OnlyIn(m: Path, mount: Path): Tree {
    if mount == m then map[X := File([])] else map[]
  }

  function Mounted(m: Path, declared: seq<Declared>): seq<Root> {
    if declared == [] then [] else
      var rest := Mounted(m, declared[1..]);
      if declared[0].mount == [] then rest else [Root(declared[0].mount, OnlyIn(m, declared[0].mount))] + rest
  }

  function Searched(m: Path, declared: seq<Declared>): (places: seq<Place>)
    ensures |places| == |declared|
  {
    seq(|declared|, i requires 0 <= i < |declared| =>
      if declared[i].mount == [] then Place(Root([], map[]), declared[i].path)
      else Place(Root(declared[i].mount, OnlyIn(m, declared[i].mount)), []))
  }

  /** An empty workspace whose mount m holds X. */
  function Counterexample(m: Path, declared: seq<Declared>): Space {
    Space(Root([], map[]), Mounted(m, declared), Searched(m, declared))
  }

  lemma {:induction false} MountedElements(m: Path, declared: seq<Declared>)
    ensures forall r <- Mounted(m, declared) :: exists d <- declared ::
              d.mount != [] && r == Root(d.mount, OnlyIn(m, d.mount))
    ensures forall d <- declared :: d.mount != [] ==> Root(d.mount, OnlyIn(m, d.mount)) in Mounted(m, declared)
  {
    hide OnlyIn;
    if declared != [] {
      var rest := declared[1..];
      assert declared == [declared[0]] + rest;
      MountedElements(m, rest);
    }
  }

  lemma {:induction false} MountedStaysApart(m: Path, declared: seq<Declared>)
    requires MountsDistinct(declared)
    ensures MountedApart(Mounted(m, declared))
  {
    hide OnlyIn;
    if declared != [] {
      var rest := declared[1..];
      assert forall i :: 0 <= i < |rest| ==> rest[i] == declared[i + 1];
      MountedElements(m, rest);
      MountedStaysApart(m, rest);
      var mounts := Mounted(m, rest);
      if declared[0].mount != [] {
        forall j | 0 <= j < |mounts|
          ensures mounts[j].mount != declared[0].mount
        {
          assert mounts[j] in mounts;
          var d :| d in rest && d.mount != [] && mounts[j] == Root(d.mount, OnlyIn(m, d.mount));
          var k :| 0 <= k < |rest| && rest[k] == d;
          assert declared[k + 1] == d;
        }
        var all := Mounted(m, declared);
        assert all[0].mount == declared[0].mount && all[1..] == mounts;
        forall i, j | 0 <= i < j < |all|
          ensures all[i].mount != all[j].mount
        {
          assert all[j] == mounts[j - 1] && (i > 0 ==> all[i] == mounts[i - 1]);
        }
      }
    }
  }

  lemma TreesAreClosed(m: Path, mount: Path)
    ensures Closed(OnlyIn(m, mount)) && Closed(map[])
  {
    SplitAt(X, []);
  }

  lemma CounterexampleIsWellFormed(m: Path, declared: seq<Declared>)
    requires MountsDistinct(declared) && forall d <- declared :: ValidDeclared(NoVolume(), d)
    ensures WellFormed(Counterexample(m, declared)) && Declares(Counterexample(m, declared), declared)
  {
    hide OnlyIn, Closed, Split, Clean, Utf8.Valid;
    var w := Counterexample(m, declared);
    MountedElements(m, declared);
    MountedStaysApart(m, declared);
    TreesAreClosed(m, m);
    forall r <- w.mounts
      ensures Closed(r.tree) && Normal(r.mount) && Text(r.mount) && SLASH !in r.mount
    {
      var d :| d in declared && d.mount != [] && r == Root(d.mount, OnlyIn(m, d.mount));
      MountIsNormal(NoVolume(), d.mount);
      TreesAreClosed(m, d.mount);
    }
    hide Mounted;
    forall s <- w.searches
      ensures (s.root == w.primary && Canonical(s.directory)) || (s.root in w.mounts && s.directory == [])
    {
      var i :| 0 <= i < |declared| && w.searches[i] == s;
      assert declared[i] in declared;
    }
    assert Closed(w.primary.tree);
    assert MountedApart(w.mounts);
    assert WellFormed(w);
    assert Declares(w, declared);
  }

  /** In the counterexample every search place resolves X to its own X, and only the mount m holds
      one. */
  lemma ResolvesX(m: Path, p: Place)
    requires p.directory == [] || GoVirtualPath(NoVolume(), p.directory)
    requires p.root.tree == OnlyIn(m, p.root.mount) && (p.root.mount == [] || p.directory == [])
    requires m != []
    ensures Resolve(NoVolume(), p, X)
         == Some(Candidate(p.root, Below(p.directory, X), Virtual(p.root, Below(p.directory, X))))
    ensures ReadFile(p.root.tree, Below(p.directory, X)) == if p.root.mount == m then Found([]) else Missing
  {
    XBelowIsVirtual(p.directory);
    assert Normal(X) && SLASH !in X;
    hide GoVirtualPath, Split, ResolveAgainst;
    ResolveChild(NoVolume(), p.directory, X);
  }

  lemma XBelowIsVirtual(directory: Path)
    requires directory == [] || GoVirtualPath(NoVolume(), directory)
    ensures DirectoryLike(directory) && GoVirtualPath(NoVolume(), Below(directory, X))
  {
    hide Clean, CleanFold, FirstSlash;
    SplitAt(X, []);
    var whole := Below(directory, X);
    assert Utf8.Valid(X) by {
      assert X[1..] == [];
    }
    if directory != [] {
      SplitConcat(directory, X);
      assert ([SLASH] + X)[1..] == X && Utf8.CharLength([SLASH] + X) == 1;
      Utf8.ValidConcat(directory, [SLASH] + X);
      assert directory + ([SLASH] + X) == whole;
    }
    assert Canonical(whole);
    CanonicalShape(whole);
  }

  lemma CounterexampleAnswers(declared: seq<Declared>, i: nat, j: nat, k: nat)
    requires MountsDistinct(declared) && forall d <- declared :: ValidDeclared(NoVolume(), d)
    requires i < j < |declared| && declared[i].mount != []
    requires declared[j].mount == [] && declared[j].path == declared[i].mount
    requires k <= |declared|
    ensures var m := declared[i].mount;
            var place := Places(Counterexample(m, declared), [])[k];
            var c := Resolve(NoVolume(), place, X);
            && c.Some?
            && ReadFile(c.value.root.tree, c.value.relative)
               == (if k == |declared| - i then Found([]) else Missing)
            && (k == |declared| - i || k == |declared| - j ==> c.value.virtual == m + [SLASH] + X)
  {
    hide GoVirtualPath, Split, Resolve, ReadFile, Mounted;
    var m := declared[i].mount;
    var w := Counterexample(m, declared);
    var place := Places(w, [])[k];
    if k > 0 {
      var n := |declared| - k;
      assert place == w.searches[n];
      assert declared[n] in declared;
      assert n != i ==> declared[n].mount != m;
    }
    ResolvesX(m, place);
  }

  /** A library path declared behind an equal mount name makes the importer miss a file that the
      precedence order reaches: X in that mount. */
  lemma ShadowLosesAFile(declared: seq<Declared>, i: nat, j: nat)
    requires MountsDistinct(declared) && forall d <- declared :: ValidDeclared(NoVolume(), d)
    requires i < j < |declared| && declared[i].mount != []
    requires declared[j].mount == [] && declared[j].path == declared[i].mount
    ensures var w := Counterexample(declared[i].mount, declared);
            && PlainImport(NoVolume(), w, [], X) == Served(declared[i].mount + [SLASH] + X, [])
            && Import(NoVolume(), w, [], X) == Denied
  {
    var m := declared[i].mount;
    var w := Counterexample(m, declared);
    var places, n := Places(w, []), |declared|;
    var hidden, cover := n - i, n - j;
    XBelowIsVirtual([]);
    assert Importable(NoVolume(), [], X);
    hide Resolve, ReadFile, Places, Counterexample, Importable, MountsDistinct, ValidDeclared;
    forall k | 0 <= k < |places|
      ensures Resolve(NoVolume(), places[k], X).Some?
      ensures k != hidden ==> MissingAt(NoVolume(), places[k], X)
    {
      CounterexampleAnswers(declared, i, j, k);
    }
    CounterexampleAnswers(declared, i, j, hidden);
    CounterexampleAnswers(declared, i, j, cover);
    assert OnlyAt(NoVolume(), places, X, hidden);
    hide OnlyAt;
    FoundWhereItIs(NoVolume(), places, X, hidden);
    HiddenIsDenied(NoVolume(), places, X, hidden, cover, {});
  }

  /** Skipping repeated virtual paths changes no answer, for any contents of the granted directories
      and any import, exactly when no library path is declared behind an equal mount name. */
  lemma DedupIsExact(declared: seq<Declared>)
    requires MountsDistinct(declared) && forall d <- declared :: ValidDeclared(NoVolume(), d)
    ensures (forall w, from, path :: WellFormed(w) && Declares(w, declared) ==>
               Import(NoVolume(), w, from, path) == PlainImport(NoVolume(), w, from, path))
        <==> NoShadow(declared)
  {
    hide WellFormed, Declares, Import, PlainImport, Counterexample, ValidDeclared, MountsDistinct;
    if NoShadow(declared) {
      forall w, from, path | WellFormed(w) && Declares(w, declared)
        ensures Import(NoVolume(), w, from, path) == PlainImport(NoVolume(), w, from, path)
      {
        DedupIsTransparent(NoVolume(), w, declared, from, path);
      }
    } else {
      var i, j :| 0 <= i < j < |declared| && declared[i].mount != [] && declared[j].mount == []
                  && declared[j].path == declared[i].mount;
      CounterexampleIsWellFormed(declared[i].mount, declared);
      ShadowLosesAFile(declared, i, j);
    }
  }
}
