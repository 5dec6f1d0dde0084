/** Which file a workspace import serves: the importing file's own directory first, then the search
    locations, last declared first. */
module WorkspacePrecedence {
  import opened Wire
  import opened Paths
  import opened Workspace
  import opened WorkspaceSearch

  /** The k-th place to look. */
  function At(w: Space, from: Path, k: nat): Place
    requires k <= |w.searches|
  {
    if k == 0 then Locate(w, from) else w.searches[|w.searches| - k]
  }

  /** The path does not resolve there, or the file is missing. */
  ghost predicate Misses(volume: Path -> bool, p: Place, path: Path) {
    match Resolve(volume, p, path)
    case None => true
    case Some(c) => ReadFile(c.root.tree, c.relative).Missing?
  }

  /** Both resolve, to one virtual path. */
  ghost predicate SameName(volume: Path -> bool, p: Place, q: Place, path: Path) {
    && Resolve(volume, p, path).Some? && Resolve(volume, q, path).Some?
    && Resolve(volume, p, path).value.virtual == Resolve(volume, q, path).value.virtual
  }

  /** What a place answers that has something. */
  ghost function Has(volume: Path -> bool, p: Place, path: Path): Served
    requires !Misses(volume, p, path)
  {
    var c := Resolve(volume, p, path).value;
    match ReadFile(c.root.tree, c.relative)
    case Found(content) => Served(c.virtual, content)
    case _ => ReadError
  }

  // ---------------------------------------------------------------- lists of places

  ghost predicate Skips(volume: Path -> bool, places: seq<Place>, path: Path, seen: set<Path>, k: nat)
    requires k < |places|
  {
    || (Resolve(volume, places[k], path).Some? && Resolve(volume, places[k], path).value.virtual in seen)
    || exists j :: 0 <= j < k && SameName(volume, places[j], places[k], path)
  }

  lemma {:induction false} SearchStops(volume: Path -> bool, places: seq<Place>, path: Path, seen: set<Path>, k: nat)
    requires k < |places| && !Misses(volume, places[k], path) && !Skips(volume, places, path, seen, k)
    requires forall j :: 0 <= j < k ==> Misses(volume, places[j], path) || Skips(volume, places, path, seen, j)
    ensures FirstUnseen(Candidates(volume, places, path), seen) == Has(volume, places[k], path)
    decreases k
  {
    hide Resolve, ReadFile;
    if k > 0 {
      var c, rest := Resolve(volume, places[0], path), places[1..];
      assert Misses(volume, places[0], path) || Skips(volume, places, path, seen, 0);
      var next := if c.None? || c.value.virtual in seen then seen else seen + {c.value.virtual};
      forall j | 0 <= j < |rest|
        ensures rest[j] == places[j + 1]
        ensures Skips(volume, rest, path, next, j) <==> Skips(volume, places, path, seen, j + 1)
      {
        SkipsBehind(volume, places, path, seen, j);
      }
      SearchStops(volume, rest, path, next, k - 1);
    }
  }

  lemma SkipsBehind(volume: Path -> bool, places: seq<Place>, path: Path, seen: set<Path>, j: nat)
    requires j + 1 < |places|
    ensures var c := Resolve(volume, places[0], path);
            var next := if c.None? || c.value.virtual in seen then seen else seen + {c.value.virtual};
            Skips(volume, places[1..], path, next, j) <==> Skips(volume, places, path, seen, j + 1)
  {
    hide Resolve;
    var rest := places[1..];
    if i :| 0 <= i < j + 1 && SameName(volume, places[i], places[j + 1], path) {
      assert i > 0 ==> SameName(volume, rest[i - 1], rest[j], path);
    }
    if i :| 0 <= i < j && SameName(volume, rest[i], rest[j], path) {
      assert SameName(volume, places[i + 1], places[j + 1], path);
    }
    if SameName(volume, places[0], places[j + 1], path) {
      assert Skips(volume, places, path, seen, j + 1);
    }
  }

  lemma {:induction false} SearchEnds(volume: Path -> bool, places: seq<Place>, path: Path, seen: set<Path>)
    requires forall j :: 0 <= j < |places| ==> Misses(volume, places[j], path) || Skips(volume, places, path, seen, j)
    ensures FirstUnseen(Candidates(volume, places, path), seen) == Denied
    decreases |places|
  {
    hide Resolve, ReadFile;
    if places != [] {
      var c, rest := Resolve(volume, places[0], path), places[1..];
      assert Misses(volume, places[0], path) || Skips(volume, places, path, seen, 0);
      var next := if c.None? || c.value.virtual in seen then seen else seen + {c.value.virtual};
      forall j | 0 <= j < |rest|
        ensures rest[j] == places[j + 1]
        ensures Skips(volume, rest, path, next, j) <==> Skips(volume, places, path, seen, j + 1)
      {
        SkipsBehind(volume, places, path, seen, j);
      }
      SearchEnds(volume, rest, path, next);
    }
  }

  // ---------------------------------------------------------------- the importer

  lemma PlaceAt(w: Space, from: Path, k: nat)
    requires k <= |w.searches|
    ensures Places(w, from)[k] == At(w, from, k)
  {
  }

  /** The importer goes past a place that misses, or whose name an earlier place bore. */
  ghost predicate Passes(volume: Path -> bool, w: Space, from: Path, path: Path, k: nat)
    requires k <= |w.searches|
  {
    || Misses(volume, At(w, from, k), path)
    || exists j :: 0 <= j < k && SameName(volume, At(w, from, j), At(w, from, k), path)
  }

  ghost predicate Stops(volume: Path -> bool, w: Space, from: Path, path: Path, k: nat) {
    && k <= |w.searches| && !Passes(volume, w, from, path, k)
    && forall j :: 0 <= j < k ==> Passes(volume, w, from, path, j)
  }

  /** An acceptable import gives what the first place has that the importer does not go past, and is denied
      if there is none; any other import is denied. */
  lemma ImportPrecedence(volume: Path -> bool, w: Space, from: Path, path: Path)
    ensures (from == [] || GoVirtualPath(volume, from)) && GoRelativePath(volume, path) ==>
              && (forall k: nat | Stops(volume, w, from, path, k) ::
                    Import(volume, w, from, path) == Has(volume, At(w, from, k), path))
              && ((forall k :: 0 <= k <= |w.searches| ==> Passes(volume, w, from, path, k)) ==>
                    Import(volume, w, from, path) == Denied)
    ensures (from != [] && !GoVirtualPath(volume, from)) || !GoRelativePath(volume, path) ==>
              Import(volume, w, from, path) == Denied
  {
    hide Resolve, ReadFile, Candidates, FirstUnseen, Locate, Has, Misses, SameName, GoVirtualPath, GoRelativePath;
    var places := Places(w, from);
    forall k | 0 <= k < |places|
      ensures places[k] == At(w, from, k)
    {
      PlaceAt(w, from, k);
    }
    hide At, Places;
    if (from == [] || GoVirtualPath(volume, from)) && GoRelativePath(volume, path) {
      forall k | 0 <= k < |places|
        ensures Passes(volume, w, from, path, k)
           <==> Misses(volume, places[k], path) || Skips(volume, places, path, {}, k)
      {
        if j :| 0 <= j < k && SameName(volume, places[j], places[k], path) {
          assert SameName(volume, At(w, from, j), At(w, from, k), path);
        }
        if j :| 0 <= j < k && SameName(volume, At(w, from, j), At(w, from, k), path) {
          assert SameName(volume, places[j], places[k], path);
        }
      }
      hide Passes, Skips;
      forall k: nat | Stops(volume, w, from, path, k)
        ensures !Misses(volume, places[k], path)
        ensures FirstUnseen(Candidates(volume, places, path), {}) == Has(volume, places[k], path)
      {
        StopsWithoutMissing(volume, w, from, path, k);
        assert !Passes(volume, w, from, path, k);
        SearchStops(volume, places, path, {}, k);
      }
      if forall k :: 0 <= k <= |w.searches| ==> Passes(volume, w, from, path, k) {
        SearchEnds(volume, places, path, {});
      }
    }
  }

  lemma StoppedThere(volume: Path -> bool, w: Space, from: Path, path: Path, k: nat)
    requires (from == [] || GoVirtualPath(volume, from)) && GoRelativePath(volume, path)
    requires Stops(volume, w, from, path, k)
    ensures k <= |w.searches| && !Misses(volume, At(w, from, k), path)
    ensures Import(volume, w, from, path) == Has(volume, At(w, from, k), path)
  {
    StopsWithoutMissing(volume, w, from, path, k);
    hide Misses, Has, At, Import, GoVirtualPath, GoRelativePath, Passes;
    ImportPrecedence(volume, w, from, path);
  }

  lemma NothingIsDenied(volume: Path -> bool, w: Space, from: Path, path: Path)
    requires (from == [] || GoVirtualPath(volume, from)) && GoRelativePath(volume, path)
    requires forall k :: 0 <= k <= |w.searches| ==> Passes(volume, w, from, path, k)
    ensures Import(volume, w, from, path) == Denied
  {
    hide Misses, Has, At, Import, GoVirtualPath, GoRelativePath, Passes;
    ImportPrecedence(volume, w, from, path);
  }

  lemma StopsWithoutMissing(volume: Path -> bool, w: Space, from: Path, path: Path, k: nat)
    requires Stops(volume, w, from, path, k)
    ensures !Misses(volume, At(w, from, k), path)
  {
    hide Misses, SameName, At;
  }

  // ---------------------------------------------------------------- in terms of the search locations

  /** The owner's directory wins whenever it has the file. */
  lemma OwnDirectoryWins(volume: Path -> bool, w: Space, from: Path, path: Path)
    requires (from == [] || GoVirtualPath(volume, from)) && GoRelativePath(volume, path)
    requires !Misses(volume, Locate(w, from), path)
    ensures Import(volume, w, from, path) == Has(volume, Locate(w, from), path)
  {
    hide Misses, Has, Locate, Import, GoVirtualPath, GoRelativePath;
    ImportPrecedence(volume, w, from, path);
    assert Stops(volume, w, from, path, 0);
  }

  /** The search location i is reached: it has the file, and what is preferred to it misses it. */
  ghost predicate Preferred(volume: Path -> bool, w: Space, from: Path, path: Path, i: nat) {
    && i < |w.searches| && !Misses(volume, w.searches[i], path)
    && Misses(volume, Locate(w, from), path)
    && forall j :: i < j < |w.searches| ==> Misses(volume, w.searches[j], path)
  }

  lemma Redundancy(volume: Path -> bool, w: Space, declared: seq<Declared>, from: Path, path: Path, j: nat, k: nat)
    requires WellFormed(w) && Declares(w, declared) && NoShadow(declared) && Importable(volume, from, path)
    requires j < k <= |w.searches| && SameName(volume, At(w, from, j), At(w, from, k), path)
    requires Misses(volume, At(w, from, j), path)
    ensures Misses(volume, At(w, from, k), path)
  {
    hide Resolve, ReadFile, WellFormed, Declares, NoShadow, Importable, Places, Locate;
    PlaceAt(w, from, j);
    PlaceAt(w, from, k);
    PairIsRedundant(volume, w, declared, from, path, j, k);
  }

  lemma NamedBefore(volume: Path -> bool, w: Space, from: Path, path: Path, k: nat) returns (j: nat)
    requires k <= |w.searches| && Passes(volume, w, from, path, k) && !Misses(volume, At(w, from, k), path)
    ensures j < k && SameName(volume, At(w, from, j), At(w, from, k), path)
  {
    hide Misses, SameName, At;
    j :| 0 <= j < k && SameName(volume, At(w, from, j), At(w, from, k), path);
  }

  /** Without shadowed mounts the importer goes past a place only if it misses, as long as it has not
      stopped. */
  lemma {:induction false} PassesOnlyMisses(volume: Path -> bool, w: Space, declared: seq<Declared>, from: Path,
                                            path: Path, k: nat)
    requires WellFormed(w) && Declares(w, declared) && NoShadow(declared) && Importable(volume, from, path)
    requires k <= |w.searches| && forall j :: 0 <= j <= k ==> Passes(volume, w, from, path, j)
    ensures Misses(volume, At(w, from, k), path)
  {
    hide WellFormed, Declares, NoShadow, Importable, At, SameName, Passes, Misses;
    if !Misses(volume, At(w, from, k), path) {
      var j := NamedBefore(volume, w, from, path, k);
      PassesOnlyMisses(volume, w, declared, from, path, j);
      Redundancy(volume, w, declared, from, path, j, k);
    }
  }

  lemma {:induction false} SomewhereItStops(volume: Path -> bool, w: Space, from: Path, path: Path, n: nat)
    returns (k: nat)
    requires n <= |w.searches| + 1
    ensures k <= n
    ensures k < n ==> Stops(volume, w, from, path, k)
    ensures k == n ==> forall j :: 0 <= j < n ==> Passes(volume, w, from, path, j)
  {
    hide Passes;
    if n == 0 {
      k := 0;
    } else {
      k := SomewhereItStops(volume, w, from, path, n - 1);
      if k == n - 1 && Passes(volume, w, from, path, n - 1) {
        k := n;
      }
    }
  }

  /** With no library path declared behind an equal mount name: a file that is served, or fails to be read,
      comes from the owner's directory; or else from a search location, and then the owner's directory and
      every search location declared later miss it. When all miss it, the import is denied. */
  lemma LaterSearchesComeFirst(volume: Path -> bool, w: Space, declared: seq<Declared>, from: Path, path: Path)
    requires WellFormed(w) && Declares(w, declared) && NoShadow(declared)
    requires (from == [] || GoVirtualPath(volume, from)) && GoRelativePath(volume, path)
    ensures Import(volume, w, from, path) != Denied ==>
              || (!Misses(volume, Locate(w, from), path)
                  && Import(volume, w, from, path) == Has(volume, Locate(w, from), path))
              || exists i: nat :: Preferred(volume, w, from, path, i)
                    && Import(volume, w, from, path) == Has(volume, w.searches[i], path)
    ensures forall i: nat | Preferred(volume, w, from, path, i) ::
              Import(volume, w, from, path) == Has(volume, w.searches[i], path)
    ensures Import(volume, w, from, path) == Denied <==>
              && Misses(volume, Locate(w, from), path)
              && forall i :: 0 <= i < |w.searches| ==> Misses(volume, w.searches[i], path)
  {
    hide WellFormed, Declares, NoShadow, Misses, Has, Locate, Import, GoVirtualPath, GoRelativePath;
    HasSomething(volume, path);
    var i := WhereItStops(volume, w, declared, from, path);
    forall i: nat | Preferred(volume, w, from, path, i)
      ensures Import(volume, w, from, path) == Has(volume, w.searches[i], path)
    {
      PreferredIsServed(volume, w, declared, from, path, i);
    }
  }

  lemma HasSomething(volume: Path -> bool, path: Path)
    ensures forall p | !Misses(volume, p, path) :: Has(volume, p, path) != Denied
  {
    hide Resolve, ReadFile;
  }

  /** None: nowhere. Some(|w.searches|): in the owner's directory. */
  lemma WhereItStops(volume: Path -> bool, w: Space, declared: seq<Declared>, from: Path, path: Path)
    returns (i: Option<nat>)
    requires WellFormed(w) && Declares(w, declared) && NoShadow(declared)
    requires (from == [] || GoVirtualPath(volume, from)) && GoRelativePath(volume, path)
    ensures i.None? ==>
              && Import(volume, w, from, path) == Denied
              && Misses(volume, Locate(w, from), path)
              && forall j :: 0 <= j < |w.searches| ==> Misses(volume, w.searches[j], path)
    ensures i.Some? && i.value < |w.searches| ==>
              Preferred(volume, w, from, path, i.value)
              && Import(volume, w, from, path) == Has(volume, w.searches[i.value], path)
    ensures i.Some? && i.value >= |w.searches| ==>
              !Misses(volume, Locate(w, from), path)
              && Import(volume, w, from, path) == Has(volume, Locate(w, from), path)
  {
    hide *;
    var n := |w.searches|;
    var k := SomewhereItStops(volume, w, from, path, n + 1);
    GuardsSuffice(volume, from, path);
    if k <= n {
      StoppedThere(volume, w, from, path, k);
      AtExactly(w, from, k);
      StopIsPreferred(volume, w, declared, from, path, k);
      i := Some(n - k);
    } else {
      NothingStops(volume, w, declared, from, path);
      i := None;
    }
  }

  lemma NothingStops(volume: Path -> bool, w: Space, declared: seq<Declared>, from: Path, path: Path)
    requires WellFormed(w) && Declares(w, declared) && NoShadow(declared)
    requires (from == [] || GoVirtualPath(volume, from)) && GoRelativePath(volume, path)
    requires forall j :: 0 <= j <= |w.searches| ==> Passes(volume, w, from, path, j)
    ensures Import(volume, w, from, path) == Denied
    ensures Misses(volume, Locate(w, from), path)
    ensures forall j :: 0 <= j < |w.searches| ==> Misses(volume, w.searches[j], path)
  {
    hide *;
    GuardsSuffice(volume, from, path);
    NothingIsDenied(volume, w, from, path);
    PassesOnlyMisses(volume, w, declared, from, path, 0);
    AtExactly(w, from, 0);
    forall j | 0 <= j < |w.searches|
      ensures Misses(volume, w.searches[j], path)
    {
      AtExactly(w, from, |w.searches| - j);
      PassesOnlyMisses(volume, w, declared, from, path, |w.searches| - j);
    }
  }

  lemma PreferredIsServed(volume: Path -> bool, w: Space, declared: seq<Declared>, from: Path, path: Path, i: nat)
    requires WellFormed(w) && Declares(w, declared) && NoShadow(declared)
    requires (from == [] || GoVirtualPath(volume, from)) && GoRelativePath(volume, path)
    requires Preferred(volume, w, from, path, i)
    ensures i < |w.searches| && !Misses(volume, w.searches[i], path)
    ensures Import(volume, w, from, path) == Has(volume, w.searches[i], path)
  {
    hide *;
    GuardsSuffice(volume, from, path);
    PreferredStops(volume, w, declared, from, path, i);
    AtExactly(w, from, |w.searches| - i);
    StoppedThere(volume, w, from, path, |w.searches| - i);
  }

  lemma GuardsSuffice(volume: Path -> bool, from: Path, path: Path)
    requires (from == [] || GoVirtualPath(volume, from)) && GoRelativePath(volume, path)
    ensures Importable(volume, from, path)
  {
    hide GoVirtualPath, GoRelativePath;
  }

  lemma AtExactly(w: Space, from: Path, k: nat)
    requires k <= |w.searches|
    ensures At(w, from, k) == if k == 0 then Locate(w, from) else w.searches[|w.searches| - k]
  {
    hide Locate;
  }

  lemma StopIsPreferred(volume: Path -> bool, w: Space, declared: seq<Declared>, from: Path, path: Path, k: nat)
    requires WellFormed(w) && Declares(w, declared) && NoShadow(declared) && Importable(volume, from, path)
    requires Stops(volume, w, from, path, k)
    ensures !Misses(volume, At(w, from, k), path)
    ensures k > 0 ==> Preferred(volume, w, from, path, |w.searches| - k)
  {
    hide WellFormed, Declares, NoShadow, Misses, SameName, Locate, Importable;
    StopsWithoutMissing(volume, w, from, path, k);
    if k > 0 {
      PassesOnlyMisses(volume, w, declared, from, path, 0);
      forall j | |w.searches| - k < j < |w.searches|
        ensures Misses(volume, w.searches[j], path)
      {
        PassesOnlyMisses(volume, w, declared, from, path, |w.searches| - j);
      }
    }
  }

  lemma PreferredStops(volume: Path -> bool, w: Space, declared: seq<Declared>, from: Path, path: Path, i: nat)
    requires WellFormed(w) && Declares(w, declared) && NoShadow(declared) && Importable(volume, from, path)
    requires Preferred(volume, w, from, path, i)
    ensures i < |w.searches| && !Misses(volume, w.searches[i], path)
    ensures Stops(volume, w, from, path, |w.searches| - i)
  {
    hide WellFormed, Declares, NoShadow, Misses, SameName, Locate, Importable;
    var k := |w.searches| - i;
    forall j | 0 <= j < k
      ensures Misses(volume, At(w, from, j), path)
    {
      assert j > 0 ==> At(w, from, j) == w.searches[|w.searches| - j];
    }
    if j :| 0 <= j < k && SameName(volume, At(w, from, j), At(w, from, k), path) {
      Redundancy(volume, w, declared, from, path, j, k);
    }
  }

  // ---------------------------------------------------------------- who owns the importing file

  /** The entry file belongs to the workspace root; a path under a mount to that mount, with its directory
      inside; any other path to the workspace root, with its own directory. */
  lemma OwnerExactly(w: Space, from: Path)
    requires WellFormed(w)
    ensures from == [] ==> Locate(w, from) == Place(w.primary, [])
    ensures forall m, rest | m in w.mounts && from == m.mount + [SLASH] + rest ::
              Locate(w, from) == Place(m, VirtualDirectory(rest))
    ensures from != [] && (forall m <- w.mounts :: !(m.mount + [SLASH] <= from)) ==>
              Locate(w, from) == Place(w.primary, VirtualDirectory(from))
  {
    hide VirtualDirectory, Closed;
    forall m, rest | m in w.mounts && from == m.mount + [SLASH] + rest
      ensures Locate(w, from) == Place(m, VirtualDirectory(rest))
    {
      OwnerOfMounted(w.mounts, w.primary, m, rest);
    }
    if from != [] && forall m <- w.mounts :: !(m.mount + [SLASH] <= from) {
      OwnerOfUnmounted(w.mounts, w.primary, from);
    }
  }
}
