/** The canonical path that a workspace import reports leads back to the file it came from. */
module WorkspaceCanonical {
  import opened Wire
  import opened Paths
  import opened Workspace
  import opened WorkspaceSearch
  import Utf8

  /** The file `relative` of the grant `root` is reported as `canonical`. */
  ghost predicate Granted(w: Space, canonical: Path, content: Bytes, root: Root, relative: Path) {
    && (root == w.primary || root in w.mounts)
    && canonical == Virtual(root, relative)
    && Canonical(relative) && Text(relative)
    && ReadFile(root.tree, relative) == Found(content)
  }

  lemma {:induction false} ServedFromPlace(volume: Path -> bool, places: seq<Place>, path: Path, seen: set<Path>)
    returns (i: nat)
    requires FirstUnseen(Candidates(volume, places, path), seen).Served?
    ensures i < |places| && Resolve(volume, places[i], path).Some?
    ensures var c := Resolve(volume, places[i], path).value;
            ReadFile(c.root.tree, c.relative).Found?
            && FirstUnseen(Candidates(volume, places, path), seen)
               == Served(c.virtual, ReadFile(c.root.tree, c.relative).content)
    decreases |places|
  {
    hide Resolve, ReadFile;
    var c := Resolve(volume, places[0], path);
    if c.None? || c.value.virtual in seen {
      i := ServedFromPlace(volume, places[1..], path, seen);
      i := i + 1;
    } else if ReadFile(c.value.root.tree, c.value.relative).Missing? {
      i := ServedFromPlace(volume, places[1..], path, seen + {c.value.virtual});
      i := i + 1;
    } else {
      i := 0;
    }
  }

  /** Whatever is served comes from a grant, under the virtual name the grant gives it. */
  lemma ServedIsGranted(volume: Path -> bool, w: Space, from: Path, path: Path) returns (root: Root, relative: Path)
    requires WellFormed(w) && Import(volume, w, from, path).Served?
    ensures var s := Import(volume, w, from, path);
            Granted(w, s.canonical, s.content, root, relative) && !volume(relative)
  {
    ImportableShape(volume, from, path);
    hide Resolve, ResolveAgainst, Places, Closed, GoVirtualPath, GoRelativePath, FirstUnseen, Candidates;
    var i := ServedFromPlace(volume, Places(w, from), path, {});
    var p := Places(w, from)[i];
    PlacesRule(w, from);
    assert p in Places(w, from);
    hide WellFormed, Import;
    root, relative := ResolvedFromPlace(volume, p, path);
  }

  lemma ResolvedFromPlace(volume: Path -> bool, p: Place, path: Path) returns (root: Root, relative: Path)
    requires DirectoryLike(p.directory) && path != [] && path[0] != SLASH
    requires Resolve(volume, p, path).Some?
    ensures root == p.root && Resolve(volume, p, path).value == Candidate(root, relative, Virtual(root, relative))
    ensures Canonical(relative) && Text(relative) && !volume(relative)
  {
    hide Split, Clean;
    root, relative := p.root, Resolve(volume, p, path).value.relative;
    assert GoVirtualPath(volume, relative);
    assert Canonical(relative);
  }

  /** A granted file is found again by its canonical name: its grant owns the name, and its directory
      is where the search starts. */
  lemma CanonicalIsLocated(w: Space, canonical: Path, content: Bytes, root: Root, relative: Path)
    requires WellFormed(w) && Granted(w, canonical, content, root, relative)
    ensures canonical != [] && Locate(w, canonical) == Place(root, VirtualDirectory(relative))
  {
    hide Split, VirtualDirectory, Closed;
    CanonicalShape(relative);
    if root in w.mounts {
      OwnerOfMounted(w.mounts, w.primary, root, relative);
    } else {
      forall m | m in w.mounts
        ensures !(m.mount + [SLASH] <= relative)
      {
        if m.mount + [SLASH] <= relative {
          var rest := relative[|m.mount| + 1..];
          assert relative == m.mount + [SLASH] + rest;
          NothingBelowMissing(w.primary.tree, m.mount, rest);
        }
      }
      OwnerOfUnmounted(w.mounts, w.primary, relative);
    }
  }

  lemma CanonicalIsVirtual(volume: Path -> bool, w: Space, canonical: Path, content: Bytes, root: Root, relative: Path)
    requires WellFormed(w) && Granted(w, canonical, content, root, relative)
    ensures GoVirtualPath(volume, canonical) <==> !volume(canonical)
    ensures BaseName(canonical) == BaseName(relative)
  {
    hide Split, Closed, Clean;
    if root.mount != [] {
      MountKeepsPath(root.mount, relative);
    }
    CanonicalShape(canonical);
  }

  lemma MountKeepsPath(m: Path, relative: Path)
    requires Normal(m) && Text(m) && SLASH !in m && Canonical(relative) && Text(relative)
    ensures var whole := m + [SLASH] + relative;
            Canonical(whole) && Text(whole) && BaseName(whole) == BaseName(relative)
  {
    MountKeepsText(m, relative);
    MountParts(m);
    SplitConcat(m, relative);
    hide Split, Text;
    Prepended(m, Split(relative));
  }

  lemma Prepended(m: Bytes, parts: seq<Bytes>)
    requires Normal(m) && parts != [] && AllNormal(parts)
    ensures AllNormal([m] + parts) && ([m] + parts)[|parts|] == parts[|parts| - 1]
  {
    hide Normal;
    forall part <- [m] + parts
      ensures Normal(part)
    {
      assert part == m || part in parts;
    }
  }

  lemma MountKeepsText(m: Path, relative: Path)
    requires Text(m) && Text(relative)
    ensures Text(m + [SLASH] + relative)
  {
    var t := [SLASH] + relative;
    assert t[1..] == relative;
    assert Utf8.CharLength(t) == 1;
    hide Utf8.CharLength;
    Utf8.ValidConcat(m, t);
    assert m + t == m + [SLASH] + relative;
  }

  lemma MountParts(m: Path)
    requires Normal(m) && SLASH !in m
    ensures Split(m) == [m]
  {
    SplitAt(m, []);
  }

  lemma BaseIsImportable(volume: Path -> bool, name: Path)
    requires Canonical(name) && Text(name)
    ensures GoRelativePath(volume, BaseName(name)) <==> !volume(BaseName(name))
  {
    hide Split, Clean;
    DirectoryAndBase(name);
    var d, base := VirtualDirectory(name), BaseName(name);
    if d != [] {
      var t := [SLASH] + base;
      assert t[1..] == base && d + t == name;
      Utf8.CutBeforeAscii(d, t);
      assert forall i :: 0 <= i < |base| ==> base[i] == name[|d| + 1 + i];
    }
  }

  /** Importing a file's base name from its own canonical path serves the same file again, under the
      same name: exactly when the platform does not take that path or that base name for a
      volume. */
  lemma CanonicalIsFaithful(volume: Path -> bool, w: Space, from: Path, path: Path)
    returns (root: Root, relative: Path)
    requires WellFormed(w) && Import(volume, w, from, path).Served?
    ensures var s := Import(volume, w, from, path);
            && Granted(w, s.canonical, s.content, root, relative)
            && Locate(w, s.canonical) == Place(root, VirtualDirectory(relative))
            && Import(volume, w, s.canonical, BaseName(s.canonical))
               == if volume(s.canonical) || volume(BaseName(s.canonical)) then Denied else s
  {
    hide WellFormed, Locate, BaseName, Granted;
    root, relative := ServedIsGranted(volume, w, from, path);
    var s := Import(volume, w, from, path);
    hide Import;
    CanonicalIsLocated(w, s.canonical, s.content, root, relative);
    CanonicalIsVirtual(volume, w, s.canonical, s.content, root, relative);
    ReimportFromCanonical(volume, w, s.canonical, s.content, root, relative);
  }

  lemma ReimportFromCanonical(volume: Path -> bool, w: Space, canonical: Path, content: Bytes,
                              root: Root, relative: Path)
    requires Granted(w, canonical, content, root, relative) && !volume(relative)
    requires canonical != [] && Locate(w, canonical) == Place(root, VirtualDirectory(relative))
    requires GoVirtualPath(volume, canonical) <==> !volume(canonical)
    requires BaseName(canonical) == BaseName(relative)
    ensures Import(volume, w, canonical, BaseName(canonical))
         == if volume(canonical) || volume(BaseName(canonical)) then Denied else Served(canonical, content)
  {
    hide Split, Clean, ReadFile, Locate, BaseName, VirtualDirectory;
    var base := BaseName(relative);
    BaseIsImportable(volume, relative);
    if !volume(canonical) && !volume(base) {
      DirectoryAndBase(relative);
      CanonicalShape(relative);
      ResolveChild(volume, VirtualDirectory(relative), base);
      hide ResolveAgainst, GoRelativePath;
      var places := Places(w, canonical);
      assert places[0] == Locate(w, canonical);
      assert Candidates(volume, places, base)[0] == Candidate(root, relative, canonical);
    }
  }

  /** One canonical path, one content: whatever the importing files and the import paths were. */
  lemma ServedContentIsStable(volume: Path -> bool, w: Space, from: Path, path: Path, other: Path, otherPath: Path)
    requires WellFormed(w)
    requires Import(volume, w, from, path).Served? && Import(volume, w, other, otherPath).Served?
    requires Import(volume, w, from, path).canonical == Import(volume, w, other, otherPath).canonical
    ensures Import(volume, w, from, path).content == Import(volume, w, other, otherPath).content
  {
    hide WellFormed, Locate, Import;
    var root, relative := ServedIsGranted(volume, w, from, path);
    var root', relative' := ServedIsGranted(volume, w, other, otherPath);
    var s, t := Import(volume, w, from, path), Import(volume, w, other, otherPath);
    CanonicalIsLocated(w, s.canonical, s.content, root, relative);
    CanonicalIsLocated(w, t.canonical, t.content, root', relative');
    VirtualIsInjective(root, relative, relative');
  }

  lemma ServedHasName(volume: Path -> bool, w: Space, from: Path, path: Path)
    requires WellFormed(w) && Import(volume, w, from, path).Served?
    ensures Import(volume, w, from, path).canonical != []
  {
    hide WellFormed, Import, Locate;
    var root, relative := ServedIsGranted(volume, w, from, path);
    var s := Import(volume, w, from, path);
    CanonicalIsLocated(w, s.canonical, s.content, root, relative);
  }
}
