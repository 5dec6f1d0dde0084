/** The workspace importer: one primary root, mounted search roots and library paths, on file systems
    that do not change while they are read. */
module Workspace {
  import opened Wire
  import opened Paths
  import Utf8

  // ---------------------------------------------------------------- frozen roots

  datatype Node = File(content: Bytes) | Directory
  type Tree = map<Path, Node>

  /** Every entry has a canonical name and lies in directories of the same tree. */
  ghost predicate Closed(tree: Tree) {
    && (forall p <- tree :: Canonical(p))
    && (forall p, i :: p in tree && 0 < i < |p| && p[i] == SLASH ==> p[..i] in tree && tree[p[..i]].Directory?)
  }

  datatype Reading = Found(content: Bytes) | Missing | Unreadable

  /** Reading a directory, or a name below a file, fails with an error that is not "no such file". */
  function ReadFile(tree: Tree, p: Path): Reading {
    if p in tree then (match tree[p] case File(content) => Found(content) case Directory => Unreadable)
    else if exists i :: 0 < i < |p| && p[i] == SLASH && p[..i] in tree && tree[p[..i]].File? then Unreadable
    else Missing
  }

  lemma NothingBelowMissing(tree: Tree, m: Path, rest: Path)
    requires Closed(tree) && m !in tree && m != [] && SLASH !in m
    ensures ReadFile(tree, m + [SLASH] + rest) == Missing
  {
    var p := m + [SLASH] + rest;
    assert p[|m|] == SLASH && p[..|m|] == m;
    assert forall j :: 0 <= j < |m| ==> p[j] == m[j];
    forall i | 0 < i < |p| && p[i] == SLASH
      ensures p[..i] !in tree
    {
      if i > |m| {
        var q := p[..i];
        assert q[|m|] == SLASH && q[..|m|] == m;
      }
    }
  }

  /** An open grant; the primary workspace root has an empty mount. */
  datatype Root = Root(mount: Path, tree: Tree)

  function Virtual(root: Root, relative: Path): Path {
    if root.mount == [] then relative else root.mount + [SLASH] + relative
  }

  datatype Place = Place(root: Root, directory: Path)
  datatype Candidate = Candidate(root: Root, relative: Path, virtual: Path)

  datatype Space = Space(primary: Root, mounts: seq<Root>, searches: seq<Place>)

  /** A declaration; an empty mount denotes a library path in the primary root. */
  datatype Declared = Declared(mount: Path, path: Path)

  /** What the options accept. */
  predicate ValidDeclared(volume: Path -> bool, d: Declared) {
    if d.mount == [] then GoVirtualPath(volume, d.path)
    else GoVirtualPath(volume, d.mount) && SLASH !in d.mount && d.path != []
  }

  predicate MountsDistinct(declared: seq<Declared>) {
    forall i, j :: 0 <= i < j < |declared| && declared[i].mount != [] ==> declared[i].mount != declared[j].mount
  }

  // ---------------------------------------------------------------- search

  function Resolve(volume: Path -> bool, place: Place, importedPath: Path): Option<Candidate> {
    match ResolveAgainst(volume, place.directory, importedPath)
    case None => None
    case Some(relative) => Some(Candidate(place.root, relative, Virtual(place.root, relative)))
  }

  function Owner(mounts: seq<Root>, primary: Root, importedFrom: Path): Place {
    if mounts == [] then Place(primary, VirtualDirectory(importedFrom))
    else if mounts[0].mount + [SLASH] <= importedFrom then
      Place(mounts[0], VirtualDirectory(importedFrom[|mounts[0].mount| + 1..]))
    else Owner(mounts[1..], primary, importedFrom)
  }

  /** The grant that owns importedFrom and the directory in it to resolve against. */
  function Locate(w: Space, importedFrom: Path): Place {
    if importedFrom == [] then Place(w.primary, []) else Owner(w.mounts, w.primary, importedFrom)
  }

  /** Where to look, in order: next to the importing file, then every search path, last declared
      first. */
  function Places(w: Space, importedFrom: Path): (places: seq<Place>)
    ensures |places| == 1 + |w.searches|
  {
    [Locate(w, importedFrom)] + seq(|w.searches|, i requires 0 <= i < |w.searches| => w.searches[|w.searches| - 1 - i])
  }

  function Candidates(volume: Path -> bool, places: seq<Place>, importedPath: Path): seq<Candidate> {
    if places == [] then [] else
      var rest := Candidates(volume, places[1..], importedPath);
      match Resolve(volume, places[0], importedPath) case None => rest case Some(c) => [c] + rest
  }

  /** The candidates of the first n search locations, last one first. */
  function Backwards(volume: Path -> bool, searches: seq<Place>, n: nat, importedPath: Path): seq<Candidate>
    requires n <= |searches|
  {
    if n == 0 then [] else
      (match Resolve(volume, searches[n - 1], importedPath) case None => [] case Some(c) => [c])
        + Backwards(volume, searches, n - 1, importedPath)
  }

  lemma {:induction false} BackwardsIsCandidates(volume: Path -> bool, w: Space, importedFrom: Path, n: nat,
                                                 importedPath: Path)
    requires n <= |w.searches|
    ensures Candidates(volume, Places(w, importedFrom)[|w.searches| + 1 - n..], importedPath)
         == Backwards(volume, w.searches, n, importedPath)
  {
    hide Resolve, Locate;
    if n > 0 {
      BackwardsIsCandidates(volume, w, importedFrom, n - 1, importedPath);
      var places := Places(w, importedFrom);
      var k := |w.searches| + 1 - n;
      assert places[k..][1..] == places[k + 1..] && places[k..][0] == w.searches[n - 1];
    }
  }

  /** The list of candidates: the owner's, and then those of the search locations, last declared first. */
  lemma OwnerThenSearches(volume: Path -> bool, w: Space, importedFrom: Path, importedPath: Path)
    ensures Candidates(volume, Places(w, importedFrom), importedPath)
         == (match Resolve(volume, Locate(w, importedFrom), importedPath) case None => [] case Some(c) => [c])
              + Backwards(volume, w.searches, |w.searches|, importedPath)
  {
    BackwardsIsCandidates(volume, w, importedFrom, |w.searches|, importedPath);
    hide Resolve, Locate;
  }

  datatype Served = Served(canonical: Path, content: Bytes) | Denied | ReadError

  /** The first candidate that exists decides. */
  function FirstExisting(candidates: seq<Candidate>): Served {
    if candidates == [] then Denied
    else match ReadFile(candidates[0].root.tree, candidates[0].relative)
      case Found(content) => Served(candidates[0].virtual, content)
      case Unreadable => ReadError
      case Missing => FirstExisting(candidates[1..])
  }

  /** The importer's own loop skips a candidate whose virtual path it tried before. */
  function FirstUnseen(candidates: seq<Candidate>, seen: set<Path>): Served
    decreases |candidates|
  {
    if candidates == [] then Denied
    else if candidates[0].virtual in seen then FirstUnseen(candidates[1..], seen)
    else match ReadFile(candidates[0].root.tree, candidates[0].relative)
      case Found(content) => Served(candidates[0].virtual, content)
      case Unreadable => ReadError
      case Missing => FirstUnseen(candidates[1..], seen + {candidates[0].virtual})
  }

  /** The same loop under a context that `left` more of its checks find alive; None means that it is never
      canceled. A read that succeeds is not checked. A canceled search has no answer. */
  function Search(candidates: seq<Candidate>, seen: set<Path>, left: Option<nat>): Option<Served>
    decreases |candidates|
  {
    if candidates == [] then Some(Denied)
    else if candidates[0].virtual in seen then Search(candidates[1..], seen, left)
    else
      var reading := ReadFile(candidates[0].root.tree, candidates[0].relative);
      if reading.Found? then Some(Served(candidates[0].virtual, reading.content))
      else if left == Some(0) then None
      else if reading.Unreadable? then Some(ReadError)
      else Search(candidates[1..], seen + {candidates[0].virtual}, Fewer(left))
  }

  function Fewer(left: Option<nat>): Option<nat>
    requires left != Some(0)
  {
    if left.None? then None else Some(left.value - 1)
  }

  /** How many reads fail before the search ends. */
  function FailedReads(candidates: seq<Candidate>, seen: set<Path>): nat
    decreases |candidates|
  {
    if candidates == [] then 0
    else if candidates[0].virtual in seen then FailedReads(candidates[1..], seen)
    else match ReadFile(candidates[0].root.tree, candidates[0].relative)
      case Found(_) => 0
      case Unreadable => 1
      case Missing => 1 + FailedReads(candidates[1..], seen + {candidates[0].virtual})
  }

  /** Cancellation changes no answer: it takes away exactly those that need more failing reads. */
  lemma {:induction false} CancellationOnlyStops(candidates: seq<Candidate>, seen: set<Path>, left: Option<nat>)
    ensures Search(candidates, seen, left)
         == if left.Some? && left.value < FailedReads(candidates, seen) then None
            else Some(FirstUnseen(candidates, seen))
    decreases |candidates|
  {
    hide ReadFile;
    if candidates != [] {
      var c, rest := candidates[0], candidates[1..];
      if c.virtual in seen {
        CancellationOnlyStops(rest, seen, left);
      } else if left != Some(0) {
        CancellationOnlyStops(rest, seen + {c.virtual}, Fewer(left));
      } else {
        CancellationOnlyStops(rest, seen + {c.virtual}, left);
      }
    }
  }

  predicate Importable(volume: Path -> bool, importedFrom: Path, importedPath: Path) {
    (importedFrom != [] ==> GoVirtualPath(volume, importedFrom)) && GoRelativePath(volume, importedPath)
  }

  function Import(volume: Path -> bool, w: Space, importedFrom: Path, importedPath: Path): Served {
    if !Importable(volume, importedFrom, importedPath) then Denied
    else FirstUnseen(Candidates(volume, Places(w, importedFrom), importedPath), {})
  }

  /** The import under a context that its first `alive` checks find alive. */
  function ImportWithin(volume: Path -> bool, w: Space, importedFrom: Path, importedPath: Path, alive: Option<nat>)
    : Option<Served>
  {
    if alive == Some(0) then None
    else if !Importable(volume, importedFrom, importedPath) then Some(Denied)
    else Search(Candidates(volume, Places(w, importedFrom), importedPath), {}, Fewer(alive))
  }

  /** Under a context an import has its answer exactly if the context outlives the failing reads. */
  lemma ImportOutlivesContext(volume: Path -> bool, w: Space, importedFrom: Path, importedPath: Path,
                              alive: Option<nat>)
    ensures var needed := if Importable(volume, importedFrom, importedPath) then
                           FailedReads(Candidates(volume, Places(w, importedFrom), importedPath), {}) else 0;
            ImportWithin(volume, w, importedFrom, importedPath, alive)
            == if alive.Some? && alive.value <= needed then None
               else Some(Import(volume, w, importedFrom, importedPath))
  {
    hide Candidates, Places, Importable;
    if alive != Some(0) {
      CancellationOnlyStops(Candidates(volume, Places(w, importedFrom), importedPath), {}, Fewer(alive));
    }
  }

  /** The import without the skipping. */
  function PlainImport(volume: Path -> bool, w: Space, importedFrom: Path, importedPath: Path): Served {
    if !Importable(volume, importedFrom, importedPath) then Denied
    else FirstExisting(Candidates(volume, Places(w, importedFrom), importedPath))
  }

  // ---------------------------------------------------------------- construction

  ghost predicate MountedApart(mounts: seq<Root>) {
    forall i, j :: 0 <= i < j < |mounts| ==> mounts[i].mount != mounts[j].mount
  }

  /** What construction establishes: mounts are distinct single segments that the primary root does
      not use, and every search location belongs to one of the grants. */
  ghost predicate WellFormed(w: Space) {
    && w.primary.mount == [] && Closed(w.primary.tree)
    && (forall m <- w.mounts ::
          && Closed(m.tree) && Normal(m.mount) && Text(m.mount) && SLASH !in m.mount
          && m.mount !in w.primary.tree)
    && MountedApart(w.mounts)
    && (forall s <- w.searches ::
          || (s.root == w.primary && Canonical(s.directory))
          || (s.root in w.mounts && s.directory == []))
  }

  /** The searches are the declarations, in order. */
  ghost predicate Declares(w: Space, declared: seq<Declared>) {
    && |w.searches| == |declared|
    && forall i :: 0 <= i < |declared| ==>
         && w.searches[i].root.mount == declared[i].mount
         && w.searches[i].directory == if declared[i].mount == [] then declared[i].path else []
  }

  class Config {
    var searchPaths: seq<Declared>

    constructor ()
      ensures searchPaths == []
    {
      searchPaths := [];
    }

    /** All library paths of one option are taken, or none. */
    method WithLibraryPaths(volume: Path -> bool, paths: seq<Path>) returns (ok: bool)
      modifies this
      ensures ok <==> forall p <- paths :: GoVirtualPath(volume, p)
      ensures searchPaths == old(searchPaths) +
                if ok then seq(|paths|, i requires 0 <= i < |paths| => Declared([], paths[i])) else []
      ensures old((forall d <- searchPaths :: ValidDeclared(volume, d)) && MountsDistinct(searchPaths)) ==>
                (forall d <- searchPaths :: ValidDeclared(volume, d)) && MountsDistinct(searchPaths)
    {
      hide GoVirtualPath;
      var declared: seq<Declared> := [];
      for i := 0 to |paths|
        invariant declared == seq(i, k requires 0 <= k < i => Declared([], paths[k]))
        invariant forall k :: 0 <= k < i ==> GoVirtualPath(volume, paths[k])
      {
        if !GoVirtualPath(volume, paths[i]) {
          assert paths[i] in paths;
          return false;
        }
        declared := declared + [Declared([], paths[i])];
      }
      searchPaths := searchPaths + declared;
      return true;
    }

    method WithSearchRoot(volume: Path -> bool, mountName: Path, hostPath: Path) returns (ok: bool)
      modifies this
      ensures ok <==>
                && GoVirtualPath(volume, mountName) && SLASH !in mountName && hostPath != []
                && forall d <- old(searchPaths) :: d.mount != mountName
      ensures searchPaths == old(searchPaths) + if ok then [Declared(mountName, hostPath)] else []
      ensures old((forall d <- searchPaths :: ValidDeclared(volume, d)) && MountsDistinct(searchPaths)) ==>
                (forall d <- searchPaths :: ValidDeclared(volume, d)) && MountsDistinct(searchPaths)
    {
      if !GoVirtualPath(volume, mountName) || SLASH in mountName || hostPath == [] {
        return false;
      }
      hide GoVirtualPath;
      for i := 0 to |searchPaths|
        invariant forall k :: 0 <= k < i ==> searchPaths[k].mount != mountName
      {
        if searchPaths[i].mount == mountName {
          assert searchPaths[i] in searchPaths;
          return false;
        }
      }
      searchPaths := searchPaths + [Declared(mountName, hostPath)];
      return true;
    }
  }

  class Importer {
    const volume: Path -> bool
    const primary: Root
    var mounts: seq<Root>
    var searches: seq<Place>

    constructor (volume: Path -> bool, tree: Tree)
      ensures this.volume == volume && Value() == Space(Root([], tree), [], [])
    {
      this.volume := volume;
      primary := Root([], tree);
      mounts, searches := [], [];
    }

    function Value(): Space
      reads this
    {
      Space(primary, mounts, searches)
    }

    /** `disk` holds the host directories that can be opened. */
    method AddSearchPath(declared: Declared, disk: map<Path, Tree>) returns (ok: bool)
      requires WellFormed(Value()) && ValidDeclared(volume, declared)
      requires forall m <- mounts :: m.mount != declared.mount
      requires forall p <- disk :: Closed(disk[p])
      modifies this
      ensures WellFormed(Value())
      ensures ok <==> declared.mount == [] || (declared.mount !in primary.tree && declared.path in disk)
      ensures !ok ==> Value() == old(Value())
      ensures ok && declared.mount == [] ==>
                Value() == old(Value()).(searches := old(searches) + [Place(primary, declared.path)])
      ensures ok && declared.mount != [] ==>
                var root := Root(declared.mount, disk[declared.path]);
                Value() == Space(primary, old(mounts) + [root], old(searches) + [Place(root, [])])
    {
      hide Closed, Clean, Utf8.Valid;
      if declared.mount == [] {
        searches := searches + [Place(primary, declared.path)];
        return true;
      }
      if declared.mount in primary.tree {
        return false;
      }
      if declared.path !in disk {
        return false;
      }
      MountIsNormal(volume, declared.mount);
      var mount := Root(declared.mount, disk[declared.path]);
      mounts := mounts + [mount];
      searches := searches + [Place(mount, [])];
      return true;
    }

    /** NewWorkspaceImporter's loop over the collected declarations. */
    method AddAll(declared: seq<Declared>, disk: map<Path, Tree>) returns (ok: bool)
      requires primary.mount == [] && mounts == [] && searches == [] && Closed(primary.tree)
      requires forall d <- declared :: ValidDeclared(volume, d)
      requires MountsDistinct(declared)
      requires forall p <- disk :: Closed(disk[p])
      modifies this
      ensures ok <==> forall d <- declared :: d.mount != [] ==> d.mount !in primary.tree && d.path in disk
      ensures ok ==> WellFormed(Value()) && Declares(Value(), declared)
    {
      hide Closed, ValidDeclared;
      assert WellFormed(Value());
      for i := 0 to |declared|
        invariant WellFormed(Value()) && Declares(Value(), declared[..i])
        invariant forall m <- mounts :: exists k :: 0 <= k < i && declared[k].mount == m.mount && m.mount != []
        invariant forall d <- declared[..i] :: d.mount != [] ==> d.mount !in primary.tree && d.path in disk
      {
        assert declared[i] in declared;
        var added := AddSearchPath(declared[i], disk);
        if !added {
          return false;
        }
        assert declared[..i + 1] == declared[..i] + [declared[i]];
      }
      assert declared[..|declared|] == declared;
      return true;
    }

    /** `alive` says how many checks of the context pass; None is returned when one does not. */
    method ImportFile(importedFrom: Path, importedPath: Path, alive: Option<nat>) returns (r: Option<Served>)
      ensures r == ImportWithin(volume, Value(), importedFrom, importedPath, alive)
    {
      hide GoVirtualPath, GoRelativePath, Resolve, ReadFile;
      if alive == Some(0) {
        return None;
      }
      if importedFrom != [] && !GoVirtualPath(volume, importedFrom) {
        return Some(Denied);
      }
      if !GoRelativePath(volume, importedPath) {
        return Some(Denied);
      }
      var candidates := CollectCandidates(importedFrom, importedPath);
      var left := Fewer(alive);
      var seen: set<Path> := {};
      var i := 0;
      while i < |candidates|
        invariant 0 <= i <= |candidates|
        invariant Search(candidates, {}, Fewer(alive)) == Search(candidates[i..], seen, left)
      {
        var candidate := candidates[i];
        assert candidates[i..][1..] == candidates[i + 1..];
        i := i + 1;
        if candidate.virtual in seen {
          continue;
        }
        seen := seen + {candidate.virtual};
        var reading := ReadFile(candidate.root.tree, candidate.relative);
        if reading.Found? {
          return Some(Served(candidate.virtual, reading.content));
        }
        if left == Some(0) {
          return None;
        }
        if reading.Unreadable? {
          return Some(ReadError);
        }
        left := Fewer(left);
      }
      return Some(Denied);
    }

    /** The candidate list: the owner's directory, then the searches backwards. */
    method CollectCandidates(importedFrom: Path, importedPath: Path) returns (candidates: seq<Candidate>)
      ensures candidates == Candidates(volume, Places(Value(), importedFrom), importedPath)
    {
      hide Resolve, Locate, Candidates, Places;
      candidates := [];
      var owner := LocateOwner(importedFrom);
      var first := Resolve(volume, owner, importedPath);
      if first.Some? {
        candidates := [first.value];
      }
      OwnerThenSearches(volume, Value(), importedFrom, importedPath);
      ghost var whole := Candidates(volume, Places(Value(), importedFrom), importedPath);
      var i := |searches|;
      while i > 0
        invariant 0 <= i <= |searches|
        invariant whole == candidates + Backwards(volume, searches, i, importedPath)
      {
        i := i - 1;
        var next := Resolve(volume, searches[i], importedPath);
        if next.Some? {
          candidates := candidates + [next.value];
        }
      }
    }

    method LocateOwner(importedFrom: Path) returns (owner: Place)
      ensures owner == Locate(Value(), importedFrom)
    {
      hide VirtualDirectory;
      if importedFrom == [] {
        return Place(primary, []);
      }
      for i := 0 to |mounts|
        invariant Owner(mounts, primary, importedFrom) == Owner(mounts[i..], primary, importedFrom)
      {
        assert mounts[i..][1..] == mounts[i + 1..];
        if mounts[i].mount + [SLASH] <= importedFrom {
          return Place(mounts[i], VirtualDirectory(importedFrom[|mounts[i].mount| + 1..]));
        }
      }
      return Place(primary, VirtualDirectory(importedFrom));
    }
  }

  lemma MountIsNormal(volume: Path -> bool, mount: Path)
    requires GoVirtualPath(volume, mount) && SLASH !in mount
    ensures Normal(mount)
  {
    SplitAt(mount, []);
    assert Split(mount)[0] in Split(mount);
  }
}
