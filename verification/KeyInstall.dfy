/**
  Installing a key generation (scripts/src/key-generation-install.ts): the collision
  checks on the planned files, and the loop that creates the tree with a marker in
  every directory that is not finished.

  A path is its sequence of components below the generation root.  Every file system
  step spends one unit of `stepsLeft`, and the process dies when none is left; a file is
  created empty first and written in a second step.
*/
module KeyInstall {
  import opened Wrappers

  type Name = s: string | s != "" witness "a"

  type Path = seq<Name>

  const MARKER: Name := ".initialization-incomplete"
  const COMPOSE: Name := "compose.yaml"
  const GENERATION: Name := "generation.json"
  const INCOMPLETE: Bytes := Ascii("incomplete\n")

  datatype Role = Server | Worker | Operator | Recovery

  const ROLES: seq<Role> := [Server, Worker, Operator, Recovery]

  function RoleName(role: Role): Name {
    match role
    case Server => "server"
    case Worker => "worker"
    case Operator => "operator"
    case Recovery => "recovery"
  }

  /** A planned file; its path is relative to the role's directory. */
  datatype Planned = Planned(path: Path, bytes: Bytes)

  datatype Node = Directory | Partial | Complete(bytes: Bytes)

  datatype Outcome = Done | Refused | Crashed

  predicate Dotted(path: Path) {
    exists i :: 0 <= i < |path| && path[i][0] == '.'
  }

  predicate ProperPrefix(p: Path, q: Path) {
    |p| < |q| && q[..|p|] == p
  }

  function Paths(files: seq<Planned>): set<Path> {
    set i | 0 <= i < |files| :: files[i].path
  }

  /** What `put` lets through for one role. */
  predicate Collected(files: seq<Planned>) {
    && (forall i, j | 0 <= i < j < |files| :: files[i].path != files[j].path)
    && (forall i | 0 <= i < |files| :: files[i].path != [] && !Dotted(files[i].path))
  }

  /** No file's path is a directory of another. */
  predicate PrefixFree(files: seq<Planned>) {
    forall i, j | 0 <= i < |files| && 0 <= j < |files| :: !ProperPrefix(files[i].path, files[j].path)
  }

  // ---------- The checks ----------

  /** The files planned for one role, in the order they were put. */
  class RoleFiles {
    var files: seq<Planned>

    ghost predicate Valid()
      reads this
    {
      Collected(files)
    }

    constructor ()
      ensures Valid() && files == []
    {
      files := [];
    }

    /** `put`: refuses a path that is taken or has a component starting with a dot. */
    method Put(path: Path, bytes: Bytes) returns (ok: bool)
      requires Valid() && path != []
      modifies this
      ensures Valid()
      ensures ok <==> path !in Paths(old(files)) && !Dotted(path)
      ensures files == if ok then old(files) + [Planned(path, bytes)] else old(files)
    {
      ok := (forall i | 0 <= i < |files| :: files[i].path != path) && !Dotted(path);
      if ok { files := files + [Planned(path, bytes)]; }
    }

    /** The walk up from every file, looking for a file where a directory will be. */
    method CheckPrefixes() returns (ok: bool)
      requires Valid()
      ensures ok <==> PrefixFree(files)
    {
      for j := 0 to |files|
        invariant forall i, x | 0 <= i < |files| && 0 <= x < j :: !ProperPrefix(files[i].path, files[x].path)
      {
        var path := files[j].path;
        var k := |path| - 1;
        while k > 0
          invariant 0 <= k < |path|
          invariant forall i | 0 <= i < |files| && k < |files[i].path| :: !ProperPrefix(files[i].path, path)
        {
          if exists i :: 0 <= i < |files| && files[i].path == path[..k] {
            ghost var i :| 0 <= i < |files| && files[i].path == path[..k];
            assert ProperPrefix(files[i].path, files[j].path);
            return false;
          }
          k := k - 1;
        }
      }
      ok := true;
    }
  }

  // ---------- The tree ----------

  function Full(role: Role, path: Path): (r: Path)
    ensures |r| == 1 + |path|
  {
    [RoleName(role)] + path
  }

  function MarkerOf(directory: Path): Path {
    directory + [MARKER]
  }

  function Markers(directories: set<Path>): set<Path> {
    set d | d in directories :: MarkerOf(d)
  }

  /** A tree: directories below the root, complete files, and the directories still marked. */
  function Tree(directories: set<Path>, files: map<Path, Bytes>, marked: set<Path>): map<Path, Node> {
    map p | p in {[]} + directories + files.Keys + Markers(marked) ::
      if p in files then Complete(files[p])
      else if p == [] || p in directories then Directory
      else Complete(INCOMPLETE)
  }

  function Prefixes(path: Path): set<Path> {
    set k | 1 <= k < |path| :: path[..k]
  }

  predicate Clean(paths: set<Path>) {
    forall p | p in paths :: p != [] && !Dotted(p)
  }

  /** What the loop has built: directories and files kept apart, a marker in every directory. */
  ghost predicate Built(disk: map<Path, Node>, marked: set<Path>, files: map<Path, Bytes>) {
    && Clean(marked) && Clean(files.Keys) && marked !! files.Keys
    && disk == Tree(marked, files, marked)
  }

  lemma {:induction false} MarkerDotted(d: Path)
    ensures Dotted(MarkerOf(d)) && MarkerOf(d) != []
  {
    assert MarkerOf(d)[|d|][0] == '.';
  }

  lemma {:induction false} TreeHas(marked: set<Path>, files: map<Path, Bytes>, p: Path)
    requires Clean(marked) && Clean(files.Keys) && p != [] && !Dotted(p)
    ensures var tree := Tree(marked, files, marked);
            (p in tree <==> p in marked || p in files) && (p in marked && p !in files ==> tree[p] == Directory)
  {
    forall d | d in marked ensures MarkerOf(d) != p { MarkerDotted(d); }
  }

  lemma {:induction false} MarkerFree(marked: set<Path>, files: map<Path, Bytes>, d: Path)
    requires Clean(marked) && Clean(files.Keys) && d !in marked
    ensures MarkerOf(d) !in Tree(marked, files, marked)
  {
    MarkerDotted(d);
    forall e | e in marked ensures MarkerOf(e) != MarkerOf(d) {
      assert MarkerOf(e)[..|MarkerOf(e)| - 1] == e && MarkerOf(d)[..|MarkerOf(d)| - 1] == d;
    }
  }

  lemma {:induction false} GrowsDirectory(disk: map<Path, Node>, marked: set<Path>, files: map<Path, Bytes>, d: Path)
    requires Built(disk, marked, files) && d !in marked && d !in files && d != [] && !Dotted(d)
    ensures Built(disk[d := Directory][MarkerOf(d) := Complete(INCOMPLETE)], marked + {d}, files)
  {
    MarkerFree(marked, files, d);
    MarkerDotted(d);
    assert Markers(marked + {d}) == Markers(marked) + {MarkerOf(d)};
    forall e | e in marked + {d} ensures MarkerOf(e) !in marked + {d} && MarkerOf(e) !in files { MarkerDotted(e); }
    assert disk[d := Directory][MarkerOf(d) := Complete(INCOMPLETE)] == Tree(marked + {d}, files, marked + {d});
  }

  lemma {:induction false} GrowsFile(disk: map<Path, Node>, marked: set<Path>, files: map<Path, Bytes>, p: Path, bytes: Bytes)
    requires Built(disk, marked, files) && p !in marked && p !in files && p != [] && !Dotted(p)
    ensures Built(disk[p := Complete(bytes)], marked, files[p := bytes])
  {
    forall e | e in marked ensures MarkerOf(e) != p { MarkerDotted(e); }
    assert disk[p := Complete(bytes)] == Tree(marked, files[p := bytes], marked);
  }

  lemma {:induction false} ParentThere(disk: map<Path, Node>, marked: set<Path>, files: map<Path, Bytes>, p: Path)
    requires Built(disk, marked, files) && |p| >= 1 && (|p| == 1 || p[..|p| - 1] in marked)
    ensures p[..|p| - 1] in disk && disk[p[..|p| - 1]] == Directory
  {
    if |p| == 1 {
      assert p[..0] == [] && [] !in files;
    }
  }

  /** Distinct paths, none a directory of another. */
  predicate Fits(files: seq<Planned>) {
    && (forall i, j | 0 <= i < j < |files| :: files[i].path != files[j].path)
    && PrefixFree(files)
  }

  predicate Undotted(files: seq<Planned>) {
    forall i | 0 <= i < |files| :: files[i].path != [] && !Dotted(files[i].path)
  }

  function FilesOf(role: Role, files: seq<Planned>, n: nat): (r: map<Path, Bytes>)
    requires n <= |files|
  {
    if n == 0 then map[] else FilesOf(role, files, n - 1)[Full(role, files[n - 1].path) := files[n - 1].bytes]
  }

  lemma {:induction false} FilesOfIn(role: Role, files: seq<Planned>, n: nat, j: nat)
    requires j < n <= |files|
    ensures Full(role, files[j].path) in FilesOf(role, files, n)
  {
    hide Full;
    if j < n - 1 { FilesOfIn(role, files, n - 1, j); }
  }

  lemma {:induction false} FilesOfFrom(role: Role, files: seq<Planned>, n: nat, p: Path) returns (j: nat)
    requires n <= |files| && p in FilesOf(role, files, n)
    ensures j < n && p == Full(role, files[j].path)
  {
    hide Full;
    if p == Full(role, files[n - 1].path) { j := n - 1; } else { j := FilesOfFrom(role, files, n - 1, p); }
  }

  /** The role's directory and every directory above its first `n` files. */
  function DirectoriesOf(role: Role, files: seq<Planned>, n: nat): set<Path>
    requires n <= |files|
  {
    {[RoleName(role)]} + set j, k | 0 <= j < n && 1 <= k <= |files[j].path| :: Full(role, files[j].path)[..k]
  }

  /** No path of the role. */
  predicate Foreign(role: Role, paths: set<Path>) {
    forall p | p in paths :: p == [] || p[0] != RoleName(role)
  }

  lemma {:induction false} DirectoriesGrow(role: Role, files: seq<Planned>, n: nat)
    requires n < |files|
    ensures DirectoriesOf(role, files, n + 1) == DirectoriesOf(role, files, n) + Prefixes(Full(role, files[n].path)) + {[RoleName(role)]}
  {
    var full := Full(role, files[n].path);
    assert |full| == 1 + |files[n].path|;
    forall p | p in DirectoriesOf(role, files, n + 1)
      ensures p in DirectoriesOf(role, files, n) + Prefixes(full) + {[RoleName(role)]}
    {
      if p != [RoleName(role)] {
        var j, k :| 0 <= j < n + 1 && 1 <= k <= |files[j].path| && p == Full(role, files[j].path)[..k];
        if j == n { assert p == full[..k] && 1 <= k < |full|; }
      }
    }
    forall p | p in Prefixes(full) ensures p in DirectoriesOf(role, files, n + 1) {
      var k :| 1 <= k < |full| && p == full[..k];
      assert 0 <= n < n + 1 && p == Full(role, files[n].path)[..k];
    }
  }

  lemma {:induction false} FullPrefix(role: Role, p: Path, q: Path, k: nat)
    requires 1 <= k <= |q| && Full(role, p) == Full(role, q)[..k] && p != []
    ensures ProperPrefix(p, q)
  {
    assert p == Full(role, p)[1..] && q == Full(role, q)[1..];
    assert |p| == k - 1;
  }

  lemma {:induction false} FullSame(role: Role, p: Path, q: Path)
    requires Full(role, p) == Full(role, q)
    ensures p == q
  {
    assert p == Full(role, p)[1..] && q == Full(role, q)[1..];
  }

  lemma {:induction false} TakenTwice(role: Role, files: seq<Planned>, n: nat)
    requires n < |files| && Full(role, files[n].path) in FilesOf(role, files, n)
    ensures !Fits(files)
  {
    hide Full, PrefixFree;
    var j := FilesOfFrom(role, files, n, Full(role, files[n].path));
    FullSame(role, files[n].path, files[j].path);
  }

  lemma {:induction false} FileIsDirectory(role: Role, files: seq<Planned>, n: nat)
    requires n < |files| && Undotted(files) && Full(role, files[n].path) in DirectoriesOf(role, files, n)
    ensures !Fits(files)
  {
    hide ProperPrefix, Dotted;
    var full := Full(role, files[n].path);
    assert |full| >= 2;
    var j, k :| 0 <= j < n && 1 <= k <= |files[j].path| && full == Full(role, files[j].path)[..k];
    FullPrefix(role, files[n].path, files[j].path, k);
  }

  lemma {:induction false} DirectoryIsFile(role: Role, files: seq<Planned>, n: nat, p: Path)
    requires n < |files| && Undotted(files) && p in Prefixes(Full(role, files[n].path)) && p in FilesOf(role, files, n)
    ensures !Fits(files)
  {
    hide ProperPrefix, Dotted;
    var full := Full(role, files[n].path);
    var k :| 1 <= k < |full| && p == full[..k];
    var j := FilesOfFrom(role, files, n, p);
    FullPrefix(role, files[j].path, files[n].path, k);
  }

  lemma {:induction false} OwnPaths(role: Role, path: Path, others: set<Path>)
    requires Foreign(role, others)
    ensures Full(role, path) !in others && Prefixes(Full(role, path)) !! others
  {
    var full := Full(role, path);
    assert full[0] == RoleName(role);
    forall p | p in Prefixes(full) ensures p !in others {
      var k :| 1 <= k < |full| && p == full[..k];
      assert p[0] == RoleName(role);
    }
  }

  /** A file that collides with what the role has built so far breaks the plan. */
  lemma {:induction false} CollisionMeans(role: Role, files: seq<Planned>, n: nat, others: set<Path>, taken: set<Path>)
    requires n < |files| && Undotted(files) && Foreign(role, others) && Foreign(role, taken)
    requires var full := Full(role, files[n].path);
             || full in others + FilesOf(role, files, n).Keys || full in taken + DirectoriesOf(role, files, n)
             || Prefixes(full) * (others + FilesOf(role, files, n).Keys) != {}
    ensures !Fits(files)
  {
    var full := Full(role, files[n].path);
    OwnPaths(role, files[n].path, others);
    OwnPaths(role, files[n].path, taken);
    hide Full, Fits, Prefixes, DirectoriesOf, Foreign, Undotted;
    if full in FilesOf(role, files, n) {
      TakenTwice(role, files, n);
    } else if full in DirectoriesOf(role, files, n) {
      FileIsDirectory(role, files, n);
    } else {
      var p :| p in Prefixes(full) * (others + FilesOf(role, files, n).Keys);
      DirectoryIsFile(role, files, n, p);
    }
  }

  /** Two planned files get on. */
  predicate Apart(a: Planned, b: Planned) {
    a.path != b.path && !ProperPrefix(a.path, b.path) && !ProperPrefix(b.path, a.path)
  }

  lemma {:induction false} FitsApart(files: seq<Planned>)
    ensures Fits(files) <==> forall i, j | 0 <= i < j < |files| :: Apart(files[i], files[j])
  {
    if forall i, j | 0 <= i < j < |files| :: Apart(files[i], files[j]) {
      forall i, j | 0 <= i < |files| && 0 <= j < |files| ensures !ProperPrefix(files[i].path, files[j].path) {
        if i < j { assert Apart(files[i], files[j]); }
        if j < i { assert Apart(files[j], files[i]); }
      }
    }
  }

  lemma {:induction false} EarlierApart(role: Role, files: seq<Planned>, n: nat, j: nat, marked: set<Path>, built: map<Path, Bytes>)
    requires j < n < |files| && Undotted(files)
    requires var full := Full(role, files[n].path);
             && full !in FilesOf(role, files, n) && full !in DirectoriesOf(role, files, n)
             && FilesOf(role, files, n).Keys <= built.Keys && Prefixes(full) <= marked && marked !! built.Keys
    ensures Apart(files[j], files[n])
  {
    hide Dotted;
    var full, other := Full(role, files[n].path), Full(role, files[j].path);
    FilesOfIn(role, files, n, j);
    FullProper(role, files[n].path, files[j].path);
    FullProper(role, files[j].path, files[n].path);
  }

  lemma {:induction false} FullProper(role: Role, p: Path, q: Path)
    requires p != []
    ensures ProperPrefix(p, q) ==> Full(role, p) in Prefixes(Full(role, q))
    ensures ProperPrefix(p, q) ==> exists k :: 1 <= k <= |q| && Full(role, p) == Full(role, q)[..k]
  {
    if ProperPrefix(p, q) {
      var k := |p| + 1;
      assert Full(role, q)[..k] == Full(role, p);
    }
  }

  /** A file that collides with nothing extends a plan that fits. */
  lemma {:induction false} FitsGrows(role: Role, files: seq<Planned>, n: nat, marked: set<Path>, built: map<Path, Bytes>)
    requires n < |files| && Undotted(files) && Fits(files[..n])
    requires var full := Full(role, files[n].path);
             && full !in FilesOf(role, files, n) && full !in DirectoriesOf(role, files, n)
             && FilesOf(role, files, n).Keys <= built.Keys && Prefixes(full) <= marked && marked !! built.Keys
    ensures Fits(files[..n + 1])
  {
    var grown := files[..n + 1];
    FitsApart(files[..n]);
    FitsApart(grown);
    hide Fits, Apart, DirectoriesOf, Prefixes, Full, Undotted;
    forall i, j | 0 <= i < j < |grown| ensures Apart(grown[i], grown[j]) {
      if j < n {
        assert grown[i] == files[..n][i] && grown[j] == files[..n][j];
      } else {
        EarlierApart(role, files, n, i, marked, built);
      }
    }
  }

  /** Whatever lies in a directory below the root, its marker lies beside it. */
  predicate Guarded(disk: map<Path, Node>) {
    forall p | p in disk && |p| >= 2 :: MarkerOf(p[..|p| - 1]) in disk
  }

  lemma {:induction false} GuardedGrows(disk: map<Path, Node>, p: Path, node: Node)
    requires Guarded(disk) && (|p| >= 2 ==> MarkerOf(p[..|p| - 1]) in disk || MarkerOf(p[..|p| - 1]) == p)
    ensures Guarded(disk[p := node])
  {
    hide MarkerOf;
  }

  lemma {:induction false} MarkerThere(disk: map<Path, Node>, marked: set<Path>, files: map<Path, Bytes>, d: Path)
    requires Built(disk, marked, files) && d in marked
    ensures MarkerOf(d) in disk
  {
  }

  /** Every one of these files is there with its bytes. */
  predicate AllThere(disk: map<Path, Node>, files: map<Path, Bytes>) {
    forall p | p in files :: p in disk && disk[p] == Complete(files[p])
  }

  lemma {:induction false} AllThereGrows(disk: map<Path, Node>, files: map<Path, Bytes>, p: Path, node: Node)
    requires AllThere(disk, files) && p !in files
    ensures AllThere(disk[p := node], files)
  {
  }

  lemma {:induction false} TreeFiles(directories: set<Path>, files: map<Path, Bytes>, marked: set<Path>)
    ensures AllThere(Tree(directories, files, marked), files)
  {
  }

  // ---------- The installer ----------

  class Installer {
    var disk: map<Path, Node>
    var stepsLeft: nat
    var marked: set<Path>

    /** mkdir, which refuses what exists or has no directory above it. */
    method MakeDirectory(d: Path) returns (r: Outcome)
      requires d != []
      modifies this`disk, this`stepsLeft
      ensures r.Crashed? ==> old(stepsLeft) == 0 == stepsLeft
      ensures r.Refused? ==> d in old(disk) || !(d[..|d| - 1] in old(disk) && old(disk)[d[..|d| - 1]] == Directory)
      ensures r.Done? ==> d !in old(disk) && stepsLeft == old(stepsLeft) - 1
      ensures disk == if r.Done? then old(disk)[d := Directory] else old(disk)
    {
      if stepsLeft == 0 { return Crashed; }
      var parent := d[..|d| - 1];
      if d in disk || parent !in disk || disk[parent] != Directory { return Refused; }
      disk, stepsLeft := disk[d := Directory], stepsLeft - 1;
      r := Done;
    }

    /** `publishFile`: an exclusive creation, then the contents. */
    method PublishFile(p: Path, bytes: Bytes) returns (r: Outcome)
      requires p != []
      modifies this`disk, this`stepsLeft
      ensures r.Crashed? ==> stepsLeft == 0 && (disk == old(disk) || (p !in old(disk) && disk == old(disk)[p := Partial]))
      ensures r.Refused? ==> disk == old(disk) && (p in disk || !(p[..|p| - 1] in disk && disk[p[..|p| - 1]] == Directory))
      ensures r.Done? ==> p !in old(disk) && disk == old(disk)[p := Complete(bytes)]
    {
      if stepsLeft == 0 { return Crashed; }
      var parent := p[..|p| - 1];
      if p in disk || parent !in disk || disk[parent] != Directory { return Refused; }
      disk, stepsLeft := disk[p := Partial], stepsLeft - 1;
      if stepsLeft == 0 { return Crashed; }
      ghost var before := old(disk);
      disk, stepsLeft := disk[p := Complete(bytes)], stepsLeft - 1;
      assert disk == before[p := Complete(bytes)];
      r := Done;
    }

    /** `initializeDirectory`: the directory, then the marker in it. */
    method InitializeDirectory(d: Path, ghost files: map<Path, Bytes>) returns (r: Outcome)
      requires Built(disk, marked, files) && d != [] && !Dotted(d) && d !in marked && (|d| == 1 || d[..|d| - 1] in marked)
      requires Guarded(disk)
      modifies this
      ensures Guarded(disk)
      ensures r.Done? ==> Built(disk, marked, files) && marked == old(marked) + {d}
      ensures r.Refused? ==> d in files
      ensures r.Crashed? ==> stepsLeft == 0
      ensures disk.Keys <= old(disk.Keys) + {d, MarkerOf(d)}
    {
      hide Guarded;
      ghost var before := disk;
      ParentThere(disk, marked, files, d);
      if |d| >= 2 { MarkerThere(disk, marked, files, d[..|d| - 1]); }
      GuardedGrows(disk, d, Directory);
      TreeHas(marked, files, d);
      r := MakeDirectory(d);
      if !r.Done? { return; }
      MarkerFree(marked, files, d);
      MarkerDotted(d);
      assert MarkerOf(d)[..|d|] == d && MarkerOf(d) != d;
      GuardedGrows(disk, MarkerOf(d), Partial);
      GuardedGrows(disk, MarkerOf(d), Complete(INCOMPLETE));
      r := PublishFile(MarkerOf(d), INCOMPLETE);
      if !r.Done? { return; }
      GrowsDirectory(before, marked, files, d);
      marked := marked + {d};
    }

    /** The directories above a planned file that are not there yet, from the role's directory down. */
    method MakeParents(full: Path, ghost files: map<Path, Bytes>) returns (r: Outcome)
      requires Built(disk, marked, files) && |full| >= 2 && full[..1] in marked && !Dotted(full) && Guarded(disk)
      modifies this
      ensures Guarded(disk)
      ensures r.Done? ==> Built(disk, marked, files) && marked == old(marked) + Prefixes(full)
      ensures r.Refused? ==> Prefixes(full) * files.Keys != {}
      ensures r.Crashed? ==> stepsLeft == 0
      ensures forall p | p in disk && p !in old(disk) :: |p| >= 2
    {
      hide Built, Dotted, Guarded;
      var k := 2;
      while k < |full|
        invariant 2 <= k <= |full|
        invariant Guarded(disk) && Built(disk, marked, files) && forall x | 1 <= x < k :: full[..x] in marked
        invariant old(marked) <= marked && forall d | d in marked :: d in old(marked) || d in Prefixes(full)
        invariant forall p | p in disk && p !in old(disk) :: |p| >= 2
      {
        var parent := full[..k];
        assert parent[..k - 1] == full[..k - 1];
        assert parent in Prefixes(full);
        PrefixClean(full, k);
        if parent !in marked {
          r := InitializeDirectory(parent, files);
          if !r.Done? {
            assert r.Refused? ==> parent in Prefixes(full) * files.Keys;
            return;
          }
        }
        k := k + 1;
      }
      r := Done;
    }

    /** One planned file: its directories, then the file. */
    method InstallFile(role: Role, planned: Planned, ghost files: map<Path, Bytes>) returns (r: Outcome)
      requires Built(disk, marked, files) && [RoleName(role)] in marked && planned.path != [] && !Dotted(planned.path) && Guarded(disk)
      modifies this
      ensures Guarded(disk)
      ensures var full := Full(role, planned.path);
              && (r.Done? ==> full !in files && full !in old(marked) && marked == old(marked) + Prefixes(full) && Built(disk, marked, files[full := planned.bytes]))
              && (r.Refused? ==> full in files || full in old(marked) || Prefixes(full) * files.Keys != {})
              && (r.Crashed? ==> stepsLeft == 0)
              && forall p | p in disk && p !in old(disk) :: |p| >= 2
    {
      hide Built, Dotted, Tree, Guarded;
      var full := Full(role, planned.path);
      FullClean(role, planned.path);
      r := MakeParents(full, files);
      if !r.Done? { return; }
      assert full[..|full| - 1] in Prefixes(full);
      NotOwnPrefix(full);
      ParentThere(disk, marked, files, full);
      BuiltHas(disk, marked, files, full);
      ghost var before := disk;
      MarkerThere(disk, marked, files, full[..|full| - 1]);
      GuardedGrows(disk, full, Partial);
      GuardedGrows(disk, full, Complete(planned.bytes));
      r := PublishFile(full, planned.bytes);
      if r.Done? { GrowsFile(before, marked, files, full, planned.bytes); }
    }

    /** One role: its directory, then its files. */
    method InstallRole(role: Role, planned: seq<Planned>, ghost files: map<Path, Bytes>) returns (r: Outcome)
      requires Built(disk, marked, files) && Undotted(planned) && Foreign(role, marked) && Foreign(role, files.Keys) && Guarded(disk)
      modifies this
      ensures Guarded(disk)
      ensures r.Done? ==>
                && Fits(planned) && marked == old(marked) + DirectoriesOf(role, planned, |planned|)
                && Built(disk, marked, files + FilesOf(role, planned, |planned|))
      ensures r.Refused? ==> !Fits(planned)
      ensures r.Crashed? ==> stepsLeft == 0
      ensures forall p | p in disk && p !in old(disk) :: p == [RoleName(role)] || |p| >= 2
    {
      hide Built, Dotted, Tree, Fits, DirectoriesOf, Foreign, FilesOf, Prefixes, Full, Undotted, Guarded;
      var root := [RoleName(role)];
      RootFacts(role, planned, disk, marked, files);
      r := InitializeDirectory(root, files);
      if !r.Done? { return; }
      ghost var built := files;
      for i := 0 to |planned|
        invariant Guarded(disk) && Built(disk, marked, built) && built == files + FilesOf(role, planned, i)
        invariant marked == old(marked) + DirectoriesOf(role, planned, i) && root in marked && Fits(planned[..i])
        invariant forall p | p in disk && p !in old(disk) :: p == root || |p| >= 2
      {
        NextPlanned(planned, i);
        r := InstallFile(role, planned[i], built);
        if !r.Done? {
          if r.Refused? { CollisionMeans(role, planned, i, files.Keys, old(marked)); }
          return;
        }
        DirectoriesGrow(role, planned, i);
        BuiltApart(disk, marked, built[Full(role, planned[i].path) := planned[i].bytes]);
        FitsGrows(role, planned, i, marked, built);
        FilesGrow(role, planned, i, files);
        built := built[Full(role, planned[i].path) := planned[i].bytes];
      }
      assert planned[..|planned|] == planned;
      r := Done;
    }

    /** The markers go, in whatever order the set yields its directories. */
    method Unmark(ghost files: map<Path, Bytes>) returns (r: Outcome)
      requires Built(disk, marked, files)
      modifies this`disk, this`stepsLeft
      ensures !r.Refused? && AllThere(disk, files)
      ensures r.Done? ==> disk == Tree(marked, files, {})
      ensures r.Crashed? ==> stepsLeft == 0
      ensures disk.Keys <= old(disk.Keys)
    {
      hide AllThere;
      var remaining := marked;
      while remaining != {}
        invariant remaining <= marked && disk == Tree(marked, files, remaining) && disk.Keys <= old(disk.Keys)
        decreases |remaining|
      {
        TreeFiles(marked, files, remaining);
        if stepsLeft == 0 { return Crashed; }
        var d :| d in remaining;
        Unmarked(marked, files, remaining, d);
        disk, stepsLeft := disk - {MarkerOf(d)}, stepsLeft - 1;
        remaining := remaining - {d};
      }
      TreeFiles(marked, files, {});
      r := Done;
    }

    /** The last part: markers off, then compose.yaml, then generation.json. */
    method Finish(compose: Bytes, manifest: Bytes, ghost files: map<Path, Bytes>) returns (r: Outcome)
      requires Built(disk, marked, files) && [COMPOSE] !in marked + files.Keys && [GENERATION] !in marked + files.Keys
      modifies this
      ensures !r.Refused? && (r.Crashed? ==> stepsLeft == 0) && AllThere(disk, files)
      ensures var final := Tree(old(marked), files[[COMPOSE] := compose][[GENERATION] := manifest], {});
              && (r.Done? ==> disk == final)
              && ([GENERATION] in disk ==> disk[[GENERATION] := Complete(manifest)] == final)
    {
      hide Built, Dotted, Tree, AllThere;
      FinishFacts(disk, marked, files, compose, manifest);
      r := Unmark(files);
      if !r.Done? { return; }
      AllThereGrows(disk, files, [COMPOSE], Partial);
      AllThereGrows(disk, files, [COMPOSE], Complete(compose));
      r := PublishFile([COMPOSE], compose);
      if !r.Done? { return; }
      AllThereGrows(disk, files, [GENERATION], Partial);
      AllThereGrows(disk, files, [GENERATION], Complete(manifest));
      r := PublishFile([GENERATION], manifest);
    }

    /**
      The installation below a fresh root.  It is done exactly when the planned paths fit
      together, provided no crash comes between; it then leaves exactly the planned tree.
      In every crash state a generation.json means that the tree is the planned one, no
      marker among it, but for the writing of that file itself; and unless every planned
      file is in place, nothing lies in a directory without its marker.
    */
    method Install(plan: Role -> seq<Planned>, compose: Bytes, manifest: Bytes) returns (r: Outcome)
      requires disk == map[] && marked == {} && forall role :: Undotted(plan(role))
      modifies this
      ensures r.Done? ==> disk == FinalTree(plan, compose, manifest) && forall role :: Fits(plan(role))
      ensures r.Refused? ==> exists role :: !Fits(plan(role))
      ensures r.Crashed? ==> stepsLeft == 0
      ensures Guarded(disk) || AllThere(disk, PlannedFiles(plan, |ROLES|))
      ensures [GENERATION] in disk ==> disk[[GENERATION] := Complete(manifest)] == FinalTree(plan, compose, manifest)
    {
      hide Built, Dotted, Tree, Fits, DirectoriesOf, FilesOf, Undotted, AllThere;
      if stepsLeft == 0 { return Crashed; }
      disk, stepsLeft := map[[] := Directory], stepsLeft - 1;
      ghost var files: map<Path, Bytes> := map[];
      RootBuilt();
      for n := 0 to |ROLES|
        invariant Built(disk, marked, files) && files == PlannedFiles(plan, n) && marked == PlannedDirectories(plan, n)
        invariant forall k | 0 <= k < n :: Fits(plan(ROLES[k]))
        invariant [GENERATION] !in disk && Guarded(disk)
      {
        ForeignSoFar(plan, n);
        r := InstallRole(ROLES[n], plan(ROLES[n]), files);
        if !r.Done? { return; }
        files := files + FilesOf(ROLES[n], plan(ROLES[n]), |plan(ROLES[n])|);
      }
      AllRoles(plan);
      RootNamesFree(plan);
      r := Finish(compose, manifest, files);
    }
  }

  lemma {:induction false} Unmarked(marked: set<Path>, files: map<Path, Bytes>, remaining: set<Path>, d: Path)
    requires Clean(marked) && Clean(files.Keys) && remaining <= marked && d in remaining
    ensures Tree(marked, files, remaining) - {MarkerOf(d)} == Tree(marked, files, remaining - {d})
    ensures MarkerOf(d) in Tree(marked, files, remaining)
  {
    MarkerDotted(d);
    forall e | e in remaining && e != d ensures MarkerOf(e) != MarkerOf(d) {
      assert MarkerOf(e)[..|MarkerOf(e)| - 1] == e && MarkerOf(d)[..|MarkerOf(d)| - 1] == d;
    }
  }

  lemma {:induction false} FinishFacts(disk: map<Path, Node>, marked: set<Path>, files: map<Path, Bytes>, compose: Bytes, manifest: Bytes)
    requires Built(disk, marked, files) && [COMPOSE] !in marked + files.Keys && [GENERATION] !in marked + files.Keys
    ensures [COMPOSE] !in disk && [GENERATION] !in disk
    ensures var tree := Tree(marked, files, {});
            && [] in tree && tree[[]] == Directory && [COMPOSE] !in tree && [GENERATION] !in tree
            && tree[[COMPOSE] := Complete(compose)][[GENERATION] := Complete(manifest)]
               == Tree(marked, files[[COMPOSE] := compose][[GENERATION] := manifest], {})
  {
    assert !Dotted([COMPOSE]) && !Dotted([GENERATION]);
    BuiltHas(disk, marked, files, [COMPOSE]);
    BuiltHas(disk, marked, files, [GENERATION]);
    assert Markers({}) == {};
    assert Tree(marked, files, {})[[COMPOSE] := Complete(compose)][[GENERATION] := Complete(manifest)]
        == Tree(marked, files[[COMPOSE] := compose][[GENERATION] := manifest], {});
  }

  // ---------- The whole plan ----------

  function PlannedFiles(plan: Role -> seq<Planned>, n: nat): map<Path, Bytes>
    requires n <= |ROLES|
  {
    if n == 0 then map[]
    else PlannedFiles(plan, n - 1) + FilesOf(ROLES[n - 1], plan(ROLES[n - 1]), |plan(ROLES[n - 1])|)
  }

  function PlannedDirectories(plan: Role -> seq<Planned>, n: nat): set<Path>
    requires n <= |ROLES|
  {
    if n == 0 then {}
    else PlannedDirectories(plan, n - 1) + DirectoriesOf(ROLES[n - 1], plan(ROLES[n - 1]), |plan(ROLES[n - 1])|)
  }

  /** Every planned file with its bytes, the directories above them, compose.yaml and generation.json; nothing else. */
  function FinalTree(plan: Role -> seq<Planned>, compose: Bytes, manifest: Bytes): map<Path, Node> {
    Tree(PlannedDirectories(plan, |ROLES|), PlannedFiles(plan, |ROLES|)[[COMPOSE] := compose][[GENERATION] := manifest], {})
  }

  lemma {:induction false} RootBuilt()
    ensures Built(map[[] := Directory], {}, map[])
  {
    assert Markers({}) == {};
  }

  lemma {:induction false} FullHead(role: Role, path: Path)
    ensures Full(role, path) != [] && Full(role, path)[0] == RoleName(role)
    ensures forall k | 1 <= k <= |path| :: Full(role, path)[..k] != [] && Full(role, path)[..k][0] == RoleName(role)
  {
  }

  /** Paths of one role begin with its name. */
  lemma {:induction false} OwnNames(role: Role, files: seq<Planned>)
    ensures forall p | p in FilesOf(role, files, |files|) :: p != [] && p[0] == RoleName(role)
    ensures forall p | p in DirectoriesOf(role, files, |files|) :: p != [] && p[0] == RoleName(role)
  {
    hide Full, RoleName, FilesOf;
    forall p | p in FilesOf(role, files, |files|) ensures p != [] && p[0] == RoleName(role) {
      var j := FilesOfFrom(role, files, |files|, p);
      FullHead(role, files[j].path);
    }
    forall p | p in DirectoriesOf(role, files, |files|) ensures p != [] && p[0] == RoleName(role) {
      if p != [RoleName(role)] {
        var j, k :| 0 <= j < |files| && 1 <= k <= |files[j].path| && p == Full(role, files[j].path)[..k];
        FullHead(role, files[j].path);
      }
    }
  }

  lemma {:induction false} DistinctRoles(i: nat, j: nat)
    requires i < |ROLES| && j < |ROLES| && i != j
    ensures RoleName(ROLES[i]) != RoleName(ROLES[j])
    ensures RoleName(ROLES[i]) != COMPOSE && RoleName(ROLES[i]) != GENERATION
  {
    assert RoleName(ROLES[0])[0] == 's' && RoleName(ROLES[1])[0] == 'w' && RoleName(ROLES[2])[0] == 'o' && RoleName(ROLES[3])[0] == 'r';
    assert COMPOSE[0] == 'c' && GENERATION[0] == 'g';
  }

  lemma {:induction false} NamesSoFar(plan: Role -> seq<Planned>, n: nat)
    requires n <= |ROLES|
    ensures forall p | p in PlannedFiles(plan, n) :: p != [] && exists k :: 0 <= k < n && p[0] == RoleName(ROLES[k])
    ensures forall p | p in PlannedDirectories(plan, n) :: p != [] && exists k :: 0 <= k < n && p[0] == RoleName(ROLES[k])
  {
    hide FilesOf, DirectoriesOf, RoleName;
    if n > 0 {
      NamesSoFar(plan, n - 1);
      OwnNames(ROLES[n - 1], plan(ROLES[n - 1]));
    }
  }

  lemma {:induction false} ForeignSoFar(plan: Role -> seq<Planned>, n: nat)
    requires n < |ROLES|
    ensures Foreign(ROLES[n], PlannedFiles(plan, n).Keys) && Foreign(ROLES[n], PlannedDirectories(plan, n))
    ensures [GENERATION] != [RoleName(ROLES[n])]
  {
    hide RoleName, PlannedFiles, PlannedDirectories;
    NamesSoFar(plan, n);
    DistinctRoles(n, if n == 0 then 1 else 0);
    forall k | 0 <= k < n ensures RoleName(ROLES[k]) != RoleName(ROLES[n]) { DistinctRoles(k, n); }
    assert [GENERATION][0] == GENERATION && [RoleName(ROLES[n])][0] == RoleName(ROLES[n]);
  }

  lemma {:induction false} RootNamesFree(plan: Role -> seq<Planned>)
    ensures var taken := PlannedDirectories(plan, |ROLES|) + PlannedFiles(plan, |ROLES|).Keys;
            [COMPOSE] !in taken && [GENERATION] !in taken
  {
    hide RoleName, PlannedFiles, PlannedDirectories;
    NamesSoFar(plan, |ROLES|);
    forall k | 0 <= k < |ROLES| ensures RoleName(ROLES[k]) != COMPOSE && RoleName(ROLES[k]) != GENERATION {
      DistinctRoles(k, if k == 0 then 1 else 0);
    }
    assert [COMPOSE][0] == COMPOSE && [GENERATION][0] == GENERATION;
  }

  lemma {:induction false} AllRoles(plan: Role -> seq<Planned>)
    ensures (forall k | 0 <= k < |ROLES| :: Fits(plan(ROLES[k]))) ==> forall role :: Fits(plan(role))
  {
    assert ROLES[0] == Server && ROLES[1] == Worker && ROLES[2] == Operator && ROLES[3] == Recovery;
    if forall k | 0 <= k < |ROLES| :: Fits(plan(ROLES[k])) {
      forall role ensures Fits(plan(role)) {
        match role
        case Server => assert Fits(plan(ROLES[0]));
        case Worker => assert Fits(plan(ROLES[1]));
        case Operator => assert Fits(plan(ROLES[2]));
        case Recovery => assert Fits(plan(ROLES[3]));
      }
    }
  }

  lemma {:induction false} NextPlanned(planned: seq<Planned>, i: nat)
    requires Undotted(planned) && i < |planned|
    ensures planned[i].path != [] && !Dotted(planned[i].path)
  {
  }

  lemma {:induction false} FilesGrow(role: Role, planned: seq<Planned>, i: nat, files: map<Path, Bytes>)
    requires i < |planned|
    ensures (files + FilesOf(role, planned, i))[Full(role, planned[i].path) := planned[i].bytes] == files + FilesOf(role, planned, i + 1)
  {
  }

  lemma {:induction false} BuiltApart(disk: map<Path, Node>, marked: set<Path>, files: map<Path, Bytes>)
    requires Built(disk, marked, files)
    ensures marked !! files.Keys
  {
  }

  lemma {:induction false} RootFacts(role: Role, planned: seq<Planned>, disk: map<Path, Node>, marked: set<Path>, files: map<Path, Bytes>)
    requires Built(disk, marked, files) && Foreign(role, marked) && Foreign(role, files.Keys)
    ensures var root := [RoleName(role)];
            && !Dotted(root) && root !in marked && root !in files && files + FilesOf(role, planned, 0) == files
            && DirectoriesOf(role, planned, 0) == {root} && Fits(planned[..0])
  {
    assert [RoleName(role)][0] == RoleName(role);
  }

  lemma {:induction false} BuiltHas(disk: map<Path, Node>, marked: set<Path>, files: map<Path, Bytes>, p: Path)
    requires Built(disk, marked, files) && p != [] && !Dotted(p)
    ensures p in disk <==> p in marked || p in files
  {
    TreeHas(marked, files, p);
  }

  lemma {:induction false} FullClean(role: Role, path: Path)
    requires path != [] && !Dotted(path)
    ensures var full := Full(role, path);
            |full| >= 2 && full[..1] == [RoleName(role)] && !Dotted(full)
  {
    var full := Full(role, path);
    forall i | 0 <= i < |full| ensures full[i][0] != '.' {
      if i > 0 { assert full[i] == path[i - 1]; }
    }
  }

  lemma {:induction false} PrefixClean(full: Path, k: nat)
    requires k <= |full| && !Dotted(full)
    ensures !Dotted(full[..k])
  {
  }

  lemma {:induction false} NotOwnPrefix(full: Path)
    ensures full !in Prefixes(full)
  {
  }
}
