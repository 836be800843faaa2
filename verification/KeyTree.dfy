/**
  The tree a key-generation install leaves, told from the plan alone
  (scripts/src/key-generation-install.ts:483-542).
*/
module KeyTree {
  import opened Wrappers
  import opened KeyInstall

  /** The place of a role's path below the generation root. */
  function Place(role: Role, path: Path): Path {
    match role
    case Server => ["server"] + path
    case Worker => ["worker"] + path
    case Operator => ["operator"] + path
    case Recovery => ["recovery"] + path
  }

  predicate IsFile(plan: Role -> seq<Planned>, role: Role, i: nat, p: Path, bytes: Bytes) {
    i < |plan(role)| && p == Place(role, plan(role)[i].path) && bytes == plan(role)[i].bytes
  }

  /** A planned file. */
  ghost predicate FileAt(plan: Role -> seq<Planned>, p: Path, bytes: Bytes) {
    exists role, i :: IsFile(plan, role, i, p, bytes)
  }

  predicate IsAbove(plan: Role -> seq<Planned>, role: Role, i: nat, k: nat, p: Path) {
    i < |plan(role)| && k < |plan(role)[i].path| && p == Place(role, plan(role)[i].path[..k])
  }

  /** The root, the directory of a role, or one above a planned file. */
  ghost predicate DirectoryAt(plan: Role -> seq<Planned>, p: Path) {
    || p == []
    || (exists role :: p == Place(role, []))
    || (exists role, i, k :: IsAbove(plan, role, i, k, p))
  }

  /** Exactly the planned files with their bytes, the directories they need, compose.yaml and generation.json. */
  ghost predicate Exactly(plan: Role -> seq<Planned>, compose: Bytes, manifest: Bytes, disk: map<Path, Node>) {
    && (forall p, bytes :: p in disk && disk[p] == Complete(bytes) <==>
          FileAt(plan, p, bytes) || (p == ["compose.yaml"] && bytes == compose) || (p == ["generation.json"] && bytes == manifest))
    && (forall p :: p in disk && disk[p] == Directory <==> DirectoryAt(plan, p))
    && (forall p | p in disk :: !disk[p].Partial?)
  }

  lemma {:induction false} PlaceIs(role: Role, path: Path)
    ensures Place(role, path) == Full(role, path)
  {
  }

  lemma {:induction false} RoleAt(role: Role) returns (n: nat)
    ensures n < |ROLES| && ROLES[n] == role
  {
    match role
    case Server => n := 0;
    case Worker => n := 1;
    case Operator => n := 2;
    case Recovery => n := 3;
  }

  /** A file of this role. */
  ghost predicate RoleFileAt(plan: Role -> seq<Planned>, role: Role, p: Path, bytes: Bytes) {
    exists i :: IsFile(plan, role, i, p, bytes)
  }

  ghost predicate PlannedAt(plan: Role -> seq<Planned>, n: nat, p: Path, bytes: Bytes)
    requires n <= |ROLES|
  {
    exists k :: 0 <= k < n && RoleFileAt(plan, ROLES[k], p, bytes)
  }

  /** Of paths that fit, the files of a role are there each with its own bytes. */
  lemma {:induction false} FilesAre(role: Role, files: seq<Planned>, n: nat, p: Path, bytes: Bytes)
    requires n <= |files| && Fits(files)
    ensures p in FilesOf(role, files, n) && FilesOf(role, files, n)[p] == bytes <==>
              exists i :: 0 <= i < n && p == Full(role, files[i].path) && bytes == files[i].bytes
  {
    hide Full, PrefixFree;
    if n > 0 {
      FilesAre(role, files, n - 1, p, bytes);
      if p == Full(role, files[n - 1].path) {
        forall i | 0 <= i < n && p == Full(role, files[i].path) ensures i == n - 1 { FullSame(role, files[i].path, files[n - 1].path); }
      }
    }
  }

  lemma {:induction false} RoleFilesAre(plan: Role -> seq<Planned>, role: Role, p: Path, bytes: Bytes)
    requires Fits(plan(role))
    ensures var files := FilesOf(role, plan(role), |plan(role)|);
            p in files && files[p] == bytes <==> RoleFileAt(plan, role, p, bytes)
  {
    hide Full, Place, Fits, FilesOf;
    var planned := plan(role);
    FilesAre(role, planned, |planned|, p, bytes);
    forall i: nat | i < |planned| ensures Place(role, planned[i].path) == Full(role, planned[i].path) { PlaceIs(role, planned[i].path); }
    if i :| 0 <= i < |planned| && p == Full(role, planned[i].path) && bytes == planned[i].bytes {
      assert IsFile(plan, role, i, p, bytes);
    }
    if i: nat :| IsFile(plan, role, i, p, bytes) {
      assert p == Full(role, planned[i].path);
    }
  }

  lemma {:induction false} PlannedAtStep(plan: Role -> seq<Planned>, n: nat, p: Path, bytes: Bytes)
    requires 0 < n <= |ROLES|
    ensures PlannedAt(plan, n, p, bytes) <==> PlannedAt(plan, n - 1, p, bytes) || RoleFileAt(plan, ROLES[n - 1], p, bytes)
  {
    hide RoleFileAt;
  }

  /** The files of the first `n` roles. */
  lemma {:induction false} PlannedAre(plan: Role -> seq<Planned>, n: nat, p: Path, bytes: Bytes)
    requires n <= |ROLES| && forall role :: Fits(plan(role))
    ensures p in PlannedFiles(plan, n) && PlannedFiles(plan, n)[p] == bytes <==> PlannedAt(plan, n, p, bytes)
  {
    hide Fits, FilesOf, RoleFileAt;
    if n > 0 {
      var role := ROLES[n - 1];
      PlannedAre(plan, n - 1, p, bytes);
      PlannedAtStep(plan, n, p, bytes);
      RoleFilesAre(plan, role, p, bytes);
      hide PlannedAt, ROLES;
      ForeignSoFar(plan, n - 1);
      if p in FilesOf(role, plan(role), |plan(role)|) {
        OwnNames(role, plan(role));
        assert p !in PlannedFiles(plan, n - 1).Keys;
      }
    }
  }

  lemma {:induction false} AllPlanned(plan: Role -> seq<Planned>, p: Path, bytes: Bytes)
    requires forall role :: Fits(plan(role))
    ensures p in PlannedFiles(plan, |ROLES|) && PlannedFiles(plan, |ROLES|)[p] == bytes <==> FileAt(plan, p, bytes)
  {
    hide IsFile, Fits, PlannedFiles;
    PlannedAre(plan, |ROLES|, p, bytes);
    if role, i: nat :| IsFile(plan, role, i, p, bytes) {
      var n := RoleAt(role);
      assert RoleFileAt(plan, ROLES[n], p, bytes);
    }
  }

  // ---------- Directories ----------

  ghost predicate RoleDirectoryAt(plan: Role -> seq<Planned>, role: Role, p: Path) {
    p == Place(role, []) || exists i, k :: IsAbove(plan, role, i, k, p)
  }

  ghost predicate DirectoriesAt(plan: Role -> seq<Planned>, n: nat, p: Path)
    requires n <= |ROLES|
  {
    exists x :: 0 <= x < n && RoleDirectoryAt(plan, ROLES[x], p)
  }

  lemma {:induction false} PlacePrefix(role: Role, path: Path, k: nat)
    requires k <= |path|
    ensures Full(role, path)[..k + 1] == Place(role, path[..k]) && Place(role, []) == [RoleName(role)]
  {
  }

  lemma {:induction false} RoleDirectoriesAre(plan: Role -> seq<Planned>, role: Role, p: Path)
    ensures p in DirectoriesOf(role, plan(role), |plan(role)|) <==> RoleDirectoryAt(plan, role, p)
  {
    hide Full, Place, RoleName;
    var planned := plan(role);
    PlacePrefix(role, [], 0);
    if p in DirectoriesOf(role, planned, |planned|) && p != [RoleName(role)] {
      var j, k :| 0 <= j < |planned| && 1 <= k <= |planned[j].path| && p == Full(role, planned[j].path)[..k];
      PlacePrefix(role, planned[j].path, k - 1);
      assert IsAbove(plan, role, j, k - 1, p);
    }
    if i: nat, k: nat :| IsAbove(plan, role, i, k, p) {
      PlacePrefix(role, planned[i].path, k);
      assert p == Full(role, planned[i].path)[..k + 1];
    }
  }

  lemma {:induction false} DirectoriesAre(plan: Role -> seq<Planned>, n: nat, p: Path)
    requires n <= |ROLES|
    ensures p in PlannedDirectories(plan, n) <==> DirectoriesAt(plan, n, p)
  {
    hide DirectoriesOf, RoleDirectoryAt;
    if n > 0 {
      DirectoriesAre(plan, n - 1, p);
      RoleDirectoriesAre(plan, ROLES[n - 1], p);
    }
  }

  lemma {:induction false} AllDirectories(plan: Role -> seq<Planned>, p: Path)
    ensures p in {[]} + PlannedDirectories(plan, |ROLES|) <==> DirectoryAt(plan, p)
  {
    hide IsAbove, Place, PlannedDirectories;
    DirectoriesAre(plan, |ROLES|, p);
    forall role ensures RoleDirectoryAt(plan, role, p) ==> DirectoriesAt(plan, |ROLES|, p) {
      var n := RoleAt(role);
    }
    if role :| p == Place(role, []) { assert RoleDirectoryAt(plan, role, p); }
    if role, i: nat, k: nat :| IsAbove(plan, role, i, k, p) { assert RoleDirectoryAt(plan, role, p); }
  }

  // ---------- The whole tree ----------

  /** A complete install of paths that fit leaves exactly that. */
  lemma {:induction false} FinalTreeExactly(plan: Role -> seq<Planned>, compose: Bytes, manifest: Bytes)
    requires forall role :: Fits(plan(role)) && Undotted(plan(role))
    ensures Exactly(plan, compose, manifest, FinalTree(plan, compose, manifest))
  {
    hide FileAt, DirectoryAt, PlannedFiles, PlannedDirectories, Fits, Undotted;
    forall p, bytes ensures p in PlannedFiles(plan, |ROLES|) && PlannedFiles(plan, |ROLES|)[p] == bytes <==> FileAt(plan, p, bytes) {
      AllPlanned(plan, p, bytes);
    }
    forall p ensures p in {[]} + PlannedDirectories(plan, |ROLES|) <==> DirectoryAt(plan, p) { AllDirectories(plan, p); }
    RootNamesFree(plan);
    Separate(plan);
    assert Markers({}) == {};
  }

  /** No planned file is the root or a directory of the plan. */
  lemma {:induction false} Separate(plan: Role -> seq<Planned>)
    requires forall role :: Fits(plan(role)) && Undotted(plan(role))
    ensures [] !in PlannedFiles(plan, |ROLES|) && PlannedFiles(plan, |ROLES|).Keys !! PlannedDirectories(plan, |ROLES|)
  {
    hide Fits, Undotted, PlannedFiles, PlannedDirectories;
    forall p | p in PlannedFiles(plan, |ROLES|) ensures p != [] && p !in PlannedDirectories(plan, |ROLES|) {
      AllPlanned(plan, p, PlannedFiles(plan, |ROLES|)[p]);
      var role, i: nat :| IsFile(plan, role, i, p, PlannedFiles(plan, |ROLES|)[p]);
      AllDirectories(plan, p);
      if other :| p == Place(other, []) { FileNotAbove(plan, role, i, other, []); }
      if other, j: nat, k: nat :| IsAbove(plan, other, j, k, p) { FileNotAbovePlanned(plan, role, i, other, j, k); }
    }
  }

  lemma {:induction false} SameRole(role: Role, a: Path, other: Role, b: Path)
    requires Place(role, a) == Place(other, b)
    ensures role == other && a == b
  {
    assert Place(role, a)[0] == RoleName(role) && Place(other, b)[0] == RoleName(other);
    assert Place(role, a)[1..] == a && Place(other, b)[1..] == b;
    assert RoleName(role)[0] == RoleName(other)[0];
  }

  lemma {:induction false} FileNotAbove(plan: Role -> seq<Planned>, role: Role, i: nat, other: Role, b: Path)
    requires i < |plan(role)| && Undotted(plan(role)) && Place(role, plan(role)[i].path) == Place(other, b)
    ensures b != []
  {
    SameRole(role, plan(role)[i].path, other, b);
  }

  lemma {:induction false} FileNotAbovePlanned(plan: Role -> seq<Planned>, role: Role, i: nat, other: Role, j: nat, k: nat)
    requires i < |plan(role)| && j < |plan(other)| && k < |plan(other)[j].path| && Fits(plan(role))
    ensures Place(role, plan(role)[i].path) != Place(other, plan(other)[j].path[..k])
  {
    if Place(role, plan(role)[i].path) == Place(other, plan(other)[j].path[..k]) {
      SameRole(role, plan(role)[i].path, other, plan(other)[j].path[..k]);
      assert ProperPrefix(plan(role)[i].path, plan(role)[j].path);
    }
  }

  /** What a crash leaves: something outside a marked directory only once every planned file is in place. */
  ghost predicate Interrupted(plan: Role -> seq<Planned>, disk: map<Path, Node>) {
    || (forall p | p in disk && |p| >= 2 :: p[..|p| - 1] + [".initialization-incomplete"] in disk)
    || (forall p, bytes | FileAt(plan, p, bytes) :: p in disk && disk[p] == Complete(bytes))
  }

  lemma {:induction false} InterruptedIff(plan: Role -> seq<Planned>, disk: map<Path, Node>)
    requires forall role :: Fits(plan(role))
    ensures Guarded(disk) || AllThere(disk, PlannedFiles(plan, |ROLES|)) <==> Interrupted(plan, disk)
  {
    hide FileAt, PlannedFiles, Fits;
    forall p, bytes ensures p in PlannedFiles(plan, |ROLES|) && PlannedFiles(plan, |ROLES|)[p] == bytes <==> FileAt(plan, p, bytes) {
      AllPlanned(plan, p, bytes);
    }
    forall p | p in PlannedFiles(plan, |ROLES|) ensures FileAt(plan, p, PlannedFiles(plan, |ROLES|)[p]) {}
    forall p: Path | |p| >= 2 ensures MarkerOf(p[..|p| - 1]) == p[..|p| - 1] + [".initialization-incomplete"] {}
  }
}
