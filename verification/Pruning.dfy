/**
  Crash-safe pruning of base backup generations (scripts/src/base-backup.ts).

  The directory is a mutable map from names to entries.  Every rename and removal
  spends one unit of `stepsLeft`; with none left the process dies before the
  mutation, so a run with every possible `stepsLeft` is a crash at every possible
  step.  `PruneRun` says what one such run does, and `BackupDirectory.Prune` is
  proved to do exactly that.
*/
module Pruning {
  import opened Wrappers
  import opened Calendar
  import opened Retention

  // ---------- The directory ----------

  /** The names the source's patterns tell apart. */
  datatype Name =
    | ManifestName(id: nat)   // boardagent-<id>.base.manifest.json
    | RetiredName(id: nat)    // the same with .retired appended
    | ArtifactName(id: nat)   // boardagent-<id>.base.tar.aes256gcm
    | TemporaryName(tag: nat) // a name isRecoveryTemporaryFile recognises
    | OtherName(tag: nat)

  datatype Locator = InDirectory(name: Name) | Elsewhere

  datatype Manifest = Manifest(
    backupId: nat, completedAt: Timestamp, locator: Locator, artifactBytes: nat,
    sourceDatabase: string, systemIdentifier: nat)

  /** A regular file, with what the manifest reader makes of its bytes, or something else. */
  datatype Entry = File(payload: nat, size: nat, parsed: Option<Manifest>) | NotAFile

  type Files = map<Name, Entry>

  datatype World = World(files: Files, stepsLeft: nat)

  datatype Refusal =
    | RetiredManifestUnusable(id: nat)
    | NonFileEntry
    | UnexpectedEntry
    | GenerationUnusable(id: nat)
    | OrphanArtifact
    | MixedDatabases

  datatype Outcome =
    | Crashed
    | Refused(why: Refusal)
    | Completed(kept: set<nat>, pruned: seq<nat>, resumed: nat)

  function ManifestIds(files: Files): set<nat> {
    set n | n in files && n.ManifestName? :: n.id
  }

  function RetiredIds(files: Files): set<nat> {
    set n | n in files && n.RetiredName? :: n.id
  }

  predicate Least(m: nat, s: set<nat>) {
    forall x | x in s :: m <= x
  }

  function Smallest(s: set<nat>): (m: nat)
    requires s != {}
    ensures m in s && Least(m, s)
  {
    SmallestExists(s);
    var m :| m in s && Least(m, s);
    m
  }

  lemma {:induction false} SmallestExists(s: set<nat>)
    requires s != {}
    ensures exists m :: m in s && Least(m, s)
  {
    var c :| c in s;
    if rest: nat :| rest in s - {c} {
      SmallestExists(s - {c});
      var d :| d in s - {c} && Least(d, s - {c});
      var m := if c <= d then c else d;
      forall x | x in s ensures m <= x {
        if x != c { assert x in s - {c}; }
      }
      assert m in s && Least(m, s);
    } else {
      assert forall x | x in s :: x == c || x in s - {c};
      assert Least(c, s);
    }
  }

  predicate Distinct(ids: seq<nat>) {
    forall i, j | 0 <= i < j < |ids| :: ids[i] != ids[j]
  }

  /** A listing in name order. */
  function Listing(s: set<nat>): (r: seq<nat>)
    ensures forall x :: x in r <==> x in s
    ensures Distinct(r)
  {
    if s == {} then []
    else
      var m := Smallest(s);
      [m] + Listing(s - {m})
  }

  // ---------- What one run does ----------

  /** The checks `resumeRetirements` makes before it removes anything of one marker. */
  predicate RetiredUsable(files: Files, id: nat) {
    && RetiredName(id) in files
    && files[RetiredName(id)].File?
    && files[RetiredName(id)].parsed.Some?
    && files[RetiredName(id)].parsed.value.backupId == id
    && files[RetiredName(id)].parsed.value.locator == InDirectory(ArtifactName(id))
    && (ArtifactName(id) in files ==> files[ArtifactName(id)].File?)
  }

  function Without(files: Files, n: Name): Files {
    files - {n}
  }

  /** One removal, or death before it. */
  function RemoveStep(w: World, n: Name): (World, bool) {
    if w.stepsLeft == 0 then (w, false) else (World(Without(w.files, n), w.stepsLeft - 1), true)
  }

  function RenameStep(w: World, from: Name, to: Name): (World, bool)
    requires from in w.files
  {
    if w.stepsLeft == 0 then (w, false)
    else (World(Without(w.files, from)[to := w.files[from]], w.stepsLeft - 1), true)
  }

  /** Finish one interrupted retirement: artifact first, then the marker. */
  function ResumeOne(w: World, id: nat): (World, bool) {
    if ArtifactName(id) in w.files then
      var (w1, alive) := RemoveStep(w, ArtifactName(id));
      if alive then RemoveStep(w1, RetiredName(id)) else (w1, false)
    else RemoveStep(w, RetiredName(id))
  }

  function ResumeFrom(w: World, ids: seq<nat>): (World, Option<Outcome>)
    decreases |ids|
  {
    if ids == [] then (w, None)
    else if !RetiredUsable(w.files, ids[0]) then (w, Some(Refused(RetiredManifestUnusable(ids[0]))))
    else
      var (w1, alive) := ResumeOne(w, ids[0]);
      if alive then ResumeFrom(w1, ids[1..]) else (w1, Some(Crashed))
  }

  /** The checks on one live manifest and its artifact. */
  predicate GenerationUsable(files: Files, id: nat) {
    && ManifestName(id) in files
    && files[ManifestName(id)].File?
    && files[ManifestName(id)].parsed.Some?
    && var m := files[ManifestName(id)].parsed.value;
    && m.backupId == id
    && ArtifactName(id) in files
    && m.locator == InDirectory(ArtifactName(id))
    && files[ArtifactName(id)].File?
    && files[ArtifactName(id)].size == m.artifactBytes
  }

  predicate AllUsable(files: Files, ids: seq<nat>) {
    forall id | id in ids :: GenerationUsable(files, id)
  }

  function FirstUnusable(files: Files, ids: seq<nat>): (r: Option<nat>)
    ensures r.None? <==> AllUsable(files, ids)
  {
    if ids == [] then None
    else if !GenerationUsable(files, ids[0]) then Some(ids[0])
    else
      assert forall id :: id in ids <==> id == ids[0] || id in ids[1..];
      FirstUnusable(files, ids[1..])
  }

  function ManifestOf(files: Files, id: nat): Manifest
    requires GenerationUsable(files, id)
  {
    files[ManifestName(id)].parsed.value
  }

  predicate OneDatabase(files: Files, ids: seq<nat>)
    requires AllUsable(files, ids)
  {
    forall a, b | a in ids && b in ids ::
      && ManifestOf(files, a).sourceDatabase == ManifestOf(files, b).sourceDatabase
      && ManifestOf(files, a).systemIdentifier == ManifestOf(files, b).systemIdentifier
  }

  function LiveIds(files: Files): (ids: seq<nat>)
    ensures Distinct(ids) && forall id :: id in ids <==> ManifestName(id) in files
  {
    assert forall id :: ManifestName(id) in files <==> id in ManifestIds(files);
    Listing(ManifestIds(files))
  }

  predicate HasNonFile(files: Files) {
    exists n | n in files :: files[n].NotAFile?
  }

  predicate HasUnexpected(files: Files) {
    exists n | n in files :: n.RetiredName? || n.OtherName?
  }

  predicate HasOrphan(files: Files) {
    exists n | n in files :: n.ArtifactName? && ManifestName(n.id) !in files
  }

  /** Everything the source refuses between reading the directory and pruning it. */
  function Objection(files: Files): (r: Option<Refusal>)
    ensures r.None? ==> AllUsable(files, LiveIds(files))
  {
    if HasNonFile(files) then Some(NonFileEntry)
    else if HasUnexpected(files) then Some(UnexpectedEntry)
    else
      var bad := FirstUnusable(files, LiveIds(files));
      if bad.Some? then Some(GenerationUnusable(bad.value))
      else if HasOrphan(files) then Some(OrphanArtifact)
      else if !OneDatabase(files, LiveIds(files)) then Some(MixedDatabases)
      else None
  }

  function Described(files: Files, ids: seq<nat>): (r: seq<Backup>)
    requires AllUsable(files, ids)
    ensures |r| == |ids| && forall i | 0 <= i < |ids| :: r[i] == Describe(ids[i], ManifestOf(files, ids[i]).completedAt)
  {
    if ids == [] then []
    else [Describe(ids[0], ManifestOf(files, ids[0]).completedAt)] + Described(files, ids[1..])
  }

  predicate TextBefore(a: Timestamp, b: Timestamp) {
    || a.year < b.year
    || (a.year == b.year && (
         || a.month < b.month
         || (a.month == b.month && (
              || a.day < b.day
              || (a.day == b.day && a.millis < b.millis)))))
  }

  function InsertByText(files: Files, id: nat, ids: seq<nat>): (r: seq<nat>)
    requires GenerationUsable(files, id) && AllUsable(files, ids)
    ensures multiset(r) == multiset(ids) + multiset{id}
  {
    if ids == [] || !TextBefore(ManifestOf(files, ids[0]).completedAt, ManifestOf(files, id).completedAt) then [id] + ids
    else
      assert ids == [ids[0]] + ids[1..];
      [ids[0]] + InsertByText(files, id, ids[1..])
  }

  /** The backups not kept, in order of their completion text. */
  function Doomed(files: Files, ids: seq<nat>, kept: set<nat>): (r: seq<nat>)
    requires AllUsable(files, ids)
    requires Distinct(ids)
    ensures forall id :: id in r <==> id in ids && id !in kept
    ensures Distinct(r)
  {
    if ids == [] then []
    else
      assert forall id :: id in ids <==> id == ids[0] || id in ids[1..];
      var rest := Doomed(files, ids[1..], kept);
      if ids[0] in kept then rest
      else
        var r := InsertByText(files, ids[0], rest);
        InsertedOnce(rest, ids[0], r);
        r
  }

  lemma {:induction false} InsertedOnce(ids: seq<nat>, id: nat, r: seq<nat>)
    requires multiset(r) == multiset(ids) + multiset{id} && id !in ids
    requires Distinct(ids)
    ensures forall x :: x in r <==> x == id || x in ids
    ensures Distinct(r)
  {
    forall x ensures x in r <==> x == id || x in ids {
      assert x in multiset(r) <==> x in multiset(ids) + multiset{id};
    }
    AtMostOnce(ids);
    assert forall x :: multiset(r)[x] <= 1;
    OnceEach(r);
  }

  lemma {:induction false} AtMostOnce(ids: seq<nat>)
    requires Distinct(ids)
    ensures forall x :: multiset(ids)[x] <= 1
  {
    if ids != [] {
      AtMostOnce(ids[1..]);
      assert ids == [ids[0]] + ids[1..];
      assert ids[0] !in multiset(ids[1..]);
    }
  }

  lemma {:induction false} OnceEach(r: seq<nat>)
    requires forall x :: multiset(r)[x] <= 1
    ensures Distinct(r)
  {
    forall i, j | 0 <= i < j < |r| ensures r[i] != r[j] {
      assert r == r[..i] + [r[i]] + r[i + 1..];
      assert r[j] in r[i + 1..];
      assert multiset(r)[r[i]] >= 1 + multiset(r[i + 1..])[r[i]];
    }
  }

  /** Retire one backup: rename its manifest, remove its artifact, remove the marker. */
  function PruneOne(w: World, id: nat): (World, bool)
    requires ManifestName(id) in w.files
  {
    var (w1, alive1) := RenameStep(w, ManifestName(id), RetiredName(id));
    if !alive1 then (w1, false)
    else
      var (w2, alive2) := RemoveStep(w1, ArtifactName(id));
      if !alive2 then (w2, false) else RemoveStep(w2, RetiredName(id))
  }

  predicate AllLive(files: Files, ids: seq<nat>) {
    forall i | 0 <= i < |ids| :: ManifestName(ids[i]) in files
  }

  function PruneFrom(w: World, ids: seq<nat>): (World, bool)
    requires AllLive(w.files, ids) && Distinct(ids)
    decreases |ids|
  {
    if ids == [] then (w, true)
    else
      var (w1, alive) := PruneOne(w, ids[0]);
      if alive then PruneFrom(w1, ids[1..]) else (w1, false)
  }

  /** The ids the policy keeps of the live manifests, as `chooseRetentionIds` returns them. */
  ghost function KeptIds(files: Files, ids: seq<nat>): (kept: set<nat>)
    requires AllUsable(files, ids)
    requires Distinct(ids)
  {
    var manifests := Described(files, ids);
    OrderedManifests(manifests);
    Ids(Keep(Elements(manifests)))
  }

  /** The part of a run after the interrupted retirements are finished. */
  ghost function PruneResumed(w: World, resumed: nat): (World, Outcome) {
    var objection := Objection(w.files);
    if objection.Some? then (w, Refused(objection.value))
    else
      var ids := LiveIds(w.files);
      if ids == [] then (w, Completed({}, [], resumed))
      else
        var kept := KeptIds(w.files, ids);
        var doomed := Doomed(w.files, ids, kept);
        var (w2, alive) := PruneFrom(w, doomed);
        (w2, if alive then Completed(Among(ids, kept), doomed, resumed) else Crashed)
  }

  function Among(ids: seq<nat>, kept: set<nat>): set<nat> {
    set id | id in ids && id in kept
  }

  /** A whole run of `pruneBaseBackupGenerations` that dies after `w.stepsLeft` mutations. */
  ghost function PruneRun(w: World): (World, Outcome) {
    var markers := Listing(RetiredIds(w.files));
    var (w1, stopped) := ResumeFrom(w, markers);
    if stopped.Some? then (w1, stopped.value) else PruneResumed(w1, |markers|)
  }

  // ---------- The directory as mutable state ----------

  class BackupDirectory {
    var files: Files
    var stepsLeft: nat

    ghost function State(): World
      reads this
    {
      World(files, stepsLeft)
    }

    method Remove(n: Name) returns (alive: bool)
      modifies this
      ensures (State(), alive) == RemoveStep(old(State()), n)
    {
      if stepsLeft == 0 { return false; }
      files := files - {n};
      stepsLeft := stepsLeft - 1;
      return true;
    }

    method Rename(from: Name, to: Name) returns (alive: bool)
      requires from in files
      modifies this
      ensures (State(), alive) == RenameStep(old(State()), from, to)
    {
      if stepsLeft == 0 { return false; }
      files := (files - {from})[to := files[from]];
      stepsLeft := stepsLeft - 1;
      return true;
    }

    method ResumeRetirements() returns (stopped: Option<Outcome>, resumed: nat)
      modifies this
      ensures (State(), stopped) == ResumeFrom(old(State()), Listing(RetiredIds(old(files))))
      ensures resumed == |Listing(RetiredIds(old(files)))|
    {
      var markers := Listing(RetiredIds(files));
      resumed := |markers|;
      var i := 0;
      while i < |markers|
        invariant 0 <= i <= |markers|
        invariant ResumeFrom(State(), markers[i..]) == ResumeFrom(old(State()), markers)
      {
        var id := markers[i];
        assert markers[i..][0] == id && markers[i..][1..] == markers[i + 1..];
        if !RetiredUsable(files, id) {
          return Some(Refused(RetiredManifestUnusable(id))), resumed;
        }
        if ArtifactName(id) in files {
          var removed := Remove(ArtifactName(id));
          if !removed { return Some(Crashed), resumed; }
        }
        var alive := Remove(RetiredName(id));
        if !alive { return Some(Crashed), resumed; }
        i := i + 1;
      }
      stopped := None;
    }

    /** `pruneBaseBackupGenerations`. */
    method Prune() returns (outcome: Outcome)
      modifies this
      ensures (State(), outcome) == PruneRun(old(State()))
    {
      var stopped, resumed := ResumeRetirements();
      if stopped.Some? { return stopped.value; }
      outcome := PruneGenerations(resumed);
    }

    method PruneGenerations(resumed: nat) returns (outcome: Outcome)
      modifies this
      ensures (State(), outcome) == PruneResumed(old(State()), resumed)
    {
      var objection := Objection(files);
      if objection.Some? { return Refused(objection.value); }
      var ids := LiveIds(files);
      if ids == [] { return Completed({}, [], resumed); }
      var kept := ChooseRetentionIds(Described(files, ids));
      var doomed := Doomed(files, ids, kept);
      var alive := RetireAll(doomed);
      outcome := if alive then Completed(Among(ids, kept), doomed, resumed) else Crashed;
    }

    method RetireAll(doomed: seq<nat>) returns (alive: bool)
      requires AllLive(files, doomed) && Distinct(doomed)
      modifies this
      ensures (State(), alive) == PruneFrom(old(State()), doomed)
    {
      var i := 0;
      while i < |doomed|
        invariant 0 <= i <= |doomed|
        invariant AllLive(files, doomed[i..])
        invariant PruneFrom(State(), doomed[i..]) == PruneFrom(old(State()), doomed)
      {
        var id := doomed[i];
        assert doomed[i..][0] == id && doomed[i..][1..] == doomed[i + 1..];
        alive := Rename(ManifestName(id), RetiredName(id));
        if !alive { return; }
        alive := Remove(ArtifactName(id));
        if !alive { return; }
        alive := Remove(RetiredName(id));
        if !alive { return; }
        i := i + 1;
      }
      alive := true;
    }
  }
}
