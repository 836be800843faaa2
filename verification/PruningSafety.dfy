/**
  What pruning guarantees over every run with crashes (scripts/src/base-backup.ts).

  A history maps every backup ever published to the two files it was published as;
  `lost` holds the ids of publications that died between the artifact and the manifest.
  Runs that may crash at any step, publications and temporary files interleave
  freely.  The invariant below survives all of them.  The first run that is not
  interrupted leaves exactly what one pass of the policy over the whole history keeps,
  unless an artifact was left without a manifest, which every run refuses.
*/
module PruningSafety {
  import opened Wrappers
  import opened Retention
  import opened Pruning

  datatype Generation = Generation(manifestFile: Entry, artifactFile: Entry)

  type History = map<nat, Generation>

  datatype Database = Database(name: string, system: nat)

  /** A pair as `createBaseBackup` publishes it: the manifest describes the artifact beside it. */
  predicate Sound(id: nat, g: Generation, db: Database) {
    && g.manifestFile.File? && g.manifestFile.parsed.Some? && g.artifactFile.File?
    && var m := g.manifestFile.parsed.value;
    && m.backupId == id
    && m.locator == InDirectory(ArtifactName(id))
    && m.artifactBytes == g.artifactFile.size
    && m.sourceDatabase == db.name && m.systemIdentifier == db.system
  }

  predicate SoundHistory(h: History, db: Database) {
    forall id | id in h :: Sound(id, h[id], db)
  }

  function BackupOf(h: History, id: nat): Backup
    requires id in h && h[id].manifestFile.File? && h[id].manifestFile.parsed.Some?
  {
    Describe(id, h[id].manifestFile.parsed.value.completedAt)
  }

  ghost function Published(h: History, db: Database): (s: set<Backup>)
    requires SoundHistory(h, db)
    ensures DistinctIds(s)
  {
    set id | id in h :: BackupOf(h, id)
  }

  /** The ids one pass of the policy over the whole history keeps. */
  ghost function KeptOf(h: History, db: Database): set<nat>
    requires SoundHistory(h, db)
  {
    Ids(Keep(Published(h, db)))
  }

  /** Every live manifest has its artifact, both as published; no kept backup is missing; nothing is stray but the lost artifacts. */
  ghost predicate Intact(files: Files, h: History, lost: set<nat>, kept: set<nat>) {
    && (forall n | n in files :: files[n].File? && !n.OtherName?)
    && (forall id | ManifestName(id) in files ::
          && id in h && files[ManifestName(id)] == h[id].manifestFile
          && ArtifactName(id) in files && files[ArtifactName(id)] == h[id].artifactFile
          && RetiredName(id) !in files)
    && (forall id | RetiredName(id) in files ::
          id in h && files[RetiredName(id)] == h[id].manifestFile && id !in kept)
    && (forall id | ArtifactName(id) in files :: ManifestName(id) in files || RetiredName(id) in files || id in lost)
    && (forall id | id in lost :: id !in h && ArtifactName(id) in files)
    && (forall id | id in kept :: ManifestName(id) in files)
  }

  ghost predicate Inv(files: Files, h: History, lost: set<nat>, db: Database) {
    SoundHistory(h, db) && Intact(files, h, lost, KeptOf(h, db))
  }

  /** The pairs of exactly the kept backups, as published. */
  ghost function SettledFiles(h: History, db: Database): Files
    requires SoundHistory(h, db)
  {
    PairsOf(h, KeptOf(h, db))
  }

  function PairsOf(h: History, kept: set<nat>): Files {
    (map id | id in kept && id in h :: ManifestName(id) := h[id].manifestFile)
    + (map id | id in kept && id in h :: ArtifactName(id) := h[id].artifactFile)
  }

  function Durable(files: Files): Files {
    map n | n in files && !n.TemporaryName? :: files[n]
  }

  predicate SameTemporaries(a: Files, b: Files) {
    && (forall n: Name | n in a && n.TemporaryName? :: n in b && a[n] == b[n])
    && (forall n: Name | n in b && n.TemporaryName? :: n in a)
  }

  // ---------- The mutations keep the invariant ----------

  lemma {:induction false} RemovingRetiredArtifact(files: Files, h: History, lost: set<nat>, kept: set<nat>, id: nat)
    requires Intact(files, h, lost, kept) && RetiredName(id) in files
    ensures Intact(Without(files, ArtifactName(id)), h, lost, kept)
  {
  }

  lemma {:induction false} RemovingMarker(files: Files, h: History, lost: set<nat>, kept: set<nat>, id: nat)
    requires Intact(files, h, lost, kept) && RetiredName(id) in files && ArtifactName(id) !in files
    ensures Intact(Without(files, RetiredName(id)), h, lost, kept)
  {
  }

  lemma {:induction false} Retiring(files: Files, h: History, lost: set<nat>, kept: set<nat>, id: nat)
    requires Intact(files, h, lost, kept) && ManifestName(id) in files && id !in kept
    ensures Intact(Without(files, ManifestName(id))[RetiredName(id) := files[ManifestName(id)]], h, lost, kept)
  {
  }

  // ---------- Resuming interrupted retirements ----------

  lemma {:induction false} ResumeSafe(w: World, ids: seq<nat>, h: History, lost: set<nat>, kept: set<nat>, db: Database)
    requires Intact(w.files, h, lost, kept) && Distinct(ids) && SoundHistory(h, db)
    requires forall id | id in ids :: RetiredName(id) in w.files
    ensures var (w', stopped) := ResumeFrom(w, ids);
            && Intact(w'.files, h, lost, kept)
            && (stopped == None || stopped == Some(Crashed))
            && SameTemporaries(w'.files, w.files)
            && (forall id :: ManifestName(id) in w'.files <==> ManifestName(id) in w.files)
            && (w.stepsLeft >= 2 * |ids| ==> stopped == None && w'.stepsLeft + 2 * |ids| >= w.stepsLeft)
            && (stopped == None ==> forall id :: RetiredName(id) in w'.files <==> RetiredName(id) in w.files && id !in ids)
    decreases |ids|
  {
    if ids != [] {
      hide Intact, SoundHistory, ResumeOne;
      var id := ids[0];
      ResumeOneSafe(w, id, h, lost, kept);
      var (w1, alive) := ResumeOne(w, id);
      assert forall x :: x in ids <==> x == id || x in ids[1..];
      if alive { ResumeSafe(w1, ids[1..], h, lost, kept, db); }
    }
  }

  lemma {:induction false} ResumeOneSafe(w: World, id: nat, h: History, lost: set<nat>, kept: set<nat>)
    requires Intact(w.files, h, lost, kept) && RetiredName(id) in w.files
    ensures var (w', alive) := ResumeOne(w, id);
            && Intact(w'.files, h, lost, kept)
            && SameTemporaries(w'.files, w.files)
            && (forall x :: ManifestName(x) in w'.files <==> ManifestName(x) in w.files)
            && (w.stepsLeft >= 2 ==> alive && w'.stepsLeft + 2 >= w.stepsLeft)
            && (alive ==> forall x :: RetiredName(x) in w'.files <==> RetiredName(x) in w.files && x != id)
  {
    RemovingRetiredArtifact(w.files, h, lost, kept, id);
    RemovingMarker(Without(w.files, ArtifactName(id)), h, lost, kept, id);
    assert ArtifactName(id) !in w.files ==> Without(w.files, ArtifactName(id)) == w.files;
    hide Intact;
  }

  // ---------- Pruning ----------

  lemma {:induction false} PruneOneSafe(w: World, id: nat, h: History, lost: set<nat>, kept: set<nat>)
    requires Intact(w.files, h, lost, kept) && ManifestName(id) in w.files && id !in kept
    requires forall x :: RetiredName(x) !in w.files
    ensures var (w', alive) := PruneOne(w, id);
            && Intact(w'.files, h, lost, kept)
            && SameTemporaries(w'.files, w.files)
            && (w.stepsLeft >= 3 ==> alive && w'.stepsLeft == w.stepsLeft - 3)
            && (alive ==> forall x :: RetiredName(x) !in w'.files)
            && (alive ==> forall x :: ManifestName(x) in w'.files <==> ManifestName(x) in w.files && x != id)
  {
    var f1 := Without(w.files, ManifestName(id))[RetiredName(id) := w.files[ManifestName(id)]];
    Retiring(w.files, h, lost, kept, id);
    RemovingRetiredArtifact(f1, h, lost, kept, id);
    RemovingMarker(Without(f1, ArtifactName(id)), h, lost, kept, id);
  }

  lemma {:induction false} PruneFromSafe(w: World, ids: seq<nat>, h: History, lost: set<nat>, kept: set<nat>)
    requires Intact(w.files, h, lost, kept) && Distinct(ids) && AllLive(w.files, ids)
    requires forall id | id in ids :: id !in kept
    requires forall id :: RetiredName(id) !in w.files
    ensures var (w', alive) := PruneFrom(w, ids);
            && Intact(w'.files, h, lost, kept)
            && SameTemporaries(w'.files, w.files)
            && (w.stepsLeft >= 3 * |ids| ==> alive)
            && (alive ==> forall id :: RetiredName(id) !in w'.files)
            && (alive ==> forall id :: ManifestName(id) in w'.files <==> ManifestName(id) in w.files && id !in ids)
    decreases |ids|
  {
    if ids != [] {
      PruneOneSafe(w, ids[0], h, lost, kept);
      var (w1, alive) := PruneOne(w, ids[0]);
      assert forall x :: x in ids <==> x == ids[0] || x in ids[1..];
      if alive { PruneFromSafe(w1, ids[1..], h, lost, kept); }
    }
  }

  lemma {:induction false} LiveUsable(files: Files, h: History, lost: set<nat>, db: Database, id: nat)
    requires Inv(files, h, lost, db) && ManifestName(id) in files
    ensures GenerationUsable(files, id) && ManifestOf(files, id) == h[id].manifestFile.parsed.value
  {
  }

  /** A directory that satisfies the invariant and holds no marker is refused exactly for a lost artifact. */
  lemma {:induction false} ObjectionIff(files: Files, h: History, lost: set<nat>, db: Database)
    requires Inv(files, h, lost, db) && forall id :: RetiredName(id) !in files
    ensures Objection(files) == if lost == {} then None else Some(OrphanArtifact)
  {
    hide Intact, SoundHistory, GenerationUsable, AllUsable, OneDatabase, LiveIds, HasNonFile, HasUnexpected, HasOrphan;
    LiveAllUsable(files, h, lost, db);
    OnlyPairs(files, h, lost, KeptOf(h, db));
  }

  lemma {:induction false} LiveAllUsable(files: Files, h: History, lost: set<nat>, db: Database)
    requires Inv(files, h, lost, db)
    ensures AllUsable(files, LiveIds(files)) && OneDatabase(files, LiveIds(files))
  {
    forall id | ManifestName(id) in files
      ensures GenerationUsable(files, id) && ManifestOf(files, id).sourceDatabase == db.name && ManifestOf(files, id).systemIdentifier == db.system
    {
      LiveUsable(files, h, lost, db, id);
      assert Sound(id, h[id], db);
    }
    hide Inv, GenerationUsable, ManifestOf;
  }

  lemma {:induction false} OnlyPairs(files: Files, h: History, lost: set<nat>, kept: set<nat>)
    requires Intact(files, h, lost, kept) && forall id :: RetiredName(id) !in files
    ensures !HasNonFile(files) && !HasUnexpected(files)
    ensures HasOrphan(files) <==> lost != {}
  {
    if id :| id in lost {
      assert ArtifactName(id) in files && ManifestName(id) !in files;
    }
  }

  ghost function LiveBackups(files: Files, h: History, db: Database): set<Backup>
    requires SoundHistory(h, db)
  {
    set id | id in h && ManifestName(id) in files :: BackupOf(h, id)
  }

  lemma {:induction false} DescribedLive(files: Files, h: History, db: Database)
    requires SoundHistory(h, db) && AllUsable(files, LiveIds(files))
    requires forall id | ManifestName(id) in files :: id in h && files[ManifestName(id)] == h[id].manifestFile
    ensures Elements(Described(files, LiveIds(files))) == LiveBackups(files, h, db)
  {
    hide Describe, LiveIds, Described;
    var ids := LiveIds(files);
    var manifests := Described(files, ids);
    forall i | 0 <= i < |ids| ensures manifests[i] == BackupOf(h, ids[i]) && manifests[i] in LiveBackups(files, h, db) {
      assert ids[i] in ids;
    }
    forall id | id in h && ManifestName(id) in files ensures BackupOf(h, id) in manifests {
      assert id in ids;
      var i :| 0 <= i < |ids| && ids[i] == id;
      assert manifests[i] == BackupOf(h, id);
    }
  }

  lemma {:induction false} KeptAreLive(files: Files, h: History, db: Database)
    requires SoundHistory(h, db)
    requires forall id | id in KeptOf(h, db) :: ManifestName(id) in files
    ensures LiveBackups(files, h, db) <= Published(h, db)
    ensures Keep(Published(h, db)) <= LiveBackups(files, h, db)
  {
    hide Describe;
    var whole := Published(h, db);
    RetentionGuarantees(whole);
    forall b | b in Keep(whole) ensures b in LiveBackups(files, h, db) {
      assert b in whole;
      var id :| id in h && b == BackupOf(h, id);
      assert b.id == id && id in KeptOf(h, db);
    }
  }

  /** The partly pruned directory and the whole history keep the same backups. */
  lemma {:induction false} KeptAgree(files: Files, h: History, lost: set<nat>, db: Database)
    requires Inv(files, h, lost, db) && AllUsable(files, LiveIds(files))
    ensures KeptIds(files, LiveIds(files)) == KeptOf(h, db)
  {
    OrderedManifests(Described(files, LiveIds(files)));
    DescribedLive(files, h, db);
    KeptAreLive(files, h, db);
    KeepStable(Published(h, db), LiveBackups(files, h, db));
  }

  lemma {:induction false} SettledWhenComplete(files: Files, h: History, lost: set<nat>, db: Database)
    requires Inv(files, h, lost, db) && lost == {}
    requires forall id :: RetiredName(id) !in files
    requires forall id :: ManifestName(id) in files <==> id in KeptOf(h, db)
    ensures Durable(files) == SettledFiles(h, db)
  {
    SettledPairs(files, h, lost, KeptOf(h, db));
  }

  lemma {:induction false} SettledPairs(files: Files, h: History, lost: set<nat>, kept: set<nat>)
    requires Intact(files, h, lost, kept) && lost == {}
    requires forall id :: RetiredName(id) !in files
    requires forall id :: ManifestName(id) in files <==> id in kept
    ensures Durable(files) == PairsOf(h, kept)
  {
    var d, s := Durable(files), PairsOf(h, kept);
    forall n ensures n in d <==> n in s { SettledName(files, h, lost, kept, n); }
    forall n | n in d ensures d[n] == s[n] { SettledName(files, h, lost, kept, n); }
  }

  lemma {:induction false} PairsHold(h: History, kept: set<nat>, n: Name)
    ensures n in PairsOf(h, kept) <==> (n.ManifestName? || n.ArtifactName?) && n.id in kept && n.id in h
    ensures n in PairsOf(h, kept) ==> PairsOf(h, kept)[n] == if n.ManifestName? then h[n.id].manifestFile else h[n.id].artifactFile
  {
  }

  lemma {:induction false} LivePair(files: Files, h: History, lost: set<nat>, kept: set<nat>, id: nat)
    requires Intact(files, h, lost, kept) && id !in lost
    requires RetiredName(id) !in files && (ManifestName(id) in files <==> id in kept)
    ensures ManifestName(id) in files <==> id in kept && id in h
    ensures ArtifactName(id) in files <==> id in kept && id in h
    ensures ManifestName(id) in files ==> files[ManifestName(id)] == h[id].manifestFile
    ensures ArtifactName(id) in files ==> files[ArtifactName(id)] == h[id].artifactFile
  {
  }

  lemma {:induction false} SettledName(files: Files, h: History, lost: set<nat>, kept: set<nat>, n: Name)
    requires Intact(files, h, lost, kept) && lost == {}
    requires forall id :: RetiredName(id) !in files
    requires forall id :: ManifestName(id) in files <==> id in kept
    ensures n in Durable(files) <==> n in PairsOf(h, kept)
    ensures n in Durable(files) ==> Durable(files)[n] == PairsOf(h, kept)[n]
  {
    hide PairsOf, Intact;
    PairsHold(h, kept, n);
    if n.ManifestName? || n.ArtifactName? {
      assert RetiredName(n.id) !in files;
      LivePair(files, h, lost, kept, n.id);
    } else if n.RetiredName? {
      assert RetiredName(n.id) !in files;
    } else if n.OtherName? {
      NoStray(files, h, lost, kept, n);
    }
  }

  lemma {:induction false} NoStray(files: Files, h: History, lost: set<nat>, kept: set<nat>, n: Name)
    requires Intact(files, h, lost, kept) && n.OtherName?
    ensures n !in files
  {
  }

  lemma {:induction false} PruneResumedSafe(w: World, resumed: nat, h: History, lost: set<nat>, db: Database)
    requires Inv(w.files, h, lost, db) && forall id :: RetiredName(id) !in w.files
    ensures var (w', outcome) := PruneResumed(w, resumed);
            && Inv(w'.files, h, lost, db)
            && SameTemporaries(w'.files, w.files)
            && Verdict(outcome, lost)
            && (w.stepsLeft >= 3 * |LiveIds(w.files)| ==> !outcome.Crashed?)
            && (outcome.Completed? ==> Durable(w'.files) == SettledFiles(h, db) && outcome.kept == KeptOf(h, db))
  {
    hide Intact, SoundHistory, SettledFiles, Durable, KeptOf, KeptIds, Objection, PruneFrom, Doomed, LiveIds, AllUsable;
    ObjectionIff(w.files, h, lost, db);
    if lost == {} {
      if LiveIds(w.files) == [] {
        NothingLive(w.files, h, lost, db);
      } else {
        KeptAgree(w.files, h, lost, db);
        DoomedSafe(w, h, lost, KeptOf(h, db));
        var (w', alive) := PruneFrom(w, Doomed(w.files, LiveIds(w.files), KeptOf(h, db)));
        if alive { SettledWhenComplete(w'.files, h, lost, db); }
      }
    }
  }

  lemma {:induction false} NothingLive(files: Files, h: History, lost: set<nat>, db: Database)
    requires Inv(files, h, lost, db) && lost == {} && LiveIds(files) == [] && forall id :: RetiredName(id) !in files
    ensures KeptOf(h, db) == {} && Durable(files) == SettledFiles(h, db)
  {
    hide SettledFiles, Durable, KeptOf;
    assert forall id :: ManifestName(id) in files <==> id in LiveIds(files);
    SettledWhenComplete(files, h, lost, db);
  }

  lemma {:induction false} DoomedSafe(w: World, h: History, lost: set<nat>, kept: set<nat>)
    requires Intact(w.files, h, lost, kept) && forall id :: RetiredName(id) !in w.files
    requires AllUsable(w.files, LiveIds(w.files))
    ensures var ids := LiveIds(w.files);
            var (w', alive) := PruneFrom(w, Doomed(w.files, ids, kept));
            && Intact(w'.files, h, lost, kept)
            && SameTemporaries(w'.files, w.files)
            && (w.stepsLeft >= 3 * |ids| ==> alive)
            && (alive ==> forall id :: RetiredName(id) !in w'.files)
            && (alive ==> forall id :: ManifestName(id) in w'.files <==> id in kept)
            && Among(ids, kept) == kept
  {
    var ids := LiveIds(w.files);
    var doomed := Doomed(w.files, ids, kept);
    assert forall i | 0 <= i < |doomed| :: doomed[i] in doomed;
    PruneFromSafe(w, doomed, h, lost, kept);
    DistinctWithin(doomed, ids);
  }

  lemma {:induction false} DistinctWithin(a: seq<nat>, b: seq<nat>)
    requires Distinct(a) && forall x | x in a :: x in b
    ensures |a| <= |b|
    decreases |a|
  {
    if a != [] {
      assert a[0] in b;
      var i :| 0 <= i < |b| && b[i] == a[0];
      var rest := b[..i] + b[i + 1..];
      forall x | x in a[1..] ensures x in rest {
        assert x in a && x != a[0];
        var j :| 0 <= j < |b| && b[j] == x;
        assert if j < i then rest[j] == x else rest[j - 1] == x;
      }
      DistinctWithin(a[1..], rest);
    }
  }

  // ---------- Main results ----------

  /**
    One run, dying after any number of mutations or not at all.  It keeps the
    invariant, leaves temporary files alone, and if it completes leaves exactly the
    pairs of the kept backups, however many earlier runs crashed.  It is refused for a
    lost artifact only, and then never completes.
  */
  lemma {:induction false} RunSafe(w: World, h: History, lost: set<nat>, db: Database)
    requires Inv(w.files, h, lost, db)
    ensures var (w', outcome) := PruneRun(w);
            && Inv(w'.files, h, lost, db)
            && Verdict(outcome, lost)
            && (outcome.Completed? ==> Durable(w'.files) == SettledFiles(h, db) && outcome.kept == KeptOf(h, db))
            && SameTemporaries(w'.files, w.files)
            && (w.stepsLeft >= Enough(w.files) ==> !outcome.Crashed?)
  {
    hide Intact, SoundHistory, KeptOf, SettledFiles, Listing, ResumeFrom, PruneResumed, Durable;
    var markers := Listing(RetiredIds(w.files));
    assert forall id :: id in markers <==> RetiredName(id) in w.files;
    ListingSize(RetiredIds(w.files));
    ListingSize(ManifestIds(w.files));
    ResumeSafe(w, markers, h, lost, KeptOf(h, db), db);
    var (w1, stopped) := ResumeFrom(w, markers);
    if stopped == None {
      assert ManifestIds(w1.files) == ManifestIds(w.files);
      PruneResumedSafe(w1, |markers|, h, lost, db);
    }
  }

  /** A run ends refused for a lost artifact or completed without one, if it does not crash. */
  predicate Verdict(outcome: Outcome, lost: set<nat>) {
    outcome.Crashed? || if lost == {} then outcome.Completed? else outcome == Refused(OrphanArtifact)
  }

  /** Two mutations finish a retirement, three make one. */
  function Enough(files: Files): nat {
    2 * |RetiredIds(files)| + 3 * |ManifestIds(files)|
  }

  lemma {:induction false} ListingSize(s: set<nat>)
    ensures |Listing(s)| == |s|
  {
    if s != {} { ListingSize(s - {Smallest(s)}); }
  }

  datatype Event =
    | Run(steps: nat)
    | Publish(id: nat, generation: Generation)
    | Lose(id: nat, artifactFile: Entry)   // a publication dies between its two links
    | Spill(tag: nat, file: Entry)

  /** What happened so far: the directory, the history, and the publications that died between their links. */
  datatype Stage = Stage(files: Files, h: History, lost: set<nat>)

  /** Publication uses a fresh id; a temporary file is a regular file. */
  predicate Possible(s: Stage, db: Database, e: Event) {
    match e
    case Run(_) => true
    case Publish(id, g) => id !in s.h && id !in s.lost && Sound(id, g, db)
    case Lose(id, file) => id !in s.h && id !in s.lost && file.File?
    case Spill(_, file) => file.File?
  }

  /** A publication links the artifact, then the manifest. */
  ghost function After(s: Stage, e: Event): Stage {
    match e
    case Run(steps) => s.(files := PruneRun(World(s.files, steps)).0.files)
    case Publish(id, g) => s.(files := s.files[ArtifactName(id) := g.artifactFile][ManifestName(id) := g.manifestFile], h := s.h[id := g])
    case Lose(id, file) => s.(files := s.files[ArtifactName(id) := file], lost := s.lost + {id})
    case Spill(tag, file) => s.(files := s.files[TemporaryName(tag) := file])
  }

  lemma {:induction false} PublishSafe(files: Files, h: History, lost: set<nat>, db: Database, id: nat, g: Generation)
    requires Inv(files, h, lost, db) && id !in h && id !in lost && Sound(id, g, db)
    ensures Inv(files[ArtifactName(id) := g.artifactFile][ManifestName(id) := g.manifestFile], h[id := g], lost, db)
  {
    KeptGrowsByNew(h, db, id, g);
    PublishIntact(files, h, lost, KeptOf(h, db), KeptOf(h[id := g], db), id, g);
  }

  lemma {:induction false} PublishIntact(files: Files, h: History, lost: set<nat>, kept: set<nat>, kept': set<nat>, id: nat, g: Generation)
    requires Intact(files, h, lost, kept) && id !in h && id !in lost && kept' <= kept + {id}
    requires g.manifestFile.File? && g.artifactFile.File?
    ensures Intact(files[ArtifactName(id) := g.artifactFile][ManifestName(id) := g.manifestFile], h[id := g], lost, kept')
  {
  }

  lemma {:induction false} KeptGrowsByNew(h: History, db: Database, id: nat, g: Generation)
    requires SoundHistory(h, db) && id !in h && Sound(id, g, db)
    ensures SoundHistory(h[id := g], db)
    ensures KeptOf(h[id := g], db) <= KeptOf(h, db) + {id}
  {
    hide Describe;
    var h' := h[id := g];
    var before, after := Published(h, db), Published(h', db);
    forall x | x in h ensures BackupOf(h, x) in after { assert BackupOf(h', x) == BackupOf(h, x); }
    RetentionGuarantees(after);
    KeepFromPart(after, before);
    forall k | k in KeptOf(h', db) ensures k == id || k in KeptOf(h, db) {
      var b :| b in Keep(after) && b.id == k;
      var x :| x in h' && b == BackupOf(h', x);
      if x != id { assert b == BackupOf(h, x) && b in before; }
    }
  }

  lemma {:induction false} LosingIntact(files: Files, h: History, lost: set<nat>, kept: set<nat>, id: nat, file: Entry)
    requires Intact(files, h, lost, kept) && id !in h && id !in lost && file.File?
    ensures Intact(files[ArtifactName(id) := file], h, lost + {id}, kept)
  {
  }

  lemma {:induction false} SpillIntact(files: Files, h: History, lost: set<nat>, kept: set<nat>, tag: nat, file: Entry)
    requires Intact(files, h, lost, kept) && file.File?
    ensures Intact(files[TemporaryName(tag) := file], h, lost, kept)
  {
  }

  ghost function Play(s: Stage, events: seq<Event>): Stage
    decreases |events|
  {
    if events == [] then s else Play(After(s, events[0]), events[1..])
  }

  ghost predicate AllPossible(s: Stage, db: Database, events: seq<Event>)
    decreases |events|
  {
    events != [] ==> Possible(s, db, events[0]) && AllPossible(After(s, events[0]), db, events[1..])
  }

  predicate AnyLost(events: seq<Event>) {
    exists i :: 0 <= i < |events| && events[i].Lose?
  }

  lemma {:induction false} OneEventSafe(s: Stage, db: Database, e: Event)
    requires Inv(s.files, s.h, s.lost, db) && Possible(s, db, e)
    ensures var s' := After(s, e);
            Inv(s'.files, s'.h, s'.lost, db) && (s'.lost == {} <==> s.lost == {} && !e.Lose?)
  {
    hide Intact, SoundHistory, KeptOf, PruneRun;
    match e
    case Run(steps) => RunSafe(World(s.files, steps), s.h, s.lost, db);
    case Publish(id, g) => PublishSafe(s.files, s.h, s.lost, db, id, g);
    case Lose(id, file) =>
      LosingIntact(s.files, s.h, s.lost, KeptOf(s.h, db), id, file);
      assert id in After(s, e).lost;
    case Spill(tag, file) => SpillIntact(s.files, s.h, s.lost, KeptOf(s.h, db), tag, file);
  }

  /** The invariant holds after every sequence of crashed runs, complete runs, publications, dead publications and spills. */
  lemma {:induction false} EveryRunSafe(s: Stage, db: Database, events: seq<Event>)
    requires Inv(s.files, s.h, s.lost, db) && AllPossible(s, db, events)
    ensures var s' := Play(s, events);
            Inv(s'.files, s'.h, s'.lost, db) && (s'.lost == {} <==> s.lost == {} && !AnyLost(events))
    decreases |events|
  {
    hide Inv, After, Possible, AnyLost;
    if events == [] {
      LostFirst(events);
    } else {
      OneEventSafe(s, db, events[0]);
      EveryRunSafe(After(s, events[0]), db, events[1..]);
      LostFirst(events);
    }
  }

  lemma {:induction false} LostFirst(events: seq<Event>)
    ensures AnyLost(events) <==> events != [] && (events[0].Lose? || AnyLost(events[1..]))
  {
    if i :| 0 <= i < |events| && events[i].Lose? {
      if i > 0 { assert events[1..][i - 1] == events[i]; }
    }
    if events != [] && AnyLost(events[1..]) {
      var i :| 0 <= i < |events[1..]| && events[1..][i].Lose?;
      assert events[i + 1].Lose?;
    }
  }

  const NOTHING := Stage(map[], map[], {})

  /** Every live manifest has its artifact, both as published, and every backup the policy keeps of the whole history is live. */
  ghost predicate Holds(s: Stage, db: Database) {
    && SoundHistory(s.h, db)
    && (forall id | ManifestName(id) in s.files ::
          && id in s.h && s.files[ManifestName(id)] == s.h[id].manifestFile
          && ArtifactName(id) in s.files && s.files[ArtifactName(id)] == s.h[id].artifactFile)
    && (forall id | id in KeptOf(s.h, db) :: ManifestName(id) in s.files)
  }

  /**
    Crash-closed pruning.  Start from an empty directory and let anything happen,
    with a crash at any step of any run and between the two links of any publication.
    Then every live manifest has its artifact, both as published, and every backup the
    policy keeps of the whole history is live.  If no publication died between its
    links, the next run is not refused, and one that completes leaves exactly the kept
    pairs and no marker, as any other complete run from there would; if one did, no run
    completes, and each that does not crash is refused for the orphan.
  */
  lemma {:induction false} CrashClosedPruning(db: Database, events: seq<Event>, steps: nat)
    requires AllPossible(NOTHING, db, events)
    ensures var s := Play(NOTHING, events);
            var (w', outcome) := PruneRun(World(s.files, steps));
            && Holds(s, db)
            && (AnyLost(events) ==> outcome.Crashed? || outcome == Refused(OrphanArtifact))
            && (!AnyLost(events) ==> outcome.Crashed? || (outcome.Completed? && Durable(w'.files) == SettledFiles(s.h, db)))
            && (steps >= Enough(s.files) ==> !outcome.Crashed?)
  {
    hide PruneRun, SettledFiles, Durable, Enough, AnyLost, Play, AllPossible, Inv, Holds;
    NothingSafe(db);
    EveryRunSafe(NOTHING, db, events);
    var s := Play(NOTHING, events);
    InvHolds(s, db);
    RunSafe(World(s.files, steps), s.h, s.lost, db);
  }

  lemma {:induction false} NothingSafe(db: Database)
    ensures Inv(NOTHING.files, NOTHING.h, NOTHING.lost, db)
  {
    EmptyKept(db);
    hide KeptOf;
  }

  lemma {:induction false} InvHolds(s: Stage, db: Database)
    requires Inv(s.files, s.h, s.lost, db)
    ensures Holds(s, db)
  {
    hide KeptOf;
  }

  lemma {:induction false} EmptyKept(db: Database)
    ensures KeptOf(map[], db) == {}
  {
    assert Published(map[], db) == {};
    RetentionGuarantees({});
  }

  // ---------- Directories in any state ----------

  /** Nothing but markers and the artifacts of markers can go while retirements are resumed. */
  lemma {:induction false} ResumeRemovesOnlyRetired(w: World, ids: seq<nat>)
    ensures var (w', _) := ResumeFrom(w, ids);
            && w'.files.Keys <= w.files.Keys
            && (forall n | n in w'.files :: w'.files[n] == w.files[n])
            && (forall n: Name | n in w.files && n !in w'.files ::
                  (n.RetiredName? || n.ArtifactName?) && n.id in ids && RetiredName(n.id) in w.files)
    decreases |ids|
  {
    if ids != [] && RetiredUsable(w.files, ids[0]) {
      var (w1, alive) := ResumeOne(w, ids[0]);
      assert forall x :: x in ids <==> x == ids[0] || x in ids[1..];
      if alive { ResumeRemovesOnlyRetired(w1, ids[1..]); }
    }
  }

  lemma {:induction false} PruneFromKeepsPairs(w: World, ids: seq<nat>, id: nat)
    requires AllLive(w.files, ids) && Distinct(ids)
    ensures var (w', _) := PruneFrom(w, ids);
            ManifestName(id) in w'.files ==>
              && ManifestName(id) in w.files
              && (ArtifactName(id) in w.files ==>
                    ArtifactName(id) in w'.files && w'.files[ArtifactName(id)] == w.files[ArtifactName(id)])
    decreases |ids|
  {
    if ids != [] {
      var (w1, alive) := PruneOne(w, ids[0]);
      if alive { PruneFromKeepsPairs(w1, ids[1..], id); }
    }
  }

  /**
    In a directory in any state, and whatever the run's outcome, a manifest that is
    live afterwards has kept the artifact it had, unless a marker of the same id was
    already there; and a refused run has removed only markers and their artifacts.
  */
  lemma {:induction false} AnyDirectoryFailsClosed(w: World, id: nat)
    ensures var (w', outcome) := PruneRun(w);
            && (ManifestName(id) in w'.files && ArtifactName(id) in w.files && RetiredName(id) !in w.files ==>
                  ArtifactName(id) in w'.files && w'.files[ArtifactName(id)] == w.files[ArtifactName(id)])
            && (outcome.Refused? ==> forall n: Name | n in w.files && n !in w'.files ::
                  (n.RetiredName? || n.ArtifactName?) && RetiredName(n.id) in w.files)
  {
    hide ResumeFrom, PruneFrom, Doomed, KeptIds, Listing, RetiredIds;
    var markers := Listing(RetiredIds(w.files));
    ResumeRemovesOnlyRetired(w, markers);
    var (w1, stopped) := ResumeFrom(w, markers);
    if stopped == None && Objection(w1.files) == None && LiveIds(w1.files) != [] {
      var ids := LiveIds(w1.files);
      var doomed := Doomed(w1.files, ids, KeptIds(w1.files, ids));
      assert forall i | 0 <= i < |doomed| :: doomed[i] in doomed;
      PruneFromKeepsPairs(w1, doomed, id);
    }
  }

  /** The exception is real: a marker beside a live manifest of the same id costs that manifest its artifact. */
  lemma {:induction false} MarkerBesideLiveManifest(id: nat, m: Manifest, size: nat)
    requires m.backupId == id && m.locator == InDirectory(ArtifactName(id))
    ensures var file := File(0, size, Some(m));
            var files: Files := map[ManifestName(id) := file, RetiredName(id) := file, ArtifactName(id) := File(1, size, None)];
            var (w', outcome) := PruneRun(World(files, 9));
            outcome.Refused? && ManifestName(id) in w'.files && ArtifactName(id) !in w'.files
  {
    var file := File(0, size, Some(m));
    var files: Files := map[ManifestName(id) := file, RetiredName(id) := file, ArtifactName(id) := File(1, size, None)];
    assert RetiredIds(files) == {id};
    assert Listing({id}) == [id] by { assert {id} - {id} == {}; assert Listing({}) == []; }
    var w1 := World(map[ManifestName(id) := file], 7);
    assert ResumeOne(World(files, 9), id) == (w1, true) by {
      assert Without(Without(files, ArtifactName(id)), RetiredName(id)) == w1.files;
    }
    assert ResumeFrom(World(files, 9), [id]) == (w1, None);
    assert LiveIds(w1.files) != [] by { assert ManifestName(id) in w1.files; assert id in LiveIds(w1.files); }
    assert !GenerationUsable(w1.files, id);
  }
}
