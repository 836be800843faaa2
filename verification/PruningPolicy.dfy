/**
  What a run of pruning does in the terms of the directory and the policy alone
  (scripts/src/base-backup.ts): when it refuses, what it keeps and what it reports.
*/
module PruningPolicy {
  import opened Wrappers
  import opened Calendar
  import opened Retention
  import opened RetentionPolicy
  import opened Pruning
  import opened PruningSafety

  // ---------- When a run refuses ----------

  /** The text of `a` is before or at that of `b`: year, month, day, time of day. */
  predicate TextAtOrBefore(a: Timestamp, b: Timestamp) {
    || a.year < b.year
    || (a.year == b.year && a.month < b.month)
    || (a.year == b.year && a.month == b.month && a.day < b.day)
    || (a.year == b.year && a.month == b.month && a.day == b.day && a.millis <= b.millis)
  }

  /** A file that reads as the manifest of backup `id`, with its artifact in this directory. */
  predicate Reads(e: Entry, id: nat) {
    e.File? && e.parsed.Some? && e.parsed.value.backupId == id && e.parsed.value.locator == InDirectory(ArtifactName(id))
  }

  predicate Paired(files: Files, id: nat)
    requires ManifestName(id) in files
  {
    && Reads(files[ManifestName(id)], id)
    && ArtifactName(id) in files && files[ArtifactName(id)].File?
    && files[ArtifactName(id)].size == files[ManifestName(id)].parsed.value.artifactBytes
  }

  /** Regular files only, each a temporary or half of a complete pair, all of one database. */
  ghost predicate Orderly(files: Files) {
    && (forall n | n in files :: files[n].File? && (n.ManifestName? || n.ArtifactName? || n.TemporaryName?))
    && (forall id | ManifestName(id) in files :: Paired(files, id))
    && (forall id | ArtifactName(id) in files :: ManifestName(id) in files)
    && (forall a, b | ManifestName(a) in files && ManifestName(b) in files ::
          && files[ManifestName(a)].parsed.value.sourceDatabase == files[ManifestName(b)].parsed.value.sourceDatabase
          && files[ManifestName(a)].parsed.value.systemIdentifier == files[ManifestName(b)].parsed.value.systemIdentifier)
  }

  /** Every marker reads as the manifest it was renamed from, and its artifact, if still there, is a file. */
  ghost predicate Resumable(files: Files) {
    forall id | RetiredName(id) in files ::
      Reads(files[RetiredName(id)], id) && (ArtifactName(id) in files ==> files[ArtifactName(id)].File?)
  }

  lemma {:induction false} UsableIffPaired(files: Files, id: nat)
    requires ManifestName(id) in files
    ensures GenerationUsable(files, id) <==> Paired(files, id)
  {
  }

  lemma {:induction false} SameDatabase(files: Files)
    requires AllUsable(files, LiveIds(files))
    ensures OneDatabase(files, LiveIds(files)) <==>
              forall a, b | ManifestName(a) in files && ManifestName(b) in files ::
                && GenerationUsable(files, a) && GenerationUsable(files, b)
                && files[ManifestName(a)].parsed.value.sourceDatabase == files[ManifestName(b)].parsed.value.sourceDatabase
                && files[ManifestName(a)].parsed.value.systemIdentifier == files[ManifestName(b)].parsed.value.systemIdentifier
  {
    hide GenerationUsable;
  }

  /** The checks between reading the directory and pruning it pass on exactly the orderly directories. */
  lemma {:induction false} ObjectsIff(files: Files)
    ensures Objection(files).None? <==> Orderly(files)
  {
    hide GenerationUsable, Paired, LiveIds, OneDatabase;
    forall id | ManifestName(id) in files ensures GenerationUsable(files, id) <==> Paired(files, id) {
      UsableIffPaired(files, id);
    }
    if AllUsable(files, LiveIds(files)) { SameDatabase(files); }
  }

  // ---------- What a run leaves ----------

  /** The directory once its interrupted retirements are finished. */
  function Resumed(files: Files): Files {
    map n | n in files && !n.RetiredName? && !(n.ArtifactName? && RetiredName(n.id) in files) :: files[n]
  }

  function Dropping(files: Files, ids: seq<nat>): Files {
    map n | n in files && !((n.ManifestName? || n.RetiredName? || n.ArtifactName?) && n.id in ids) :: files[n]
  }

  function DroppingMarkers(files: Files, ids: seq<nat>): Files {
    map n | n in files && !((n.RetiredName? || n.ArtifactName?) && n.id in ids) :: files[n]
  }

  lemma {:induction false} ResumeOneExact(w: World, id: nat)
    requires w.stepsLeft >= 2 && RetiredName(id) in w.files
    ensures var (w', alive) := ResumeOne(w, id);
            && alive && w'.stepsLeft + 2 >= w.stepsLeft && w'.files == DroppingMarkers(w.files, [id])
  {
  }

  lemma {:induction false} DroppedMarkersUsable(files: Files, id: nat, other: nat)
    requires other != id
    ensures RetiredUsable(DroppingMarkers(files, [id]), other) <==> RetiredUsable(files, other)
  {
  }

  lemma {:induction false} DroppingMarkersAll(files: Files, ids: seq<nat>)
    requires ids != []
    ensures DroppingMarkers(DroppingMarkers(files, [ids[0]]), ids[1..]) == DroppingMarkers(files, ids)
  {
    assert forall x :: x in ids <==> x == ids[0] || x in ids[1..];
  }

  /** Resuming gets through its markers, or refuses at one that is not usable. */
  lemma {:induction false} ResumeExact(w: World, ids: seq<nat>)
    requires Pruning.Distinct(ids) && w.stepsLeft >= 2 * |ids| && forall id | id in ids :: RetiredName(id) in w.files
    ensures var (w', stopped) := ResumeFrom(w, ids);
            if forall id | id in ids :: RetiredUsable(w.files, id)
            then stopped == None && w'.stepsLeft + 2 * |ids| >= w.stepsLeft && w'.files == DroppingMarkers(w.files, ids)
            else stopped.Some? && stopped.value.Refused?
    decreases |ids|
  {
    hide RetiredUsable, DroppingMarkers, ResumeOne;
    if ids == [] {
      NoMarkersDropped(w.files);
    } else if RetiredUsable(w.files, ids[0]) {
      assert ids[0] in ids && forall x :: x in ids <==> x == ids[0] || x in ids[1..];
      ResumeOneExact(w, ids[0]);
      var (w1, alive) := ResumeOne(w, ids[0]);
      forall id | id in ids[1..] ensures RetiredName(id) in w1.files && (RetiredUsable(w1.files, id) <==> RetiredUsable(w.files, id)) {
        DroppedMarkersUsable(w.files, ids[0], id);
        MarkerStays(w.files, ids[0], id);
      }
      ResumeExact(w1, ids[1..]);
      DroppingMarkersAll(w.files, ids);
    } else {
      assert ids[0] in ids;
    }
  }

  lemma {:induction false} NoMarkersDropped(files: Files)
    ensures DroppingMarkers(files, []) == files
  {
  }

  lemma {:induction false} MarkerStays(files: Files, id: nat, other: nat)
    requires other != id && RetiredName(other) in files
    ensures RetiredName(other) in DroppingMarkers(files, [id])
  {
  }

  lemma {:induction false} PruneOneExact(w: World, id: nat)
    requires w.stepsLeft >= 3 && ManifestName(id) in w.files
    ensures var (w', alive) := PruneOne(w, id);
            alive && w'.stepsLeft == w.stepsLeft - 3 && w'.files == Dropping(w.files, [id])
  {
  }

  lemma {:induction false} DroppingAll(files: Files, ids: seq<nat>)
    requires ids != []
    ensures Dropping(Dropping(files, [ids[0]]), ids[1..]) == Dropping(files, ids)
  {
    assert forall x :: x in ids <==> x == ids[0] || x in ids[1..];
  }

  lemma {:induction false} PruneFromExact(w: World, ids: seq<nat>)
    requires AllLive(w.files, ids) && Pruning.Distinct(ids) && w.stepsLeft >= 3 * |ids|
    ensures var (w', alive) := PruneFrom(w, ids); alive && w'.files == Dropping(w.files, ids)
    decreases |ids|
  {
    if ids == [] {
      assert Dropping(w.files, []) == w.files;
    } else {
      PruneOneExact(w, ids[0]);
      var (w1, alive) := PruneOne(w, ids[0]);
      assert AllLive(w1.files, ids[1..]);
      PruneFromExact(w1, ids[1..]);
      DroppingAll(w.files, ids);
    }
  }

  /** The completion times of the live manifests. */
  function LiveStamps(files: Files): Stamps {
    map id | id in ManifestIds(files) && files[ManifestName(id)].File? && files[ManifestName(id)].parsed.Some? ::
      files[ManifestName(id)].parsed.value.completedAt
  }

  lemma {:induction false} LiveStamp(files: Files, id: nat)
    requires AllUsable(files, LiveIds(files))
    ensures id in LiveStamps(files) <==> ManifestName(id) in files
    ensures ManifestName(id) in files ==> GenerationUsable(files, id) && LiveStamps(files)[id] == ManifestOf(files, id).completedAt
  {
    hide LiveIds;
    assert ManifestName(id) in files ==> id in LiveIds(files);
    assert id in ManifestIds(files) <==> ManifestName(id) in files;
  }

  lemma {:induction false} DescribedStamps(files: Files)
    requires AllUsable(files, LiveIds(files))
    ensures Elements(Described(files, LiveIds(files))) == Backups(LiveStamps(files))
  {
    hide Describe, LiveIds, Described, LiveStamps, GenerationUsable;
    var ids := LiveIds(files);
    var o := Described(files, ids);
    forall b ensures b in Elements(o) <==> b in Backups(LiveStamps(files)) {
      if b in o {
        var i :| 0 <= i < |o| && o[i] == b;
        assert ids[i] in ids;
        LiveStamp(files, ids[i]);
      }
      if b in Backups(LiveStamps(files)) {
        var id :| id in LiveStamps(files) && b == Describe(id, LiveStamps(files)[id]);
        LiveStamp(files, id);
        var i :| 0 <= i < |ids| && ids[i] == id;
        assert o[i] == b;
      }
    }
  }

  lemma {:induction false} KeptLive(files: Files, id: nat)
    requires AllUsable(files, LiveIds(files))
    ensures id in KeptIds(files, LiveIds(files)) <==> Kept(LiveStamps(files), id)
  {
    hide Kept, LiveStamps, Describe;
    DescribedStamps(files);
    KeptExactly(LiveStamps(files), id);
  }

  /** The doomed are retired in the order of their texts. */
  lemma {:induction false} DoomedInOrder(files: Files, ids: seq<nat>, kept: set<nat>)
    requires AllUsable(files, ids) && Pruning.Distinct(ids)
    ensures InTextOrder(files, Doomed(files, ids, kept))
  {
    hide GenerationUsable;
    if ids != [] {
      assert forall id :: id in ids <==> id == ids[0] || id in ids[1..];
      var rest := Doomed(files, ids[1..], kept);
      DoomedInOrder(files, ids[1..], kept);
      if ids[0] !in kept { InsertedInOrder(files, ids[0], rest); }
    }
  }

  ghost predicate InTextOrder(files: Files, ids: seq<nat>) {
    && (forall id | id in ids :: GenerationUsable(files, id))
    && forall i, j | 0 <= i < j < |ids| :: AtOrBefore(files, ids[i], ids[j])
  }

  ghost predicate AtOrBefore(files: Files, a: nat, b: nat) {
    && GenerationUsable(files, a) && GenerationUsable(files, b)
    && TextAtOrBefore(ManifestOf(files, a).completedAt, ManifestOf(files, b).completedAt)
  }

  lemma {:induction false} Prepended(files: Files, id: nat, ids: seq<nat>)
    requires GenerationUsable(files, id) && InTextOrder(files, ids) && forall x | x in ids :: AtOrBefore(files, id, x)
    ensures InTextOrder(files, [id] + ids)
  {
    hide GenerationUsable, TextAtOrBefore;
    var r := [id] + ids;
    forall i, j | 0 <= i < j < |r| ensures AtOrBefore(files, r[i], r[j]) {
      assert r[j] == ids[j - 1] && r[j] in ids;
    }
  }

  lemma {:induction false} AllAfterHead(files: Files, id: nat, ids: seq<nat>)
    requires ids != [] && GenerationUsable(files, id) && InTextOrder(files, ids) && GenerationUsable(files, ids[0])
    requires !TextBefore(ManifestOf(files, ids[0]).completedAt, ManifestOf(files, id).completedAt)
    ensures forall x | x in ids :: AtOrBefore(files, id, x)
  {
    hide GenerationUsable;
    forall x | x in ids ensures AtOrBefore(files, id, x) {
      var j :| 0 <= j < |ids| && ids[j] == x;
      if j > 0 { assert AtOrBefore(files, ids[0], ids[j]); }
    }
  }

  lemma {:induction false} InsertedInOrder(files: Files, id: nat, ids: seq<nat>)
    requires GenerationUsable(files, id) && AllUsable(files, ids) && InTextOrder(files, ids)
    ensures InTextOrder(files, InsertByText(files, id, ids))
  {
    hide GenerationUsable, TextAtOrBefore, TextBefore;
    if ids == [] {
      Prepended(files, id, ids);
    } else {
      assert ids[0] in ids && forall x | x in ids[1..] :: x in ids;
      if !TextBefore(ManifestOf(files, ids[0]).completedAt, ManifestOf(files, id).completedAt) {
        AllAfterHead(files, id, ids);
        Prepended(files, id, ids);
      } else {
        TailInOrder(files, ids);
        InsertedInOrder(files, id, ids[1..]);
        var tail := InsertByText(files, id, ids[1..]);
        BeforeIsAtOrBefore(ManifestOf(files, ids[0]).completedAt, ManifestOf(files, id).completedAt);
        forall x | x in tail ensures AtOrBefore(files, ids[0], x) {
          assert x in multiset(tail);
          assert x == id || x in ids[1..];
        }
        Prepended(files, ids[0], tail);
      }
    }
  }

  lemma {:induction false} TailInOrder(files: Files, ids: seq<nat>)
    requires ids != [] && InTextOrder(files, ids)
    ensures InTextOrder(files, ids[1..]) && forall x | x in ids[1..] :: AtOrBefore(files, ids[0], x)
  {
    hide GenerationUsable, TextAtOrBefore;
    var t := ids[1..];
    forall i, j | 0 <= i < j < |t| ensures AtOrBefore(files, t[i], t[j]) {
      assert AtOrBefore(files, ids[i + 1], ids[j + 1]);
    }
    forall x | x in t ensures AtOrBefore(files, ids[0], x) {
      var j :| 0 <= j < |t| && t[j] == x;
      assert AtOrBefore(files, ids[0], ids[j + 1]);
    }
  }

  lemma {:induction false} BeforeIsAtOrBefore(a: Timestamp, b: Timestamp)
    ensures TextBefore(a, b) ==> TextAtOrBefore(a, b)
  {
  }

  // ---------- A whole run ----------

  /** What is left of an orderly directory, and what is reported. */
  ghost predicate Pruned(files: Files, after: Files, kept: set<nat>, pruned: seq<nat>) {
    var stamps := LiveStamps(files);
    && (forall id :: id in kept <==> id in stamps && Kept(stamps, id))
    && Pruning.Distinct(pruned) && (forall id :: id in pruned <==> id in stamps && !Kept(stamps, id))
    && (forall i, j | 0 <= i < j < |pruned| ::
          pruned[i] in stamps && pruned[j] in stamps && TextAtOrBefore(stamps[pruned[i]], stamps[pruned[j]]))
    && after == Dropping(files, pruned)
  }

  lemma {:induction false} PrunesExactly(w: World, resumed: nat)
    requires w.stepsLeft >= 3 * |LiveIds(w.files)|
    ensures var (w', outcome) := PruneResumed(w, resumed);
            if Orderly(w.files)
            then outcome.Completed? && Pruned(w.files, w'.files, outcome.kept, outcome.pruned) && outcome.resumed == resumed
            else outcome.Refused? && w' == w
  {
    hide Orderly, Kept, LiveStamps, LiveIds, GenerationUsable, Doomed, PruneFrom, KeptIds, Dropping;
    ObjectsIff(w.files);
    if Orderly(w.files) {
      var ids := LiveIds(w.files);
      forall id ensures id in ids <==> id in LiveStamps(w.files) {
        LiveStamp(w.files, id);
      }
      if ids == [] {
        NothingDropped(w.files);
      } else {
        var kept := KeptIds(w.files, ids);
        var doomed := Doomed(w.files, ids, kept);
        forall id ensures id in kept <==> Kept(LiveStamps(w.files), id) { KeptLive(w.files, id); }
        forall i | 0 <= i < |doomed| ensures ManifestName(doomed[i]) in w.files { assert doomed[i] in doomed; }
        DistinctWithin(doomed, ids);
        PruneFromExact(w, doomed);
        DoomedInOrder(w.files, ids, kept);
        forall i, j | 0 <= i < j < |doomed|
          ensures doomed[i] in LiveStamps(w.files) && doomed[j] in LiveStamps(w.files)
          ensures TextAtOrBefore(LiveStamps(w.files)[doomed[i]], LiveStamps(w.files)[doomed[j]])
        {
          assert doomed[i] in doomed && doomed[j] in doomed;
          LiveStamp(w.files, doomed[i]);
          LiveStamp(w.files, doomed[j]);
        }
      }
    }
  }

  lemma {:induction false} NothingDropped(files: Files)
    ensures Dropping(files, []) == files
  {
  }

  /**
    A run in a directory in any state, with enough steps: it completes iff every marker
    can be finished and the rest is orderly.  It then keeps exactly the newest backup of
    each of the latest 7 days, 4 weeks and 12 months, retires the others in the order of
    their texts, and changes nothing else.
  */
  lemma {:induction false} RunExactly(w: World)
    requires w.stepsLeft >= Enough(w.files)
    ensures var (w', outcome) := PruneRun(w);
            var rest := Resumed(w.files);
            if Resumable(w.files) && Orderly(rest)
            then outcome.Completed? && Pruned(rest, w'.files, outcome.kept, outcome.pruned) && outcome.resumed == |RetiredIds(w.files)|
            else outcome.Refused?
  {
    hide Orderly, Pruned, PruneResumed, ResumeFrom, Listing;
    var markers := Listing(RetiredIds(w.files));
    ListingSize(RetiredIds(w.files));
    ListingSize(ManifestIds(w.files));
    MarkersAre(w.files, markers);
    ResumeExact(w, markers);
    var (w1, stopped) := ResumeFrom(w, markers);
    if stopped == None {
      LiveCount(w.files, w1.files);
      PrunesExactly(w1, |markers|);
    }
  }

  lemma {:induction false} MarkersAre(files: Files, markers: seq<nat>)
    requires forall id :: id in markers <==> id in RetiredIds(files)
    ensures forall id :: id in markers <==> RetiredName(id) in files
    ensures (forall id | id in markers :: RetiredUsable(files, id)) <==> Resumable(files)
    ensures DroppingMarkers(files, markers) == Resumed(files)
  {
    assert forall id :: id in RetiredIds(files) <==> RetiredName(id) in files;
  }

  lemma {:induction false} LiveCount(files: Files, after: Files)
    requires after == Resumed(files)
    ensures |LiveIds(after)| == |ManifestIds(files)|
  {
    assert ManifestIds(after) == ManifestIds(files);
    ListingSize(ManifestIds(after));
  }

  /** The backups that the crash theorem keeps are those the policy keeps of the whole history. */
  lemma {:induction false} HistoryKept(h: History, db: Database, id: nat)
    requires SoundHistory(h, db)
    ensures id in KeptOf(h, db) <==> Kept(HistoryStamps(h), id)
  {
    hide Kept, KeptOf, Published, Keep;
    KeptOfPublished(h, db);
    PublishedStamps(h, db);
    KeptExactly(HistoryStamps(h), id);
  }

  lemma {:induction false} KeptOfPublished(h: History, db: Database)
    requires SoundHistory(h, db)
    ensures KeptOf(h, db) == Ids(Keep(Published(h, db)))
  {
    hide Keep, Published;
  }

  lemma {:induction false} PublishedStamps(h: History, db: Database)
    requires SoundHistory(h, db)
    ensures Published(h, db) == Backups(HistoryStamps(h))
  {
    hide Describe;
    forall b ensures b in Published(h, db) <==> b in Backups(HistoryStamps(h)) {
      if b in Backups(HistoryStamps(h)) {
        var x :| x in HistoryStamps(h) && b == Describe(x, HistoryStamps(h)[x]);
        assert b == BackupOf(h, x);
      }
      if b in Published(h, db) {
        var x :| x in h && b == BackupOf(h, x);
        assert Sound(x, h[x], db) && x in HistoryStamps(h);
      }
    }
  }

  function HistoryStamps(h: History): Stamps {
    map id | id in h && h[id].manifestFile.File? && h[id].manifestFile.parsed.Some? :: h[id].manifestFile.parsed.value.completedAt
  }
}
