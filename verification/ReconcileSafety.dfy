/**
  What one reconciliation pass guarantees (artifacts/server/src/core-worker-handlers.ts,
  exportReconcile): every entry is counted once, what is served or being built is
  spared, and exactly when a second pass has nothing left to do.
*/
module ReconcileSafety {
  import opened Wrappers
  import opened ExportStore
  import opened ExportReconcile
  import ExportSafety

  // ---------- Counting ----------

  lemma {:induction false} PassCounts(c: Setting, site: Site, entries: seq<Entry>, draws: nat -> Draw, i: nat, tally: Tally)
    requires i <= |entries|
    ensures var r := Pass(c, site, entries, draws, i, tally);
            && i <= r.turns <= |entries| && (r.finished <==> r.turns == |entries|)
            && r.tally.Total() == tally.Total() + r.turns - i
            && r.tally.anomalies >= tally.anomalies
            && r.tally.healthy + r.tally.preservedActive <= tally.healthy + tally.preservedActive + r.turns - i
    decreases |entries| - i
  {
    hide Reconcile, Pass, Tally.Plus, CountsOnce;
    PassStep(c, site, entries, draws, i, tally);
    if i < |entries| {
      TurnCountsOnce(c, site, entries[i], draws(i), tally);
      var step := Reconcile(c, site, entries[i], draws(i));
      if !step.threw { PassCounts(c, step.site, entries, draws, i + 1, tally.Plus(step.raised)); }
    }
  }

  /** Every scanned entry is on the counters; after a throw, every one whose turn had ended. */
  predicate AllCounted(scan: Result<seq<Entry>, Failure>, tally: Tally, report: Report) {
    match report
    case InventoryInvalid => scan.Err? && tally == NOTHING
    case Returned(reported) => scan.Ok? && reported == tally && tally.Total() == |scan.value| && tally.anomalies == 0
    case Inconsistent(anomalies) => scan.Ok? && tally.Total() == |scan.value| && 1 <= anomalies == tally.anomalies
    case Thrown => scan.Ok? && tally.Total() < |scan.value|
  }

  /**
    Whatever transactions and deletions throw, inside the try part, inside the catch part
    or in the store, a pass that reports its counters has counted every scanned directory
    in exactly one of the seven, none of them as an anomaly; one that reports anomalies
    has counted all of them too; one that throws has counted each directory before that.
  */
  lemma {:induction false} EveryEntryCountedOnce(c: Setting, site: Site, places: seq<Place>, draws: nat -> Draw)
    ensures var (_, tally, report) := Run(c, site, places, draws);
            AllCounted(Scan(c, site.disk, places), tally, report)
  {
    hide Run, Scan, AllCounted;
    RunReports(c, site, places, draws);
    if Scan(c, site.disk, places).Err? {
      NothingScanned(Scan(c, site.disk, places));
    } else {
      Reported(c, site, Scan(c, site.disk, places).value, draws);
    }
  }

  lemma {:induction false} RunReports(c: Setting, site: Site, places: seq<Place>, draws: nat -> Draw)
    ensures var scan := Scan(c, site.disk, places);
            Run(c, site, places, draws) ==
              if scan.Err? then (site, NOTHING, InventoryInvalid)
              else
                var r := Pass(c, site, scan.value, draws, 0, NOTHING);
                (r.site, r.tally, ReportOf(r))
  {
    hide Pass, Scan, ReportOf;
  }

  lemma {:induction false} Reported(c: Setting, site: Site, entries: seq<Entry>, draws: nat -> Draw)
    ensures var r := Pass(c, site, entries, draws, 0, NOTHING);
            AllCounted(Ok(entries), r.tally, ReportOf(r))
  {
    hide Pass, AllCounted, ReportOf, Tally.Total;
    NothingTotal();
    PassCounts(c, site, entries, draws, 0, NOTHING);
    Judged(Pass(c, site, entries, draws, 0, NOTHING), entries);
  }

  lemma {:induction false} NothingTotal()
    ensures NOTHING.Total() == 0
  {
  }

  lemma {:induction false} Judged(r: PassOutcome, entries: seq<Entry>)
    requires r.turns <= |entries| && (r.finished <==> r.turns == |entries|) && r.tally.Total() == r.turns
    ensures AllCounted(Ok(entries), r.tally, ReportOf(r))
  {
  }

  lemma {:induction false} NothingScanned(scan: Result<seq<Entry>, Failure>)
    requires scan.Err?
    ensures AllCounted(scan, NOTHING, InventoryInvalid)
  {
  }

  // ---------- What a pass spares ----------

  /** A ready artifact of a succeeded request, or the directories of a leased build before its request expires. */
  predicate Protected(row: Row, place: Place, now: int) {
    || (row.state.Succeeded? && row.artifact.Some? && row.artifact.value.state.Ready? && row.artifact.value.id == place.artifact)
    || (row.state.Running? && row.leased && now < row.expiresAt && row.artifact.None?)
  }

  /** Every file but temporaries is still there, unchanged. */
  ghost predicate Kept(before: Files, after: Files) {
    forall n: Name | n in before && !ExportSafety.Temporary(n) :: n in after && after[n] == before[n]
  }

  /** A step touches no other row and no other directory than those of its entry. */
  ghost predicate Local(site: Site, after: Site, place: Place) {
    && (forall r | r != place.request :: (r in after.db <==> r in site.db) && (r in site.db ==> after.db[r] == site.db[r]))
    && (forall p | p != place :: (p in after.disk <==> p in site.disk) && (p in site.disk ==> after.disk[p] == site.disk[p]))
  }

  lemma {:induction false} LocalThrough(site: Site, middle: Site, after: Site, place: Place)
    requires Local(site, middle, place) && Local(middle, after, place)
    ensures Local(site, after, place)
  {
  }

  lemma {:induction false} LocalSame(site: Site, place: Place)
    ensures Local(site, site, place)
  {
  }

  lemma {:induction false} LocalRow(site: Site, place: Place, row: Row)
    ensures Local(site, WithRow(site, place.request, row), place)
  {
  }

  lemma {:induction false} LocalStore(site: Site, place: Place, done: (World, Outcome), before: Tally, counted: Tally)
    ensures Local(site, StoreStep(site, place, done, before, counted).site, place)
  {
  }

  lemma {:induction false} RemoveLocal(c: Setting, site: Site, place: Place, m: Manifest, d: Draw, before: Tally, counted: Tally)
    ensures Local(site, Remove(c, site, place, m, d, before, counted).site, place)
  {
    hide Local, Delete, StoreStep;
    LocalStore(site, place, Delete(c.hash, Directory(site, place, d.steps), m, c.order), before, counted);
  }

  lemma {:induction false} RemovePartialLocal(c: Setting, site: Site, place: Place, fingerprint: map<Name, FileRecord>, d: Draw, counted: Tally)
    ensures Local(site, RemovePartial(c, site, place, fingerprint, d, counted).site, place)
  {
    hide Local, DeletePartial, StoreStep;
    LocalStore(site, place, DeletePartial(c.hash, Directory(site, place, d.steps), place.request, place.artifact, fingerprint, c.maximum, c.order), NOTHING, counted);
  }

  lemma {:induction false} FailLocal(site: Site, place: Place, verdict: Verdict)
    requires place.request in site.db
    ensures Local(site, FailBuild(site, place.request, verdict), place)
  {
    hide Local, WithRow;
    LocalSame(site, place);
    LocalRow(site, place, site.db[place.request].(state := RequestFailed, pendingJobs := 0));
  }

  lemma {:induction false} RecordedLocal(c: Setting, site: Site, entry: Entry, row: Row, d: Draw)
    requires row.artifact.Some?
    ensures Local(site, Recorded(c, site, entry, row, d).site, entry.place)
  {
    hide Local, Remove, Restore, StoreStep;
    var m := row.artifact.value.manifest;
    LocalSame(site, entry.place);
    RemoveLocal(c, site, entry.place, m, d, NOTHING, ORPHAN_DELETED);
    LocalStore(site, entry.place, Restore(c.hash, Directory(site, entry.place, d.steps), m, d.suffix), NOTHING, MARKER_RESTORED);
  }

  lemma {:induction false} CaughtLocal(c: Setting, site: Site, place: Place, m: Manifest, d: Draw, before: Tally)
    requires place.request in site.db
    ensures Local(site, Caught(c, site, place, m, d, before).site, place)
  {
    hide Local, Remove, FailBuild, Bound;
    var now := if d.meanwhile.Some? then WithRow(site, place.request, d.meanwhile.value) else site;
    LocalSame(site, place);
    if d.meanwhile.Some? { LocalRow(site, place, d.meanwhile.value); }
    var failed := FailBuild(now, place.request, d.failing);
    FailLocal(now, place, d.failing);
    LocalThrough(site, now, failed, place);
    var counted := before.Plus(ORPHAN_DELETED);
    RemoveLocal(c, failed, place, m, d, before, counted);
    LocalThrough(site, failed, Remove(c, failed, place, m, d, before, counted).site, place);
  }

  lemma {:induction false} UnrecordedLocal(c: Setting, site: Site, place: Place, m: Manifest, row: Row, d: Draw)
    requires place.request in site.db
    ensures Local(site, Unrecorded(c, site, place, m, row, d).site, place)
  {
    hide Local, Remove, Caught, Attempt;
    LocalSame(site, place);
    RemoveLocal(c, site, place, m, d, NOTHING, ORPHAN_DELETED);
    var attempt := Attempt(site, place, m, row, d);
    AttemptLocal(site, place, m, row, d);
    assert place.request in attempt.site.db;
    CaughtLocal(c, attempt.site, place, m, d, attempt.raised);
    LocalThrough(site, attempt.site, Caught(c, attempt.site, place, m, d, attempt.raised).site, place);
  }

  lemma {:induction false} AttemptLocal(site: Site, place: Place, m: Manifest, row: Row, d: Draw)
    requires place.request in site.db
    ensures Local(site, Attempt(site, place, m, row, d).site, place) && place.request in Attempt(site, place, m, row, d).site.db
  {
    hide Local;
    LocalSame(site, place);
    var completed := row.(state := Succeeded, artifact := Some(Artifact(m.artifactId, Ready, m)));
    LocalRow(site, place, completed);
    LocalRow(site, place, completed.(pendingJobs := 0));
  }

  lemma {:induction false} LeftoverLocal(c: Setting, site: Site, place: Place, fingerprint: map<Name, FileRecord>, row: Row, d: Draw)
    requires place.request in site.db
    ensures Local(site, Leftover(c, site, place, fingerprint, row, d).site, place)
  {
    hide Local, RemovePartial, FailBuild;
    var failed := FailBuild(site, place.request, d.failing);
    LocalSame(site, place);
    FailLocal(site, place, d.failing);
    RemovePartialLocal(c, failed, place, fingerprint, d, PARTIAL_FAILED);
    LocalThrough(site, failed, RemovePartial(c, failed, place, fingerprint, d, PARTIAL_FAILED).site, place);
    RemovePartialLocal(c, site, place, fingerprint, d, ORPHAN_DELETED);
  }

  lemma {:induction false} StepLocal(c: Setting, site: Site, entry: Entry, d: Draw)
    ensures Local(site, Reconcile(c, site, entry, d).site, entry.place)
  {
    hide Local, Recorded, Unrecorded, Leftover, Bound;
    LocalSame(site, entry.place);
    if entry.place.request in site.db {
      var row := site.db[entry.place.request];
      if row.artifact.Some? {
        RecordedLocal(c, site, entry, row, d);
      } else {
        match entry.inventory
        case Committed(m) => UnrecordedLocal(c, site, entry.place, m, row, d);
        case Partial(fingerprint) => LeftoverLocal(c, site, entry.place, fingerprint, row, d);
      }
    }
  }

  lemma {:induction false} StepSpares(c: Setting, site: Site, entry: Entry, d: Draw, place: Place)
    requires place.request in site.db && Protected(site.db[place.request], place, d.now) && place in site.disk
    ensures var after := Reconcile(c, site, entry, d).site;
            && place.request in after.db && after.db[place.request] == site.db[place.request]
            && place in after.disk && Kept(site.disk[place], after.disk[place])
  {
    StepLocal(c, site, entry, d);
    if entry.place.request == place.request {
      SameRequestSpares(c, site, entry, d, place);
    }
  }

  lemma {:induction false} SameRequestSpares(c: Setting, site: Site, entry: Entry, d: Draw, place: Place)
    requires place.request in site.db && Protected(site.db[place.request], place, d.now) && place in site.disk
    requires entry.place.request == place.request
    ensures var after := Reconcile(c, site, entry, d).site;
            && place.request in after.db && after.db[place.request] == site.db[place.request]
            && place in after.disk && Kept(site.disk[place], after.disk[place])
  {
    hide Delete, DeletePartial, Complete;
    var row := site.db[place.request];
    if row.artifact.Some? && entry.place == place && entry.inventory.Partial? {
      var m := row.artifact.value.manifest;
      ExportSafety.WriteGrows(Directory(site, place, d.steps), Marker, Text(m), d.suffix);
    }
  }

  /**
    No pass, whatever it is told to scan and however it is interrupted, removes or alters
    a file of a served artifact, or of a leased build whose request expires after the pass.
  */
  lemma {:induction false} PassSpares(c: Setting, site: Site, entries: seq<Entry>, draws: nat -> Draw, i: nat, tally: Tally, place: Place)
    requires i <= |entries|
    requires place.request in site.db && place in site.disk
    requires forall x | i <= x < |entries| :: Protected(site.db[place.request], place, draws(x).now)
    ensures var after := Pass(c, site, entries, draws, i, tally).site;
            && place.request in after.db && after.db[place.request] == site.db[place.request]
            && place in after.disk && Kept(site.disk[place], after.disk[place])
    decreases |entries| - i
  {
    hide Reconcile, Protected, Tally.Plus, Pass;
    PassStep(c, site, entries, draws, i, tally);
    if i < |entries| {
      var step := Reconcile(c, site, entries[i], draws(i));
      StepSpares(c, site, entries[i], draws(i), place);
      if !step.threw {
        PassSpares(c, step.site, entries, draws, i + 1, tally.Plus(step.raised), place);
      }
    }
  }

  // ---------- One step, in a quiet database ----------

  /** Nothing is left to do for the directory before its request expires. */
  predicate Inert(c: Setting, row: Row, entry: Entry) {
    && Bound(row, entry.place.request)
    && match row.artifact
       case Some(a) => a.id == entry.place.artifact && entry.inventory.Committed?
                       && c.digest(entry.inventory.manifest) == c.digest(a.manifest) && !a.state.ArtifactDeleted?
       case None => row.state.Running? && row.leased
  }

  /** The turn of a partial directory at a time when its build may be failed. */
  predicate Fails(row: Row, entry: Entry, now: int) {
    entry.inventory.Partial? && row.artifact.None? && row.SafeToFail(now)
  }

  lemma {:induction false} InertStep(c: Setting, site: Site, entry: Entry, d: Draw)
    requires entry.place.request in site.db && Inert(c, site.db[entry.place.request], entry)
    requires !Fails(site.db[entry.place.request], entry, d.now) && !d.halted
    ensures Reconcile(c, site, entry, d) == Step(site, HEALTHY, false) || Reconcile(c, site, entry, d) == Step(site, PRESERVED_ACTIVE, false)
  {
  }

  predicate Reconciled(c: Setting, site: Site, place: Place) {
    place in site.disk ==>
      && place.request in site.db
      && Look(c, site.disk, place).Ok?
      && Inert(c, site.db[place.request], Entry(place, Look(c, site.disk, place).value))
  }

  /** What a counted step does to the row of its request. */
  predicate RowMoves(entry: Entry, before: Row, after: Row, now: int) {
    && (after != before ==>
          && before.artifact.None? && before.state.Running? && !after.state.Running?
          && (before.leased ==> Fails(before, entry, now) && after.state.RequestFailed? && after.artifact.None?))
    && !Fails(after, entry, now)
  }

  ghost predicate Effect(c: Setting, site: Site, after: Site, entry: Entry, now: int) {
    var request := entry.place.request;
    && request in site.db && after.db.Keys == site.db.Keys
    && (forall r | r in site.db && r != request :: after.db[r] == site.db[r])
    && (forall p | p != entry.place :: (p in after.disk <==> p in site.disk) && (p in site.disk ==> after.disk[p] == site.disk[p]))
    && RowMoves(entry, site.db[request], after.db[request], now)
    && entry.place in site.disk
    && (entry.place in after.disk && after.db[request].artifact.None? ==> after.disk[entry.place] == site.disk[entry.place])
    && Reconciled(c, after, entry.place)
  }

  /** The turn ended normally and reported no anomaly. */
  predicate Sound(step: Step) {
    !step.threw && step.raised.anomalies == 0
  }

  lemma {:induction false} DropRestEnds(w: World, names: seq<Name>)
    requires w.dir.Some?
    ensures DropRest(w, names).1.Finished? ==> DropRest(w, names).0.dir.None?
    decreases |names|
  {
    if names != [] && w.stepsLeft > 0 {
      DropRestEnds(World(Some(w.dir.value - {names[0]}), w.stepsLeft - 1), names[1..]);
    }
  }

  lemma {:induction false} DeletionEnds(c: Setting, w: World, m: Manifest)
    ensures Delete(c.hash, w, m, c.order).1.Finished? ==> Delete(c.hash, w, m, c.order).0.dir.None?
  {
    if w.dir.Some? {
      var w1 := DropChunks(c.hash, w, m.chunks).0;
      DropRestEnds(w1, c.order(w1.dir.value));
    }
  }

  lemma {:induction false} PartialDeletionEnds(c: Setting, w: World, place: Place, fingerprint: map<Name, FileRecord>)
    ensures var (after, r) := DeletePartial(c.hash, w, place.request, place.artifact, fingerprint, c.maximum, c.order);
            r.Finished? ==> after.dir.None?
  {
    if w.dir.Some? { DropRestEnds(w, c.order(w.dir.value)); }
  }

  lemma {:induction false} RestorationCommits(c: Setting, w: World, m: Manifest, suffix: nat)
    requires w.dir.Some? && Marker !in w.dir.value
    ensures var (after, r) := Restore(c.hash, w, m, suffix);
            r.Finished? ==>
              && after.dir.Some?
              && Inspect(c.hash, after.dir.value, m.exportRequestId, m.artifactId, c.maximum, c.order) == Ok(Committed(m))
  {
    var (after, r) := Restore(c.hash, w, m, suffix);
    if r.Finished? {
      assert after.dir.value == w.dir.value[Marker := Text(m)];
      assert KnownName(m, Marker);
    }
  }

  lemma {:induction false} RecordedEffect(c: Setting, site: Site, entry: Entry, d: Draw)
    requires entry.place.request in site.db && entry.place in site.disk && Look(c, site.disk, entry.place) == Ok(entry.inventory)
    requires var row := site.db[entry.place.request]; row.artifact.Some? && Bound(row, entry.place.request)
    requires Sound(Recorded(c, site, entry, site.db[entry.place.request], d))
    ensures Effect(c, site, Recorded(c, site, entry, site.db[entry.place.request], d).site, entry, d.now)
  {
    var m := site.db[entry.place.request].artifact.value.manifest;
    var w := Directory(site, entry.place, d.steps);
    DeletionEnds(c, w, m);
    if entry.inventory.Partial? {
      assert Marker !in w.dir.value;
      RestorationCommits(c, w, m, d.suffix);
    }
  }

  lemma {:induction false} CaughtEffect(c: Setting, site: Site, now: Site, entry: Entry, d: Draw)
    requires entry.place.request in site.db && entry.place in site.disk && Look(c, site.disk, entry.place) == Ok(entry.inventory)
    requires entry.inventory.Committed? && d.meanwhile.None?
    requires var row := site.db[entry.place.request]; row.artifact.None? && row.state.Running? && !row.leased
    requires now == site ||
             now == WithRow(site, entry.place.request,
                            site.db[entry.place.request].(state := Succeeded,
                              artifact := Some(Artifact(entry.place.artifact, Ready, entry.inventory.manifest))))
    requires Sound(Caught(c, now, entry.place, entry.inventory.manifest, d, NOTHING))
    ensures Effect(c, site, Caught(c, now, entry.place, entry.inventory.manifest, d, NOTHING).site, entry, d.now)
  {
    hide Tally.Plus, Delete;
    Increments(HEALTHY);
    Increments(ORPHAN_DELETED);
    Increments(ANOMALY);
    var w := Directory(site, entry.place, d.steps);
    DeletionEnds(c, w, entry.inventory.manifest);
  }

  lemma {:induction false} UnrecordedEffect(c: Setting, site: Site, entry: Entry, d: Draw)
    requires entry.place.request in site.db && entry.place in site.disk && Look(c, site.disk, entry.place) == Ok(entry.inventory)
    requires entry.inventory.Committed? && d.meanwhile.None? && site.db[entry.place.request].artifact.None?
    requires Sound(Unrecorded(c, site, entry.place, entry.inventory.manifest, site.db[entry.place.request], d))
    ensures Effect(c, site, Unrecorded(c, site, entry.place, entry.inventory.manifest, site.db[entry.place.request], d).site, entry, d.now)
  {
    hide Tally.Plus, Caught;
    var row := site.db[entry.place.request];
    var m := entry.inventory.manifest;
    DeletionEnds(c, Directory(site, entry.place, d.steps), m);
    if row.state.Running? && !row.leased {
      var attempt := Attempt(site, entry.place, m, row, d);
      if attempt.threw { CaughtEffect(c, site, attempt.site, entry, d); }
    }
  }

  lemma {:induction false} LeftoverEffect(c: Setting, site: Site, entry: Entry, d: Draw)
    requires entry.place.request in site.db && entry.place in site.disk && Look(c, site.disk, entry.place) == Ok(entry.inventory)
    requires entry.inventory.Partial? && site.db[entry.place.request].artifact.None?
    requires Sound(Leftover(c, site, entry.place, entry.inventory.fingerprint, site.db[entry.place.request], d))
    ensures Effect(c, site, Leftover(c, site, entry.place, entry.inventory.fingerprint, site.db[entry.place.request], d).site, entry, d.now)
  {
    PartialDeletionEnds(c, Directory(site, entry.place, d.steps), entry.place, entry.inventory.fingerprint);
  }

  lemma {:induction false} StepEffect(c: Setting, site: Site, entry: Entry, d: Draw)
    requires entry.place in site.disk && Look(c, site.disk, entry.place) == Ok(entry.inventory) && d.meanwhile.None?
    requires Sound(Reconcile(c, site, entry, d))
    ensures Effect(c, site, Reconcile(c, site, entry, d).site, entry, d.now)
  {
    var row := site.db[entry.place.request];
    if row.artifact.Some? {
      RecordedEffect(c, site, entry, d);
    } else if entry.inventory.Committed? {
      UnrecordedEffect(c, site, entry, d);
    } else {
      LeftoverEffect(c, site, entry, d);
    }
  }

  // ---------- A whole pass, in a quiet database ----------

  predicate FromScan(c: Setting, disk: map<Place, Files>, entries: seq<Entry>) {
    && (forall i, j | 0 <= i < j < |entries| :: entries[i].place != entries[j].place)
    && (forall i | 0 <= i < |entries| :: entries[i].place in disk && Look(c, disk, entries[i].place) == Ok(entries[i].inventory))
  }

  predicate SameDirectory(before: Site, after: Site, place: Place) {
    place in before.disk && place in after.disk && after.disk[place] == before.disk[place]
  }

  /** After `i` entries: what has not been reached is as scanned, and a running row is as it was. */
  ghost predicate Progress(c: Setting, start: Site, site: Site, entries: seq<Entry>, draws: nat -> Draw, i: nat) {
    && i <= |entries| && FromScan(c, start.disk, entries)
    && site.db.Keys == start.db.Keys
    && (forall p | p in site.disk :: p in start.disk)
    && (forall r | r in site.db :: site.db[r] == start.db[r] || !site.db[r].state.Running?)
    && (forall k | i <= k < |entries| :: SameDirectory(start, site, entries[k].place))
    && (forall k | 0 <= k < i :: Passed(c, start, site, entries[k], draws(k).now))
  }

  /** What holds of every directory the pass has dealt with, converged or not. */
  predicate Passed(c: Setting, start: Site, site: Site, entry: Entry, now: int) {
    && entry.place.request in site.db
    && var row := site.db[entry.place.request];
    && !Fails(row, entry, now)
    && (entry.place in site.disk ==> Look(c, site.disk, entry.place).Ok?)
    && (entry.place in site.disk && row.artifact.None? ==> SameDirectory(start, site, entry.place))
  }

  predicate Quiet(draws: nat -> Draw, n: nat) {
    forall i | 0 <= i < n :: draws(i).meanwhile.None?
  }

  lemma {:induction false} PassedStays(c: Setting, start: Site, site: Site, after: Site, entry: Entry, now: int, earlier: Entry, before: int)
    requires Effect(c, site, after, entry, now) && Passed(c, start, site, earlier, before) && earlier.place != entry.place
    ensures Passed(c, start, after, earlier, before)
  {
  }

  lemma {:induction false} StepProgress(c: Setting, start: Site, site: Site, after: Site, entries: seq<Entry>, draws: nat -> Draw, i: nat)
    requires i < |entries| && Progress(c, start, site, entries, draws, i) && Effect(c, site, after, entries[i], draws(i).now)
    ensures Progress(c, start, after, entries, draws, i + 1)
  {
    var entry := entries[i];
    forall k | 0 <= k < i + 1 ensures Passed(c, start, after, entries[k], draws(k).now) {
      if k < i {
        PassedStays(c, start, site, after, entry, draws(i).now, entries[k], draws(k).now);
      } else {
        assert SameDirectory(start, site, entry.place);
      }
    }
    forall k | i + 1 <= k < |entries| ensures SameDirectory(start, after, entries[k].place) {
      assert SameDirectory(start, site, entries[k].place);
    }
  }

  /**
    A request with two directories and a leased build: directory `k` is preserved in its
    turn, and then a partial one `j` has its turn after the request expired, which fails
    the request.
  */
  predicate Overtakes(db: map<nat, Row>, entries: seq<Entry>, draws: nat -> Draw, k: nat, j: nat) {
    && k < j < |entries|
    && var request := entries[k].place.request;
    && entries[j].place.request == request && request in db
    && db[request].state.Running? && db[request].artifact.None? && db[request].leased
    && Fails(db[request], entries[j], draws(j).now)
    && forall i | 0 <= i <= k :: entries[i].place.request == request ==> !Fails(db[request], entries[i], draws(i).now)
  }

  ghost predicate Overtaken(db: map<nat, Row>, entries: seq<Entry>, draws: nat -> Draw) {
    exists k: nat, j: nat :: Overtakes(db, entries, draws, k, j)
  }

  lemma {:induction false} ReconciledStays(c: Setting, start: Site, site: Site, after: Site, entries: seq<Entry>, draws: nat -> Draw, i: nat, k: nat)
    requires k < i < |entries| && Progress(c, start, site, entries, draws, i) && Effect(c, site, after, entries[i], draws(i).now)
    requires Reconciled(c, site, entries[k].place) && !Overtaken(start.db, entries, draws)
    ensures Reconciled(c, after, entries[k].place)
  {
    var entry, earlier := entries[i], entries[k];
    var request := entry.place.request;
    var row := site.db[request];
    assert earlier.place != entry.place;
    if earlier.place in site.disk && earlier.place.request == request && after.db[request] != row {
      assert Passed(c, start, site, earlier, draws(k).now) && row == start.db[request];
      assert row.leased && Fails(row, entry, draws(i).now);
      forall x | 0 <= x <= k ensures entries[x].place.request == request ==> !Fails(row, entries[x], draws(x).now) {
        assert Passed(c, start, site, entries[x], draws(x).now);
      }
      assert Overtakes(start.db, entries, draws, k, i);
    }
  }

  /** One step of a pass that will end without an anomaly. */
  lemma {:induction false} NextStep(c: Setting, start: Site, site: Site, entries: seq<Entry>, draws: nat -> Draw, i: nat, tally: Tally)
    requires i < |entries| && Progress(c, start, site, entries, draws, i) && Quiet(draws, |entries|)
    requires Clean(Pass(c, site, entries, draws, i, tally))
    ensures var step := Reconcile(c, site, entries[i], draws(i));
            && !step.threw && Effect(c, site, step.site, entries[i], draws(i).now) && Reconciled(c, step.site, entries[i].place)
            && Progress(c, start, step.site, entries, draws, i + 1)
            && Pass(c, step.site, entries, draws, i + 1, tally.Plus(step.raised)) == Pass(c, site, entries, draws, i, tally)
  {
    hide Reconcile, Reconciled, FromScan, Effect, Passed, Pass, Progress;
    var step := Reconcile(c, site, entries[i], draws(i));
    PassStep(c, site, entries, draws, i, tally);
    PassCounts(c, step.site, entries, draws, i + 1, tally.Plus(step.raised));
    StepHere(c, start, site, entries, draws, i);
    StepProgress(c, start, site, step.site, entries, draws, i);
  }

  predicate Clean(r: PassOutcome) {
    r.finished && r.tally.anomalies == 0
  }

  lemma {:induction false} PassProgresses(c: Setting, start: Site, site: Site, entries: seq<Entry>, draws: nat -> Draw, i: nat, tally: Tally)
    requires Progress(c, start, site, entries, draws, i) && Quiet(draws, |entries|) && Clean(Pass(c, site, entries, draws, i, tally))
    ensures Progress(c, start, Pass(c, site, entries, draws, i, tally).site, entries, draws, |entries|)
    decreases |entries| - i
  {
    hide Reconcile, Reconciled, FromScan, Effect, Passed, SameDirectory, Pass, Tally.Plus;
    if i < |entries| {
      NextStep(c, start, site, entries, draws, i, tally);
      var step := Reconcile(c, site, entries[i], draws(i));
      PassProgresses(c, start, step.site, entries, draws, i + 1, tally.Plus(step.raised));
    } else {
      PassStep(c, site, entries, draws, i, tally);
    }
  }

  predicate AllReconciled(c: Setting, site: Site, entries: seq<Entry>, n: nat)
    requires n <= |entries|
  {
    forall k | 0 <= k < n :: Reconciled(c, site, entries[k].place)
  }

  lemma {:induction false} PassReconciles(c: Setting, start: Site, site: Site, entries: seq<Entry>, draws: nat -> Draw, i: nat, tally: Tally)
    requires Progress(c, start, site, entries, draws, i) && Quiet(draws, |entries|) && Clean(Pass(c, site, entries, draws, i, tally))
    requires AllReconciled(c, site, entries, i) && !Overtaken(start.db, entries, draws)
    ensures AllReconciled(c, Pass(c, site, entries, draws, i, tally).site, entries, |entries|)
    decreases |entries| - i
  {
    hide Reconcile, Reconciled, FromScan, Effect, Passed, Overtaken, SameDirectory, Pass, Tally.Plus;
    if i < |entries| {
      NextStep(c, start, site, entries, draws, i, tally);
      var step := Reconcile(c, site, entries[i], draws(i));
      forall k | 0 <= k < i ensures Reconciled(c, step.site, entries[k].place) {
        ReconciledStays(c, start, site, step.site, entries, draws, i, k);
      }
      PassReconciles(c, start, step.site, entries, draws, i + 1, tally.Plus(step.raised));
    } else {
      PassStep(c, site, entries, draws, i, tally);
    }
  }

  lemma {:induction false} StepHere(c: Setting, start: Site, site: Site, entries: seq<Entry>, draws: nat -> Draw, i: nat)
    requires i < |entries| && Progress(c, start, site, entries, draws, i) && draws(i).meanwhile.None?
    requires Sound(Reconcile(c, site, entries[i], draws(i)))
    ensures var after := Reconcile(c, site, entries[i], draws(i)).site;
            Effect(c, site, after, entries[i], draws(i).now) && Reconciled(c, after, entries[i].place)
  {
    hide Reconcile;
    assert SameDirectory(start, site, entries[i].place);
    StepEffect(c, site, entries[i], draws(i));
  }

  // ---------- The second pass ----------

  predicate Distinct(places: seq<Place>) {
    forall i, j | 0 <= i < j < |places| :: places[i] != places[j]
  }

  predicate Appears(entries: seq<Entry>, place: Place) {
    exists i :: 0 <= i < |entries| && entries[i].place == place
  }

  lemma {:induction false} ScanIs(c: Setting, disk: map<Place, Files>, places: seq<Place>)
    requires Distinct(places)
    ensures Scan(c, disk, places).Ok? <==> forall p | p in places && p in disk :: Look(c, disk, p).Ok?
    ensures var r := Scan(c, disk, places);
            r.Ok? ==>
              && FromScan(c, disk, r.value)
              && (forall p | p in places && p in disk :: Appears(r.value, p))
              && (forall i | 0 <= i < |r.value| :: r.value[i].place in places)
    decreases |places|
  {
    if places != [] {
      hide Inspect;
      var rest, last := places[..|places| - 1], places[|places| - 1];
      assert forall p :: p in places <==> p in rest || p == last;
      assert last !in rest;
      ScanIs(c, disk, rest);
      var r := Scan(c, disk, places);
      if r.Ok? {
        var before := Scan(c, disk, rest).value;
        forall p | p in places && p in disk ensures Appears(r.value, p) {
          if p in rest {
            assert Appears(before, p);
            var i :| 0 <= i < |before| && before[i].place == p;
            assert r.value[i].place == p;
          } else {
            assert r.value[|before|].place == p;
          }
        }
      }
    }
  }

  /** Nothing but healthy and preserved directories, and nothing changed. */
  ghost predicate NothingToDo(c: Setting, site: Site, entries: seq<Entry>, draws: nat -> Draw) {
    var r := Pass(c, site, entries, draws, 0, NOTHING);
    r.finished && r.site == site && r.tally.healthy + r.tally.preservedActive == |entries|
  }

  /** Nothing is left to do for the directory, and its turn comes before its request expires. */
  predicate Idle(c: Setting, site: Site, entry: Entry, now: int) {
    && entry.place.request in site.db
    && Inert(c, site.db[entry.place.request], entry) && !Fails(site.db[entry.place.request], entry, now)
  }

  lemma {:induction false} InertPass(c: Setting, site: Site, entries: seq<Entry>, draws: nat -> Draw, i: nat, tally: Tally)
    requires i <= |entries| && forall k | 0 <= k < |entries| :: !draws(k).halted
    requires forall k | 0 <= k < |entries| :: Idle(c, site, entries[k], draws(k).now)
    ensures var r := Pass(c, site, entries, draws, i, tally);
            r.finished && r.site == site
            && r.tally.healthy + r.tally.preservedActive == tally.healthy + tally.preservedActive + |entries| - i
    decreases |entries| - i
  {
    hide Reconcile, Inert, Fails, Pass;
    PassStep(c, site, entries, draws, i, tally);
    if i < |entries| {
      InertStep(c, site, entries[i], draws(i));
      InertPass(c, site, entries, draws, i + 1, tally.Plus(Reconcile(c, site, entries[i], draws(i)).raised));
    }
  }

  /** The second pass comes to a partial directory whose request has expired by then. */
  predicate Lapses(db: map<nat, Row>, entries: seq<Entry>, draws: nat -> Draw, x: nat) {
    x < |entries| && entries[x].place.request in db && Fails(db[entries[x].place.request], entries[x], draws(x).now)
  }

  ghost predicate Lapsed(db: map<nat, Row>, entries: seq<Entry>, draws: nat -> Draw) {
    exists x: nat :: Lapses(db, entries, draws, x)
  }

  lemma {:induction false} FailsStep(c: Setting, site: Site, entry: Entry, d: Draw)
    requires entry.place.request in site.db && Fails(site.db[entry.place.request], entry, d.now)
    ensures var step := Reconcile(c, site, entry, d);
            !step.threw ==> step.raised == PARTIAL_FAILED
  {
    hide DeletePartial, Tally.Plus;
  }

  lemma {:induction false} LapsedPass(c: Setting, site: Site, entries: seq<Entry>, draws: nat -> Draw, i: nat, tally: Tally, x: nat)
    requires i <= x && Lapses(site.db, entries, draws, x) && forall k | 0 <= k < |entries| :: !draws(k).halted
    requires forall k | 0 <= k < |entries| :: entries[k].place.request in site.db && Inert(c, site.db[entries[k].place.request], entries[k])
    ensures var r := Pass(c, site, entries, draws, i, tally);
            r.finished ==> r.tally.healthy + r.tally.preservedActive < tally.healthy + tally.preservedActive + |entries| - i
    decreases |entries| - i
  {
    hide Reconcile, Inert, Fails, Pass;
    PassStep(c, site, entries, draws, i, tally);
    var step := Reconcile(c, site, entries[i], draws(i));
    if Fails(site.db[entries[i].place.request], entries[i], draws(i).now) {
      FailsStep(c, site, entries[i], draws(i));
      if !step.threw { PassCounts(c, step.site, entries, draws, i + 1, tally.Plus(step.raised)); }
    } else {
      InertStep(c, site, entries[i], draws(i));
      LapsedPass(c, site, entries, draws, i + 1, tally.Plus(step.raised), x);
    }
  }

  predicate Hopeless(db: map<nat, Row>, request: nat) {
    request in db && db[request].state.RequestFailed? && db[request].artifact.None?
  }

  lemma {:induction false} FailedRowStays(c: Setting, site: Site, entry: Entry, d: Draw, request: nat)
    requires Hopeless(site.db, request)
    ensures var step := Reconcile(c, site, entry, d);
            && Hopeless(step.site.db, request)
            && (!step.threw && entry.place.request == request ==> step.raised == ORPHAN_DELETED)
  {
    hide Delete, DeletePartial, Tally.Plus;
    Increments(ORPHAN_DELETED);
    if entry.place.request != request { StepLocal(c, site, entry, d); }
  }

  lemma {:induction false} FailedRowWork(c: Setting, site: Site, entries: seq<Entry>, draws: nat -> Draw, i: nat, tally: Tally, k: nat)
    requires i <= k < |entries| && Hopeless(site.db, entries[k].place.request)
    ensures var r := Pass(c, site, entries, draws, i, tally);
            r.finished ==> r.tally.healthy + r.tally.preservedActive < tally.healthy + tally.preservedActive + |entries| - i
    decreases |entries| - i
  {
    hide Reconcile, Pass, CountsOnce;
    PassStep(c, site, entries, draws, i, tally);
    TurnCountsOnce(c, site, entries[i], draws(i), tally);
    var step := Reconcile(c, site, entries[i], draws(i));
    FailedRowStays(c, site, entries[i], draws(i), entries[k].place.request);
    if !step.threw {
      var counted := tally.Plus(step.raised);
      PassCounts(c, step.site, entries, draws, i + 1, counted);
      if i < k { FailedRowWork(c, step.site, entries, draws, i + 1, counted, k); }
    }
  }

  predicate FailSeen(row: Row, entries: seq<Entry>, draws: nat -> Draw, i: nat, request: nat)
    requires i <= |entries|
  {
    exists x :: 0 <= x < i && entries[x].place.request == request && Fails(row, entries[x], draws(x).now)
  }

  /** While the pass runs over an overtaken request, its directory `k` stays and its row fails in the first turn that may. */
  ghost predicate Failing(start: Site, site: Site, entries: seq<Entry>, draws: nat -> Draw, i: nat, k: nat)
    requires i <= |entries| && k < |entries|
  {
    var request := entries[k].place.request;
    && request in site.db && request in start.db
    && SameDirectory(start, site, entries[k].place)
    && (FailSeen(start.db[request], entries, draws, i, request) ==> Hopeless(site.db, request))
    && (!FailSeen(start.db[request], entries, draws, i, request) ==> site.db[request] == start.db[request])
  }

  lemma {:induction false} SeenNext(row: Row, entries: seq<Entry>, draws: nat -> Draw, i: nat, request: nat)
    requires i < |entries|
    ensures FailSeen(row, entries, draws, i + 1, request) <==>
              FailSeen(row, entries, draws, i, request) || (entries[i].place.request == request && Fails(row, entries[i], draws(i).now))
  {
  }

  lemma {:induction false} NoneSeenBefore(db: map<nat, Row>, entries: seq<Entry>, draws: nat -> Draw, k: nat, j: nat)
    requires Overtakes(db, entries, draws, k, j)
    ensures !FailSeen(db[entries[k].place.request], entries, draws, k, entries[k].place.request)
  {
  }

  lemma {:induction false} FailingStep(c: Setting, start: Site, site: Site, entries: seq<Entry>, draws: nat -> Draw, i: nat, k: nat, j: nat)
    requires i < |entries| && Overtakes(start.db, entries, draws, k, j) && Failing(start, site, entries, draws, i, k)
    requires FromScan(c, start.disk, entries)
    requires var step := Reconcile(c, site, entries[i], draws(i)); !step.threw && Effect(c, site, step.site, entries[i], draws(i).now)
    ensures Failing(start, Reconcile(c, site, entries[i], draws(i)).site, entries, draws, i + 1, k)
  {
    hide Recorded, Unrecorded, Leftover, FailSeen, Look;
    var d := draws(i);
    var step := Reconcile(c, site, entries[i], d);
    var entry, request := entries[i], entries[k].place.request;
    var row := start.db[request];
    SeenNext(row, entries, draws, i, request);
    if entry.place.request == request {
      if FailSeen(row, entries, draws, i, request) {
        FailedRowStays(c, site, entry, d, request);
        NoneSeenBefore(start.db, entries, draws, k, j);
      } else if !Fails(row, entry, d.now) {
        assert Inert(c, site.db[request], entry);
        InertStep(c, site, entry, d);
      } else {
        assert i != k;
      }
    }
    assert entries[k].place != entry.place || step.site == site;
  }

  lemma {:induction false} OvertakenFails(c: Setting, start: Site, site: Site, entries: seq<Entry>, draws: nat -> Draw, i: nat, tally: Tally, k: nat, j: nat)
    requires Progress(c, start, site, entries, draws, i) && Quiet(draws, |entries|)
    requires Overtakes(start.db, entries, draws, k, j) && Failing(start, site, entries, draws, i, k)
    requires Clean(Pass(c, site, entries, draws, i, tally))
    ensures var after := Pass(c, site, entries, draws, i, tally).site;
            Hopeless(after.db, entries[k].place.request) && entries[k].place in after.disk
    decreases |entries| - i
  {
    hide Reconcile, Reconciled, FromScan, Effect, Failing, Passed, SameDirectory, Look, Inspect, Pass, Tally.Plus;
    if i < |entries| {
      NextStep(c, start, site, entries, draws, i, tally);
      var step := Reconcile(c, site, entries[i], draws(i));
      FailingStep(c, start, site, entries, draws, i, k, j);
      OvertakenFails(c, start, step.site, entries, draws, i + 1, tally.Plus(step.raised), k, j);
    } else {
      PassStep(c, site, entries, draws, i, tally);
      FailingEnd(start, site, entries, draws, k, j);
    }
  }

  lemma {:induction false} FailingEnd(start: Site, site: Site, entries: seq<Entry>, draws: nat -> Draw, k: nat, j: nat)
    requires Overtakes(start.db, entries, draws, k, j) && Failing(start, site, entries, draws, |entries|, k)
    ensures Hopeless(site.db, entries[k].place.request) && entries[k].place in site.disk
  {
    assert FailSeen(start.db[entries[k].place.request], entries, draws, |entries|, entries[k].place.request);
  }

  lemma {:induction false} PassStarts(c: Setting, start: Site, entries: seq<Entry>, draws: nat -> Draw, k: nat, j: nat)
    requires FromScan(c, start.disk, entries)
    ensures Progress(c, start, start, entries, draws, 0)
    ensures Overtakes(start.db, entries, draws, k, j) ==> Failing(start, start, entries, draws, 0, k)
  {
  }

  /** What the first pass leaves can be scanned again, and is in order unless a request was overtaken. */
  lemma {:induction false} FirstPassLeaves(c: Setting, start: Site, places: seq<Place>, draws: nat -> Draw)
    requires Distinct(places) && Scan(c, start.disk, places).Ok?
    requires Quiet(draws, |Scan(c, start.disk, places).value|)
    requires Run(c, start, places, draws).2.Returned?
    ensures var after := Run(c, start, places, draws).0;
            var entries := Scan(c, start.disk, places).value;
            && Progress(c, start, after, entries, draws, |entries|)
            && (!Overtaken(start.db, entries, draws) ==> AllReconciled(c, after, entries, |entries|))
  {
    hide Pass, Reconcile, Progress, FromScan, Reconciled, Overtaken, Scan;
    ScanIs(c, start.disk, places);
    var entries := Scan(c, start.disk, places).value;
    PassStarts(c, start, entries, draws, 0, 0);
    PassProgresses(c, start, start, entries, draws, 0, NOTHING);
    if !Overtaken(start.db, entries, draws) { PassReconciles(c, start, start, entries, draws, 0, NOTHING); }
  }

  lemma {:induction false} SecondScan(c: Setting, start: Site, after: Site, places: seq<Place>, draws: nat -> Draw)
    requires Distinct(places) && Scan(c, start.disk, places).Ok?
    requires var entries := Scan(c, start.disk, places).value; Progress(c, start, after, entries, draws, |entries|)
    ensures var again := Scan(c, after.disk, places);
            again.Ok? && FromScan(c, after.disk, again.value)
    ensures var entries, again := Scan(c, start.disk, places).value, Scan(c, after.disk, places).value;
            && (forall x | 0 <= x < |again| :: Appears(entries, again[x].place))
            && (forall k | 0 <= k < |entries| && entries[k].place in after.disk :: Appears(again, entries[k].place))
  {
    hide Look, Inspect, Scan;
    ScanIs(c, start.disk, places);
    ScanIs(c, after.disk, places);
    var entries := Scan(c, start.disk, places).value;
    forall p | p in places && p in after.disk ensures Look(c, after.disk, p).Ok? && Appears(entries, p) {
      assert Appears(entries, p);
      var k :| 0 <= k < |entries| && entries[k].place == p;
      assert Passed(c, start, after, entries[k], draws(k).now);
    }
    var again := Scan(c, after.disk, places).value;
    forall x | 0 <= x < |again| ensures Appears(entries, again[x].place) {
      assert again[x].place in places && again[x].place in after.disk;
    }
  }

  /**
    Convergence, exactly.  After a pass that returned normally over a database no other
    worker changed, the remaining directories can be scanned, and a second pass over
    them deletes and changes nothing if and only if no request was overtaken in the first
    pass and none has expired with a partial directory by its turn in the second.  Time
    passes as it likes, from turn to turn and between the passes.
  */
  lemma {:induction false} SecondPassIdleIff(c: Setting, start: Site, places: seq<Place>, first: nat -> Draw, second: nat -> Draw)
    requires Distinct(places) && Scan(c, start.disk, places).Ok?
    requires Quiet(first, |Scan(c, start.disk, places).value|) && forall k: nat :: !second(k).halted
    requires Run(c, start, places, first).2.Returned?
    ensures var after := Run(c, start, places, first).0;
            var again := Scan(c, after.disk, places);
            && again.Ok?
            && (NothingToDo(c, after, again.value, second) <==>
                  !Overtaken(start.db, Scan(c, start.disk, places).value, first) && !Lapsed(after.db, again.value, second))
  {
    hide Pass, Reconcile, Scan, Progress, FromScan, Overtakes, Lapses, Reconciled;
    var entries := Scan(c, start.disk, places).value;
    var after := Run(c, start, places, first).0;
    FirstPassLeaves(c, start, places, first);
    SecondScan(c, start, after, places, first);
    var again := Scan(c, after.disk, places).value;
    ScanIs(c, start.disk, places);
    if Overtaken(start.db, entries, first) {
      var k: nat, j: nat :| Overtakes(start.db, entries, first, k, j);
      OvertakenRemains(c, start, entries, first, k, j);
      assert Appears(again, entries[k].place);
      var x :| 0 <= x < |again| && again[x].place == entries[k].place;
      FailedRowWork(c, after, again, second, 0, NOTHING, x);
    } else {
      RescannedInert(c, after, entries, again);
      if x: nat :| Lapses(after.db, again, second, x) {
        LapsedPass(c, after, again, second, 0, NOTHING, x);
      } else {
        NoneLapsed(c, after, again, second);
        InertPass(c, after, again, second, 0, NOTHING);
      }
    }
  }

  lemma {:induction false} OvertakenRemains(c: Setting, start: Site, entries: seq<Entry>, draws: nat -> Draw, k: nat, j: nat)
    requires FromScan(c, start.disk, entries) && Quiet(draws, |entries|) && Overtakes(start.db, entries, draws, k, j)
    requires Clean(Pass(c, start, entries, draws, 0, NOTHING))
    ensures var after := Pass(c, start, entries, draws, 0, NOTHING).site;
            k < |entries| && Hopeless(after.db, entries[k].place.request) && entries[k].place in after.disk
  {
    hide Pass;
    PassStarts(c, start, entries, draws, k, j);
    OvertakenFails(c, start, start, entries, draws, 0, NOTHING, k, j);
  }

  lemma {:induction false} RescannedInert(c: Setting, after: Site, entries: seq<Entry>, again: seq<Entry>)
    requires FromScan(c, after.disk, again) && AllReconciled(c, after, entries, |entries|)
    requires forall x | 0 <= x < |again| :: Appears(entries, again[x].place)
    ensures forall x | 0 <= x < |again| :: again[x].place.request in after.db && Inert(c, after.db[again[x].place.request], again[x])
  {
    forall x | 0 <= x < |again| ensures again[x].place.request in after.db && Inert(c, after.db[again[x].place.request], again[x]) {
      assert Appears(entries, again[x].place);
      var k :| 0 <= k < |entries| && entries[k].place == again[x].place;
      assert Reconciled(c, after, entries[k].place);
    }
  }

  lemma {:induction false} NoneLapsed(c: Setting, after: Site, again: seq<Entry>, draws: nat -> Draw)
    requires forall x: nat :: !Lapses(after.db, again, draws, x)
    requires forall x | 0 <= x < |again| :: again[x].place.request in after.db && Inert(c, after.db[again[x].place.request], again[x])
    ensures forall x | 0 <= x < |again| :: Idle(c, after, again[x], draws(x).now)
  {
    hide Inert, Fails;
    forall x | 0 <= x < |again| ensures Idle(c, after, again[x], draws(x).now) {
      assert !Lapses(after.db, again, draws, x);
    }
  }

  function UnderConstruction(): Row {
    Row(Running, None, true, 0, 0, 1)
  }

  /** The first failing family is inhabited: a committed directory, then a partial one, of a leased build past its expiry. */
  lemma {:induction false} OvertakenExample(hash: Bytes -> Bytes, digest: Manifest -> Bytes, second: nat -> Draw)
    requires forall k: nat :: !second(k).halted
    ensures var c := Setting(hash, digest, 1000, _ => []);
            var m := Manifest(1, 1, 1, [ChunkEntry(0, 0, 1, hash([7]))]);
            var start := Site(map[1 := UnderConstruction()],
                              map[Place(1, 1) := map[Chunk(0) := Data([7]), Marker := Text(m)], Place(1, 2) := map[]]);
            var places := [Place(1, 1), Place(1, 2)];
            var (after, _, report) := Run(c, start, places, _ => Draw(false, 1, Commits, true, None, 1, Commits, 1, 0));
            && report == Returned(Tally(0, 0, 0, 1, 0, 1, 0))
            && Scan(c, after.disk, places).Ok? && !NothingToDo(c, after, Scan(c, after.disk, places).value, second)
  {
    var c := Setting(hash, digest, 1000, _ => []);
    var m := Manifest(1, 1, 1, [ChunkEntry(0, 0, 1, hash([7]))]);
    var committed: Files := map[Chunk(0) := Data([7]), Marker := Text(m)];
    var empty: Files := map[];
    var start := Site(map[1 := UnderConstruction()], map[Place(1, 1) := committed, Place(1, 2) := empty]);
    var places := [Place(1, 1), Place(1, 2)];
    var d := Draw(false, 1, Commits, true, None, 1, Commits, 1, 0);
    var entries := [Entry(Place(1, 1), Committed(m)), Entry(Place(1, 2), Partial(map[]))];
    ExampleScan(c, start, m);
    var s1 := Site(map[1 := UnderConstruction().(state := RequestFailed, pendingJobs := 0)], map[Place(1, 1) := committed]);
    ExampleSteps(c, start, s1, m, d);
    ExamplePass(c, start, s1, entries, _ => d);
    assert Overtakes(start.db, entries, _ => d, 0, 1);
    assert Distinct(places);
    ExampleIdle(c, start, places, _ => d, second);
  }

  lemma {:induction false} ExampleIdle(c: Setting, start: Site, places: seq<Place>, first: nat -> Draw, second: nat -> Draw)
    requires Distinct(places) && Scan(c, start.disk, places).Ok?
    requires Quiet(first, |Scan(c, start.disk, places).value|) && forall k: nat :: !second(k).halted
    requires Run(c, start, places, first).2.Returned? && Overtakes(start.db, Scan(c, start.disk, places).value, first, 0, 1)
    ensures var after := Run(c, start, places, first).0;
            Scan(c, after.disk, places).Ok? && !NothingToDo(c, after, Scan(c, after.disk, places).value, second)
  {
    hide Run, Scan, Overtakes;
    SecondPassIdleIff(c, start, places, first, second);
  }

  lemma {:induction false} ExampleScan(c: Setting, start: Site, m: Manifest)
    requires m == Manifest(1, 1, 1, [ChunkEntry(0, 0, 1, c.hash([7]))]) && c.maximum == 1000 && c.order == (_ => [])
    requires start.disk == map[Place(1, 1) := map[Chunk(0) := Data([7]), Marker := Text(m)], Place(1, 2) := map[]]
    ensures Scan(c, start.disk, [Place(1, 1), Place(1, 2)])
         == Ok([Entry(Place(1, 1), Committed(m)), Entry(Place(1, 2), Partial(map[]))])
  {
    assert Look(c, start.disk, Place(1, 1)) == Ok(Committed(m)) by { assert m.chunks[0].ordinal == 0; }
    assert Look(c, start.disk, Place(1, 2)) == Ok(Partial(map[]));
    assert [] + [Place(1, 1)] == [Place(1, 1)] && [Place(1, 1)] + [Place(1, 2)] == [Place(1, 1), Place(1, 2)];
    var e1, e2 := Entry(Place(1, 1), Committed(m)), Entry(Place(1, 2), Partial(map[]));
    ScanStep(c, start.disk, [], Place(1, 1));
    assert [] + [e1] == [e1] && [e1] + [e2] == [e1, e2];
    ScanStep(c, start.disk, [Place(1, 1)], Place(1, 2));
  }

  lemma {:induction false} ScanStep(c: Setting, disk: map<Place, Files>, places: seq<Place>, place: Place)
    requires Scan(c, disk, places).Ok? && place in disk && Look(c, disk, place).Ok?
    ensures Scan(c, disk, places + [place]) == Ok(Scan(c, disk, places).value + [Entry(place, Look(c, disk, place).value)])
  {
    assert (places + [place])[..|places|] == places;
  }

  lemma {:induction false} ExampleSteps(c: Setting, start: Site, s1: Site, m: Manifest, d: Draw)
    requires start.db == map[1 := UnderConstruction()] && Place(1, 2) in start.disk && start.disk[Place(1, 2)] == map[]
    requires s1 == Site(map[1 := UnderConstruction().(state := RequestFailed, pendingJobs := 0)], start.disk - {Place(1, 2)})
    requires d == Draw(false, 1, Commits, true, None, 1, Commits, 1, 0) && c.order == (_ => [])
    ensures Reconcile(c, start, Entry(Place(1, 1), Committed(m)), d) == Step(start, PRESERVED_ACTIVE, false)
    ensures Reconcile(c, start, Entry(Place(1, 2), Partial(map[])), d) == Step(s1, PARTIAL_FAILED, false)
  {
    var w := World(Some(map[]), 1);
    assert Inspect(c.hash, map[], 1, 2, c.maximum, c.order) == Ok(Partial(map[]));
    assert DropRest(w, []) == (World(None, 0), Finished);
    assert DeletePartial(c.hash, w, 1, 2, map[], c.maximum, c.order) == (World(None, 0), Finished);
  }

  lemma {:induction false} ExamplePass(c: Setting, start: Site, s1: Site, entries: seq<Entry>, draws: nat -> Draw)
    requires |entries| == 2
    requires Reconcile(c, start, entries[0], draws(0)) == Step(start, PRESERVED_ACTIVE, false)
    requires Reconcile(c, start, entries[1], draws(1)) == Step(s1, PARTIAL_FAILED, false)
    ensures Pass(c, start, entries, draws, 0, NOTHING) == PassOutcome(s1, Tally(0, 0, 0, 1, 0, 1, 0), 2, true)
  {
    hide Reconcile, Pass, Tally.Plus;
    Increments(PRESERVED_ACTIVE);
    PassStep(c, start, entries, draws, 0, NOTHING);
    PassStep(c, start, entries, draws, 1, PRESERVED_ACTIVE);
    PassStep(c, s1, entries, draws, 2, PRESERVED_ACTIVE.(partialFailed := 1));
  }

  // ---------- Jobs left unsettled ----------

  /**
    Settlement, exactly.  A completion that commits leaves the request's pending build
    jobs cancelled if and only if the settling transaction also committed; otherwise the
    entry is counted healthy, so no later pass looks at those jobs again.
  */
  lemma {:induction false} CompletionSettlesIff(c: Setting, site: Site, entry: Entry, d: Draw)
    requires entry.place.request in site.db && !d.halted && d.meanwhile.None? && !d.complete.RollsBack?
    requires entry.inventory.Committed? && entry.inventory.manifest.artifactId == entry.place.artifact
    requires entry.inventory.manifest.exportRequestId == entry.place.request
    requires var row := site.db[entry.place.request]; row.artifact.None? && row.state.Running? && !row.leased && row.pendingJobs > 0
    ensures Settles(Reconcile(c, site, entry, d), entry, d.complete.Commits? && d.settles)
    ensures forall later: Draw | !later.halted ::
              Reconcile(c, Reconcile(c, site, entry, d).site, entry, later) == Step(Reconcile(c, site, entry, d).site, HEALTHY, false)
  {
    hide Reconcile;
    CompletionEnds(c, site, entry, d);
    var step := Reconcile(c, site, entry, d);
    forall later: Draw | !later.halted ensures Reconcile(c, step.site, entry, later) == Step(step.site, HEALTHY, false) {
      CompletedIsHealthy(c, step.site, entry, later);
    }
  }

  predicate Completed(row: Row, m: Manifest) {
    row.state.Succeeded? && row.artifact == Some(Artifact(m.artifactId, Ready, m))
  }

  /** The build is completed; its jobs are settled and it counts as recovered, or neither, and it counts as healthy. */
  predicate Settles(step: Step, entry: Entry, settled: bool) {
    && entry.inventory.Committed? && entry.place.request in step.site.db
    && Completed(step.site.db[entry.place.request], entry.inventory.manifest)
    && (step.site.db[entry.place.request].pendingJobs == 0 <==> settled)
    && !step.threw && step.raised == if settled then RECOVERED else HEALTHY
  }

  lemma {:induction false} CompletedIsHealthy(c: Setting, site: Site, entry: Entry, d: Draw)
    requires entry.place.request in site.db && !d.halted && entry.inventory.Committed?
    requires entry.inventory.manifest.artifactId == entry.place.artifact && entry.inventory.manifest.exportRequestId == entry.place.request
    requires Completed(site.db[entry.place.request], entry.inventory.manifest)
    ensures Reconcile(c, site, entry, d) == Step(site, HEALTHY, false)
  {
  }

  lemma {:induction false} CompletionEnds(c: Setting, site: Site, entry: Entry, d: Draw)
    requires entry.place.request in site.db && !d.halted && d.meanwhile.None? && !d.complete.RollsBack?
    requires entry.inventory.Committed? && entry.inventory.manifest.artifactId == entry.place.artifact
    requires entry.inventory.manifest.exportRequestId == entry.place.request
    requires var row := site.db[entry.place.request]; row.artifact.None? && row.state.Running? && !row.leased && row.pendingJobs > 0
    ensures Settles(Reconcile(c, site, entry, d), entry, d.complete.Commits? && d.settles)
  {
    hide Tally.Plus, Delete;
    Increments(HEALTHY);
  }
}
