/**
  What one turn of the reconciler does (artifacts/server/src/core-worker-handlers.ts,
  exportReconcile), as conditions on the row, the inventory and what the surroundings do:
  when each of the seven counters goes up, what becomes of the row, and what of the directory.
*/
module ReconcileTurns {
  import opened Wrappers
  import opened ExportStore
  import opened ExportReconcile
  import ReconcileSafety

  // ---------- Conditions ----------

  /** The turn gets as far as the row: the lease holds and the stored manifest names request and artifact. */
  predicate Begun(site: Site, entry: Entry, d: Draw) {
    && !d.halted && entry.place.request in site.db
    && var row := site.db[entry.place.request];
    (row.artifact.Some? ==>
       row.artifact.value.manifest.exportRequestId == entry.place.request && row.artifact.value.manifest.artifactId == row.artifact.value.id)
  }

  /** The recorded artifact is that of the directory. */
  predicate Mine(row: Row, entry: Entry) {
    row.artifact.Some? && row.artifact.value.id == entry.place.artifact
  }

  predicate Agreed(c: Setting, row: Row, entry: Entry) {
    Mine(row, entry) && entry.inventory.Committed? && c.digest(entry.inventory.manifest) == c.digest(row.artifact.value.manifest)
  }

  predicate Served(row: Row) {
    row.state.Succeeded? && row.artifact.Some? && row.artifact.value.state.Ready?
  }

  /** A committed directory without a record, of a running request that no job holds: the build is completed. */
  predicate Completes(row: Row, entry: Entry) {
    row.artifact.None? && entry.inventory.Committed? && row.state.Running? && !row.leased
  }

  predicate CompletionThrows(d: Draw) {
    d.complete.RollsBack? || d.complete.CommitsThenThrows? || !d.settles
  }

  function CompletedRow(row: Row, m: Manifest): Row {
    row.(state := Succeeded, artifact := Some(Artifact(m.artifactId, Ready, m)))
  }

  /** What the catch clause finds: another worker's row, or what the completion left. */
  function Found(row: Row, m: Manifest, d: Draw): Row {
    if d.meanwhile.Some? then d.meanwhile.value
    else if d.complete.RollsBack? then row
    else CompletedRow(row, m)
  }

  predicate FoundBound(found: Row, request: nat) {
    found.artifact.Some? ==>
      found.artifact.value.manifest.exportRequestId == request && found.artifact.value.manifest.artifactId == found.artifact.value.id
  }

  predicate FoundHealthy(c: Setting, found: Row, entry: Entry)
    requires entry.inventory.Committed?
  {
    && FoundBound(found, entry.place.request)
    && found.state.Succeeded? && found.artifact.Some? && found.artifact.value.id == entry.place.artifact
    && c.digest(found.artifact.value.manifest) == c.digest(entry.inventory.manifest)
  }

  /** Past its expiry, or started five minutes ago and held by no job. */
  predicate MayFail(row: Row, now: int) {
    row.state.Running? && (now >= row.expiresAt || (now - 300_000_000 >= row.startedAt && !row.leased))
  }

  predicate Caught(row: Row, entry: Entry, d: Draw) {
    Completes(row, entry) && CompletionThrows(d)
  }

  /** The catch clause fails the build of what it found. */
  predicate FailsFound(c: Setting, row: Row, entry: Entry, d: Draw) {
    && Caught(row, entry, d)
    && var found := Found(row, entry.inventory.manifest, d);
    && FoundBound(found, entry.place.request) && !FoundHealthy(c, found, entry) && MayFail(found, d.later)
  }

  /** A partial directory without a record whose build may be failed. */
  predicate FailsPartial(row: Row, entry: Entry, d: Draw) {
    row.artifact.None? && entry.inventory.Partial? && MayFail(row, d.now)
  }

  predicate Ended(row: Row) {
    row.state.RequestFailed? || row.state.Cancelled?
  }

  /** A record of another artifact state than ready. */
  predicate Withdrawn(row: Row) {
    row.artifact.Some? && (row.artifact.value.state.Quarantined? || row.artifact.value.state.ArtifactDeleted? || row.artifact.value.state.ArtifactExpired?)
  }

  // ---------- Deletions and restorations of a turn ----------

  /** The manifest by which the directory is deleted, if it is. */
  function DeletedBy(c: Setting, row: Row, entry: Entry, d: Draw): Option<Manifest> {
    if Agreed(c, row, entry) && row.artifact.value.state.ArtifactDeleted? then Some(row.artifact.value.manifest)
    else if Mine(row, entry) && entry.inventory.Partial? && Withdrawn(row) then Some(row.artifact.value.manifest)
    else if row.artifact.None? && entry.inventory.Committed? && Ended(row) then Some(entry.inventory.manifest)
    else if FailsFound(c, row, entry, d) && d.failing.Commits? then Some(entry.inventory.manifest)
    else None
  }

  /** A partial directory is deleted by what was inspected. */
  predicate DeletedPartial(row: Row, entry: Entry, d: Draw) {
    row.artifact.None? && entry.inventory.Partial? && (if MayFail(row, d.now) then d.failing.Commits? else Ended(row))
  }

  predicate Restored(row: Row, entry: Entry) {
    Mine(row, entry) && entry.inventory.Partial? && Served(row)
  }

  function Deletion(c: Setting, site: Site, entry: Entry, d: Draw, m: Manifest): (World, Outcome) {
    Delete(c.hash, Directory(site, entry.place, d.steps), m, c.order)
  }

  function PartialDeletion(c: Setting, site: Site, entry: Entry, d: Draw): (World, Outcome)
    requires entry.inventory.Partial?
  {
    DeletePartial(c.hash, Directory(site, entry.place, d.steps), entry.place.request, entry.place.artifact, entry.inventory.fingerprint, c.maximum, c.order)
  }

  function Restoration(c: Setting, site: Site, entry: Entry, d: Draw, m: Manifest): (World, Outcome) {
    Restore(c.hash, Directory(site, entry.place, d.steps), m, d.suffix)
  }

  // ---------- When each counter goes up ----------

  predicate CountsHealthy(c: Setting, site: Site, entry: Entry, d: Draw) {
    && Begun(site, entry, d)
    && var row := site.db[entry.place.request];
    || (Agreed(c, row, entry) && Served(row))
    || (Caught(row, entry, d) && FoundHealthy(c, Found(row, entry.inventory.manifest, d), entry))
  }

  predicate CountsRecovered(site: Site, entry: Entry, d: Draw) {
    Begun(site, entry, d) && Completes(site.db[entry.place.request], entry) && !CompletionThrows(d)
  }

  predicate CountsPreserved(c: Setting, site: Site, entry: Entry, d: Draw) {
    && Begun(site, entry, d)
    && var row := site.db[entry.place.request];
    || (Agreed(c, row, entry) && !row.artifact.value.state.ArtifactDeleted? && !Served(row))
    || (row.artifact.None? && row.state.Running? && row.leased && (entry.inventory.Partial? ==> !MayFail(row, d.now)))
  }

  predicate CountsRestored(c: Setting, site: Site, entry: Entry, d: Draw) {
    && Begun(site, entry, d)
    && var row := site.db[entry.place.request];
    Restored(row, entry) && Restoration(c, site, entry, d, row.artifact.value.manifest).1.Finished?
  }

  predicate CountsPartialFailed(c: Setting, site: Site, entry: Entry, d: Draw) {
    && Begun(site, entry, d)
    && var row := site.db[entry.place.request];
    FailsPartial(row, entry, d) && d.failing.Commits? && PartialDeletion(c, site, entry, d).1.Finished?
  }

  predicate CountsOrphan(c: Setting, site: Site, entry: Entry, d: Draw) {
    && Begun(site, entry, d)
    && var row := site.db[entry.place.request];
    || (DeletedBy(c, row, entry, d).Some? && Deletion(c, site, entry, d, DeletedBy(c, row, entry, d).value).1.Finished?)
    || (DeletedPartial(row, entry, d) && !FailsPartial(row, entry, d) && PartialDeletion(c, site, entry, d).1.Finished?)
  }

  /**
    An anomaly is: no row; a record of another artifact; a committed directory that the
    record contradicts; a partial one of a ready artifact whose request did not succeed;
    a directory without a record of a request that neither runs nor failed nor was
    cancelled; a failed completion that finds neither its own success nor a build it may
    fail; and a partial directory of a running request that no job holds and that may not
    be failed yet.
  */
  predicate CountsAnomaly(c: Setting, site: Site, entry: Entry, d: Draw) {
    || (!d.halted && entry.place.request !in site.db)
    || (&& Begun(site, entry, d)
        && var row := site.db[entry.place.request];
        || (row.artifact.Some? && row.artifact.value.id != entry.place.artifact)
        || (Mine(row, entry) && entry.inventory.Committed? && !Agreed(c, row, entry))
        || (Mine(row, entry) && entry.inventory.Partial? && row.artifact.value.state.Ready? && !row.state.Succeeded?)
        || (row.artifact.None? && !row.state.Running? && !Ended(row))
        || (row.artifact.None? && entry.inventory.Partial? && row.state.Running? && !row.leased && !MayFail(row, d.now))
        || (&& Caught(row, entry, d)
            && var found := Found(row, entry.inventory.manifest, d);
            FoundBound(found, entry.place.request) && !FoundHealthy(c, found, entry) && !MayFail(found, d.later)))
  }

  // ---------- The table ----------

  /** The counters of the turn are what the conditions say. */
  predicate Counters(c: Setting, site: Site, entry: Entry, d: Draw) {
    var step := Reconcile(c, site, entry, d);
    && (CountsHealthy(c, site, entry, d) <==> !step.threw && step.raised == HEALTHY)
    && (CountsRecovered(site, entry, d) <==> !step.threw && step.raised == RECOVERED)
    && (CountsOrphan(c, site, entry, d) <==> !step.threw && step.raised == ORPHAN_DELETED)
    && (CountsPartialFailed(c, site, entry, d) <==> !step.threw && step.raised == PARTIAL_FAILED)
    && (CountsRestored(c, site, entry, d) <==> !step.threw && step.raised == MARKER_RESTORED)
    && (CountsPreserved(c, site, entry, d) <==> !step.threw && step.raised == PRESERVED_ACTIVE)
    && (CountsAnomaly(c, site, entry, d) <==> !step.threw && step.raised == ANOMALY)
  }

  lemma {:induction false} CountersDiffer()
    ensures HEALTHY != RECOVERED && HEALTHY != ORPHAN_DELETED && HEALTHY != PARTIAL_FAILED && HEALTHY != MARKER_RESTORED && HEALTHY != PRESERVED_ACTIVE && HEALTHY != ANOMALY
    ensures RECOVERED != ORPHAN_DELETED && RECOVERED != PARTIAL_FAILED && RECOVERED != MARKER_RESTORED && RECOVERED != PRESERVED_ACTIVE && RECOVERED != ANOMALY
    ensures ORPHAN_DELETED != PARTIAL_FAILED && ORPHAN_DELETED != MARKER_RESTORED && ORPHAN_DELETED != PRESERVED_ACTIVE && ORPHAN_DELETED != ANOMALY
    ensures PARTIAL_FAILED != MARKER_RESTORED && PARTIAL_FAILED != PRESERVED_ACTIVE && PARTIAL_FAILED != ANOMALY
    ensures MARKER_RESTORED != PRESERVED_ACTIVE && MARKER_RESTORED != ANOMALY && PRESERVED_ACTIVE != ANOMALY
  {
  }

  lemma {:induction false} RecordedTable(c: Setting, site: Site, entry: Entry, d: Draw)
    requires Begun(site, entry, d) && site.db[entry.place.request].artifact.Some?
    ensures Counters(c, site, entry, d)
  {
    hide Delete, DeletePartial, Restore, InStore, Tally.Plus, HEALTHY, RECOVERED, ORPHAN_DELETED, PARTIAL_FAILED, MARKER_RESTORED, PRESERVED_ACTIVE, ANOMALY, NOTHING;
    CountersDiffer();
  }

  /** What a turn over a partial directory without a record does, by its row. */
  lemma {:induction false} LeftoverIs(c: Setting, site: Site, entry: Entry, d: Draw)
    requires Begun(site, entry, d) && site.db[entry.place.request].artifact.None? && entry.inventory.Partial?
    ensures var row, step, gone := site.db[entry.place.request], Reconcile(c, site, entry, d), PartialDeletion(c, site, entry, d).1.Finished?;
            if MayFail(row, d.now) && !d.failing.Commits? then step.threw
            else if MayFail(row, d.now) then step.threw == !gone && (gone ==> step.raised == PARTIAL_FAILED)
            else if Ended(row) then step.threw == !gone && (gone ==> step.raised == ORPHAN_DELETED)
            else !step.threw && step.raised == if row.state.Running? && row.leased then PRESERVED_ACTIVE else ANOMALY
  {
    hide Delete, DeletePartial, Restore, InStore, Tally.Plus, HEALTHY, RECOVERED, ORPHAN_DELETED, PARTIAL_FAILED, MARKER_RESTORED, PRESERVED_ACTIVE, ANOMALY, NOTHING, Recorded, Unrecorded;
  }

  lemma {:induction false} LeftoverTable(c: Setting, site: Site, entry: Entry, d: Draw)
    requires Begun(site, entry, d) && site.db[entry.place.request].artifact.None? && entry.inventory.Partial?
    ensures Counters(c, site, entry, d)
  {
    hide Delete, DeletePartial, Restore, InStore, Tally.Plus, HEALTHY, RECOVERED, ORPHAN_DELETED, PARTIAL_FAILED, MARKER_RESTORED, PRESERVED_ACTIVE, ANOMALY, NOTHING, Reconcile, MayFail, PartialDeletion, Deletion;
    CountersDiffer();
    LeftoverIs(c, site, entry, d);
    MayFailRuns(site.db[entry.place.request], d.now);
  }

  lemma {:induction false} MayFailRuns(row: Row, now: int)
    ensures MayFail(row, now) ==> row.state.Running?
  {
  }

  /** What the catch clause of a failed completion does, by what it finds. */
  lemma {:induction false} CaughtTable(c: Setting, site: Site, entry: Entry, d: Draw)
    requires Begun(site, entry, d) && Caught(site.db[entry.place.request], entry, d)
    ensures var row, m := site.db[entry.place.request], entry.inventory.manifest;
            var found, step, gone := Found(row, m, d), Reconcile(c, site, entry, d), Deletion(c, site, entry, d, m);
            if !FoundBound(found, entry.place.request) then step.threw && step.site.disk == site.disk
            else if FoundHealthy(c, found, entry) then !step.threw && step.raised == HEALTHY && step.site.disk == site.disk
            else if !MayFail(found, d.later) then !step.threw && step.raised == ANOMALY && step.site.disk == site.disk
            else if !d.failing.Commits? then step.threw && step.site.disk == site.disk
            else step.threw == !gone.1.Finished? && (gone.1.Finished? ==> step.raised == ORPHAN_DELETED) && step.site.disk == InStore(site, entry.place, gone.0).disk
  {
    hide Delete, Tally.Plus, HEALTHY, ORPHAN_DELETED, ANOMALY, Recorded, Leftover;
    Increments(HEALTHY);
    Increments(ORPHAN_DELETED);
    Increments(ANOMALY);
  }

  lemma {:induction false} CaughtCounts(c: Setting, site: Site, entry: Entry, d: Draw)
    requires Begun(site, entry, d) && Caught(site.db[entry.place.request], entry, d)
    ensures Counters(c, site, entry, d)
  {
    hide Delete, InStore, Tally.Plus, HEALTHY, RECOVERED, ORPHAN_DELETED, PARTIAL_FAILED, MARKER_RESTORED, PRESERVED_ACTIVE, ANOMALY, Reconcile, Begun, FoundBound, MayFail, Found, Deletion;
    CountersDiffer();
    CaughtTable(c, site, entry, d);
    BegunFacts(c, site, entry, d);
  }

  /** Of a caught completion only these conditions can hold. */
  lemma {:induction false} BegunFacts(c: Setting, site: Site, entry: Entry, d: Draw)
    requires Begun(site, entry, d) && Caught(site.db[entry.place.request], entry, d)
    ensures var row := site.db[entry.place.request];
            && !d.halted && entry.place.request in site.db && row.artifact.None? && row.state.Running? && !row.leased && entry.inventory.Committed?
  {
  }

  lemma {:induction false} UnrecordedTable(c: Setting, site: Site, entry: Entry, d: Draw)
    requires Begun(site, entry, d) && site.db[entry.place.request].artifact.None? && entry.inventory.Committed?
    ensures Counters(c, site, entry, d)
  {
    if Caught(site.db[entry.place.request], entry, d) {
      CaughtCounts(c, site, entry, d);
    } else {
      UncaughtCounts(c, site, entry, d);
    }
  }

  /** What a turn over a committed directory without a record does, by its row, when no completion fails. */
  lemma {:induction false} UncaughtIs(c: Setting, site: Site, entry: Entry, d: Draw)
    requires Begun(site, entry, d) && site.db[entry.place.request].artifact.None? && entry.inventory.Committed?
    requires !Caught(site.db[entry.place.request], entry, d)
    ensures var row, step, gone := site.db[entry.place.request], Reconcile(c, site, entry, d), Deletion(c, site, entry, d, entry.inventory.manifest).1.Finished?;
            if Completes(row, entry) then !step.threw && step.raised == RECOVERED
            else if Ended(row) then step.threw == !gone && (gone ==> step.raised == ORPHAN_DELETED)
            else !step.threw && step.raised == if row.state.Running? && row.leased then PRESERVED_ACTIVE else ANOMALY
  {
    hide Delete, DeletePartial, Restore, InStore, Tally.Plus, HEALTHY, RECOVERED, ORPHAN_DELETED, PARTIAL_FAILED, MARKER_RESTORED, PRESERVED_ACTIVE, ANOMALY, ExportReconcile.Caught, Found, Recorded, Leftover;
  }

  lemma {:induction false} UncaughtCounts(c: Setting, site: Site, entry: Entry, d: Draw)
    requires Begun(site, entry, d) && site.db[entry.place.request].artifact.None? && entry.inventory.Committed?
    requires !Caught(site.db[entry.place.request], entry, d)
    ensures Counters(c, site, entry, d)
  {
    hide Delete, InStore, Tally.Plus, HEALTHY, RECOVERED, ORPHAN_DELETED, PARTIAL_FAILED, MARKER_RESTORED, PRESERVED_ACTIVE, ANOMALY, Reconcile, Found, PartialDeletion, Deletion, MayFail;
    CountersDiffer();
    UncaughtIs(c, site, entry, d);
  }

  lemma {:induction false} NotBegunTable(c: Setting, site: Site, entry: Entry, d: Draw)
    requires !Begun(site, entry, d)
    ensures Counters(c, site, entry, d)
  {
    hide HEALTHY, RECOVERED, ORPHAN_DELETED, PARTIAL_FAILED, MARKER_RESTORED, PRESERVED_ACTIVE, ANOMALY;
    CountersDiffer();
  }

  /**
    The turn of any entry, whatever the row, the inventory and the surroundings: each
    counter goes up under exactly its own condition, and none under no condition, in
    which case the turn throws.
  */
  lemma {:induction false} TurnTable(c: Setting, site: Site, entry: Entry, d: Draw)
    ensures Counters(c, site, entry, d)
    ensures Reconcile(c, site, entry, d).threw <==>
              !(CountsHealthy(c, site, entry, d) || CountsRecovered(site, entry, d) || CountsOrphan(c, site, entry, d)
                || CountsPartialFailed(c, site, entry, d) || CountsRestored(c, site, entry, d)
                || CountsPreserved(c, site, entry, d) || CountsAnomaly(c, site, entry, d))
  {
    if !Begun(site, entry, d) {
      NotBegunTable(c, site, entry, d);
    } else if site.db[entry.place.request].artifact.Some? {
      RecordedTable(c, site, entry, d);
    } else if entry.inventory.Committed? {
      UnrecordedTable(c, site, entry, d);
    } else {
      LeftoverTable(c, site, entry, d);
    }
    hide Begun, CountsHealthy, CountsRecovered, CountsOrphan, CountsPartialFailed, CountsRestored, CountsPreserved, CountsAnomaly, Reconcile, Tally.Plus;
    TurnCountsOnce(c, site, entry, d, NOTHING);
  }

  // ---------- What becomes of the row ----------

  /** A build is completed, and its jobs are settled if that transaction commits too; or it is failed; or nothing happens. */
  function RowAfter(c: Setting, row: Row, entry: Entry, d: Draw): Row {
    if Completes(row, entry) then
      var found := Found(row, entry.inventory.manifest, d);
      if !CompletionThrows(d) then CompletedRow(row, entry.inventory.manifest).(pendingJobs := 0)
      else if FailsFound(c, row, entry, d) && !d.failing.RollsBack? then found.(state := RequestFailed, pendingJobs := 0)
      else found
    else if FailsPartial(row, entry, d) && !d.failing.RollsBack? then row.(state := RequestFailed, pendingJobs := 0)
    else row
  }

  lemma {:induction false} RowTable(c: Setting, site: Site, entry: Entry, d: Draw)
    requires Begun(site, entry, d)
    ensures Reconcile(c, site, entry, d).site.db == site.db[entry.place.request := RowAfter(c, site.db[entry.place.request], entry, d)]
  {
    hide Tally.Plus, Delete, DeletePartial, Restore, Directory;
    var q := entry.place.request;
    var row := site.db[q];
    SameRow(site.db, q);
    if Completes(row, entry) {
      hide Recorded, Leftover;
      CompletionRow(c, site, entry, d);
    }
  }

  lemma {:induction false} SameRow(db: map<nat, Row>, q: nat)
    requires q in db
    ensures db[q := db[q]] == db
  {
  }

  lemma {:induction false} TwiceWritten(db: map<nat, Row>, q: nat, a: Row, b: Row)
    ensures db[q := a][q := b] == db[q := b]
  {
  }

  lemma {:induction false} CompletionRow(c: Setting, site: Site, entry: Entry, d: Draw)
    requires Begun(site, entry, d) && Completes(site.db[entry.place.request], entry)
    ensures var row := site.db[entry.place.request];
            Unrecorded(c, site, entry.place, entry.inventory.manifest, row, d).site.db == site.db[entry.place.request := RowAfter(c, row, entry, d)]
  {
    hide Tally.Plus, Delete, Directory;
    var q, m := entry.place.request, entry.inventory.manifest;
    var row := site.db[q];
    var found := Found(row, m, d);
    SameRow(site.db, q);
    TwiceWritten(site.db, q, CompletedRow(row, m), found);
    var attempt := Attempt(site, entry.place, m, row, d);
    if attempt.threw {
      CaughtRow(c, attempt.site, entry.place, m, d, attempt.raised);
      TwiceWritten(site.db, q, attempt.site.db[q], found.(state := RequestFailed, pendingJobs := 0));
    }
  }

  /** The catch clause writes the found row, failed if it may be. */
  lemma {:induction false} CaughtRow(c: Setting, site: Site, place: Place, m: Manifest, d: Draw, before: Tally)
    requires place.request in site.db
    ensures var now := if d.meanwhile.Some? then d.meanwhile.value else site.db[place.request];
            var fails := FoundBound(now, place.request)
              && !(now.state.Succeeded? && now.artifact.Some? && now.artifact.value.id == place.artifact && c.digest(now.artifact.value.manifest) == c.digest(m))
              && MayFail(now, d.later) && !d.failing.RollsBack?;
            ExportReconcile.Caught(c, site, place, m, d, before).site.db ==
              site.db[place.request := if fails then now.(state := RequestFailed, pendingJobs := 0) else now]
  {
    hide Tally.Plus, Delete, Directory;
    SameRow(site.db, place.request);
  }

  lemma {:induction false} RowUnread(c: Setting, site: Site, entry: Entry, d: Draw)
    requires !Begun(site, entry, d)
    ensures Reconcile(c, site, entry, d).site == site
  {
  }

  // ---------- What becomes of the directory ----------

  /** Deleted, or restored, as far as the store gets; else as it was. */
  function DiskAfter(c: Setting, site: Site, entry: Entry, d: Draw): map<Place, Files>
    requires Begun(site, entry, d)
  {
    var row := site.db[entry.place.request];
    if DeletedBy(c, row, entry, d).Some? then InStore(site, entry.place, Deletion(c, site, entry, d, DeletedBy(c, row, entry, d).value).0).disk
    else if DeletedPartial(row, entry, d) then InStore(site, entry.place, PartialDeletion(c, site, entry, d).0).disk
    else if Restored(row, entry) then InStore(site, entry.place, Restoration(c, site, entry, d, row.artifact.value.manifest).0).disk
    else site.disk
  }

  lemma {:induction false} RecordedDisk(c: Setting, site: Site, entry: Entry, d: Draw)
    requires Begun(site, entry, d) && site.db[entry.place.request].artifact.Some?
    ensures Reconcile(c, site, entry, d).site.disk == DiskAfter(c, site, entry, d)
  {
    hide Delete, DeletePartial, Restore, Tally.Plus, Unrecorded, Leftover, Directory;
  }

  lemma {:induction false} LeftoverDisk(c: Setting, site: Site, entry: Entry, d: Draw)
    requires Begun(site, entry, d) && site.db[entry.place.request].artifact.None? && entry.inventory.Partial?
    ensures Reconcile(c, site, entry, d).site.disk == DiskAfter(c, site, entry, d)
  {
    hide Delete, DeletePartial, Restore, Tally.Plus, Unrecorded, Recorded;
  }

  lemma {:induction false} UnrecordedDisk(c: Setting, site: Site, entry: Entry, d: Draw)
    requires Begun(site, entry, d) && site.db[entry.place.request].artifact.None? && entry.inventory.Committed?
    ensures Reconcile(c, site, entry, d).site.disk == DiskAfter(c, site, entry, d)
  {
    if Caught(site.db[entry.place.request], entry, d) {
      CaughtDisk(c, site, entry, d);
    } else {
      UncaughtDisk(c, site, entry, d);
    }
  }

  lemma {:induction false} CaughtDisk(c: Setting, site: Site, entry: Entry, d: Draw)
    requires Begun(site, entry, d) && Caught(site.db[entry.place.request], entry, d)
    ensures Reconcile(c, site, entry, d).site.disk == DiskAfter(c, site, entry, d)
  {
    hide Delete, InStore, Reconcile, Begun, FoundBound, MayFail, Found, Deletion;
    CaughtTable(c, site, entry, d);
    BegunFacts(c, site, entry, d);
  }

  lemma {:induction false} UncaughtDisk(c: Setting, site: Site, entry: Entry, d: Draw)
    requires Begun(site, entry, d) && site.db[entry.place.request].artifact.None? && entry.inventory.Committed?
    requires !Caught(site.db[entry.place.request], entry, d)
    ensures Reconcile(c, site, entry, d).site.disk == DiskAfter(c, site, entry, d)
  {
    hide Delete, Tally.Plus, Leftover, Recorded, ExportReconcile.Caught, Found, Directory;
  }

  lemma {:induction false} DiskTable(c: Setting, site: Site, entry: Entry, d: Draw)
    requires Begun(site, entry, d)
    ensures Reconcile(c, site, entry, d).site.disk == DiskAfter(c, site, entry, d)
  {
    hide Reconcile, DiskAfter;
    if site.db[entry.place.request].artifact.Some? {
      RecordedDisk(c, site, entry, d);
    } else if entry.inventory.Committed? {
      UnrecordedDisk(c, site, entry, d);
    } else {
      LeftoverDisk(c, site, entry, d);
    }
  }

  /**
    So a turn that counts a deletion leaves no directory, one that counts a restoration
    leaves one that is inspected as committed under the recorded manifest, and any other
    turn that ends normally leaves the directory as it was.
  */
  lemma {:induction false} DirectoryAfter(c: Setting, site: Site, entry: Entry, d: Draw)
    requires Begun(site, entry, d) && entry.place in site.disk && Look(c, site.disk, entry.place) == Ok(entry.inventory)
    requires !Reconcile(c, site, entry, d).threw
    ensures var step := Reconcile(c, site, entry, d);
            && (step.raised == ORPHAN_DELETED || step.raised == PARTIAL_FAILED ==> entry.place !in step.site.disk)
            && (step.raised == MARKER_RESTORED ==> MarkedComplete(c, site, entry, step.site.disk))
            && (step.raised != ORPHAN_DELETED && step.raised != PARTIAL_FAILED && step.raised != MARKER_RESTORED ==> step.site.disk == site.disk)
  {
    hide Reconcile, HEALTHY, RECOVERED, ORPHAN_DELETED, PARTIAL_FAILED, MARKER_RESTORED, PRESERVED_ACTIVE, ANOMALY, Look;
    CountersDiffer();
    TurnTable(c, site, entry, d);
    DiskTable(c, site, entry, d);
    var row, w := site.db[entry.place.request], Directory(site, entry.place, d.steps);
    hide Delete, DeletePartial, Restore;
    if DeletedBy(c, row, entry, d).Some? { ReconcileSafety.DeletionEnds(c, w, DeletedBy(c, row, entry, d).value); }
    if entry.inventory.Partial? {
      ReconcileSafety.PartialDeletionEnds(c, w, entry.place, entry.inventory.fingerprint);
      if Restored(row, entry) { RestoredMarks(c, site, entry, d); }
    }
  }

  /** The directory is inspected as committed under the recorded manifest. */
  predicate MarkedComplete(c: Setting, site: Site, entry: Entry, disk: map<Place, Files>) {
    && entry.place in disk && entry.place.request in site.db && site.db[entry.place.request].artifact.Some?
    && Look(c, disk, entry.place) == Ok(Committed(site.db[entry.place.request].artifact.value.manifest))
  }

  lemma {:induction false} RestoredMarks(c: Setting, site: Site, entry: Entry, d: Draw)
    requires Begun(site, entry, d) && entry.place in site.disk && Look(c, site.disk, entry.place) == Ok(entry.inventory)
    requires entry.inventory.Partial? && Restored(site.db[entry.place.request], entry)
    requires Restoration(c, site, entry, d, site.db[entry.place.request].artifact.value.manifest).1.Finished?
    ensures MarkedComplete(c, site, entry, InStore(site, entry.place, Restoration(c, site, entry, d, site.db[entry.place.request].artifact.value.manifest).0).disk)
  {
    var m, w := site.db[entry.place.request].artifact.value.manifest, Directory(site, entry.place, d.steps);
    assert Marker !in w.dir.value;
    hide Restore, Inspect;
    ReconcileSafety.RestorationCommits(c, w, m, d.suffix);
  }
}
