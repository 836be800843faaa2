/**
  The export reconciler (artifacts/server/src/core-worker-handlers.ts, exportReconcile):
  one pass that joins the directories scanned on disk to the rows of the database.

  The database is a map of request rows; what the source learns from it is the target of
  boardagent_export_reconcile_target, at the time of each inspection.  A transaction may
  commit, commit and still throw, or roll back, and another worker may change the row
  while a failed completion is caught.
*/
module ExportReconcile {
  import opened Wrappers
  import opened ExportStore

  datatype RequestState = Staged | Confirmed | Queued | Running | Succeeded | RequestFailed | RequestExpired | RequestDeleted | Cancelled

  datatype ArtifactState = Ready | Quarantined | ArtifactDeleted | ArtifactExpired

  datatype Artifact = Artifact(id: nat, state: ArtifactState, manifest: Manifest)

  const FIVE_MINUTES := 300_000_000 // in microseconds, as all times here

  /** `leased`: a build job is in state leased, whatever the time. */
  datatype Row = Row(state: RequestState, artifact: Option<Artifact>, leased: bool, startedAt: int, expiresAt: int, pendingJobs: nat)
  {
    predicate SafeToFail(now: int) {
      state.Running? && (expiresAt <= now || (startedAt <= now - FIVE_MINUTES && !leased))
    }
  }

  datatype Place = Place(request: nat, artifact: nat)

  datatype Entry = Entry(place: Place, inventory: Inventory)

  datatype Site = Site(db: map<nat, Row>, disk: map<Place, Files>)

  /** SHA-256 of bytes and of a canonical manifest, the size limit, and the order of directory listings. */
  datatype Setting = Setting(hash: Bytes -> Bytes, digest: Manifest -> Bytes, maximum: nat, order: Files -> seq<Name>)

  datatype Verdict = Commits | CommitsThenThrows | RollsBack

  /** What the surroundings do during one entry. */
  datatype Draw = Draw(
    halted: bool,               // the lease is lost or the first inspection throws
    now: int,                   // the time of the first inspection
    complete: Verdict,
    settles: bool,
    meanwhile: Option<Row>,     // another worker's row, seen by the second inspection
    later: int,                 // the time of the second inspection
    failing: Verdict,
    steps: nat,                 // mutations left to the store before the process dies
    suffix: nat)

  /** The seven counters, or what one turn adds to them. */
  datatype Tally = Tally(healthy: nat, recovered: nat, orphanDeleted: nat, partialFailed: nat, markersRestored: nat, preservedActive: nat, anomalies: nat)
  {
    function Total(): nat {
      healthy + recovered + orphanDeleted + partialFailed + markersRestored + preservedActive + anomalies
    }

    function Plus(t: Tally): Tally {
      Tally(healthy + t.healthy, recovered + t.recovered, orphanDeleted + t.orphanDeleted, partialFailed + t.partialFailed,
            markersRestored + t.markersRestored, preservedActive + t.preservedActive, anomalies + t.anomalies)
    }
  }

  const NOTHING := Tally(0, 0, 0, 0, 0, 0, 0)
  const HEALTHY := Tally(1, 0, 0, 0, 0, 0, 0)
  const RECOVERED := Tally(0, 1, 0, 0, 0, 0, 0)
  const ORPHAN_DELETED := Tally(0, 0, 1, 0, 0, 0, 0)
  const PARTIAL_FAILED := Tally(0, 0, 0, 1, 0, 0, 0)
  const MARKER_RESTORED := Tally(0, 0, 0, 0, 1, 0, 0)
  const PRESERVED_ACTIVE := Tally(0, 0, 0, 0, 0, 1, 0)
  const ANOMALY := Tally(0, 0, 0, 0, 0, 0, 1)

  /** No counter went down and their sum went up by one: one of the seven was incremented, once. */
  predicate OneMore(before: Tally, after: Tally) {
    && before.healthy <= after.healthy && before.recovered <= after.recovered && before.orphanDeleted <= after.orphanDeleted
    && before.partialFailed <= after.partialFailed && before.markersRestored <= after.markersRestored
    && before.preservedActive <= after.preservedActive && before.anomalies <= after.anomalies
    && after.Total() == before.Total() + 1
  }

  lemma {:induction false} Increments(t: Tally)
    ensures t.Plus(NOTHING) == t
    ensures t.Plus(HEALTHY) == t.(healthy := t.healthy + 1)
    ensures t.Plus(RECOVERED) == t.(recovered := t.recovered + 1)
    ensures t.Plus(ORPHAN_DELETED) == t.(orphanDeleted := t.orphanDeleted + 1)
    ensures t.Plus(PARTIAL_FAILED) == t.(partialFailed := t.partialFailed + 1)
    ensures t.Plus(MARKER_RESTORED) == t.(markersRestored := t.markersRestored + 1)
    ensures t.Plus(PRESERVED_ACTIVE) == t.(preservedActive := t.preservedActive + 1)
    ensures t.Plus(ANOMALY) == t.(anomalies := t.anomalies + 1)
    ensures NOTHING.Plus(t) == t
  {
  }

  /** The site a turn, or a part of one, leaves, what it added to the counters, and whether it threw. */
  datatype Step = Step(site: Site, raised: Tally, threw: bool)

  // ---------- Effects ----------

  function Directory(site: Site, place: Place, steps: nat): World {
    World(if place in site.disk then Some(site.disk[place]) else None, steps)
  }

  function InStore(site: Site, place: Place, after: World): Site {
    site.(disk := if after.dir.Some? then site.disk[place := after.dir.value] else site.disk - {place})
  }

  /** A store operation, and the counters after it unless it threw. */
  function StoreStep(site: Site, place: Place, done: (World, Outcome), before: Tally, after: Tally): Step {
    Step(InStore(site, place, done.0), if done.1.Finished? then after else before, !done.1.Finished?)
  }

  function Remove(c: Setting, site: Site, place: Place, m: Manifest, d: Draw, before: Tally, after: Tally): Step {
    StoreStep(site, place, Delete(c.hash, Directory(site, place, d.steps), m, c.order), before, after)
  }

  function RemovePartial(c: Setting, site: Site, place: Place, fingerprint: map<Name, FileRecord>, d: Draw, after: Tally): Step {
    StoreStep(site, place,
              DeletePartial(c.hash, Directory(site, place, d.steps), place.request, place.artifact, fingerprint, c.maximum, c.order),
              NOTHING, after)
  }

  function WithRow(site: Site, request: nat, row: Row): Site {
    site.(db := site.db[request := row])
  }

  /** failExportBuild and the settlement of its jobs, in one transaction. */
  function FailBuild(site: Site, request: nat, verdict: Verdict): Site
    requires request in site.db
  {
    if verdict.RollsBack? then site else WithRow(site, request, site.db[request].(state := RequestFailed, pendingJobs := 0))
  }

  // ---------- One entry ----------

  /** The inspection parses the stored manifest and throws unless it names the request and the artifact. */
  predicate Bound(row: Row, request: nat) {
    row.artifact.Some? ==>
      row.artifact.value.manifest.exportRequestId == request && row.artifact.value.manifest.artifactId == row.artifact.value.id
  }

  function Recorded(c: Setting, site: Site, entry: Entry, row: Row, d: Draw): Step
    requires row.artifact.Some?
  {
    var artifact := row.artifact.value;
    if artifact.id != entry.place.artifact then Step(site, ANOMALY, false)
    else
      match entry.inventory
      case Committed(m) =>
        if c.digest(m) != c.digest(artifact.manifest) then Step(site, ANOMALY, false)
        else if artifact.state.ArtifactDeleted? then Remove(c, site, entry.place, artifact.manifest, d, NOTHING, ORPHAN_DELETED)
        else if artifact.state.Ready? && row.state.Succeeded? then Step(site, HEALTHY, false)
        else Step(site, PRESERVED_ACTIVE, false)
      case Partial(_) =>
        if artifact.state.Ready? && row.state.Succeeded? then
          StoreStep(site, entry.place,
                    Restore(c.hash, Directory(site, entry.place, d.steps), artifact.manifest, d.suffix),
                    NOTHING, MARKER_RESTORED)
        else if !artifact.state.Ready? then Remove(c, site, entry.place, artifact.manifest, d, NOTHING, ORPHAN_DELETED)
        else Step(site, ANOMALY, false)
  }

  /** The try part of a completion: the build is completed, its jobs are settled, `recovered` is incremented. */
  function Attempt(site: Site, place: Place, m: Manifest, row: Row, d: Draw): Step
    requires place.request in site.db
  {
    var completed := row.(state := Succeeded, artifact := Some(Artifact(m.artifactId, Ready, m)));
    if d.complete.RollsBack? then Step(site, NOTHING, true)
    else if d.complete.CommitsThenThrows? || !d.settles then Step(WithRow(site, place.request, completed), NOTHING, true)
    else Step(WithRow(site, place.request, completed.(pendingJobs := 0)), RECOVERED, false)
  }

  /** The catch part, after an attempt that may already have counted. */
  function Caught(c: Setting, site: Site, place: Place, m: Manifest, d: Draw, before: Tally): Step
    requires place.request in site.db
  {
    var now := if d.meanwhile.Some? then WithRow(site, place.request, d.meanwhile.value) else site;
    var row := now.db[place.request];
    if !Bound(row, place.request) then Step(now, before, true)
    else if row.state.Succeeded? && row.artifact.Some? && row.artifact.value.id == place.artifact
            && c.digest(row.artifact.value.manifest) == c.digest(m) then Step(now, before.Plus(HEALTHY), false)
    else if row.SafeToFail(d.later) then
      var failed := FailBuild(now, place.request, d.failing);
      if d.failing.Commits? then Remove(c, failed, place, m, d, before, before.Plus(ORPHAN_DELETED)) else Step(failed, before, true)
    else Step(now, before.Plus(ANOMALY), false)
  }

  function Unrecorded(c: Setting, site: Site, place: Place, m: Manifest, row: Row, d: Draw): Step
    requires place.request in site.db
  {
    if row.state.Running? && !row.leased then
      var attempt := Attempt(site, place, m, row, d);
      if attempt.threw then Caught(c, attempt.site, place, m, d, attempt.raised) else attempt
    else if row.state.RequestFailed? || row.state.Cancelled? then Remove(c, site, place, m, d, NOTHING, ORPHAN_DELETED)
    else if row.state.Running? && row.leased then Step(site, PRESERVED_ACTIVE, false)
    else Step(site, ANOMALY, false)
  }

  function Leftover(c: Setting, site: Site, place: Place, fingerprint: map<Name, FileRecord>, row: Row, d: Draw): Step
    requires place.request in site.db
  {
    if row.SafeToFail(d.now) then
      var failed := FailBuild(site, place.request, d.failing);
      if d.failing.Commits? then RemovePartial(c, failed, place, fingerprint, d, PARTIAL_FAILED) else Step(failed, NOTHING, true)
    else if row.state.RequestFailed? || row.state.Cancelled? then RemovePartial(c, site, place, fingerprint, d, ORPHAN_DELETED)
    else if row.state.Running? && row.leased then Step(site, PRESERVED_ACTIVE, false)
    else Step(site, ANOMALY, false)
  }

  /** One turn of the loop. */
  function Reconcile(c: Setting, site: Site, entry: Entry, d: Draw): Step {
    var request := entry.place.request;
    if d.halted then Step(site, NOTHING, true)
    else if request !in site.db then Step(site, ANOMALY, false)
    else
      var row := site.db[request];
      if !Bound(row, request) then Step(site, NOTHING, true)
      else if row.artifact.Some? then Recorded(c, site, entry, row, d)
      else
        match entry.inventory
        case Committed(m) => Unrecorded(c, site, entry.place, m, row, d)
        case Partial(fingerprint) => Leftover(c, site, entry.place, fingerprint, row, d)
  }

  // ---------- One pass ----------

  function Look(c: Setting, disk: map<Place, Files>, place: Place): Result<Inventory, Failure>
    requires place in disk
  {
    Inspect(c.hash, disk[place], place.request, place.artifact, c.maximum, c.order)
  }

  /** `scanArtifacts` over the directories `places`; one that is gone is passed over. */
  function Scan(c: Setting, disk: map<Place, Files>, places: seq<Place>): Result<seq<Entry>, Failure>
    decreases |places|
  {
    if places == [] then Ok([])
    else
      var last := places[|places| - 1];
      match Scan(c, disk, places[..|places| - 1])
      case Err(e) => Err(e)
      case Ok(entries) =>
        if last !in disk then Ok(entries)
        else
          match Look(c, disk, last)
          case Err(e) => Err(e)
          case Ok(inventory) => Ok(entries + [Entry(last, inventory)])
  }

  /** `turns` turns have ended normally; unless `finished`, the next one threw. */
  datatype PassOutcome = PassOutcome(site: Site, tally: Tally, turns: nat, finished: bool)

  function Pass(c: Setting, site: Site, entries: seq<Entry>, draws: nat -> Draw, i: nat, tally: Tally): PassOutcome
    requires i <= |entries|
    decreases |entries| - i
  {
    if i == |entries| then PassOutcome(site, tally, i, true)
    else
      var step := Reconcile(c, site, entries[i], draws(i));
      if step.threw then PassOutcome(step.site, tally.Plus(step.raised), i, false)
      else Pass(c, step.site, entries, draws, i + 1, tally.Plus(step.raised))
  }

  datatype Report = Returned(tally: Tally) | Inconsistent(anomalies: nat) | Thrown | InventoryInvalid

  function ReportOf(r: PassOutcome): Report {
    if !r.finished then Thrown else if r.tally.anomalies > 0 then Inconsistent(r.tally.anomalies) else Returned(r.tally)
  }

  /** The whole pass: scan, reconcile, and refuse if anything was anomalous; the counters as they stand at the end. */
  function Run(c: Setting, site: Site, places: seq<Place>, draws: nat -> Draw): (Site, Tally, Report) {
    match Scan(c, site.disk, places)
    case Err(_) => (site, NOTHING, InventoryInvalid)
    case Ok(entries) =>
      var r := Pass(c, site, entries, draws, 0, NOTHING);
      (r.site, r.tally, ReportOf(r))
  }

  lemma {:induction false} PassStep(c: Setting, site: Site, entries: seq<Entry>, draws: nat -> Draw, i: nat, tally: Tally)
    requires i <= |entries|
    ensures Pass(c, site, entries, draws, i, tally) ==
              if i == |entries| then PassOutcome(site, tally, i, true)
              else
                var step := Reconcile(c, site, entries[i], draws(i));
                if step.threw then PassOutcome(step.site, tally.Plus(step.raised), i, false)
                else Pass(c, step.site, entries, draws, i + 1, tally.Plus(step.raised))
  {
    hide Reconcile, Tally.Plus;
  }

  // ---------- Counting ----------

  predicate Single(t: Tally) {
    || t == HEALTHY || t == RECOVERED || t == ORPHAN_DELETED || t == PARTIAL_FAILED
    || t == MARKER_RESTORED || t == PRESERVED_ACTIVE || t == ANOMALY
  }

  predicate CountsOnce(step: Step) {
    if step.threw then step.raised == NOTHING else Single(step.raised)
  }

  lemma {:induction false} RecordedCountsOnce(c: Setting, site: Site, entry: Entry, row: Row, d: Draw)
    requires row.artifact.Some?
    ensures CountsOnce(Recorded(c, site, entry, row, d))
  {
    hide Delete, Restore, InStore, Directory, Tally.Plus;
    Increments(NOTHING);
    Increments(ORPHAN_DELETED);
    Increments(MARKER_RESTORED);
  }

  lemma {:induction false} CaughtCountsOnce(c: Setting, site: Site, place: Place, m: Manifest, d: Draw)
    requires place.request in site.db
    ensures CountsOnce(Caught(c, site, place, m, d, NOTHING))
  {
    hide Delete, InStore, Directory, Tally.Plus, Bound;
    Increments(HEALTHY);
    Increments(ORPHAN_DELETED);
    Increments(ANOMALY);
  }

  lemma {:induction false} UnrecordedCountsOnce(c: Setting, site: Site, place: Place, m: Manifest, row: Row, d: Draw)
    requires place.request in site.db
    ensures CountsOnce(Unrecorded(c, site, place, m, row, d))
  {
    hide Delete, InStore, Directory, Tally.Plus, Caught;
    Increments(ORPHAN_DELETED);
    var attempt := Attempt(site, place, m, row, d);
    CaughtCountsOnce(c, attempt.site, place, m, d);
  }

  lemma {:induction false} LeftoverCountsOnce(c: Setting, site: Site, place: Place, fingerprint: map<Name, FileRecord>, row: Row, d: Draw)
    requires place.request in site.db
    ensures CountsOnce(Leftover(c, site, place, fingerprint, row, d))
  {
    hide DeletePartial, InStore, Directory, Tally.Plus;
    Increments(PARTIAL_FAILED);
    Increments(ORPHAN_DELETED);
  }

  lemma {:induction false} SingleIsOneMore(before: Tally, t: Tally)
    requires Single(t)
    ensures OneMore(before, before.Plus(t))
  {
    Increments(before);
    hide Tally.Plus;
  }

  /**
    A turn that ends normally increments one of the seven counters once, one that throws
    none, be it from the try part, from the catch part or from the store.
  */
  lemma {:induction false} TurnCountsOnce(c: Setting, site: Site, entry: Entry, d: Draw, tally: Tally)
    ensures var step := Reconcile(c, site, entry, d);
            && CountsOnce(step)
            && if step.threw then tally.Plus(step.raised) == tally else OneMore(tally, tally.Plus(step.raised))
  {
    hide Recorded, Unrecorded, Leftover, Bound, OneMore, Tally.Plus;
    var request, step := entry.place.request, Reconcile(c, site, entry, d);
    if request in site.db {
      var row := site.db[request];
      if row.artifact.Some? {
        RecordedCountsOnce(c, site, entry, row, d);
      } else {
        match entry.inventory
        case Committed(m) => UnrecordedCountsOnce(c, site, entry.place, m, row, d);
        case Partial(fingerprint) => LeftoverCountsOnce(c, site, entry.place, fingerprint, row, d);
      }
    }
    Increments(tally);
    hide Reconcile;
    if !step.threw { SingleIsOneMore(tally, step.raised); }
  }

  // ---------- The worker ----------

  class Reconciler {
    var db: map<nat, Row>
    var disk: map<Place, Files>
    var healthy: nat
    var recovered: nat
    var orphanDeleted: nat
    var partialFailed: nat
    var markersRestored: nat
    var preservedActive: nat
    var anomalies: nat

    ghost function State(): Site
      reads this
    {
      Site(db, disk)
    }

    ghost function Counters(): Tally
      reads this
    {
      Tally(healthy, recovered, orphanDeleted, partialFailed, markersRestored, preservedActive, anomalies)
    }

    /** The state, the counters and the ending of a turn that began with `before` on the counters. */
    ghost predicate Ends(step: Step, before: Tally, threw: bool)
      reads this
    {
      State() == step.site && Counters() == before.Plus(step.raised) && threw == step.threw
    }

    method ReplaceDirectory(place: Place, after: World)
      modifies this`disk
      ensures State() == InStore(old(State()), place, after)
    {
      if after.dir.Some? { disk := disk[place := after.dir.value]; } else { disk := disk - {place}; }
    }

    /** `deleteArtifact` on one directory. */
    method DeleteArtifact(c: Setting, place: Place, m: Manifest, d: Draw) returns (threw: bool)
      modifies this`disk
      ensures var done := Delete(c.hash, Directory(old(State()), place, d.steps), m, c.order);
              State() == InStore(old(State()), place, done.0) && threw == !done.1.Finished?
    {
      var w := World(if place in disk then Some(disk[place]) else None, d.steps);
      var (after, outcome) := Delete(c.hash, w, m, c.order);
      ReplaceDirectory(place, after);
      threw := !outcome.Finished?;
    }

    method DeletePartialArtifact(c: Setting, place: Place, fingerprint: map<Name, FileRecord>, d: Draw) returns (threw: bool)
      modifies this`disk
      ensures var done := DeletePartial(c.hash, Directory(old(State()), place, d.steps), place.request, place.artifact, fingerprint, c.maximum, c.order);
              State() == InStore(old(State()), place, done.0) && threw == !done.1.Finished?
    {
      var w := World(if place in disk then Some(disk[place]) else None, d.steps);
      var (after, outcome) := DeletePartial(c.hash, w, place.request, place.artifact, fingerprint, c.maximum, c.order);
      ReplaceDirectory(place, after);
      threw := !outcome.Finished?;
    }

    method RestoreMarker(c: Setting, place: Place, m: Manifest, d: Draw) returns (threw: bool)
      modifies this`disk
      ensures var done := Restore(c.hash, Directory(old(State()), place, d.steps), m, d.suffix);
              State() == InStore(old(State()), place, done.0) && threw == !done.1.Finished?
    {
      var w := World(if place in disk then Some(disk[place]) else None, d.steps);
      var (after, outcome) := Restore(c.hash, w, m, d.suffix);
      ReplaceDirectory(place, after);
      threw := !outcome.Finished?;
    }

    /** One turn of the loop.  It increments exactly one counter, once, unless it throws, and then none. */
    method ReconcileEntry(c: Setting, entry: Entry, d: Draw) returns (threw: bool)
      modifies this
      ensures Ends(Reconcile(c, old(State()), entry, d), old(Counters()), threw)
      ensures if threw then Counters() == old(Counters()) else OneMore(old(Counters()), Counters())
    {
      hide Recorded, Unrecorded, Leftover, OneMore, Tally.Plus;
      TurnCountsOnce(c, State(), entry, d, Counters());
      Increments(Counters());
      var request := entry.place.request;
      if d.halted { return true; }
      if request !in db {
        anomalies := anomalies + 1;
        return false;
      }
      var row := db[request];
      if !Bound(row, request) { return true; }
      if row.artifact.Some? {
        threw := ReconcileRecorded(c, entry, row, d);
      } else if entry.inventory.Committed? {
        threw := ReconcileUnrecorded(c, entry.place, entry.inventory.manifest, row, d);
      } else {
        threw := ReconcileLeftover(c, entry.place, entry.inventory.fingerprint, row, d);
      }
    }

    method ReconcileRecorded(c: Setting, entry: Entry, row: Row, d: Draw) returns (threw: bool)
      requires row.artifact.Some?
      modifies this
      ensures Ends(Recorded(c, old(State()), entry, row, d), old(Counters()), threw)
    {
      hide Delete, Restore, InStore, Directory, Tally.Plus;
      Increments(Counters());
      Increments(NOTHING);
      var artifact := row.artifact.value;
      threw := false;
      if artifact.id != entry.place.artifact {
        anomalies := anomalies + 1;
      } else if entry.inventory.Committed? {
        if c.digest(entry.inventory.manifest) != c.digest(artifact.manifest) {
          anomalies := anomalies + 1;
        } else if artifact.state.ArtifactDeleted? {
          threw := DeleteArtifact(c, entry.place, artifact.manifest, d);
          if !threw { orphanDeleted := orphanDeleted + 1; }
        } else if artifact.state.Ready? && row.state.Succeeded? {
          healthy := healthy + 1;
        } else {
          preservedActive := preservedActive + 1;
        }
      } else if artifact.state.Ready? && row.state.Succeeded? {
        threw := RestoreMarker(c, entry.place, artifact.manifest, d);
        if !threw { markersRestored := markersRestored + 1; }
      } else if !artifact.state.Ready? {
        threw := DeleteArtifact(c, entry.place, artifact.manifest, d);
        if !threw { orphanDeleted := orphanDeleted + 1; }
      } else {
        anomalies := anomalies + 1;
      }
    }

    method ReconcileUnrecorded(c: Setting, place: Place, m: Manifest, row: Row, d: Draw) returns (threw: bool)
      requires place.request in db
      modifies this
      ensures Ends(Unrecorded(c, old(State()), place, m, row, d), old(Counters()), threw)
    {
      hide Delete, InStore, Directory, Attempt, Caught, Tally.Plus;
      Increments(Counters());
      Increments(NOTHING);
      threw := false;
      if row.state.Running? && !row.leased {
        threw := CompleteBuild(place, m, row, d);
        if threw { threw := CatchFailure(c, place, m, d, old(Counters()), Attempt(old(State()), place, m, row, d).raised); }
      } else if row.state.RequestFailed? || row.state.Cancelled? {
        threw := DeleteArtifact(c, place, m, d);
        if !threw { orphanDeleted := orphanDeleted + 1; }
      } else if row.state.Running? && row.leased {
        preservedActive := preservedActive + 1;
      } else {
        anomalies := anomalies + 1;
      }
    }

    /** The body of the try statement. */
    method CompleteBuild(place: Place, m: Manifest, row: Row, d: Draw) returns (threw: bool)
      requires place.request in db
      modifies this
      ensures Ends(Attempt(old(State()), place, m, row, d), old(Counters()), threw)
      ensures place.request in db
    {
      if d.complete.RollsBack? { return true; }
      var completed := row.(state := Succeeded, artifact := Some(Artifact(m.artifactId, Ready, m)));
      db := db[place.request := completed];
      if d.complete.CommitsThenThrows? || !d.settles { return true; }
      db := db[place.request := completed.(pendingJobs := 0)];
      assert db == old(db)[place.request := completed.(pendingJobs := 0)];
      recovered := recovered + 1;
      threw := false;
    }

    /** The body of the catch clause, with what the try part may already have `raised`. */
    method CatchFailure(c: Setting, place: Place, m: Manifest, d: Draw, ghost before: Tally, ghost raised: Tally) returns (threw: bool)
      requires place.request in db && Counters() == before.Plus(raised)
      modifies this
      ensures Ends(Caught(c, old(State()), place, m, d, raised), before, threw)
    {
      hide Delete, InStore, Directory;
      if d.meanwhile.Some? { db := db[place.request := d.meanwhile.value]; }
      var refreshed := db[place.request];
      if !Bound(refreshed, place.request) { return true; }
      threw := false;
      if refreshed.state.Succeeded? && refreshed.artifact.Some? && refreshed.artifact.value.id == place.artifact
         && c.digest(refreshed.artifact.value.manifest) == c.digest(m) {
        healthy := healthy + 1;
      } else if refreshed.SafeToFail(d.later) {
        if !d.failing.RollsBack? { db := db[place.request := refreshed.(state := RequestFailed, pendingJobs := 0)]; }
        if !d.failing.Commits? { return true; }
        threw := DeleteArtifact(c, place, m, d);
        if !threw { orphanDeleted := orphanDeleted + 1; }
      } else {
        anomalies := anomalies + 1;
      }
    }

    method ReconcileLeftover(c: Setting, place: Place, fingerprint: map<Name, FileRecord>, row: Row, d: Draw) returns (threw: bool)
      requires place.request in db && row == db[place.request]
      modifies this
      ensures Ends(Leftover(c, old(State()), place, fingerprint, row, d), old(Counters()), threw)
    {
      hide DeletePartial, InStore, Directory, Tally.Plus;
      Increments(Counters());
      Increments(NOTHING);
      threw := false;
      if row.SafeToFail(d.now) {
        if !d.failing.RollsBack? { db := db[place.request := row.(state := RequestFailed, pendingJobs := 0)]; }
        if !d.failing.Commits? { return true; }
        threw := DeletePartialArtifact(c, place, fingerprint, d);
        if !threw { partialFailed := partialFailed + 1; }
      } else if row.state.RequestFailed? || row.state.Cancelled? {
        threw := DeletePartialArtifact(c, place, fingerprint, d);
        if !threw { orphanDeleted := orphanDeleted + 1; }
      } else if row.state.Running? && row.leased {
        preservedActive := preservedActive + 1;
      } else {
        anomalies := anomalies + 1;
      }
    }

    /** The loop over the inventory: wherever it throws, the counters went up by the turns that ended normally. */
    method ReconcileAll(c: Setting, inventory: seq<Entry>, draws: nat -> Draw) returns (threw: bool, ghost turns: nat)
      modifies this
      ensures PassOutcome(State(), Counters(), turns, !threw) == Pass(c, old(State()), inventory, draws, 0, old(Counters()))
      ensures Counters().Total() == old(Counters()).Total() + turns
      ensures turns <= |inventory| && (threw <==> turns < |inventory|)
    {
      hide Reconcile, Pass, Tally.Plus;
      turns := 0;
      for i := 0 to |inventory|
        invariant turns == i && Counters().Total() == old(Counters()).Total() + i
        invariant Pass(c, State(), inventory, draws, i, Counters()) == Pass(c, old(State()), inventory, draws, 0, old(Counters()))
      {
        PassStep(c, State(), inventory, draws, i, Counters());
        threw := ReconcileEntry(c, inventory[i], draws(i));
        if threw { return; }
        turns := i + 1;
      }
      PassStep(c, State(), inventory, draws, |inventory|, Counters());
      threw := false;
    }

    /** The whole pass, its counters set to zero first. */
    method ReconcileExports(c: Setting, places: seq<Place>, draws: nat -> Draw) returns (report: Report)
      modifies this
      ensures (State(), Counters(), report) == Run(c, old(State()), places, draws)
    {
      hide Pass, Scan, Tally.Plus, Tally.Total;
      healthy, recovered, orphanDeleted, partialFailed, markersRestored, preservedActive, anomalies := 0, 0, 0, 0, 0, 0, 0;
      var scan := Scan(c, disk, places);
      if scan.Err? { return InventoryInvalid; }
      var threw, turns := ReconcileAll(c, scan.value, draws);
      report :=
        if threw then Thrown
        else if anomalies > 0 then Inconsistent(anomalies)
        else Returned(Tally(healthy, recovered, orphanDeleted, partialFailed, markersRestored, preservedActive, anomalies));
    }
  }
}
