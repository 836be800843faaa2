/**
  WAL archiving (scripts/src/wal-archive.ts): `archiveOne` and `archiveWalOnce`.

  A world is the staging directory, the archive directory and the number of
  directory mutations left before the process dies.  Staged files are the segments
  themselves; archive entries are manifests, other regular files, or no files.
  The functions say what an operation does with every budget; the class performs
  the same steps on mutable directories.
*/
module WalArchive {
  import opened Wrappers
  import opened RecoveryArtifact
  import opened WalNames

  datatype KeyIdentity = KeyIdentity(instanceId: nat, organizationId: nat, fingerprint: Bytes, activatedAt: nat, kid: nat)

  /** The five identity fields are all present or, in a legacy manifest, all absent. */
  datatype Manifest = Manifest(
    walFile: string, keyId: nat, identity: Option<KeyIdentity>,
    artifactSha256: Bytes, artifactBytes: nat, plaintextSha256: Bytes, plaintextBytes: nat)

  datatype Entry = Blob(bytes: Bytes) | Text(manifest: Manifest) | NotAFile

  type Archive = map<string, Entry>

  datatype World = World(staging: map<string, Bytes>, archive: Archive, stepsLeft: nat)

  datatype Keys = Keys(key: Bytes, keyId: nat, registration: KeyIdentity, historical: map<nat, Bytes>)

  /** The randomness one attempt at a segment draws. */
  datatype Draw = Draw(nonce: Bytes, artifactSpool: Spool, manifestSpool: Spool) {
    predicate Valid() { |nonce| == NONCE_BYTES && artifactSpool.Valid() && manifestSpool.Valid() }
  }

  datatype Refusal =
    | ManifestWithoutArtifact
    | ManifestUnreadable
    | IdentityMismatch
    | KeyMissing
    | TargetMismatch
    | KeyMismatch
    | ArtifactUnusable
    | PublicationConflict
    | ValidationFailed
    | EmptySegment
    | UnexpectedStagingEntry
    | KeyNotRegistered

  datatype Outcome = Archived | Replayed | PreviousGenerationReplayed | Refused(why: Refusal) | Crashed {
    predicate Acknowledged() { Archived? || Replayed? || PreviousGenerationReplayed? }
  }

  // ---------- Keys ----------

  /** `verifyBackupKeyReceipt` accepts only the key whose fingerprint was registered. */
  predicate Registered(c: Crypto, keys: Keys) {
    |keys.key| == KEY_BYTES && keys.registration.fingerprint == c.hash(keys.key)
  }

  /** `verifyRecoveryManifestKey` without a receipt: a legacy manifest binds no key bytes. */
  predicate KeyMatches(c: Crypto, m: Manifest, key: Bytes) {
    m.identity.Some? ==> |key| == KEY_BYTES && c.hash(key) == m.identity.value.fingerprint
  }

  function SelectKey(m: Manifest, keys: Keys): Option<Bytes> {
    if m.keyId == keys.keyId then Some(keys.key)
    else if m.keyId in keys.historical then Some(keys.historical[m.keyId])
    else None
  }

  // ---------- Publication ----------

  datatype Publication = Done | Conflict | Died

  /** Write a private temporary file, link it under its name if that is free, drop the temporary. */
  function Publish(w: World, target: string, content: Entry, spool: Spool): (World, Publication) {
    var temporary := TemporaryOf(target, spool);
    if temporary in w.archive then (w, Conflict)
    else if w.stepsLeft == 0 then (w, Died)
    else if w.stepsLeft == 1 then (World(w.staging, w.archive[temporary := content], 0), Died)
    else if target in w.archive then (World(w.staging, w.archive[temporary := content] - {temporary}, w.stepsLeft - 2), Conflict)
    else if w.stepsLeft == 2 then (World(w.staging, w.archive[temporary := content][target := content], 0), Died)
    else (World(w.staging, w.archive[temporary := content][target := content] - {temporary}, w.stepsLeft - 3), Done)
  }

  /** `acknowledgeStagedWal`: the one step that removes a staged segment. */
  function Acknowledge(w: World, walFile: string, outcome: Outcome): (World, Outcome) {
    if w.stepsLeft == 0 then (w, Crashed)
    else (World(w.staging - {walFile}, w.archive, w.stepsLeft - 1), outcome)
  }

  // ---------- One segment ----------

  /** `validatePublishedWal`: the artifact is the recorded one, and it and the source are the recorded plaintext. */
  predicate Validates(c: Crypto, source: Bytes, artifact: Entry, m: Manifest, key: Bytes) {
    && artifact.Blob?
    && Verifies(c, artifact.bytes, m.artifactSha256, m.artifactBytes)
    && var plain := Open(c, key, artifact.bytes);
    && plain.Some?
    && c.hash(source) == m.plaintextSha256 && |source| == m.plaintextBytes
    && c.hash(plain.value) == m.plaintextSha256 && |plain.value| == m.plaintextBytes
  }

  /** The branch for a segment whose manifest is already published. */
  function Replay(c: Crypto, w: World, walFile: string, source: Bytes, keys: Keys): (World, Outcome)
    requires ManifestNameOf(walFile) in w.archive && ArtifactNameOf(walFile) in w.archive
  {
    var entry := w.archive[ManifestNameOf(walFile)];
    if !entry.Text? then (w, Refused(ManifestUnreadable))
    else
      var m := entry.manifest;
      var previous := m.keyId != keys.keyId;
      var selected := SelectKey(m, keys);
      if m.walFile != walFile then (w, Refused(IdentityMismatch))
      else if selected.None? then (w, Refused(KeyMissing))
      else if previous && m.identity.Some?
              && (m.identity.value.instanceId != keys.registration.instanceId
                  || m.identity.value.organizationId != keys.registration.organizationId) then
        (w, Refused(TargetMismatch))
      else if !KeyMatches(c, m, selected.value) then (w, Refused(KeyMismatch))
      else if !previous && m.identity.Some? && m.identity.value != keys.registration then (w, Refused(KeyMismatch))
      else if !Validates(c, source, w.archive[ArtifactNameOf(walFile)], m, selected.value) then (w, Refused(ValidationFailed))
      else Acknowledge(w, walFile, if previous then PreviousGenerationReplayed else Replayed)
  }

  datatype ArtifactPhase = Have(artifact: EncryptedArtifact) | Stop(outcome: Outcome)

  /** Encrypt the segment, or take over the artifact an interrupted attempt published. */
  function ProvideArtifact(c: Crypto, w: World, walFile: string, source: Bytes, keys: Keys, draw: Draw): (World, ArtifactPhase) {
    var name := ArtifactNameOf(walFile);
    if name !in w.archive then
      var sealed := Seal(c, keys.key, draw.nonce, source);
      var (w1, published) := Publish(w, name, Blob(sealed), draw.artifactSpool);
      (w1, match published
           case Died => Stop(Crashed)
           case Conflict => Stop(Refused(PublicationConflict))
           case Done => Have(EncryptedArtifact(c.hash(sealed), |sealed|, c.hash(source), |source|)))
    else if !w.archive[name].Blob? then (w, Stop(Refused(ArtifactUnusable)))
    else
      var bytes := w.archive[name].bytes;
      match Open(c, keys.key, bytes)
      case None => (w, Stop(Refused(ArtifactUnusable)))
      case Some(plain) => (w, Have(EncryptedArtifact(c.hash(bytes), |bytes|, c.hash(plain), |plain|)))
  }

  function ManifestFor(walFile: string, keys: Keys, a: EncryptedArtifact): Manifest {
    Manifest(walFile, keys.keyId, Some(keys.registration), a.sha256, a.byteLength, a.plaintextSha256, a.plaintextByteLength)
  }

  /** Publish the manifest, then validate what was published, then acknowledge. */
  function Commit(c: Crypto, w: World, walFile: string, source: Bytes, keys: Keys, draw: Draw, m: Manifest): (World, Outcome) {
    var (w1, published) := Publish(w, ManifestNameOf(walFile), Text(m), draw.manifestSpool);
    match published
    case Died => (w1, Crashed)
    case Conflict => (w1, Refused(PublicationConflict))
    case Done =>
      if ArtifactNameOf(walFile) !in w1.archive
         || !Validates(c, source, w1.archive[ArtifactNameOf(walFile)], m, keys.key) then
        (w1, Refused(ValidationFailed))
      else Acknowledge(w1, walFile, Archived)
  }

  function ArchiveOne(c: Crypto, w: World, walFile: string, source: Bytes, keys: Keys, draw: Draw): (World, Outcome) {
    var artifactExists, manifestExists := ArtifactNameOf(walFile) in w.archive, ManifestNameOf(walFile) in w.archive;
    if manifestExists && !artifactExists then (w, Refused(ManifestWithoutArtifact))
    else if manifestExists then Replay(c, w, walFile, source, keys)
    else
      var (w1, phase) := ProvideArtifact(c, w, walFile, source, keys, draw);
      match phase
      case Stop(outcome) => (w1, outcome)
      case Have(a) => Commit(c, w1, walFile, source, keys, draw, ManifestFor(walFile, keys, a))
  }

  // ---------- A pass over the staging directory ----------

  datatype Tally = Tally(archived: nat, replayed: nat, previous: nat) {
    function Count(outcome: Outcome): Tally {
      match outcome
      case Archived => this.(archived := archived + 1)
      case Replayed => this.(replayed := replayed + 1)
      case PreviousGenerationReplayed => this.(replayed := replayed + 1, previous := previous + 1)
      case _ => this
    }
  }

  /** A listing names what is staged and nothing else, so the membership test only makes this total. */
  function ArchiveFrom(c: Crypto, w: World, names: seq<string>, keys: Keys, draws: string -> Draw, tally: Tally): (World, Tally, Option<Outcome>)
    decreases |names|
  {
    if names == [] then (w, tally, None)
    else if IsHookTemporary(names[0]) || names[0] !in w.staging then ArchiveFrom(c, w, names[1..], keys, draws, tally)
    else
      var source := w.staging[names[0]];
      if source == [] then (w, tally, Some(Refused(EmptySegment)))
      else
        var (w1, outcome) := ArchiveOne(c, w, names[0], source, keys, draws(names[0]));
        if outcome.Acknowledged() then ArchiveFrom(c, w1, names[1..], keys, draws, tally.Count(outcome))
        else (w1, tally, Some(outcome))
  }

  /** `archiveWalOnce` over a listing of the staging directory. */
  function ArchiveWalOnce(c: Crypto, w: World, listing: seq<string>, keys: Keys, draws: string -> Draw): (World, Tally, Option<Outcome>) {
    if exists name | name in listing :: !WalName(name) && !IsHookTemporary(name) then
      (w, Tally(0, 0, 0), Some(Refused(UnexpectedStagingEntry)))
    else if !Registered(c, keys) then (w, Tally(0, 0, 0), Some(Refused(KeyNotRegistered)))
    else ArchiveFrom(c, w, listing, keys, draws, Tally(0, 0, 0))
  }

  // ---------- The directories as mutable state ----------

  class Archiver {
    var staging: map<string, Bytes>
    var archive: Archive
    var stepsLeft: nat

    ghost function State(): World
      reads this
    {
      World(staging, archive, stepsLeft)
    }

    /** `publishRecoveryJson`, and the publication at the end of `encryptBackupArtifact`. */
    method PublishFile(target: string, content: Entry, spool: Spool) returns (r: Publication)
      modifies this
      ensures (State(), r) == Publish(old(State()), target, content, spool)
    {
      var temporary := TemporaryOf(target, spool);
      if temporary in archive { return Conflict; }
      if stepsLeft == 0 { return Died; }
      archive, stepsLeft := archive[temporary := content], stepsLeft - 1;
      if stepsLeft == 0 { return Died; }
      assert |temporary| > |target|;
      var free := target !in archive;
      if free {
        archive, stepsLeft := archive[target := content], stepsLeft - 1;
        if stepsLeft == 0 { return Died; }
      }
      archive, stepsLeft := archive - {temporary}, stepsLeft - 1;
      r := if free then Done else Conflict;
    }

    method AcknowledgeStaged(walFile: string, outcome: Outcome) returns (r: Outcome)
      modifies this
      ensures (State(), r) == Acknowledge(old(State()), walFile, outcome)
    {
      if stepsLeft == 0 { return Crashed; }
      staging, stepsLeft := staging - {walFile}, stepsLeft - 1;
      r := outcome;
    }

    method ReplayOne(c: Crypto, walFile: string, source: Bytes, keys: Keys) returns (r: Outcome)
      requires ManifestNameOf(walFile) in archive && ArtifactNameOf(walFile) in archive
      modifies this
      ensures (State(), r) == Replay(c, old(State()), walFile, source, keys)
    {
      var entry := archive[ManifestNameOf(walFile)];
      if !entry.Text? { return Refused(ManifestUnreadable); }
      var m := entry.manifest;
      if m.walFile != walFile { return Refused(IdentityMismatch); }
      var previous := m.keyId != keys.keyId;
      var selected := SelectKey(m, keys);
      if selected.None? { return Refused(KeyMissing); }
      if previous {
        if m.identity.Some?
           && (m.identity.value.instanceId != keys.registration.instanceId
               || m.identity.value.organizationId != keys.registration.organizationId) {
          return Refused(TargetMismatch);
        }
      }
      if !KeyMatches(c, m, selected.value) { return Refused(KeyMismatch); }
      if !previous && m.identity.Some? && m.identity.value != keys.registration { return Refused(KeyMismatch); }
      if !Validates(c, source, archive[ArtifactNameOf(walFile)], m, selected.value) { return Refused(ValidationFailed); }
      r := AcknowledgeStaged(walFile, if previous then PreviousGenerationReplayed else Replayed);
    }

    /** `archiveOne`. */
    method ArchiveSegment(c: Crypto, walFile: string, source: Bytes, keys: Keys, draw: Draw) returns (r: Outcome)
      modifies this
      ensures (State(), r) == ArchiveOne(c, old(State()), walFile, source, keys, draw)
    {
      var artifactName, manifestName := ArtifactNameOf(walFile), ManifestNameOf(walFile);
      if manifestName in archive && artifactName !in archive { return Refused(ManifestWithoutArtifact); }
      if manifestName in archive {
        r := ReplayOne(c, walFile, source, keys);
        return;
      }
      var artifact: EncryptedArtifact;
      if artifactName !in archive {
        var sealed := Seal(c, keys.key, draw.nonce, source);
        var published := PublishFile(artifactName, Blob(sealed), draw.artifactSpool);
        if published.Died? { return Crashed; }
        if published.Conflict? { return Refused(PublicationConflict); }
        artifact := EncryptedArtifact(c.hash(sealed), |sealed|, c.hash(source), |source|);
      } else {
        if !archive[artifactName].Blob? { return Refused(ArtifactUnusable); }
        var bytes := archive[artifactName].bytes;
        var plain := Open(c, keys.key, bytes);
        if plain.None? { return Refused(ArtifactUnusable); }
        artifact := EncryptedArtifact(c.hash(bytes), |bytes|, c.hash(plain.value), |plain.value|);
      }
      var m := ManifestFor(walFile, keys, artifact);
      var published := PublishFile(manifestName, Text(m), draw.manifestSpool);
      if published.Died? { return Crashed; }
      if published.Conflict? { return Refused(PublicationConflict); }
      if artifactName !in archive || !Validates(c, source, archive[artifactName], m, keys.key) {
        return Refused(ValidationFailed);
      }
      r := AcknowledgeStaged(walFile, Archived);
    }

    /** `archiveWalOnce`: the loop over the staged segments and its counters. */
    method ArchiveOnce(c: Crypto, listing: seq<string>, keys: Keys, draws: string -> Draw) returns (tally: Tally, stopped: Option<Outcome>)
      modifies this
      ensures (State(), tally, stopped) == ArchiveWalOnce(c, old(State()), listing, keys, draws)
    {
      tally := Tally(0, 0, 0);
      if exists name | name in listing :: !WalName(name) && !IsHookTemporary(name) {
        return tally, Some(Refused(UnexpectedStagingEntry));
      }
      if !Registered(c, keys) { return tally, Some(Refused(KeyNotRegistered)); }
      var i := 0;
      while i < |listing|
        invariant 0 <= i <= |listing|
        invariant ArchiveFrom(c, State(), listing[i..], keys, draws, tally)
               == ArchiveFrom(c, old(State()), listing, keys, draws, Tally(0, 0, 0))
      {
        var name := listing[i];
        assert listing[i..][0] == name && listing[i..][1..] == listing[i + 1..];
        if !IsHookTemporary(name) && name in staging {
          var source := staging[name];
          if source == [] { return tally, Some(Refused(EmptySegment)); }
          var outcome := ArchiveSegment(c, name, source, keys, draws(name));
          if !outcome.Acknowledged() { return tally, Some(outcome); }
          tally := tally.Count(outcome);
        }
        i := i + 1;
      }
      stopped := None;
    }
  }
}
