/**
  What archiving guarantees over every run with crashes and retries
  (scripts/src/wal-archive.ts).  That SHA-256 is free of collisions is a hypothesis
  of each theorem that needs it.
*/
module WalSafety {
  import opened Wrappers
  import opened RecoveryArtifact
  import opened WalNames
  import opened WalArchive

  ghost predicate CollisionFree(c: Crypto) {
    forall a: Bytes, b: Bytes :: c.hash(a) == c.hash(b) ==> a == b
  }

  /** Published files are never overwritten or removed; only temporaries come and go. */
  predicate Preserves(before: Archive, after: Archive) {
    forall n | n in before && !IsTemporary(n) :: n in after && after[n] == before[n]
  }

  /** Nothing appears but temporaries and the two files of the segment. */
  predicate AddsOnly(before: Archive, after: Archive, walFile: string) {
    forall n | n in after && n !in before && !IsTemporary(n) ::
      n == ArtifactNameOf(walFile) || n == ManifestNameOf(walFile)
  }

  /** The archive holds the segment: a manifest of its name and an artifact that opens to exactly its bytes. */
  predicate HeldUnder(c: Crypto, archive: Archive, walFile: string, plain: Bytes, key: Bytes) {
    && ManifestNameOf(walFile) in archive && archive[ManifestNameOf(walFile)].Text?
    && ArtifactNameOf(walFile) in archive && archive[ArtifactNameOf(walFile)].Blob?
    && var m := archive[ManifestNameOf(walFile)].manifest;
    && var artifact := archive[ArtifactNameOf(walFile)].bytes;
    && m.walFile == walFile
    && Verifies(c, artifact, m.artifactSha256, m.artifactBytes)
    && Open(c, key, artifact) == Some(plain)
    && m.plaintextSha256 == c.hash(plain) && m.plaintextBytes == |plain|
  }

  ghost predicate Held(c: Crypto, archive: Archive, walFile: string, plain: Bytes) {
    exists key :: HeldUnder(c, archive, walFile, plain, key)
  }

  /** A pair as a run publishes it: the manifest records this artifact, this key and what the key opens it to. */
  predicate HealthyPair(c: Crypto, archive: Archive, walFile: string, key: Bytes) {
    && ManifestNameOf(walFile) in archive && archive[ManifestNameOf(walFile)].Text?
    && ArtifactNameOf(walFile) in archive && archive[ArtifactNameOf(walFile)].Blob?
    && var m := archive[ManifestNameOf(walFile)].manifest;
    && var artifact := archive[ArtifactNameOf(walFile)].bytes;
    && m.walFile == walFile
    && m.identity.Some? && m.identity.value.fingerprint == c.hash(key) && |key| == KEY_BYTES
    && Verifies(c, artifact, m.artifactSha256, m.artifactBytes)
    && Open(c, key, artifact).Some?
    && m.plaintextSha256 == c.hash(Open(c, key, artifact).value)
    && m.plaintextBytes == |Open(c, key, artifact).value|
  }

  lemma {:induction false} NotTemporary(walFile: string)
    requires WalName(walFile)
    ensures !IsTemporary(ManifestNameOf(walFile)) && !IsTemporary(ArtifactNameOf(walFile))
    ensures ManifestNameOf(walFile) != ArtifactNameOf(walFile)
  {
    PublishedNames(walFile);
    ArchiveNamesPartition(ManifestNameOf(walFile));
    ArchiveNamesPartition(ArtifactNameOf(walFile));
  }

  /** A publication touches its target and its temporary only, and never an existing target. */
  lemma {:induction false} PublishShape(w: World, target: string, content: Entry, spool: Spool)
    ensures var (w', r) := Publish(w, target, content, spool);
            var temporary := TemporaryOf(target, spool);
            && temporary != target
            && (forall n | n != temporary && n != target :: n in w'.archive <==> n in w.archive)
            && (forall n | n != temporary && n in w.archive :: n in w'.archive && w'.archive[n] == w.archive[n])
            && (target in w'.archive && target !in w.archive ==> w'.archive[target] == content)
            && w'.staging == w.staging
            && (r.Done? ==> target !in w.archive && target in w'.archive && w'.stepsLeft == w.stepsLeft - 3)
            && (r.Conflict? ==> target in w.archive || temporary in w.archive)
            && (r.Died? ==> w.stepsLeft < 3)
  {
    assert |TemporaryOf(target, spool)| > |target|;
  }

  lemma {:induction false} PublishSafe(w: World, target: string, content: Entry, spool: Spool)
    requires spool.Valid() && !IsTemporary(target) && (IsManifestName(target) || IsArtifactName(target))
    ensures var (w', r) := Publish(w, target, content, spool);
            && Preserves(w.archive, w'.archive)
            && (forall n | n in w'.archive && n !in w.archive && !IsTemporary(n) :: n == target && w'.archive[n] == content)
            && w'.staging == w.staging
            && (r.Done? ==> target !in w.archive && target in w'.archive && w'.archive[target] == content)
            && (r.Conflict? ==> target in w.archive || TemporaryOf(target, spool) in w.archive)
            && (r.Died? ==> w.stepsLeft < 3)
            && (r.Done? ==> w'.stepsLeft == w.stepsLeft - 3)
            && (forall n | n in w'.archive && n !in w.archive && IsTemporary(n) :: n == TemporaryOf(target, spool))
  {
    TemporaryRecognised(target, spool);
    PublishShape(w, target, content, spool);
  }

  lemma {:induction false} Validated(c: Crypto, source: Bytes, artifact: Entry, m: Manifest, key: Bytes)
    requires CollisionFree(c) && Validates(c, source, artifact, m, key)
    ensures Open(c, key, artifact.bytes) == Some(source)
  {
    assert c.hash(Open(c, key, artifact.bytes).value) == c.hash(source);
  }

  // ---------- One segment ----------

  lemma {:induction false} CommitSafe(c: Crypto, w: World, walFile: string, source: Bytes, keys: Keys, draw: Draw, m: Manifest)
    requires WalName(walFile) && draw.Valid() && m.walFile == walFile && walFile in w.staging
    ensures var (w', outcome) := Commit(c, w, walFile, source, keys, draw, m);
            && Preserves(w.archive, w'.archive) && AddsOnly(w.archive, w'.archive, walFile)
            && (ManifestNameOf(walFile) in w'.archive && ManifestNameOf(walFile) !in w.archive ==>
                  w'.archive[ManifestNameOf(walFile)] == Text(m))
            && (ArtifactNameOf(walFile) in w'.archive <==> ArtifactNameOf(walFile) in w.archive)
            && (outcome.Acknowledged() <==> walFile !in w'.staging)
            && w'.staging == (if outcome.Acknowledged() then w.staging - {walFile} else w.staging)
            && (outcome.Acknowledged() && CollisionFree(c) ==> HeldUnder(c, w'.archive, walFile, source, keys.key))
  {
    NotTemporary(walFile);
    PublishedNames(walFile);
    PublishSafe(w, ManifestNameOf(walFile), Text(m), draw.manifestSpool);
    var (w', outcome) := Commit(c, w, walFile, source, keys, draw, m);
    if outcome.Acknowledged() && CollisionFree(c) {
      Validated(c, source, w'.archive[ArtifactNameOf(walFile)], m, keys.key);
    }
  }

  lemma {:induction false} ReplaySafe(c: Crypto, w: World, walFile: string, source: Bytes, keys: Keys)
    requires ManifestNameOf(walFile) in w.archive && ArtifactNameOf(walFile) in w.archive && walFile in w.staging
    ensures var (w', outcome) := Replay(c, w, walFile, source, keys);
            && w'.archive == w.archive
            && (outcome.Acknowledged() <==> walFile !in w'.staging)
            && w'.staging == (if outcome.Acknowledged() then w.staging - {walFile} else w.staging)
            && (outcome.Acknowledged() && CollisionFree(c) ==> Held(c, w'.archive, walFile, source))
  {
    var (w', outcome) := Replay(c, w, walFile, source, keys);
    if outcome.Acknowledged() && CollisionFree(c) {
      var m := w.archive[ManifestNameOf(walFile)].manifest;
      var key := SelectKey(m, keys).value;
      Validated(c, source, w.archive[ArtifactNameOf(walFile)], m, key);
      assert HeldUnder(c, w'.archive, walFile, source, key);
    }
  }

  lemma {:induction false} ProvideSafe(c: Crypto, w: World, walFile: string, source: Bytes, keys: Keys, draw: Draw)
    requires WalName(walFile) && draw.Valid() && c.Valid()
    ensures var (w', phase) := ProvideArtifact(c, w, walFile, source, keys, draw);
            && Preserves(w.archive, w'.archive) && AddsOnly(w.archive, w'.archive, walFile)
            && (ManifestNameOf(walFile) in w'.archive <==> ManifestNameOf(walFile) in w.archive)
            && w'.staging == w.staging
            && (phase.Stop? ==> !phase.outcome.Acknowledged())
            && (phase.Have? ==> ArtifactNameOf(walFile) in w'.archive && w'.archive[ArtifactNameOf(walFile)].Blob?)
            && (phase.Have? && source != [] && Registered(c, keys) && |source| + OVERHEAD <= MAX_SAFE_INTEGER ==>
                  Recorded(c, w'.archive[ArtifactNameOf(walFile)].bytes, keys.key, phase.artifact))
            && (ArtifactNameOf(walFile) in w'.archive && ArtifactNameOf(walFile) !in w.archive ==>
                  w'.archive[ArtifactNameOf(walFile)] == Blob(Seal(c, keys.key, draw.nonce, source)))
  {
    NotTemporary(walFile);
    PublishedNames(walFile);
    var sealed := Seal(c, keys.key, draw.nonce, source);
    PublishSafe(w, ArtifactNameOf(walFile), Blob(sealed), draw.artifactSpool);
    if source != [] && Registered(c, keys) && |source| + OVERHEAD <= MAX_SAFE_INTEGER {
      SealOpen(c, keys.key, draw.nonce, source);
    }
  }

  /** The description is of this artifact and of what the key opens it to. */
  predicate Recorded(c: Crypto, artifact: Bytes, key: Bytes, a: EncryptedArtifact) {
    && OVERHEAD < |artifact| <= MAX_SAFE_INTEGER
    && a.sha256 == c.hash(artifact) && a.byteLength == |artifact|
    && Open(c, key, artifact).Some?
    && a.plaintextSha256 == c.hash(Open(c, key, artifact).value)
    && a.plaintextByteLength == |Open(c, key, artifact).value|
  }

  /**
    Conservation for one attempt with any budget: published files stay, at most the
    segment's own two files appear, and the segment leaves the staging directory
    only when the archive holds exactly its bytes under its name.
  */
  lemma {:induction false} ArchiveOneConserves(c: Crypto, w: World, walFile: string, source: Bytes, keys: Keys, draw: Draw)
    requires WalName(walFile) && draw.Valid() && c.Valid() && walFile in w.staging
    ensures var (w', outcome) := ArchiveOne(c, w, walFile, source, keys, draw);
            && Preserves(w.archive, w'.archive) && AddsOnly(w.archive, w'.archive, walFile)
            && (outcome.Acknowledged() <==> walFile !in w'.staging)
            && w'.staging == (if outcome.Acknowledged() then w.staging - {walFile} else w.staging)
            && (outcome.Acknowledged() && CollisionFree(c) ==> Held(c, w'.archive, walFile, source))
  {
    var artifactExists, manifestExists := ArtifactNameOf(walFile) in w.archive, ManifestNameOf(walFile) in w.archive;
    if manifestExists {
      if artifactExists { ReplaySafe(c, w, walFile, source, keys); }
    } else {
      ProvideSafe(c, w, walFile, source, keys, draw);
      var (w1, phase) := ProvideArtifact(c, w, walFile, source, keys, draw);
      if phase.Have? {
        var m := ManifestFor(walFile, keys, phase.artifact);
        CommitSafe(c, w1, walFile, source, keys, draw, m);
        var (w', outcome) := Commit(c, w1, walFile, source, keys, draw, m);
        if outcome.Acknowledged() && CollisionFree(c) { assert HeldUnder(c, w'.archive, walFile, source, keys.key); }
        NotTemporary(walFile);
      }
    }
  }

  /** A manifest that appears makes a healthy pair with the artifact beside it. */
  lemma {:induction false} ArchiveOneHealthy(c: Crypto, w: World, walFile: string, source: Bytes, keys: Keys, draw: Draw)
    requires WalName(walFile) && draw.Valid() && c.Valid() && walFile in w.staging && Registered(c, keys)
    requires source != [] && |source| + OVERHEAD <= MAX_SAFE_INTEGER
    ensures var (w', _) := ArchiveOne(c, w, walFile, source, keys, draw);
            ManifestNameOf(walFile) in w'.archive && ManifestNameOf(walFile) !in w.archive ==>
              HealthyPair(c, w'.archive, walFile, keys.key)
  {
    if ManifestNameOf(walFile) !in w.archive {
      ProvideSafe(c, w, walFile, source, keys, draw);
      var (w1, phase) := ProvideArtifact(c, w, walFile, source, keys, draw);
      if phase.Have? {
        var m := ManifestFor(walFile, keys, phase.artifact);
        CommitSafe(c, w1, walFile, source, keys, draw, m);
        NotTemporary(walFile);
        var (w', _) := Commit(c, w1, walFile, source, keys, draw, m);
        assert w'.archive[ArtifactNameOf(walFile)] == w1.archive[ArtifactNameOf(walFile)];
      }
    }
  }

  // ---------- Every crash state completes ----------

  /** What attempts at this segment with this key can leave: nothing, the artifact, or the pair. */
  predicate Resumable(c: Crypto, archive: Archive, walFile: string, source: Bytes, keys: Keys) {
    var artifactName, manifestName := ArtifactNameOf(walFile), ManifestNameOf(walFile);
    && (artifactName in archive ==>
          && archive[artifactName].Blob?
          && OVERHEAD < |archive[artifactName].bytes| <= MAX_SAFE_INTEGER
          && Open(c, keys.key, archive[artifactName].bytes) == Some(source))
    && (manifestName in archive ==>
          && artifactName in archive
          && var a := archive[artifactName].bytes;
          archive[manifestName] == Text(ManifestFor(walFile, keys, EncryptedArtifact(c.hash(a), |a|, c.hash(source), |source|))))
  }

  /** A draw whose temporary names are not in use, as fresh random names are not. */
  predicate Unused(archive: Archive, walFile: string, draw: Draw) {
    && TemporaryOf(ArtifactNameOf(walFile), draw.artifactSpool) !in archive
    && TemporaryOf(ManifestNameOf(walFile), draw.manifestSpool) !in archive
  }

  /**
    From every crash state an attempt with the same key and source either reaches a
    crash state again or acknowledges; it is never refused, and with seven mutations
    to spend it acknowledges.
  */
  lemma {:induction false} ResumableClosed(c: Crypto, w: World, walFile: string, source: Bytes, keys: Keys, draw: Draw)
    requires WalName(walFile) && draw.Valid() && c.Valid() && walFile in w.staging && Registered(c, keys)
    requires source != [] && |source| + OVERHEAD <= MAX_SAFE_INTEGER
    requires Resumable(c, w.archive, walFile, source, keys) && Unused(w.archive, walFile, draw)
    ensures var (w', outcome) := ArchiveOne(c, w, walFile, source, keys, draw);
            && Resumable(c, w'.archive, walFile, source, keys)
            && (outcome.Acknowledged() || outcome.Crashed?)
            && (w.stepsLeft >= 7 ==> outcome.Acknowledged())
  {
    hide WalName, IsTemporary, IsManifestName, IsArtifactName, TemporaryOf, Open, Seal, Publish;
    if ManifestNameOf(walFile) !in w.archive {
      hide Commit;
      ProvideResumable(c, w, walFile, source, keys, draw);
      var (w1, phase) := ProvideArtifact(c, w, walFile, source, keys, draw);
      if phase.Have? { CommitResumable(c, w1, walFile, source, keys, draw, phase.artifact); }
    }
  }

  lemma {:induction false} CommitResumable(c: Crypto, w: World, walFile: string, source: Bytes, keys: Keys, draw: Draw, artifact: EncryptedArtifact)
    requires Registered(c, keys) && ManifestNameOf(walFile) !in w.archive
    requires Resumable(c, w.archive, walFile, source, keys) && TemporaryOf(ManifestNameOf(walFile), draw.manifestSpool) !in w.archive
    requires ArtifactNameOf(walFile) in w.archive && w.archive[ArtifactNameOf(walFile)].Blob?
    requires var a := w.archive[ArtifactNameOf(walFile)].bytes;
             artifact == EncryptedArtifact(c.hash(a), |a|, c.hash(source), |source|)
    ensures var (w', outcome) := Commit(c, w, walFile, source, keys, draw, ManifestFor(walFile, keys, artifact));
            && Resumable(c, w'.archive, walFile, source, keys)
            && (outcome.Acknowledged() || outcome.Crashed?)
            && (w.stepsLeft >= 4 ==> outcome.Acknowledged())
  {
    hide TemporaryOf, Open, ManifestNameOf, ArtifactNameOf, Publish;
    NamesApart(walFile, draw);
    var m := ManifestFor(walFile, keys, artifact);
    PublishShape(w, ManifestNameOf(walFile), Text(m), draw.manifestSpool);
    var (w1, r) := Publish(w, ManifestNameOf(walFile), Text(m), draw.manifestSpool);
    assert w1.archive[ArtifactNameOf(walFile)] == w.archive[ArtifactNameOf(walFile)];
    assert Validates(c, source, w1.archive[ArtifactNameOf(walFile)], m, keys.key);
  }

  lemma {:induction false} NamesApart(walFile: string, draw: Draw)
    ensures ManifestNameOf(walFile) != ArtifactNameOf(walFile)
    ensures TemporaryOf(ManifestNameOf(walFile), draw.manifestSpool) != ArtifactNameOf(walFile)
  {
    assert ManifestNameOf(walFile)[|walFile| + 1] == 'm' && ArtifactNameOf(walFile)[|walFile| + 1] == 'a';
    assert TemporaryOf(ManifestNameOf(walFile), draw.manifestSpool)[|walFile| + 1] == 'm';
  }

  lemma {:induction false} ProvideResumable(c: Crypto, w: World, walFile: string, source: Bytes, keys: Keys, draw: Draw)
    requires WalName(walFile) && draw.Valid() && c.Valid() && Registered(c, keys)
    requires source != [] && |source| + OVERHEAD <= MAX_SAFE_INTEGER
    requires Resumable(c, w.archive, walFile, source, keys) && Unused(w.archive, walFile, draw)
    requires ManifestNameOf(walFile) !in w.archive
    ensures var (w', phase) := ProvideArtifact(c, w, walFile, source, keys, draw);
            && Resumable(c, w'.archive, walFile, source, keys)
            && ManifestNameOf(walFile) !in w'.archive
            && TemporaryOf(ManifestNameOf(walFile), draw.manifestSpool) !in w'.archive
            && (phase.Stop? ==> phase.outcome.Crashed? && w.stepsLeft < 3)
            && (phase.Have? ==>
                  && w'.stepsLeft + 3 >= w.stepsLeft
                  && ArtifactNameOf(walFile) in w'.archive && w'.archive[ArtifactNameOf(walFile)].Blob?
                  && var a := w'.archive[ArtifactNameOf(walFile)].bytes;
                     phase.artifact == EncryptedArtifact(c.hash(a), |a|, c.hash(source), |source|))
  {
    hide WalName, IsTemporary, IsManifestName, IsArtifactName;
    NotTemporary(walFile);
    PublishedNames(walFile);
    var sealed := Seal(c, keys.key, draw.nonce, source);
    SealOpen(c, keys.key, draw.nonce, source);
    PublishSafe(w, ArtifactNameOf(walFile), Blob(sealed), draw.artifactSpool);
    TemporaryRecognised(ManifestNameOf(walFile), draw.manifestSpool);
    SpoolsDiffer(walFile, draw);
  }

  lemma {:induction false} SpoolsDiffer(walFile: string, draw: Draw)
    ensures TemporaryOf(ArtifactNameOf(walFile), draw.artifactSpool) != TemporaryOf(ManifestNameOf(walFile), draw.manifestSpool)
  {
    var a := TemporaryOf(ArtifactNameOf(walFile), draw.artifactSpool);
    var m := TemporaryOf(ManifestNameOf(walFile), draw.manifestSpool);
    assert a[|walFile| + 1] == 'a' && m[|walFile| + 1] == 'm';
  }

  datatype Attempt = Attempt(steps: nat, draw: Draw)

  function Attempts(c: Crypto, w: World, walFile: string, source: Bytes, keys: Keys, attempts: seq<Attempt>): (World, bool)
    decreases |attempts|
  {
    if attempts == [] then (w, false)
    else
      var (w1, outcome) := ArchiveOne(c, w.(stepsLeft := attempts[0].steps), walFile, source, keys, attempts[0].draw);
      if outcome.Acknowledged() then (w1, true) else Attempts(c, w1, walFile, source, keys, attempts[1..])
  }

  ghost predicate AllUnused(c: Crypto, w: World, walFile: string, source: Bytes, keys: Keys, attempts: seq<Attempt>)
    decreases |attempts|
  {
    attempts != [] ==>
      && attempts[0].draw.Valid() && Unused(w.archive, walFile, attempts[0].draw)
      && var (w1, outcome) := ArchiveOne(c, w.(stepsLeft := attempts[0].steps), walFile, source, keys, attempts[0].draw);
         (!outcome.Acknowledged() ==> AllUnused(c, w1, walFile, source, keys, attempts[1..]))
  }

  /** However many attempts crash, wherever, the first uninterrupted one acknowledges, and the archive then holds the segment. */
  lemma {:induction false} RetriesComplete(c: Crypto, w: World, walFile: string, source: Bytes, keys: Keys, attempts: seq<Attempt>)
    requires WalName(walFile) && c.Valid() && walFile in w.staging && Registered(c, keys) && CollisionFree(c)
    requires source != [] && |source| + OVERHEAD <= MAX_SAFE_INTEGER
    requires Resumable(c, w.archive, walFile, source, keys) && AllUnused(c, w, walFile, source, keys, attempts)
    ensures var (w', acknowledged) := Attempts(c, w, walFile, source, keys, attempts);
            && Preserves(w.archive, w'.archive)
            && ((exists i :: 0 <= i < |attempts| && attempts[i].steps >= 7) ==> acknowledged)
            && (acknowledged ==> walFile !in w'.staging && Held(c, w'.archive, walFile, source))
            && (!acknowledged ==> w'.staging == w.staging)
    decreases |attempts|
  {
    if attempts != [] {
      var first := w.(stepsLeft := attempts[0].steps);
      ResumableClosed(c, first, walFile, source, keys, attempts[0].draw);
      ArchiveOneConserves(c, first, walFile, source, keys, attempts[0].draw);
      var (w1, outcome) := ArchiveOne(c, first, walFile, source, keys, attempts[0].draw);
      if !outcome.Acknowledged() {
        RetriesComplete(c, w1, walFile, source, keys, attempts[1..]);
        if i :| 0 <= i < |attempts| && attempts[i].steps >= 7 {
          assert i > 0 && attempts[1..][i - 1] == attempts[i];
        }
      }
    }
  }
}
