/**
  What the export artifact store guarantees over every run of publication, crash,
  marker restoration and deletion (artifacts/server/src/export-artifact-store.ts).
*/
module ExportSafety {
  import opened Wrappers
  import opened ExportStore

  // ---------- Writes only add ----------

  predicate Temporary(n: Name) {
    n.ChunkTemporary? || n.MarkerTemporary?
  }

  /** Files that are not temporaries stay as they are, and only `target` may join them. */
  ghost predicate Grows(before: Files, after: Files, target: Name, content: Content) {
    && (forall n: Name | n in before && !Temporary(n) :: n in after && after[n] == before[n])
    && (forall n: Name | n in after && n !in before && !Temporary(n) :: n == target && after[n] == content)
  }

  function FilesOf(w: World): Files {
    if w.dir.Some? then w.dir.value else map[]
  }

  lemma {:induction false} WriteGrows(w: World, target: Name, content: Content, suffix: nat)
    requires target.Marker? || target.Chunk?
    ensures var (w', r) := Write(w, target, content, suffix);
            && Grows(FilesOf(w), FilesOf(w'), target, content)
            && (r.Finished? ==> w'.dir.Some? && target in w'.dir.value && w'.dir.value[target] == content)
            && (w.dir.Some? ==> w'.dir.Some?)
  {
  }

  ghost predicate ChunksOnly(before: Files, after: Files) {
    && (forall n: Name | n in before && !Temporary(n) :: n in after && after[n] == before[n])
    && (forall n: Name | n in after && n !in before && !Temporary(n) :: n.Chunk?)
  }

  lemma {:induction false} WriteChunksGrows(w: World, chunks: seq<Bytes>, ordinal: nat, suffixes: nat -> nat)
    ensures var (w', r) := WriteChunks(w, chunks, ordinal, suffixes);
            && ChunksOnly(FilesOf(w), FilesOf(w'))
            && (r.Finished? ==> forall o | ordinal <= o < ordinal + |chunks| ::
                  Chunk(o) in FilesOf(w') && FilesOf(w')[Chunk(o)] == Data(chunks[o - ordinal]))
    decreases |chunks|
  {
    if chunks != [] {
      WriteGrows(w, Chunk(ordinal), Data(chunks[0]), suffixes(ordinal));
      var (w1, r) := Write(w, Chunk(ordinal), Data(chunks[0]), suffixes(ordinal));
      if r.Finished? {
        WriteChunksGrows(w1, chunks[1..], ordinal + 1, suffixes);
      }
    }
  }

  // ---------- The commit marker ----------

  /** Deletion has started once a `deleteArtifact` has changed the directory, until the directory is gone. */
  datatype Store = Store(dir: Option<Files>, deleting: bool)

  datatype Event =
    | Publication(exportRequestId: nat, artifactId: nat, envelope: Bytes, chunkBytes: nat, maximum: nat, suffixes: nat -> nat, steps: nat)
    | Restoration(manifest: Manifest, suffix: nat, steps: nat)
    | Deletion(manifest: Manifest, order: Files -> seq<Name>, steps: nat)
    | PartialDeletion(exportRequestId: nat, artifactId: nat, fingerprint: map<Name, FileRecord>, maximum: nat, order: Files -> seq<Name>, steps: nat)
  {
    predicate Possible() { Publication? ==> chunkBytes >= 1 }
  }

  function After(hash: Bytes -> Bytes, s: Store, e: Event): Store
    requires e.Possible()
  {
    match e
    case Publication(request, artifact, envelope, chunkBytes, maximum, suffixes, steps) =>
      s.(dir := PublishWithin(hash, World(s.dir, steps), request, artifact, envelope, chunkBytes, maximum, suffixes).0.dir)
    case Restoration(m, suffix, steps) =>
      s.(dir := Restore(hash, World(s.dir, steps), m, suffix).0.dir)
    case Deletion(m, order, steps) =>
      var dir := Delete(hash, World(s.dir, steps), m, order).0.dir;
      Store(dir, dir.Some? && (s.deleting || dir != s.dir))
    case PartialDeletion(request, artifact, fingerprint, maximum, order, steps) =>
      var dir := DeletePartial(hash, World(s.dir, steps), request, artifact, fingerprint, maximum, order).0.dir;
      Store(dir, dir.Some? && s.deleting)
  }

  function Play(hash: Bytes -> Bytes, s: Store, events: seq<Event>): Store
    requires forall e | e in events :: e.Possible()
    decreases |events|
  {
    if events == [] then s
    else
      assert events[0] in events;
      Play(hash, After(hash, s, events[0]), events[1..])
  }

  /** A marker present before deletion starts commits a manifest whose every chunk is there. */
  ghost predicate CommitHolds(hash: Bytes -> Bytes, s: Store) {
    s.dir.Some? && !s.deleting && Marker in s.dir.value ==>
      s.dir.value[Marker].Text? && Complete(hash, s.dir.value, s.dir.value[Marker].manifest)
  }

  lemma {:induction false} CompleteStays(hash: Bytes -> Bytes, before: Files, after: Files, m: Manifest)
    requires Complete(hash, before, m)
    requires forall n: Name | n in before && !Temporary(n) :: n in after && after[n] == before[n]
    ensures Complete(hash, after, m)
  {
  }

  lemma {:induction false} WrittenComplete(hash: Bytes -> Bytes, files: Files, m: Manifest, chunks: seq<Bytes>)
    requires m.chunks == Entries(hash, chunks, 0, 0)
    requires forall o | 0 <= o < |chunks| :: Chunk(o) in files && files[Chunk(o)] == Data(chunks[o])
    ensures Complete(hash, files, m)
  {
    EntriesContiguous(hash, chunks, 0, 0);
  }

  lemma {:induction false} ChunksCommit(hash: Bytes -> Bytes, w: World, deleting: bool, chunks: seq<Bytes>, suffixes: nat -> nat)
    requires CommitHolds(hash, Store(w.dir, deleting))
    ensures CommitHolds(hash, Store(WriteChunks(w, chunks, 0, suffixes).0.dir, deleting))
  {
    WriteChunksGrows(w, chunks, 0, suffixes);
    var w1 := WriteChunks(w, chunks, 0, suffixes).0;
    if Marker in FilesOf(w) && !deleting { CompleteStays(hash, FilesOf(w), FilesOf(w1), FilesOf(w)[Marker].manifest); }
  }

  lemma {:induction false} PublicationCommits(hash: Bytes -> Bytes, s: Store, e: Event)
    requires CommitHolds(hash, s) && e.Publication? && e.Possible()
    ensures CommitHolds(hash, After(hash, s, e))
  {
    var w := World(s.dir, e.steps);
    var chunks := Split(e.envelope, e.chunkBytes);
    ChunksCommit(hash, w, s.deleting, chunks, e.suffixes);
    WriteChunksGrows(w, chunks, 0, e.suffixes);
    var (w1, r) := WriteChunks(w, chunks, 0, e.suffixes);
    if r.Finished? {
      var m := ManifestFor(hash, e.exportRequestId, e.artifactId, e.envelope, e.chunkBytes);
      WrittenComplete(hash, FilesOf(w1), m, chunks);
      MarkerCommits(hash, w1, s.deleting, m, e.suffixes(|chunks|));
    }
  }

  lemma {:induction false} MarkerCommits(hash: Bytes -> Bytes, w: World, deleting: bool, m: Manifest, suffix: nat)
    requires CommitHolds(hash, Store(w.dir, deleting)) && Complete(hash, FilesOf(w), m)
    ensures CommitHolds(hash, Store(Write(w, Marker, Text(m), suffix).0.dir, deleting))
  {
    WriteGrows(w, Marker, Text(m), suffix);
    var w' := Write(w, Marker, Text(m), suffix).0;
    CompleteStays(hash, FilesOf(w), FilesOf(w'), m);
    if Marker in FilesOf(w) && !deleting { CompleteStays(hash, FilesOf(w), FilesOf(w'), FilesOf(w)[Marker].manifest); }
  }

  lemma {:induction false} DropRestNoMarker(w: World, names: seq<Name>)
    requires w.dir.Some? && Marker !in w.dir.value
    ensures Marker !in FilesOf(DropRest(w, names).0)
    decreases |names|
  {
    if names != [] && w.stepsLeft > 0 { DropRestNoMarker(World(Some(w.dir.value - {names[0]}), w.stepsLeft - 1), names[1..]); }
  }

  /**
    The commit marker: over every run of publications, restorations and deletions
    with a crash at any step of any of them, a marker present before deletion
    starts means that every chunk it records can be read back.
  */
  lemma {:induction false} EveryRunCommits(hash: Bytes -> Bytes, s: Store, events: seq<Event>)
    requires CommitHolds(hash, s) && forall e | e in events :: e.Possible()
    ensures CommitHolds(hash, Play(hash, s, events))
    decreases |events|
  {
    if events != [] {
      var e := events[0];
      assert e in events;
      match e {
        case Publication(_, _, _, _, _, _, _) => PublicationCommits(hash, s, e);
        case Restoration(m, suffix, steps) =>
          if s.dir.Some? && Complete(hash, s.dir.value, m) { MarkerCommits(hash, World(s.dir, steps), s.deleting, m, suffix); }
        case Deletion(_, _, _) =>
        case PartialDeletion(_, _, _, _, order, steps) =>
          if s.dir.Some? && Marker !in s.dir.value { DropRestNoMarker(World(s.dir, steps), order(s.dir.value)); }
      }
      EveryRunCommits(hash, After(hash, s, e), events[1..]);
    }
  }

  lemma {:induction false} CommittedChunksReadable(hash: Bytes -> Bytes, events: seq<Event>, i: nat, steps: nat)
    requires forall e | e in events :: e.Possible()
    requires var s := Play(hash, Store(None, false), events);
             s.dir.Some? && !s.deleting && Marker in s.dir.value && s.dir.value[Marker].Text? && i < |s.dir.value[Marker].manifest.chunks|
    ensures var s := Play(hash, Store(None, false), events);
            var entry := s.dir.value[Marker].manifest.chunks[i];
            var read := ReadExactChunk(hash, World(s.dir, steps), entry);
            read.Ok? && |read.value| == entry.byteLength && hash(read.value) == entry.chunkSha256
  {
    EveryRunCommits(hash, Store(None, false), events);
  }

  // ---------- Resumable deletion ----------

  predicate DistinctOrdinals(m: Manifest) {
    forall i, j | 0 <= i < j < |m.chunks| :: m.chunks[i].ordinal != m.chunks[j].ordinal
  }

  /** Every file is the manifest's marker, a matching chunk of it, or a chunk temporary. */
  predicate Deletable(hash: Bytes -> Bytes, files: Files, m: Manifest) {
    && (Marker in files ==> files[Marker] == Text(m))
    && (forall i | 0 <= i < |m.chunks| ::
          Chunk(m.chunks[i].ordinal) in files ==> ChunkMatches(hash, files[Chunk(m.chunks[i].ordinal)], m.chunks[i]))
    && (forall n | n in files :: KnownName(m, n))
  }

  /** A listing names each file once. */
  ghost predicate Lists(order: Files -> seq<Name>) {
    forall files: Files :: Covers(order(files), files)
  }

  ghost predicate Covers(names: seq<Name>, files: Files) {
    && |names| == |files|
    && forall n :: n in names <==> n in files
  }

  lemma {:induction false} DropRestCrashes(hash: Bytes -> Bytes, w: World, names: seq<Name>, m: Manifest)
    requires w.dir.Some? && Deletable(hash, w.dir.value, m) && forall n | n in w.dir.value :: n in names
    ensures var (w', r) := DropRest(w, names);
            && (w'.dir.Some? ==> Deletable(hash, w'.dir.value, m))
            && (w'.dir.None? <==> r.Finished?) && (r.Finished? || r.Crashed?)
            && (w.stepsLeft > |names| ==> r.Finished?)
    decreases |names|
  {
    if names != [] && w.stepsLeft > 0 {
      assert forall n :: n in names <==> n == names[0] || n in names[1..];
      DropRestCrashes(hash, World(Some(w.dir.value - {names[0]}), w.stepsLeft - 1), names[1..], m);
    }
  }

  lemma {:induction false} DropChunksCrashes(hash: Bytes -> Bytes, w: World, m: Manifest, k: nat)
    requires w.dir.Some? && k <= |m.chunks| && Deletable(hash, w.dir.value, m) && DistinctOrdinals(m)
    requires forall i | 0 <= i < k :: Chunk(m.chunks[i].ordinal) !in w.dir.value
    ensures var (w', r) := DropChunks(hash, w, m.chunks[k..]);
            && Deletable(hash, w'.dir.value, m)
            && w'.dir.value.Keys <= w.dir.value.Keys
            && (r.Finished? || r.Crashed?)
            && (r.Finished? ==> forall n | n in w'.dir.value :: Removable(n))
            && (r.Finished? ==> w.stepsLeft - w'.stepsLeft == |w.dir.value| - |w'.dir.value|)
            && (w.stepsLeft >= |w.dir.value| ==> r.Finished?)
    decreases |m.chunks| - k
  {
    hide Deletable, ChunkMatches, Removable, KnownName, DistinctOrdinals;
    if k < |m.chunks| {
      var n := Chunk(m.chunks[k].ordinal);
      assert m.chunks[k..][0] == m.chunks[k] && m.chunks[k..][1..] == m.chunks[k + 1..];
      DeletableChunk(hash, w.dir.value, m, k);
      if n !in w.dir.value {
        DropChunksCrashes(hash, w, m, k + 1);
      } else if w.stepsLeft > 0 {
        OneFewer(w.dir.value, n);
        DropChunksCrashes(hash, World(Some(w.dir.value - {n}), w.stepsLeft - 1), m, k + 1);
      } else {
        SomeFile(w.dir.value, n);
      }
    } else {
      assert m.chunks[k..] == [];
      OnlyRemovable(hash, w.dir.value, m);
    }
  }

  lemma {:induction false} SomeFile(files: Files, n: Name)
    requires n in files
    ensures |files| > 0
  {
    assert |files.Keys| > 0;
  }

  lemma {:induction false} OneFewer(files: Files, n: Name)
    requires n in files
    ensures |files - {n}| == |files| - 1
  {
    assert (files - {n}).Keys == files.Keys - {n};
  }

  lemma {:induction false} DeletableChunk(hash: Bytes -> Bytes, files: Files, m: Manifest, k: nat)
    requires Deletable(hash, files, m) && k < |m.chunks|
    ensures var n := Chunk(m.chunks[k].ordinal);
            (n in files ==> ChunkMatches(hash, files[n], m.chunks[k])) && Deletable(hash, files - {n}, m)
  {
  }

  lemma {:induction false} OnlyRemovable(hash: Bytes -> Bytes, files: Files, m: Manifest)
    requires Deletable(hash, files, m) && forall i | 0 <= i < |m.chunks| :: Chunk(m.chunks[i].ordinal) !in files
    ensures forall n | n in files :: Removable(n)
  {
    forall n | n in files ensures Removable(n) {
      assert KnownName(m, n);
    }
  }

  /**
    Deletion resumes from each of its own crash points: what it leaves is again
    deletable, it never fails, and with enough mutations left the directory is gone.
  */
  lemma {:induction false} DeletionResumes(hash: Bytes -> Bytes, w: World, m: Manifest, order: Files -> seq<Name>)
    requires w.dir.Some? && Deletable(hash, w.dir.value, m) && DistinctOrdinals(m) && Lists(order)
    ensures var (w', r) := Delete(hash, w, m, order);
            && (w'.dir.Some? ==> Deletable(hash, w'.dir.value, m))
            && (w'.dir.None? <==> r.Finished?) && (r.Finished? || r.Crashed?)
            && (w.stepsLeft > |w.dir.value| ==> r.Finished?)
  {
    assert m.chunks[0..] == m.chunks;
    DropChunksCrashes(hash, w, m, 0);
    var (w1, r) := DropChunks(hash, w, m.chunks);
    if r.Finished? {
      assert Covers(order(w1.dir.value), w1.dir.value);
      DropRestCrashes(hash, w1, order(w1.dir.value), m);
    }
  }

  lemma {:induction false} DropChunksReport(hash: Bytes -> Bytes, w: World, entries: seq<ChunkEntry>)
    requires w.dir.Some?
    ensures var (w', r) := DropChunks(hash, w, entries);
            && (forall n: Name | n in w'.dir.value :: n in w.dir.value && w'.dir.value[n] == w.dir.value[n])
            && (forall n: Name | n in w.dir.value && n !in w'.dir.value ::
                  exists i :: 0 <= i < |entries| && n == Chunk(entries[i].ordinal) && ChunkMatches(hash, w.dir.value[n], entries[i]))
    decreases |entries|
  {
    if entries != [] {
      var n := Chunk(entries[0].ordinal);
      if n !in w.dir.value {
        DropChunksReport(hash, w, entries[1..]);
        Shifted(hash, w, DropChunks(hash, w, entries[1..]).0, entries);
      } else if ChunkMatches(hash, w.dir.value[n], entries[0]) && w.stepsLeft > 0 {
        var w1 := World(Some(w.dir.value - {n}), w.stepsLeft - 1);
        DropChunksReport(hash, w1, entries[1..]);
        Shifted(hash, w1, DropChunks(hash, w1, entries[1..]).0, entries);
        assert n == Chunk(entries[0].ordinal);
      }
    }
  }

  lemma {:induction false} Shifted(hash: Bytes -> Bytes, w: World, w': World, entries: seq<ChunkEntry>)
    requires entries != [] && w.dir.Some? && w'.dir.Some?
    requires forall n: Name | n in w.dir.value && n !in w'.dir.value ::
      exists i :: 0 <= i < |entries[1..]| && n == Chunk(entries[1..][i].ordinal) && ChunkMatches(hash, w.dir.value[n], entries[1..][i])
    ensures forall n: Name | n in w.dir.value && n !in w'.dir.value ::
      exists i :: 0 <= i < |entries| && n == Chunk(entries[i].ordinal) && ChunkMatches(hash, w.dir.value[n], entries[i])
  {
    forall n: Name | n in w.dir.value && n !in w'.dir.value
      ensures exists i :: 0 <= i < |entries| && n == Chunk(entries[i].ordinal) && ChunkMatches(hash, w.dir.value[n], entries[i])
    {
      var i :| 0 <= i < |entries[1..]| && n == Chunk(entries[1..][i].ordinal) && ChunkMatches(hash, w.dir.value[n], entries[1..][i]);
      assert entries[1..][i] == entries[i + 1];
    }
  }

  lemma {:induction false} DropRestKeepsChunks(w: World, names: seq<Name>, n: Name)
    requires w.dir.Some? && n in w.dir.value && n !in names
    ensures var (w', _) := DropRest(w, names);
            w'.dir.Some? && n in w'.dir.value && w'.dir.value[n] == w.dir.value[n]
    decreases |names|
  {
    if names != [] && w.stepsLeft > 0 {
      DropRestKeepsChunks(World(Some(w.dir.value - {names[0]}), w.stepsLeft - 1), names[1..], n);
    }
  }

  /** Whatever the directory and the outcome, deletion removes no chunk that differs from the manifest. */
  lemma {:induction false} DeletionSparesOthers(hash: Bytes -> Bytes, w: World, m: Manifest, order: Files -> seq<Name>, ordinal: nat)
    requires w.dir.Some? && Chunk(ordinal) in w.dir.value && Lists(order)
    ensures var (w', r) := Delete(hash, w, m, order);
            w'.dir.None? || Chunk(ordinal) !in w'.dir.value ==>
              exists i :: 0 <= i < |m.chunks| && m.chunks[i].ordinal == ordinal && ChunkMatches(hash, w.dir.value[Chunk(ordinal)], m.chunks[i])
  {
    DropChunksReport(hash, w, m.chunks);
    var (w1, r) := DropChunks(hash, w, m.chunks);
    assert !Removable(Chunk(ordinal));
  }

  /** With enough mutations left, deletion succeeds on exactly the deletable directories. */
  lemma {:induction false} DeletionSucceedsIff(hash: Bytes -> Bytes, w: World, m: Manifest, order: Files -> seq<Name>)
    requires w.dir.Some? && DistinctOrdinals(m) && Lists(order) && w.stepsLeft > |w.dir.value|
    ensures Delete(hash, w, m, order).1.Finished? <==> Deletable(hash, w.dir.value, m)
  {
    if Deletable(hash, w.dir.value, m) {
      DeletionResumes(hash, w, m, order);
    } else if Delete(hash, w, m, order).1.Finished? {
      DropChunksReport(hash, w, m.chunks);
      var (w1, r) := DropChunks(hash, w, m.chunks);
      forall n | n in w.dir.value ensures KnownName(m, n) {
        if n in w1.dir.value { assert Removable(n); }
      }
      forall i | 0 <= i < |m.chunks| && Chunk(m.chunks[i].ordinal) in w.dir.value
        ensures ChunkMatches(hash, w.dir.value[Chunk(m.chunks[i].ordinal)], m.chunks[i])
      {
        var n := Chunk(m.chunks[i].ordinal);
        assert !Removable(n);
        var j :| 0 <= j < |m.chunks| && n == Chunk(m.chunks[j].ordinal) && ChunkMatches(hash, w.dir.value[n], m.chunks[j]);
        assert i == j;
      }
    }
  }

  // ---------- A crash while the marker is written ----------

  /**
    The temporary of the marker matches none of the patterns that inspection,
    restoration and deletion tolerate: one left behind makes all of them refuse,
    whatever else the directory holds.
  */
  lemma {:induction false} MarkerTemporaryBlocks(hash: Bytes -> Bytes, w: World, suffix: nat, m: Manifest, request: nat, artifact: nat, maximum: nat, order: Files -> seq<Name>)
    requires w.dir.Some? && MarkerTemporary(suffix) in w.dir.value && DistinctOrdinals(m) && Lists(order)
    ensures Inspect(hash, w.dir.value, request, artifact, maximum, order).Err?
    ensures Restore(hash, w, m, 0).1.Failed?
    ensures !Delete(hash, w, m, order).1.Finished? && Delete(hash, w, m, order).0.dir.Some?
  {
    var n := MarkerTemporary(suffix);
    assert !KnownName(m, n) && !Removable(n);
    if Marker in w.dir.value && w.dir.value[Marker].Text? { assert !KnownName(w.dir.value[Marker].manifest, n); }
    DropChunksReport(hash, w, m.chunks);
    var (w1, r) := DropChunks(hash, w, m.chunks);
    assert n in w1.dir.value;
  }

  /** Files a first publication has made so far: some of its chunks, their temporaries, and nothing of the marker. */
  ghost predicate Underway(files: Files, chunks: seq<Bytes>) {
    forall n | n in files ::
      (n.Chunk? && n.ordinal < |chunks| && files[n] == Data(chunks[n.ordinal])) || n.ChunkTemporary?
  }

  lemma {:induction false} FirstChunks(w: World, chunks: seq<Bytes>, k: nat, suffixes: nat -> nat)
    requires k <= |chunks| && w.dir.Some? && Underway(w.dir.value, chunks)
    requires forall n | n in w.dir.value :: n.Chunk? && n.ordinal < k
    ensures var (w', r) := WriteChunks(w, chunks[k..], k, suffixes);
            && w'.dir.Some? && Underway(w'.dir.value, chunks)
            && (r.Finished? <==> w.stepsLeft >= 3 * (|chunks| - k)) && (r.Finished? || r.Crashed?)
            && (r.Finished? ==> w'.stepsLeft == w.stepsLeft - 3 * (|chunks| - k) && forall n | n in w'.dir.value :: n.Chunk?)
    decreases |chunks| - k
  {
    if k < |chunks| {
      assert chunks[k..][0] == chunks[k] && chunks[k..][1..] == chunks[k + 1..];
      var (w1, r) := Write(w, Chunk(k), Data(chunks[k]), suffixes(k));
      if r.Finished? {
        assert w1.dir.value == w.dir.value[Chunk(k) := Data(chunks[k])];
        FirstChunks(w1, chunks, k + 1, suffixes);
      }
    } else {
      assert chunks[k..] == [];
    }
  }

  /**
    The exact condition.  A first publication that dies after `steps` mutations leaves
    a directory its own manifest can be used to delete, unless it died in the window of
    two mutations between creating the marker's temporary and unlinking it.
  */
  lemma {:induction false} CrashedPublicationDeletableIff(hash: Bytes -> Bytes, request: nat, artifact: nat, envelope: Bytes, chunkBytes: nat, suffixes: nat -> nat, steps: nat)
    requires chunkBytes >= 1 && steps >= 1
    ensures var w := Publish(hash, World(None, steps), request, artifact, envelope, chunkBytes, suffixes).0;
            var k := |Split(envelope, chunkBytes)|;
            && w.dir.Some?
            && var m := ManifestFor(hash, request, artifact, envelope, chunkBytes);
            Deletable(hash, w.dir.value, m) <==> !(3 * k + 2 <= steps <= 3 * k + 3)
  {
    var chunks := Split(envelope, chunkBytes);
    var m := ManifestFor(hash, request, artifact, envelope, chunkBytes);
    var w0 := World(Some(map[]), steps - 1);
    assert chunks[0..] == chunks;
    FirstChunks(w0, chunks, 0, suffixes);
    FirstWriteEnsures(World(None, steps), chunks, suffixes);
    var (w1, r) := WriteChunks(w0, chunks, 0, suffixes);
    UnderwayDeletable(hash, w1.dir.value, m, chunks);
    if r.Finished? { MarkerWritten(hash, w1, m, chunks, suffixes(|chunks|)); }
    if chunks == [] { MarkerWritten(hash, w0, m, chunks, suffixes(0)); }
    hide Deletable, Split, WriteChunks, Write, Entries, Underway;
  }

  /** The last write of a publication, from a directory of chunks: only the two middle crashes leave the marker's temporary. */
  lemma {:induction false} MarkerWritten(hash: Bytes -> Bytes, w: World, m: Manifest, chunks: seq<Bytes>, suffix: nat)
    requires w.dir.Some? && Underway(w.dir.value, chunks) && m.chunks == Entries(hash, chunks, 0, 0) && forall n | n in w.dir.value :: n.Chunk?
    ensures var w' := Write(w, Marker, Text(m), suffix).0;
            w'.dir.Some? && (Deletable(hash, w'.dir.value, m) <==> w.stepsLeft != 1 && w.stepsLeft != 2)
  {
    UnderwayDeletable(hash, w.dir.value, m, chunks);
    var w' := Write(w, Marker, Text(m), suffix).0;
    if w.stepsLeft == 1 || w.stepsLeft == 2 {
      TemporaryUndeletable(hash, w'.dir.value, m, suffix);
    }
    hide Deletable, Underway, Entries;
  }

  lemma {:induction false} TemporaryUndeletable(hash: Bytes -> Bytes, files: Files, m: Manifest, suffix: nat)
    requires MarkerTemporary(suffix) in files
    ensures !Deletable(hash, files, m)
  {
    assert !KnownName(m, MarkerTemporary(suffix));
  }

  /** Creating the directory first is what the first chunk write does anyway. */
  lemma {:induction false} FirstWriteEnsures(w: World, chunks: seq<Bytes>, suffixes: nat -> nat)
    requires w.dir.None? && w.stepsLeft >= 1
    ensures chunks != [] ==>
      WriteChunks(w, chunks, 0, suffixes) == WriteChunks(World(Some(map[]), w.stepsLeft - 1), chunks, 0, suffixes)
    ensures chunks == [] ==> WriteChunks(w, chunks, 0, suffixes) == (w, Finished)
  {
  }

  lemma {:induction false} UnderwayDeletable(hash: Bytes -> Bytes, files: Files, m: Manifest, chunks: seq<Bytes>)
    requires Underway(files, chunks) && m.chunks == Entries(hash, chunks, 0, 0)
    ensures Deletable(hash, files, m)
    ensures Deletable(hash, files[Marker := Text(m)], m)
  {
    EntriesContiguous(hash, chunks, 0, 0);
    forall n | n in files ensures KnownName(m, n) {
      if n.Chunk? { assert m.chunks[n.ordinal].ordinal == n.ordinal; }
    }
  }
}
