/**
  What the export artifact store inspects, deletes, restores and publishes, told file by
  file (artifacts/server/src/export-artifact-store.ts).
*/
module ExportInventory {
  import opened Wrappers
  import opened ExportStore
  import opened ExportSafety

  // ---------- Inventories ----------

  /** The marker with this manifest, every chunk it names with its length and hash, and nothing else but chunk temporaries. */
  ghost predicate CommittedAs(hash: Bytes -> Bytes, files: Files, m: Manifest) {
    && Marker in files && files[Marker] == Text(m)
    && (forall n | n in files ::
          n == Marker || n.ChunkTemporary? || (n.Chunk? && exists i :: 0 <= i < |m.chunks| && m.chunks[i].ordinal == n.ordinal))
    && ChunksThere(hash, files, m)
  }

  predicate ChunksThere(hash: Bytes -> Bytes, files: Files, m: Manifest) {
    forall i | 0 <= i < |m.chunks| ::
      && Chunk(m.chunks[i].ordinal) in files && files[Chunk(m.chunks[i].ordinal)].Data?
      && |files[Chunk(m.chunks[i].ordinal)].bytes| == m.chunks[i].byteLength
      && hash(files[Chunk(m.chunks[i].ordinal)].bytes) == m.chunks[i].chunkSha256
  }

  /** A directory is inspected as committed exactly under the request and artifact its marker names. */
  lemma {:induction false} CommittedIff(hash: Bytes -> Bytes, files: Files, request: nat, artifact: nat, maximum: nat, order: Files -> seq<Name>, m: Manifest)
    ensures Inspect(hash, files, request, artifact, maximum, order) == Ok(Committed(m)) <==>
              CommittedAs(hash, files, m) && m.exportRequestId == request && m.artifactId == artifact
  {
    hide TotalBytes;
  }

  function Size(content: Content): nat {
    if content.Data? then |content.bytes| else 0
  }

  ghost function SizeOf(files: Files): nat {
    if files == map[] then 0
    else
      var n :| n in files;
      Size(files[n]) + SizeOf(files - {n})
  }

  lemma {:induction false} SizeWithout(files: Files, n: Name)
    requires n in files
    ensures SizeOf(files) == Size(files[n]) + SizeOf(files - {n})
  {
    var first :| first in files && SizeOf(files) == Size(files[first]) + SizeOf(files - {first});
    if first != n {
      SizeWithout(files - {first}, n);
      SizeWithout(files - {n}, first);
      assert files - {first} - {n} == files - {n} - {first};
    }
  }

  function NamesIn(names: seq<Name>): set<Name> {
    set n | n in names
  }

  lemma {:induction false} NamesAtMost(names: seq<Name>)
    ensures |NamesIn(names)| <= |names|
  {
    if names != [] {
      NamesAtMost(names[1..]);
      assert NamesIn(names) == {names[0]} + NamesIn(names[1..]);
    }
  }

  lemma {:induction false} CoversOnce(names: seq<Name>, files: Files)
    requires names != [] && Covers(names, files)
    ensures names[0] !in names[1..] && Covers(names[1..], files - {names[0]})
  {
    assert NamesIn(names) == files.Keys;
    assert forall n :: n in names <==> n == names[0] || n in names[1..];
    if names[0] in names[1..] {
      assert NamesIn(names[1..]) == files.Keys;
      NamesAtMost(names[1..]);
    }
    assert (files - {names[0]}).Keys == files.Keys - {names[0]};
  }

  /** The running total of the listing is the size of all files, in whatever order they are listed. */
  lemma {:induction false} TotalIsSize(files: Files, names: seq<Name>)
    requires Covers(names, files)
    ensures TotalBytes(files, names) == SizeOf(files)
    decreases |names|
  {
    if names == [] {
      assert files.Keys == {} && files == map[];
    } else {
      CoversOnce(names, files);
      TotalIsSize(files - {names[0]}, names[1..]);
      TotalWithout(files, names[0], names[1..]);
      SizeWithout(files, names[0]);
    }
  }

  lemma {:induction false} TotalWithout(files: Files, n: Name, names: seq<Name>)
    requires n !in names
    ensures TotalBytes(files - {n}, names) == TotalBytes(files, names)
  {
    if names != [] {
      assert names[0] in names && forall x | x in names[1..] :: x in names;
      TotalWithout(files, n, names[1..]);
    }
  }

  /** No marker, chunks and their temporaries only, and all of them within the ceiling. */
  ghost predicate PartialWithin(files: Files, maximum: nat) {
    && Marker !in files && (forall n | n in files :: (n.Chunk? || n.ChunkTemporary?) && files[n].Data?)
    && SizeOf(files) <= maximum
  }

  /** The fingerprint is of exactly these names, lengths and hashes. */
  predicate Fingerprints(hash: Bytes -> Bytes, files: Files, fingerprint: map<Name, FileRecord>) {
    && fingerprint.Keys == files.Keys
    && forall n | n in files :: files[n].Data? && fingerprint[n].byteLength == |files[n].bytes| && fingerprint[n].sha256 == hash(files[n].bytes)
  }

  /** A directory without a marker is inspected as exactly what is there. */
  lemma {:induction false} PartialIff(hash: Bytes -> Bytes, files: Files, request: nat, artifact: nat, maximum: nat, order: Files -> seq<Name>, fingerprint: map<Name, FileRecord>)
    requires Lists(order)
    ensures Inspect(hash, files, request, artifact, maximum, order) == Ok(Partial(fingerprint)) <==>
              PartialWithin(files, maximum) && Fingerprints(hash, files, fingerprint)
  {
    assert Covers(order(files), files);
    TotalIsSize(files, order(files));
    hide TotalBytes, SizeOf, Lists;
    var current := map n | n in files && files[n].Data? :: FileRecord(|files[n].bytes|, hash(files[n].bytes));
    if forall n | n in files :: files[n].Data? {
      assert current.Keys == files.Keys;
      if Fingerprints(hash, files, fingerprint) { assert current == fingerprint; }
    }
  }

  // ---------- Deleting a partial artifact ----------

  lemma {:induction false} DropRestGoes(w: World, names: seq<Name>)
    requires w.dir.Some? && w.stepsLeft > |names| && forall n | n in w.dir.value :: n in names
    ensures DropRest(w, names).1.Finished? && DropRest(w, names).0.dir.None?
    decreases |names|
  {
    if names == [] {
      assert w.dir.value.Keys == {} && w.dir.value == map[];
    } else {
      assert forall n :: n in names <==> n == names[0] || n in names[1..];
      DropRestGoes(World(Some(w.dir.value - {names[0]}), w.stepsLeft - 1), names[1..]);
    }
  }

  /** Nothing of a directory is removed unless it still is exactly what was inspected. */
  lemma {:induction false} OnlyInspectedRemoved(hash: Bytes -> Bytes, w: World, request: nat, artifact: nat, fingerprint: map<Name, FileRecord>, maximum: nat, order: Files -> seq<Name>)
    requires Lists(order) && w.dir.Some?
    ensures var (w', r) := DeletePartial(hash, w, request, artifact, fingerprint, maximum, order);
            w'.dir != w.dir || r.Finished? ==> PartialWithin(w.dir.value, maximum) && Fingerprints(hash, w.dir.value, fingerprint)
  {
    PartialIff(hash, w.dir.value, request, artifact, maximum, order, fingerprint);
    hide Inspect, PartialWithin, Fingerprints, DropRest, Lists;
  }

  /** With enough steps it finishes exactly then, with the directory gone, and otherwise fails and leaves it alone. */
  lemma {:induction false} PartialDeletionIff(hash: Bytes -> Bytes, w: World, request: nat, artifact: nat, fingerprint: map<Name, FileRecord>, maximum: nat, order: Files -> seq<Name>)
    requires Lists(order) && w.dir.Some? && w.stepsLeft > |w.dir.value|
    ensures var (w', r) := DeletePartial(hash, w, request, artifact, fingerprint, maximum, order);
            if PartialWithin(w.dir.value, maximum) && Fingerprints(hash, w.dir.value, fingerprint)
            then r.Finished? && w'.dir.None?
            else r.Failed? && w' == w
  {
    PartialIff(hash, w.dir.value, request, artifact, maximum, order, fingerprint);
    var names := order(w.dir.value);
    assert Covers(names, w.dir.value);
    DropRestGoes(w, names);
    hide Inspect, PartialWithin, Fingerprints, DropRest, Lists;
  }

  /** A directory that is gone already counts as deleted. */
  lemma {:induction false} NothingToDelete(hash: Bytes -> Bytes, w: World, m: Manifest, request: nat, artifact: nat, fingerprint: map<Name, FileRecord>, maximum: nat, order: Files -> seq<Name>)
    requires w.dir.None?
    ensures DeletePartial(hash, w, request, artifact, fingerprint, maximum, order) == (w, Finished)
    ensures Delete(hash, w, m, order) == (w, Finished)
  {
  }

  // ---------- Deleting by manifest ----------

  /** The marker is this manifest or absent, every chunk still there is the recorded one, and there is nothing else but chunk temporaries. */
  ghost predicate RestOf(hash: Bytes -> Bytes, files: Files, m: Manifest) {
    && (Marker in files ==> files[Marker] == Text(m))
    && (forall n | n in files ::
          n == Marker || n.ChunkTemporary? || (n.Chunk? && exists i :: 0 <= i < |m.chunks| && m.chunks[i].ordinal == n.ordinal))
    && forall i | 0 <= i < |m.chunks| && Chunk(m.chunks[i].ordinal) in files ::
         var content := files[Chunk(m.chunks[i].ordinal)];
         content.Data? && |content.bytes| == m.chunks[i].byteLength && hash(content.bytes) == m.chunks[i].chunkSha256
  }

  lemma {:induction false} DeletableIsRest(hash: Bytes -> Bytes, files: Files, m: Manifest)
    ensures Deletable(hash, files, m) <==> RestOf(hash, files, m)
  {
    assert forall n | n in files :: KnownName(m, n) <==>
      n == Marker || n.ChunkTemporary? || (n.Chunk? && exists i :: 0 <= i < |m.chunks| && m.chunks[i].ordinal == n.ordinal);
  }

  /** With enough steps deletion finishes on exactly these directories, and leaves none. */
  lemma {:induction false} DeletionIff(hash: Bytes -> Bytes, w: World, m: Manifest, order: Files -> seq<Name>)
    requires w.dir.Some? && DistinctOrdinals(m) && Lists(order) && w.stepsLeft > |w.dir.value|
    ensures var (w', r) := Delete(hash, w, m, order);
            && (r.Finished? <==> RestOf(hash, w.dir.value, m))
            && (w'.dir.None? <==> r.Finished?)
  {
    DeletableIsRest(hash, w.dir.value, m);
    DeletionSucceedsIff(hash, w, m, order);
    hide Delete, Deletable, RestOf, Lists;
    if Deletable(hash, w.dir.value, m) {
      DeletionResumes(hash, w, m, order);
    } else {
      UnfinishedStays(hash, w, m, order);
    }
  }

  lemma {:induction false} UnfinishedStays(hash: Bytes -> Bytes, w: World, m: Manifest, order: Files -> seq<Name>)
    requires w.dir.Some? && !Delete(hash, w, m, order).1.Finished?
    ensures Delete(hash, w, m, order).0.dir.Some?
  {
    var (w1, r) := DropChunks(hash, w, m.chunks);
    if !DropRest(w1, order(w1.dir.value)).1.Finished? { RestStays(w1, order(w1.dir.value)); }
  }

  lemma {:induction false} RestStays(w: World, names: seq<Name>)
    requires w.dir.Some? && !DropRest(w, names).1.Finished?
    ensures DropRest(w, names).0.dir.Some?
    decreases |names|
  {
    if w.stepsLeft > 0 && names != [] { RestStays(World(Some(w.dir.value - {names[0]}), w.stepsLeft - 1), names[1..]); }
  }

  // ---------- Restoring and publishing ----------

  lemma {:induction false} WriteIff(w: World, target: Name, content: Content, suffix: nat)
    requires (target.Marker? || target.Chunk?) && w.dir.Some? && w.stepsLeft >= 3 && ExportStore.TemporaryOf(target, suffix) !in w.dir.value
    ensures var (w', r) := Write(w, target, content, suffix);
            && (r.Finished? <==> target !in w.dir.value || w.dir.value[target] == content)
            && (r.Finished? ==> w'.dir == Some(w.dir.value[target := content]) && w'.stepsLeft + 3 >= w.stepsLeft)
            && (!r.Finished? ==> r.Failed? && w'.dir == w.dir)
  {
    if target in w.dir.value && w.dir.value[target] == content { assert w.dir.value[target := content] == w.dir.value; }
  }

  /** The marker is restored over exactly the directories that hold every chunk and nothing foreign, not even another marker. */
  lemma {:induction false} RestorationIff(hash: Bytes -> Bytes, w: World, m: Manifest, suffix: nat)
    requires w.dir.Some? && w.stepsLeft >= 3
    ensures var (w', r) := Restore(hash, w, m, suffix);
            && (r.Finished? <==> RestOf(hash, w.dir.value, m) && ChunksThere(hash, w.dir.value, m))
            && (r.Finished? ==> w'.dir == Some(w.dir.value[Marker := Text(m)]))
            && (!r.Finished? ==> r.Failed? && w'.dir == w.dir)
  {
    var files := w.dir.value;
    DeletableIsRest(hash, files, m);
    assert Complete(hash, files, m) <==> ChunksThere(hash, files, m);
    assert MarkerTemporary(suffix) in files ==> !KnownName(m, MarkerTemporary(suffix));
    if MarkerTemporary(suffix) !in files { WriteIff(w, Marker, Text(m), suffix); }
    hide Write;
  }

  /** What a publication that finished has committed: its own ids, the envelope's length and the split's entries. */
  ghost predicate Published(hash: Bytes -> Bytes, files: Files, request: nat, artifact: nat, envelope: Bytes, chunkBytes: nat)
    requires chunkBytes >= 1
  {
    && Marker in files && files[Marker].Text?
    && var m := files[Marker].manifest;
    && m.exportRequestId == request && m.artifactId == artifact && m.byteLength == |envelope|
    && |m.chunks| == |Split(envelope, chunkBytes)|
    && forall i | 0 <= i < |m.chunks| ::
         && m.chunks[i].ordinal == i && Chunk(i) in files && files[Chunk(i)] == Data(Split(envelope, chunkBytes)[i])
         && m.chunks[i].byteLength == |Split(envelope, chunkBytes)[i]| && m.chunks[i].chunkSha256 == hash(Split(envelope, chunkBytes)[i])
  }

  lemma {:induction false} FinishedIsPublished(hash: Bytes -> Bytes, w: World, request: nat, artifact: nat, envelope: Bytes, chunkBytes: nat, maximum: nat, suffixes: nat -> nat)
    requires chunkBytes >= 1
    ensures var (w', r) := PublishWithin(hash, w, request, artifact, envelope, chunkBytes, maximum, suffixes);
            r.Finished? ==> |envelope| <= maximum && w'.dir.Some? && Published(hash, w'.dir.value, request, artifact, envelope, chunkBytes)
  {
    hide Write, WriteChunks, Split, Entries;
    var chunks := Split(envelope, chunkBytes);
    WriteChunksGrows(w, chunks, 0, suffixes);
    EntriesContiguous(hash, chunks, 0, 0);
    var (w1, r) := WriteChunks(w, chunks, 0, suffixes);
    if r.Finished? {
      WriteGrows(w1, Marker, Text(ManifestFor(hash, request, artifact, envelope, chunkBytes)), suffixes(|chunks|));
    }
  }

  /** It is inspected as committed under its own ids, unless something foreign lies beside it. */
  lemma {:induction false} PublishedIsInspected(hash: Bytes -> Bytes, files: Files, request: nat, artifact: nat, envelope: Bytes, chunkBytes: nat, maximum: nat, order: Files -> seq<Name>)
    requires chunkBytes >= 1 && Published(hash, files, request, artifact, envelope, chunkBytes)
    requires forall n | n in files :: n == Marker || n.ChunkTemporary? || (n.Chunk? && n.ordinal < |Split(envelope, chunkBytes)|)
    ensures Inspect(hash, files, request, artifact, maximum, order) == Ok(Committed(files[Marker].manifest))
  {
    var m := files[Marker].manifest;
    hide Inspect, Split;
    forall n | n in files && n.Chunk? ensures exists i :: 0 <= i < |m.chunks| && m.chunks[i].ordinal == n.ordinal {
      assert m.chunks[n.ordinal].ordinal == n.ordinal;
    }
    CommittedIff(hash, files, request, artifact, maximum, order, m);
  }

  /** From nothing, an envelope within the ceiling is published in three steps a chunk and four more. */
  lemma {:induction false} FreshPublicationFinishes(hash: Bytes -> Bytes, steps: nat, request: nat, artifact: nat, envelope: Bytes, chunkBytes: nat, maximum: nat, suffixes: nat -> nat, order: Files -> seq<Name>)
    requires chunkBytes >= 1 && |envelope| <= maximum && steps >= 3 * |Split(envelope, chunkBytes)| + 4
    ensures var (w', r) := PublishWithin(hash, World(None, steps), request, artifact, envelope, chunkBytes, maximum, suffixes);
            && r.Finished? && w'.dir.Some? && Published(hash, w'.dir.value, request, artifact, envelope, chunkBytes)
            && Inspect(hash, w'.dir.value, request, artifact, maximum, order) == Ok(Committed(w'.dir.value[Marker].manifest))
  {
    hide Write, WriteChunks, Split, Entries, Inspect, Published, Underway;
    var chunks := Split(envelope, chunkBytes);
    var w0 := World(Some(map[]), steps - 1);
    EmptyUnderway(chunks);
    assert chunks[0..] == chunks;
    FirstChunks(w0, chunks, 0, suffixes);
    FirstWriteEnsures(World(None, steps), chunks, suffixes);
    var (w1, r) := WriteChunks(World(None, steps), chunks, 0, suffixes);
    var m := Text(ManifestFor(hash, request, artifact, envelope, chunkBytes));
    if chunks == [] {
      EnsureFirst(World(None, steps), Marker, m, suffixes(0));
      WriteIff(w0, Marker, m, suffixes(0));
    } else {
      WriteIff(w1, Marker, m, suffixes(|chunks|));
    }
    FinishedIsPublished(hash, World(None, steps), request, artifact, envelope, chunkBytes, maximum, suffixes);
    var w' := PublishWithin(hash, World(None, steps), request, artifact, envelope, chunkBytes, maximum, suffixes).0;
    UnderwayKnown(w'.dir.value - {Marker}, chunks);
    PublishedIsInspected(hash, w'.dir.value, request, artifact, envelope, chunkBytes, maximum, order);
  }

  lemma {:induction false} EmptyUnderway(chunks: seq<Bytes>)
    ensures Underway(map[], chunks)
  {
  }

  lemma {:induction false} UnderwayKnown(files: Files, chunks: seq<Bytes>)
    ensures Underway(files, chunks) ==> forall n | n in files :: n.ChunkTemporary? || (n.Chunk? && n.ordinal < |chunks|)
  {
  }

  lemma {:induction false} EnsureFirst(w: World, target: Name, content: Content, suffix: nat)
    requires (target.Marker? || target.Chunk?) && w.dir.None? && w.stepsLeft >= 1
    ensures Write(w, target, content, suffix) == Write(World(Some(map[]), w.stepsLeft - 1), target, content, suffix)
  {
  }
}
