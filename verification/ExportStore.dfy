/**
  The local export artifact store (artifacts/server/src/export-artifact-store.ts):
  chunked publication, the commit marker written last, marker restoration and
  resumable deletion, on one artifact directory.

  Every creation, link, unlink and directory change spends one unit of `stepsLeft`
  and the process dies when none is left.  SHA-256 is a function value.
*/
module ExportStore {
  import opened Wrappers

  /** The names the store's patterns tell apart; `MarkerTemporary` matches none of the temporary patterns. */
  datatype Name =
    | Marker                                        // manifest.json
    | Chunk(ordinal: nat)                           // <ordinal>.bin
    | ChunkTemporary(ordinal: nat, suffix: nat)     // <ordinal>.bin.tmp-<32 hex digits>
    | MarkerTemporary(suffix: nat)                  // manifest.json.tmp-<32 hex digits>
    | Stray(tag: nat)

  datatype ChunkEntry = ChunkEntry(ordinal: nat, byteOffset: nat, byteLength: nat, chunkSha256: Bytes)

  datatype Manifest = Manifest(exportRequestId: nat, artifactId: nat, byteLength: nat, chunks: seq<ChunkEntry>)

  /** The canonical JSON of a manifest, or any other bytes. */
  datatype Content = Text(manifest: Manifest) | Data(bytes: Bytes)

  type Files = map<Name, Content>

  datatype World = World(dir: Option<Files>, stepsLeft: nat)

  datatype Failure =
    | BindsOtherBytes
    | DirectoryUnavailable
    | MarkerMismatch
    | ChunkMismatch
    | UnexpectedObject
    | PartialChanged
    | TooLarge

  datatype Outcome = Finished | Failed(why: Failure) | Crashed

  // ---------- Chunks ----------

  /** The chunk loop of `publish`: consecutive slices of at most `chunkBytes`. */
  function Split(envelope: Bytes, chunkBytes: nat): (r: seq<Bytes>)
    requires chunkBytes >= 1
    decreases |envelope|
  {
    if envelope == [] then []
    else
      var end := if |envelope| < chunkBytes then |envelope| else chunkBytes;
      [envelope[..end]] + Split(envelope[end..], chunkBytes)
  }

  function Joined(chunks: seq<Bytes>): Bytes {
    if chunks == [] then [] else chunks[0] + Joined(chunks[1..])
  }

  function Entries(hash: Bytes -> Bytes, chunks: seq<Bytes>, ordinal: nat, offset: nat): (r: seq<ChunkEntry>)
    ensures |r| == |chunks|
  {
    if chunks == [] then []
    else [ChunkEntry(ordinal, offset, |chunks[0]|, hash(chunks[0]))]
         + Entries(hash, chunks[1..], ordinal + 1, offset + |chunks[0]|)
  }

  function ManifestFor(hash: Bytes -> Bytes, exportRequestId: nat, artifactId: nat, envelope: Bytes, chunkBytes: nat): Manifest
    requires chunkBytes >= 1
  {
    Manifest(exportRequestId, artifactId, |envelope|, Entries(hash, Split(envelope, chunkBytes), 0, 0))
  }

  lemma {:induction false} SplitJoined(envelope: Bytes, chunkBytes: nat)
    requires chunkBytes >= 1
    ensures Joined(Split(envelope, chunkBytes)) == envelope
    ensures forall i | 0 <= i < |Split(envelope, chunkBytes)| :: 1 <= |Split(envelope, chunkBytes)[i]| <= chunkBytes
    decreases |envelope|
  {
    if envelope != [] {
      var end := if |envelope| < chunkBytes then |envelope| else chunkBytes;
      SplitJoined(envelope[end..], chunkBytes);
      assert envelope[..end] + envelope[end..] == envelope;
    }
  }

  /** Every chunk but the last is full. */
  lemma {:induction false} ChunksFull(envelope: Bytes, chunkBytes: nat, i: nat)
    requires chunkBytes >= 1 && i + 1 < |Split(envelope, chunkBytes)|
    ensures |Split(envelope, chunkBytes)[i]| == chunkBytes
    decreases i
  {
    var end := if |envelope| < chunkBytes then |envelope| else chunkBytes;
    if i > 0 { ChunksFull(envelope[end..], chunkBytes, i - 1); }
  }

  lemma {:induction false} EntryFields(hash: Bytes -> Bytes, chunks: seq<Bytes>, ordinal: nat, offset: nat, i: nat)
    requires i < |chunks|
    ensures var e := Entries(hash, chunks, ordinal, offset)[i];
            e.ordinal == ordinal + i && e.byteLength == |chunks[i]| && e.chunkSha256 == hash(chunks[i])
    decreases i
  {
    if i > 0 { EntryFields(hash, chunks[1..], ordinal + 1, offset + |chunks[0]|, i - 1); }
  }

  /** Each entry begins where the one before it ends, the first at `offset`, the last ending with the bytes. */
  lemma {:induction false} EntryOffsets(hash: Bytes -> Bytes, chunks: seq<Bytes>, ordinal: nat, offset: nat, i: nat)
    requires i < |chunks|
    ensures var r := Entries(hash, chunks, ordinal, offset);
            && (i == 0 ==> r[i].byteOffset == offset)
            && (i > 0 ==> r[i].byteOffset == r[i - 1].byteOffset + r[i - 1].byteLength)
            && (i == |chunks| - 1 ==> r[i].byteOffset + r[i].byteLength == offset + |Joined(chunks)|)
    decreases i
  {
    if i > 0 {
      EntryOffsets(hash, chunks[1..], ordinal + 1, offset + |chunks[0]|, i - 1);
    } else if |chunks| == 1 {
      assert chunks[1..] == [];
    }
  }

  lemma {:induction false} EntriesContiguous(hash: Bytes -> Bytes, chunks: seq<Bytes>, ordinal: nat, offset: nat)
    ensures var r := Entries(hash, chunks, ordinal, offset);
            && (forall i | 0 <= i < |r| :: r[i].ordinal == ordinal + i
                  && r[i].byteLength == |chunks[i]| && r[i].chunkSha256 == hash(chunks[i]))
            && (chunks != [] ==> r[0].byteOffset == offset)
            && (forall i | 0 <= i < |r| - 1 :: r[i + 1].byteOffset == r[i].byteOffset + r[i].byteLength)
            && (chunks != [] ==> r[|r| - 1].byteOffset + r[|r| - 1].byteLength == offset + |Joined(chunks)|)
  {
    var r := Entries(hash, chunks, ordinal, offset);
    hide Entries, Joined;
    forall i | 0 <= i < |r| ensures r[i].ordinal == ordinal + i && r[i].byteLength == |chunks[i]| && r[i].chunkSha256 == hash(chunks[i]) {
      EntryFields(hash, chunks, ordinal, offset, i);
    }
    forall i | 0 <= i < |r| - 1 ensures r[i + 1].byteOffset == r[i].byteOffset + r[i].byteLength {
      EntryOffsets(hash, chunks, ordinal, offset, i + 1);
    }
    if chunks != [] {
      EntryOffsets(hash, chunks, ordinal, offset, 0);
      EntryOffsets(hash, chunks, ordinal, offset, |chunks| - 1);
    }
  }

  /**
    The manifest of a published envelope: ordinals count from 0, offsets are
    contiguous from 0 to the envelope length, no chunk is empty or larger than
    `chunkBytes`, and the chunks in ordinal order are the envelope.
  */
  lemma {:induction false} ChunksCoverEnvelope(hash: Bytes -> Bytes, exportRequestId: nat, artifactId: nat, envelope: Bytes, chunkBytes: nat)
    requires chunkBytes >= 1 && envelope != []
    ensures var m := ManifestFor(hash, exportRequestId, artifactId, envelope, chunkBytes);
            var chunks := Split(envelope, chunkBytes);
            && |m.chunks| == |chunks| >= 1 && Joined(chunks) == envelope && m.byteLength == |envelope|
            && (forall i | 0 <= i < |chunks| ::
                  && m.chunks[i].ordinal == i
                  && 1 <= m.chunks[i].byteLength == |chunks[i]| <= chunkBytes
                  && m.chunks[i].chunkSha256 == hash(chunks[i]))
            && m.chunks[0].byteOffset == 0
            && (forall i | 0 <= i < |chunks| - 1 :: m.chunks[i + 1].byteOffset == m.chunks[i].byteOffset + m.chunks[i].byteLength)
            && m.chunks[|chunks| - 1].byteOffset + m.chunks[|chunks| - 1].byteLength == |envelope|
  {
    SplitJoined(envelope, chunkBytes);
    EntriesContiguous(hash, Split(envelope, chunkBytes), 0, 0);
  }

  lemma {:induction false} SplitStep(envelope: Bytes, offset: nat, end: nat, chunkBytes: nat)
    requires chunkBytes >= 1 && offset < |envelope|
    requires end == if |envelope| - offset < chunkBytes then |envelope| else offset + chunkBytes
    ensures Split(envelope[offset..], chunkBytes) == [envelope[offset..end]] + Split(envelope[end..], chunkBytes)
  {
    assert envelope[offset..][..end - offset] == envelope[offset..end];
    assert envelope[offset..][end - offset..] == envelope[end..];
  }

  lemma {:induction false} EntriesStep(hash: Bytes -> Bytes, chunks: seq<Bytes>, ordinal: nat, offset: nat)
    requires chunks != []
    ensures Entries(hash, chunks, ordinal, offset)
         == [ChunkEntry(ordinal, offset, |chunks[0]|, hash(chunks[0]))] + Entries(hash, chunks[1..], ordinal + 1, offset + |chunks[0]|)
  {
  }

  // ---------- Atomic exclusive writes ----------

  function TemporaryOf(target: Name, suffix: nat): Name {
    match target
    case Chunk(ordinal) => ChunkTemporary(ordinal, suffix)
    case _ => MarkerTemporary(suffix)
  }

  /** `writeExact`: temporary, link if the target is free or equal, drop the temporary. */
  function WriteExact(files: Files, stepsLeft: nat, target: Name, content: Content, suffix: nat): (Files, nat, Outcome)
    requires target.Marker? || target.Chunk?
  {
    var temporary := TemporaryOf(target, suffix);
    if stepsLeft == 0 then (files, 0, Crashed)
    else if temporary in files then (files - {temporary}, stepsLeft - 1, Failed(BindsOtherBytes))
    else if stepsLeft == 1 then (files[temporary := content], 0, Crashed)
    else if target in files then
      (files, stepsLeft - 2, if files[target] == content then Finished else Failed(BindsOtherBytes))
    else if stepsLeft == 2 then (files[temporary := content][target := content], 0, Crashed)
    else (files[target := content], stepsLeft - 3, Finished)
  }

  /** `directory`: create what is missing. */
  function Ensure(w: World): (World, bool) {
    if w.dir.Some? then (w, true)
    else if w.stepsLeft == 0 then (w, false)
    else (World(Some(map[]), w.stepsLeft - 1), true)
  }

  function Write(w: World, target: Name, content: Content, suffix: nat): (World, Outcome)
    requires target.Marker? || target.Chunk?
  {
    var (w1, alive) := Ensure(w);
    if !alive then (w1, Crashed)
    else
      var (files, stepsLeft, outcome) := WriteExact(w1.dir.value, w1.stepsLeft, target, content, suffix);
      (World(Some(files), stepsLeft), outcome)
  }

  // ---------- Publication ----------

  function WriteChunks(w: World, chunks: seq<Bytes>, ordinal: nat, suffixes: nat -> nat): (World, Outcome)
    decreases |chunks|
  {
    if chunks == [] then (w, Finished)
    else
      var (w1, outcome) := Write(w, Chunk(ordinal), Data(chunks[0]), suffixes(ordinal));
      if outcome.Finished? then WriteChunks(w1, chunks[1..], ordinal + 1, suffixes) else (w1, outcome)
  }

  /** `publish` of an envelope: every chunk, then the marker. */
  function Publish(hash: Bytes -> Bytes, w: World, exportRequestId: nat, artifactId: nat, envelope: Bytes, chunkBytes: nat, suffixes: nat -> nat): (World, Outcome)
    requires chunkBytes >= 1
  {
    var chunks := Split(envelope, chunkBytes);
    var (w1, outcome) := WriteChunks(w, chunks, 0, suffixes);
    if !outcome.Finished? then (w1, outcome)
    else Write(w1, Marker, Text(ManifestFor(hash, exportRequestId, artifactId, envelope, chunkBytes)), suffixes(|chunks|))
  }

  /** `publish`: nothing is written of an envelope above the ceiling. */
  function PublishWithin(hash: Bytes -> Bytes, w: World, exportRequestId: nat, artifactId: nat, envelope: Bytes, chunkBytes: nat, maximum: nat, suffixes: nat -> nat): (World, Outcome)
    requires chunkBytes >= 1
  {
    if |envelope| > maximum then (w, Failed(TooLarge))
    else Publish(hash, w, exportRequestId, artifactId, envelope, chunkBytes, suffixes)
  }

  lemma {:induction false} WriteChunksStep(w: World, chunks: seq<Bytes>, ordinal: nat, suffixes: nat -> nat)
    requires chunks != []
    ensures var (w1, outcome) := Write(w, Chunk(ordinal), Data(chunks[0]), suffixes(ordinal));
            WriteChunks(w, chunks, ordinal, suffixes) == if outcome.Finished? then WriteChunks(w1, chunks[1..], ordinal + 1, suffixes) else (w1, outcome)
  {
  }

  lemma {:induction false} NothingLeft(hash: Bytes -> Bytes, rest: Bytes, chunkBytes: nat, w: World, ordinal: nat, offset: nat, suffixes: nat -> nat)
    requires chunkBytes >= 1 && rest == []
    ensures Split(rest, chunkBytes) == [] && WriteChunks(w, [], ordinal, suffixes) == (w, Finished) && Entries(hash, [], ordinal, offset) == []
  {
  }

  // ---------- Reading ----------

  predicate ChunkMatches(hash: Bytes -> Bytes, content: Content, e: ChunkEntry) {
    content.Data? && |content.bytes| == e.byteLength && hash(content.bytes) == e.chunkSha256
  }

  /** Every chunk of the manifest is present with its recorded length and hash. */
  predicate Complete(hash: Bytes -> Bytes, files: Files, m: Manifest) {
    forall i | 0 <= i < |m.chunks| ::
      Chunk(m.chunks[i].ordinal) in files && ChunkMatches(hash, files[Chunk(m.chunks[i].ordinal)], m.chunks[i])
  }

  function ReadExactChunk(hash: Bytes -> Bytes, w: World, e: ChunkEntry): Result<Bytes, Failure> {
    if w.dir.None? then Err(DirectoryUnavailable)
    else if Chunk(e.ordinal) !in w.dir.value || !ChunkMatches(hash, w.dir.value[Chunk(e.ordinal)], e) then Err(ChunkMismatch)
    else Ok(w.dir.value[Chunk(e.ordinal)].bytes)
  }

  // ---------- Restoring the marker ----------

  predicate OrdinalOf(m: Manifest, ordinal: nat) {
    exists i :: 0 <= i < |m.chunks| && m.chunks[i].ordinal == ordinal
  }

  /** The names `restoreManifestMarker` tolerates. */
  predicate KnownName(m: Manifest, n: Name) {
    match n
    case Marker => true
    case ChunkTemporary(_, _) => true
    case Chunk(ordinal) => OrdinalOf(m, ordinal)
    case _ => false
  }

  function Restore(hash: Bytes -> Bytes, w: World, m: Manifest, suffix: nat): (World, Outcome) {
    if w.dir.None? then (w, Failed(DirectoryUnavailable))
    else if exists n | n in w.dir.value :: !KnownName(m, n) then (w, Failed(UnexpectedObject))
    else if !Complete(hash, w.dir.value, m) then (w, Failed(ChunkMismatch))
    else Write(w, Marker, Text(m), suffix)
  }

  // ---------- Deletion ----------

  function DropChunks(hash: Bytes -> Bytes, w: World, entries: seq<ChunkEntry>): (r: (World, Outcome))
    requires w.dir.Some?
    ensures r.0.dir.Some?
    decreases |entries|
  {
    if entries == [] then (w, Finished)
    else
      var n := Chunk(entries[0].ordinal);
      if n !in w.dir.value then DropChunks(hash, w, entries[1..])
      else if !ChunkMatches(hash, w.dir.value[n], entries[0]) then (w, Failed(ChunkMismatch))
      else if w.stepsLeft == 0 then (w, Crashed)
      else DropChunks(hash, World(Some(w.dir.value - {n}), w.stepsLeft - 1), entries[1..])
  }

  /** Unlink what a listing names, in its order, then remove the directory. */
  function DropRest(w: World, names: seq<Name>): (World, Outcome)
    requires w.dir.Some?
    decreases |names|
  {
    if w.stepsLeft == 0 then (w, Crashed)
    else if names == [] then
      (if w.dir.value == map[] then World(None, w.stepsLeft - 1) else w,
       if w.dir.value == map[] then Finished else Failed(UnexpectedObject))
    else DropRest(World(Some(w.dir.value - {names[0]}), w.stepsLeft - 1), names[1..])
  }

  predicate Removable(n: Name) {
    n.Marker? || n.ChunkTemporary?
  }

  /** `deleteArtifact`; `order` is the listing the system returns for the remaining files. */
  function Delete(hash: Bytes -> Bytes, w: World, m: Manifest, order: Files -> seq<Name>): (World, Outcome) {
    if w.dir.None? then (w, Finished)
    else if Marker in w.dir.value && w.dir.value[Marker] != Text(m) then (w, Failed(MarkerMismatch))
    else
      var (w1, outcome) := DropChunks(hash, w, m.chunks);
      if !outcome.Finished? then (w1, outcome)
      else if exists n | n in w1.dir.value :: !Removable(n) then (w1, Failed(UnexpectedObject))
      else DropRest(w1, order(w1.dir.value))
  }

  // ---------- Inventory and partial deletion ----------

  datatype FileRecord = FileRecord(byteLength: nat, sha256: Bytes)

  datatype Inventory =
    | Committed(manifest: Manifest)
    | Partial(fingerprint: map<Name, FileRecord>)

  function TotalBytes(files: Files, order: seq<Name>): nat {
    if order == [] then 0
    else (if order[0] in files && files[order[0]].Data? then |files[order[0]].bytes| else 0) + TotalBytes(files, order[1..])
  }

  /** `inspectArtifactDirectory`: the marker decides between the two inventories. */
  function Inspect(hash: Bytes -> Bytes, files: Files, exportRequestId: nat, artifactId: nat, maximum: nat, order: Files -> seq<Name>): Result<Inventory, Failure> {
    if Marker in files then
      if !files[Marker].Text? then Err(MarkerMismatch)
      else
        var m := files[Marker].manifest;
        if m.exportRequestId != exportRequestId || m.artifactId != artifactId then Err(MarkerMismatch)
        else if exists n | n in files :: !KnownName(m, n) then Err(UnexpectedObject)
        else if !Complete(hash, files, m) then Err(ChunkMismatch)
        else Ok(Committed(m))
    else if exists n | n in files :: !(n.Chunk? || n.ChunkTemporary?) || !files[n].Data? then Err(UnexpectedObject)
    else if TotalBytes(files, order(files)) > maximum then Err(TooLarge)
    else Ok(Partial(map n | n in files && files[n].Data? :: FileRecord(|files[n].bytes|, hash(files[n].bytes))))
  }

  /** `deletePartialArtifact`: only while the directory is still the inventory that was inspected. */
  function DeletePartial(hash: Bytes -> Bytes, w: World, exportRequestId: nat, artifactId: nat, fingerprint: map<Name, FileRecord>, maximum: nat, order: Files -> seq<Name>): (World, Outcome) {
    if w.dir.None? then (w, Finished)
    else
      match Inspect(hash, w.dir.value, exportRequestId, artifactId, maximum, order)
      case Err(e) => (w, Failed(e))
      case Ok(Committed(_)) => (w, Failed(PartialChanged))
      case Ok(Partial(current)) =>
        if current != fingerprint then (w, Failed(PartialChanged)) else DropRest(w, order(w.dir.value))
  }

  // ---------- The directory as mutable state ----------

  class ArtifactDirectory {
    var dir: Option<Files>
    var stepsLeft: nat

    ghost function State(): World
      reads this
    {
      World(dir, stepsLeft)
    }

    /** `writeExact` in a directory that is there. */
    method WriteExactly(target: Name, content: Content, suffix: nat) returns (r: Outcome)
      requires dir.Some? && (target.Marker? || target.Chunk?)
      modifies this
      ensures dir.Some? && (dir.value, stepsLeft, r) == WriteExact(old(dir.value), old(stepsLeft), target, content, suffix)
    {
      var temporary := TemporaryOf(target, suffix);
      if stepsLeft == 0 { return Crashed; }
      if temporary in dir.value {
        dir, stepsLeft := Some(dir.value - {temporary}), stepsLeft - 1;
        return Failed(BindsOtherBytes);
      }
      ghost var before := dir.value;
      dir, stepsLeft := Some(dir.value[temporary := content]), stepsLeft - 1;
      if stepsLeft == 0 { return Crashed; }
      r := Finished;
      if target in dir.value {
        if dir.value[target] != content { r := Failed(BindsOtherBytes); }
      } else {
        dir, stepsLeft := Some(dir.value[target := content]), stepsLeft - 1;
        if stepsLeft == 0 { return Crashed; }
      }
      dir, stepsLeft := Some(dir.value - {temporary}), stepsLeft - 1;
      assert dir.value == if target in before then before else before[target := content];
    }

    /** `writeExact`, creating the directory first if it is missing. */
    method WriteFile(target: Name, content: Content, suffix: nat) returns (r: Outcome)
      requires target.Marker? || target.Chunk?
      modifies this
      ensures (State(), r) == Write(old(State()), target, content, suffix)
    {
      hide WriteExact;
      if dir.None? {
        if stepsLeft == 0 { return Crashed; }
        dir, stepsLeft := Some(map[]), stepsLeft - 1;
      }
      r := WriteExactly(target, content, suffix);
    }

    /** The chunk loop of `publish`, which also gathers the manifest's chunk entries. */
    method WriteEnvelope(hash: Bytes -> Bytes, envelope: Bytes, chunkBytes: nat, suffixes: nat -> nat)
        returns (r: Outcome, entries: seq<ChunkEntry>)
      requires chunkBytes >= 1
      modifies this
      ensures (State(), r) == WriteChunks(old(State()), Split(envelope, chunkBytes), 0, suffixes)
      ensures r.Finished? ==> entries == Entries(hash, Split(envelope, chunkBytes), 0, 0)
    {
      hide Write, WriteChunks, Entries, Split;
      entries := [];
      var offset, ordinal := 0, 0;
      ghost var chunks := Split(envelope, chunkBytes);
      assert envelope[0..] == envelope && chunks[0..] == chunks;
      while offset < |envelope|
        invariant offset <= |envelope| && ordinal <= |chunks|
        invariant Split(envelope[offset..], chunkBytes) == chunks[ordinal..]
        invariant WriteChunks(State(), chunks[ordinal..], ordinal, suffixes) == WriteChunks(old(State()), chunks, 0, suffixes)
        invariant entries + Entries(hash, chunks[ordinal..], ordinal, offset) == Entries(hash, chunks, 0, 0)
      {
        var end := if |envelope| - offset < chunkBytes then |envelope| else offset + chunkBytes;
        var bytes := envelope[offset..end];
        SplitStep(envelope, offset, end, chunkBytes);
        assert chunks[ordinal..] == [bytes] + Split(envelope[end..], chunkBytes) && ordinal < |chunks|;
        assert chunks[ordinal..][1..] == chunks[ordinal + 1..] && chunks[ordinal..][0] == bytes;
        WriteChunksStep(State(), chunks[ordinal..], ordinal, suffixes);
        r := WriteFile(Chunk(ordinal), Data(bytes), suffixes(ordinal));
        if !r.Finished? { return; }
        EntriesStep(hash, chunks[ordinal..], ordinal, offset);
        entries := entries + [ChunkEntry(ordinal, offset, |bytes|, hash(bytes))];
        offset, ordinal := end, ordinal + 1;
      }
      NothingLeft(hash, envelope[offset..], chunkBytes, State(), ordinal, offset, suffixes);
      assert entries + [] == entries;
      r := Finished;
    }

    /** `publish` of an envelope: the chunks, then the commit marker. */
    method PublishEnvelope(hash: Bytes -> Bytes, exportRequestId: nat, artifactId: nat, envelope: Bytes, chunkBytes: nat, maximum: nat, suffixes: nat -> nat)
        returns (r: Outcome)
      requires chunkBytes >= 1
      modifies this
      ensures (State(), r) == PublishWithin(hash, old(State()), exportRequestId, artifactId, envelope, chunkBytes, maximum, suffixes)
    {
      if |envelope| > maximum { return Failed(TooLarge); }
      var entries;
      r, entries := WriteEnvelope(hash, envelope, chunkBytes, suffixes);
      if !r.Finished? { return; }
      r := WriteFile(Marker, Text(Manifest(exportRequestId, artifactId, |envelope|, entries)), suffixes(|entries|));
    }

    /** `restoreManifestMarker`. */
    method RestoreMarker(hash: Bytes -> Bytes, m: Manifest, suffix: nat) returns (r: Outcome)
      modifies this
      ensures (State(), r) == Restore(hash, old(State()), m, suffix)
    {
      if dir.None? { return Failed(DirectoryUnavailable); }
      if exists n | n in dir.value :: !KnownName(m, n) { return Failed(UnexpectedObject); }
      var i := 0;
      while i < |m.chunks|
        invariant 0 <= i <= |m.chunks|
        invariant forall j | 0 <= j < i ::
          Chunk(m.chunks[j].ordinal) in dir.value && ChunkMatches(hash, dir.value[Chunk(m.chunks[j].ordinal)], m.chunks[j])
      {
        var target := Chunk(m.chunks[i].ordinal);
        if target !in dir.value || !ChunkMatches(hash, dir.value[target], m.chunks[i]) { return Failed(ChunkMismatch); }
        i := i + 1;
      }
      r := WriteFile(Marker, Text(m), suffix);
    }

    method DropListed(names: seq<Name>) returns (r: Outcome)
      requires dir.Some?
      modifies this
      ensures (State(), r) == DropRest(old(State()), names)
    {
      var i := 0;
      while i < |names|
        invariant 0 <= i <= |names| && dir.Some?
        invariant DropRest(State(), names[i..]) == DropRest(old(State()), names)
      {
        assert names[i..][0] == names[i] && names[i..][1..] == names[i + 1..];
        if stepsLeft == 0 { return Crashed; }
        dir, stepsLeft := Some(dir.value - {names[i]}), stepsLeft - 1;
        i := i + 1;
      }
      if stepsLeft == 0 { return Crashed; }
      if dir.value != map[] { return Failed(UnexpectedObject); }
      dir, stepsLeft := None, stepsLeft - 1;
      r := Finished;
    }

    /** `deleteArtifact`. */
    method DeleteArtifact(hash: Bytes -> Bytes, m: Manifest, order: Files -> seq<Name>) returns (r: Outcome)
      modifies this
      ensures (State(), r) == Delete(hash, old(State()), m, order)
    {
      if dir.None? { return Finished; }
      if Marker in dir.value && dir.value[Marker] != Text(m) { return Failed(MarkerMismatch); }
      var i := 0;
      while i < |m.chunks|
        invariant 0 <= i <= |m.chunks| && dir.Some?
        invariant DropChunks(hash, State(), m.chunks[i..]) == DropChunks(hash, old(State()), m.chunks)
      {
        var target := Chunk(m.chunks[i].ordinal);
        assert m.chunks[i..][0] == m.chunks[i] && m.chunks[i..][1..] == m.chunks[i + 1..];
        if target in dir.value {
          if !ChunkMatches(hash, dir.value[target], m.chunks[i]) { return Failed(ChunkMismatch); }
          if stepsLeft == 0 { return Crashed; }
          dir, stepsLeft := Some(dir.value - {target}), stepsLeft - 1;
        }
        i := i + 1;
      }
      if exists n | n in dir.value :: !Removable(n) { return Failed(UnexpectedObject); }
      r := DropListed(order(dir.value));
    }

    /** `deletePartialArtifact`. */
    method DeletePartialArtifact(hash: Bytes -> Bytes, exportRequestId: nat, artifactId: nat, fingerprint: map<Name, FileRecord>, maximum: nat, order: Files -> seq<Name>)
        returns (r: Outcome)
      modifies this
      ensures (State(), r) == DeletePartial(hash, old(State()), exportRequestId, artifactId, fingerprint, maximum, order)
    {
      if dir.None? { return Finished; }
      var current := Inspect(hash, dir.value, exportRequestId, artifactId, maximum, order);
      if current.Err? { return Failed(current.error); }
      if current.value.Committed? || current.value.fingerprint != fingerprint { return Failed(PartialChanged); }
      r := DropListed(order(dir.value));
    }
  }
}
