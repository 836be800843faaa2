/**
  What archiving gets done (scripts/src/wal-archive.ts): which segments a turn
  acknowledges, and that a pass gets through its listing and counts it truly.
*/
module WalProgress {
  import opened Wrappers
  import opened RecoveryArtifact
  import opened WalNames
  import opened WalArchive
  import opened WalSafety
  import WalRecovery

  // ---------- One segment ----------

  /** The key under which a published pair may be replayed: the current one, or a retained one of an older generation. */
  predicate ReplayKey(c: Crypto, m: Manifest, keys: Keys, key: Bytes) {
    && (if m.keyId == keys.keyId
        then key == keys.key && (m.identity.Some? ==> m.identity.value == keys.registration)
        else
          && m.keyId in keys.historical && key == keys.historical[m.keyId]
          && (m.identity.Some? ==>
                && m.identity.value.instanceId == keys.registration.instanceId
                && m.identity.value.organizationId == keys.registration.organizationId))
    && (m.identity.Some? ==> |key| == 32 && c.hash(key) == m.identity.value.fingerprint)
  }

  /** The published pair is of this segment, and it and the staged bytes are what its manifest records. */
  ghost predicate Replays(c: Crypto, archive: Archive, walFile: string, source: Bytes, keys: Keys) {
    exists key: Bytes, plain: Bytes :: ReplaysUnder(c, archive, walFile, source, keys, key, plain)
  }

  predicate ReplaysUnder(c: Crypto, archive: Archive, walFile: string, source: Bytes, keys: Keys, key: Bytes, plain: Bytes) {
    && ManifestNameOf(walFile) in archive && archive[ManifestNameOf(walFile)].Text?
    && ArtifactNameOf(walFile) in archive && archive[ArtifactNameOf(walFile)].Blob?
    && var m := archive[ManifestNameOf(walFile)].manifest;
    && var artifact := archive[ArtifactNameOf(walFile)].bytes;
    && m.walFile == walFile && ReplayKey(c, m, keys, key)
    && OVERHEAD < |artifact| <= MAX_SAFE_INTEGER && |artifact| == m.artifactBytes && c.hash(artifact) == m.artifactSha256
    && Open(c, key, artifact) == Some(plain)
    && c.hash(source) == m.plaintextSha256 && |source| == m.plaintextBytes
    && c.hash(plain) == m.plaintextSha256 && |plain| == m.plaintextBytes
  }

  /** A published pair acknowledges its segment exactly then, and counts as of the current or an older generation. */
  lemma {:induction false} ReplayIff(c: Crypto, w: World, walFile: string, source: Bytes, keys: Keys, draw: Draw)
    requires ManifestNameOf(walFile) in w.archive && ArtifactNameOf(walFile) in w.archive && w.stepsLeft >= 1
    ensures var (w', outcome) := ArchiveOne(c, w, walFile, source, keys, draw);
            && (outcome.Acknowledged() <==> Replays(c, w.archive, walFile, source, keys))
            && (outcome.Acknowledged() ==>
                  && w' == World(w.staging - {walFile}, w.archive, w.stepsLeft - 1)
                  && w.archive[ManifestNameOf(walFile)].Text?
                  && outcome == if w.archive[ManifestNameOf(walFile)].manifest.keyId == keys.keyId then Replayed else PreviousGenerationReplayed)
            && (!outcome.Acknowledged() ==> w' == w)
  {
    hide Open;
    if w.archive[ManifestNameOf(walFile)].Text? {
      var m := w.archive[ManifestNameOf(walFile)].manifest;
      if m.keyId == keys.keyId { ReplayUnderIff(c, w, walFile, source, keys, keys.key); }
      else if m.keyId in keys.historical { ReplayUnderIff(c, w, walFile, source, keys, keys.historical[m.keyId]); }
    }
  }

  lemma {:induction false} ReplayUnderIff(c: Crypto, w: World, walFile: string, source: Bytes, keys: Keys, key: Bytes)
    requires ManifestNameOf(walFile) in w.archive && ArtifactNameOf(walFile) in w.archive
    requires w.archive[ManifestNameOf(walFile)].Text?
    requires var m := w.archive[ManifestNameOf(walFile)].manifest;
             if m.keyId == keys.keyId then key == keys.key else m.keyId in keys.historical && key == keys.historical[m.keyId]
    ensures var m := w.archive[ManifestNameOf(walFile)].manifest;
            Replays(c, w.archive, walFile, source, keys) <==>
              && m.walFile == walFile && ReplayKey(c, m, keys, key)
              && Validates(c, source, w.archive[ArtifactNameOf(walFile)], m, key)
  {
    hide Open;
    var m := w.archive[ManifestNameOf(walFile)].manifest;
    if m.walFile == walFile && ReplayKey(c, m, keys, key) && Validates(c, source, w.archive[ArtifactNameOf(walFile)], m, key) {
      var plain := Open(c, key, w.archive[ArtifactNameOf(walFile)].bytes).value;
      assert ReplaysUnder(c, w.archive, walFile, source, keys, key, plain);
    }
  }

  /** Nothing published yet, or an artifact that the current key opens to the staged bytes, and free temporary names. */
  predicate Unpublished(c: Crypto, archive: Archive, walFile: string, source: Bytes, keys: Keys, draw: Draw) {
    && ManifestNameOf(walFile) !in archive
    && source != [] && |source| + OVERHEAD <= MAX_SAFE_INTEGER
    && (ArtifactNameOf(walFile) in archive ==>
          && archive[ArtifactNameOf(walFile)].Blob?
          && OVERHEAD < |archive[ArtifactNameOf(walFile)].bytes| <= MAX_SAFE_INTEGER
          && Open(c, keys.key, archive[ArtifactNameOf(walFile)].bytes) == Some(source))
    && Unused(archive, walFile, draw)
  }

  ghost predicate Ready(c: Crypto, archive: Archive, walFile: string, source: Bytes, keys: Keys, draw: Draw) {
    source != [] && (Unpublished(c, archive, walFile, source, keys, draw) || Replays(c, archive, walFile, source, keys))
  }

  /** Nothing but the two files of the segment is new. */
  predicate AddsPair(before: Archive, after: Archive, walFile: string) {
    && (forall n | n in before :: n in after && after[n] == before[n])
    && (forall n | n in after && n !in before :: n == ArtifactNameOf(walFile) || n == ManifestNameOf(walFile))
  }

  function Due(archive: Archive, walFile: string, keys: Keys): Outcome {
    if ManifestNameOf(walFile) !in archive then Archived
    else if archive[ManifestNameOf(walFile)].Text? && archive[ManifestNameOf(walFile)].manifest.keyId == keys.keyId then Replayed
    else PreviousGenerationReplayed
  }

  lemma {:induction false} UnpublishedCompletes(c: Crypto, w: World, walFile: string, source: Bytes, keys: Keys, draw: Draw)
    requires WalName(walFile) && draw.Valid() && c.Valid() && walFile in w.staging && Registered(c, keys)
    requires Unpublished(c, w.archive, walFile, source, keys, draw) && w.stepsLeft >= 7
    ensures var (w', outcome) := ArchiveOne(c, w, walFile, source, keys, draw);
            && outcome == Archived && w'.staging == w.staging - {walFile}
            && AddsPair(w.archive, w'.archive, walFile) && w'.stepsLeft + 7 >= w.stepsLeft
  {
    hide WalName, IsTemporary, IsManifestName, IsArtifactName, TemporaryOf, Open, Seal, Publish;
    assert Resumable(c, w.archive, walFile, source, keys);
    hide Commit;
    ProvideResumable(c, w, walFile, source, keys, draw);
    ProvidesClean(c, w, walFile, source, keys, draw);
    var (w1, phase) := ProvideArtifact(c, w, walFile, source, keys, draw);
    if phase.Have? {
      CommitCompletes(c, w1, walFile, source, keys, draw, phase.artifact);
    }
  }

  lemma {:induction false} ProvidesClean(c: Crypto, w: World, walFile: string, source: Bytes, keys: Keys, draw: Draw)
    requires TemporaryOf(ArtifactNameOf(walFile), draw.artifactSpool) !in w.archive && w.stepsLeft >= 3
    ensures var (w', phase) := ProvideArtifact(c, w, walFile, source, keys, draw);
            && w'.staging == w.staging && w'.stepsLeft + 3 >= w.stepsLeft
            && (forall n | n in w.archive :: n in w'.archive && w'.archive[n] == w.archive[n])
            && (forall n | n in w'.archive && n !in w.archive :: n == ArtifactNameOf(walFile))
            && (phase.Stop? ==> !phase.outcome.Crashed?)
  {
    hide Open, Seal, ArtifactNameOf;
    PublishesClean(w, ArtifactNameOf(walFile), Blob(Seal(c, keys.key, draw.nonce, source)), draw.artifactSpool);
  }

  /** With three steps and a free temporary name a publication leaves no temporary behind. */
  lemma {:induction false} PublishesClean(w: World, target: string, content: Entry, spool: Spool)
    requires TemporaryOf(target, spool) !in w.archive && w.stepsLeft >= 3
    ensures var (w', r) := Publish(w, target, content, spool);
            && w'.staging == w.staging && w'.stepsLeft + 3 >= w.stepsLeft && !r.Died?
            && w'.archive == (if target in w.archive then w.archive else w.archive[target := content])
            && (r.Done? <==> target !in w.archive)
  {
    assert |TemporaryOf(target, spool)| > |target|;
  }

  lemma {:induction false} CommitCompletes(c: Crypto, w: World, walFile: string, source: Bytes, keys: Keys, draw: Draw, artifact: EncryptedArtifact)
    requires Registered(c, keys) && ManifestNameOf(walFile) !in w.archive && w.stepsLeft >= 4
    requires Resumable(c, w.archive, walFile, source, keys) && TemporaryOf(ManifestNameOf(walFile), draw.manifestSpool) !in w.archive
    requires ArtifactNameOf(walFile) in w.archive && w.archive[ArtifactNameOf(walFile)].Blob?
    requires var a := w.archive[ArtifactNameOf(walFile)].bytes;
             artifact == EncryptedArtifact(c.hash(a), |a|, c.hash(source), |source|)
    ensures var (w', outcome) := Commit(c, w, walFile, source, keys, draw, ManifestFor(walFile, keys, artifact));
            && outcome == Archived && w'.staging == w.staging - {walFile} && w'.stepsLeft + 4 >= w.stepsLeft
            && (forall n | n in w.archive :: n in w'.archive && w'.archive[n] == w.archive[n])
            && (forall n | n in w'.archive && n !in w.archive :: n == ManifestNameOf(walFile))
  {
    hide TemporaryOf, Open, Publish, ManifestNameOf, ArtifactNameOf;
    NamesApart(walFile, draw);
    var m := ManifestFor(walFile, keys, artifact);
    PublishesClean(w, ManifestNameOf(walFile), Text(m), draw.manifestSpool);
    var (w1, r) := Publish(w, ManifestNameOf(walFile), Text(m), draw.manifestSpool);
    assert Validates(c, source, w1.archive[ArtifactNameOf(walFile)], m, keys.key);
  }

  /** A segment that is ready is acknowledged, in the way the archive had it before. */
  lemma {:induction false} TurnCompletes(c: Crypto, w: World, walFile: string, source: Bytes, keys: Keys, draw: Draw)
    requires WalName(walFile) && draw.Valid() && c.Valid() && walFile in w.staging && Registered(c, keys)
    requires Ready(c, w.archive, walFile, source, keys, draw) && w.stepsLeft >= 7
    ensures var (w', outcome) := ArchiveOne(c, w, walFile, source, keys, draw);
            && outcome == Due(w.archive, walFile, keys) && w'.staging == w.staging - {walFile}
            && AddsPair(w.archive, w'.archive, walFile) && w'.stepsLeft + 7 >= w.stepsLeft
  {
    hide ArchiveOne, WalName, Open, Unused;
    if Unpublished(c, w.archive, walFile, source, keys, draw) {
      UnpublishedCompletes(c, w, walFile, source, keys, draw);
    } else {
      ReplayIff(c, w, walFile, source, keys, draw);
    }
  }

  // ---------- A pass ----------

  /** The segments of a listing: staged, and not what the hook is still copying. */
  predicate Segment(w: World, n: string) {
    n in w.staging && !IsHookTemporary(n)
  }

  lemma {:induction false} OtherNames(a: string, b: string)
    requires a != b
    ensures ManifestNameOf(a) != ManifestNameOf(b) && ArtifactNameOf(a) != ArtifactNameOf(b)
    ensures ManifestNameOf(a) != ArtifactNameOf(b)
  {
    assert ManifestNameOf(a)[..|ManifestNameOf(a)| - 14] == a && ManifestNameOf(b)[..|ManifestNameOf(b)| - 14] == b;
    assert ArtifactNameOf(a)[..|ArtifactNameOf(a)| - 10] == a && ArtifactNameOf(b)[..|ArtifactNameOf(b)| - 10] == b;
    assert ManifestNameOf(a)[|ManifestNameOf(a)| - 1] == 'n' && ArtifactNameOf(b)[|ArtifactNameOf(b)| - 1] == 'm';
  }

  /** The turn of one segment leaves the readiness of every other as it was. */
  lemma {:induction false} ReadyStays(c: Crypto, before: Archive, after: Archive, walFile: string, other: string, source: Bytes, keys: Keys, draw: Draw)
    requires WalName(walFile) && WalName(other) && other != walFile && draw.Valid() && AddsPair(before, after, walFile)
    ensures Ready(c, before, other, source, keys, draw) ==> Ready(c, after, other, source, keys, draw)
    ensures Due(after, other, keys) == Due(before, other, keys)
  {
    hide ManifestNameOf, ArtifactNameOf, WalName, IsTemporary, TemporaryOf, Open, IsManifestName, IsArtifactName;
    OtherNames(other, walFile);
    OtherNames(walFile, other);
    NotTemporary(walFile);
    PublishedNames(other);
    TemporaryRecognised(ArtifactNameOf(other), draw.artifactSpool);
    TemporaryRecognised(ManifestNameOf(other), draw.manifestSpool);
    if Replays(c, before, other, source, keys) {
      var key, plain :| ReplaysUnder(c, before, other, source, keys, key, plain);
      assert ReplaysUnder(c, after, other, source, keys, key, plain);
    }
  }

  predicate Listing(names: seq<string>) {
    forall n | n in names :: WalName(n) || IsHookTemporary(n)
  }

  predicate Once(names: seq<string>) {
    forall i, j | 0 <= i < j < |names| :: names[i] != names[j]
  }

  /** A segment is acknowledged as archived exactly if it had no manifest, else as of its manifest's generation. */
  lemma {:induction false} AcknowledgedAsDue(c: Crypto, w: World, walFile: string, source: Bytes, keys: Keys, draw: Draw)
    requires WalName(walFile) && draw.Valid() && c.Valid() && walFile in w.staging
    ensures var (w', outcome) := ArchiveOne(c, w, walFile, source, keys, draw);
            && (outcome.Acknowledged() ==> outcome == Due(w.archive, walFile, keys))
            && (outcome.Acknowledged() && ManifestNameOf(walFile) in w.archive ==> w.archive[ManifestNameOf(walFile)].Text?)
            && w'.staging == (if outcome.Acknowledged() then w.staging - {walFile} else w.staging)
            && forall other | WalName(other) && other != walFile :: Due(w'.archive, other, keys) == Due(w.archive, other, keys)
  {
    hide ArchiveOne, WalName, ManifestNameOf, ArtifactNameOf, Held, Due;
    ArchiveOneConserves(c, w, walFile, source, keys, draw);
    OutcomeIsDue(c, w, walFile, source, keys, draw);
    var w' := ArchiveOne(c, w, walFile, source, keys, draw).0;
    forall other | WalName(other) && other != walFile ensures Due(w'.archive, other, keys) == Due(w.archive, other, keys) {
      DueStays(w.archive, w'.archive, walFile, other, keys);
    }
  }

  lemma {:induction false} OutcomeIsDue(c: Crypto, w: World, walFile: string, source: Bytes, keys: Keys, draw: Draw)
    ensures var (_, outcome) := ArchiveOne(c, w, walFile, source, keys, draw);
            && (outcome.Acknowledged() ==> outcome == Due(w.archive, walFile, keys))
            && (outcome.Acknowledged() && ManifestNameOf(walFile) in w.archive ==> w.archive[ManifestNameOf(walFile)].Text?)
  {
    hide ManifestNameOf, ArtifactNameOf, Publish, Validates, Open, Seal;
  }

  lemma {:induction false} DueStays(before: Archive, after: Archive, walFile: string, other: string, keys: Keys)
    requires WalName(other) && other != walFile && Preserves(before, after) && AddsOnly(before, after, walFile)
    ensures Due(after, other, keys) == Due(before, other, keys)
  {
    hide WalName, IsTemporary, ManifestNameOf, ArtifactNameOf;
    NotTemporary(other);
    OtherNames(other, walFile);
  }

  // What a pass counts.

  function ArchivedNames(w: World, names: seq<string>): set<string> {
    set n | n in names && Segment(w, n) && ManifestNameOf(n) !in w.archive
  }

  function ReplayedNames(w: World, names: seq<string>): set<string> {
    set n | n in names && Segment(w, n) && ManifestNameOf(n) in w.archive
  }

  /** Replayed from a manifest of another key. */
  function OlderNames(w: World, names: seq<string>, keys: Keys): set<string> {
    set n | n in names && Segment(w, n) && ManifestNameOf(n) in w.archive
            && !(w.archive[ManifestNameOf(n)].Text? && w.archive[ManifestNameOf(n)].manifest.keyId == keys.keyId)
  }

  function Counted(w: World, names: seq<string>, keys: Keys): Tally {
    Tally(|ArchivedNames(w, names)|, |ReplayedNames(w, names)|, |OlderNames(w, names, keys)|)
  }

  function Sum(a: Tally, b: Tally): Tally {
    Tally(a.archived + b.archived, a.replayed + b.replayed, a.previous + b.previous)
  }

  lemma {:induction false} SkippedCount(w: World, names: seq<string>, keys: Keys)
    requires names != [] && !Segment(w, names[0])
    ensures Counted(w, names, keys) == Counted(w, names[1..], keys)
  {
    assert forall x :: x in names <==> x == names[0] || x in names[1..];
    assert ArchivedNames(w, names) == ArchivedNames(w, names[1..]);
    assert ReplayedNames(w, names) == ReplayedNames(w, names[1..]);
    assert OlderNames(w, names, keys) == OlderNames(w, names[1..], keys);
  }

  /** The head of the listing has been acknowledged, and nothing has changed for the others. */
  predicate AfterTurn(w: World, w1: World, names: seq<string>, keys: Keys) {
    && names != [] && Once(names) && Listing(names) && Segment(w, names[0]) && w1.staging == w.staging - {names[0]}
    && forall n | n in names[1..] && WalName(n) :: Due(w1.archive, n, keys) == Due(w.archive, n, keys)
  }

  lemma {:induction false} ArchivedNamesTurn(w: World, w1: World, names: seq<string>, keys: Keys)
    requires AfterTurn(w, w1, names, keys)
    ensures ArchivedNames(w, names) == (if Due(w.archive, names[0], keys).Archived? then {names[0]} else {}) + ArchivedNames(w1, names[1..])
    ensures names[0] !in ArchivedNames(w1, names[1..])
  {
    hide WalName, IsHookTemporary, ManifestNameOf;
    var n, rest := names[0], names[1..];
    assert forall x :: x in names <==> x == n || x in rest;
    forall x | x in rest && Segment(w, x) ensures Due(w1.archive, x, keys) == Due(w.archive, x, keys) {
      assert x in names;
    }
  }

  lemma {:induction false} ReplayedNamesTurn(w: World, w1: World, names: seq<string>, keys: Keys)
    requires AfterTurn(w, w1, names, keys)
    ensures ReplayedNames(w, names) == (if Due(w.archive, names[0], keys).Acknowledged() && !Due(w.archive, names[0], keys).Archived? then {names[0]} else {}) + ReplayedNames(w1, names[1..])
    ensures names[0] !in ReplayedNames(w1, names[1..])
  {
    hide WalName, IsHookTemporary, ManifestNameOf;
    var n, rest := names[0], names[1..];
    assert forall x :: x in names <==> x == n || x in rest;
    forall x | x in rest && Segment(w, x) ensures Due(w1.archive, x, keys) == Due(w.archive, x, keys) {
      assert x in names;
    }
  }

  lemma {:induction false} OlderNamesTurn(w: World, w1: World, names: seq<string>, keys: Keys)
    requires AfterTurn(w, w1, names, keys)
    ensures OlderNames(w, names, keys) == (if Due(w.archive, names[0], keys).PreviousGenerationReplayed? then {names[0]} else {}) + OlderNames(w1, names[1..], keys)
    ensures names[0] !in OlderNames(w1, names[1..], keys)
  {
    hide WalName, IsHookTemporary, ManifestNameOf;
    var n, rest := names[0], names[1..];
    assert forall x :: x in names <==> x == n || x in rest;
    forall x | x in rest && Segment(w, x) ensures Due(w1.archive, x, keys) == Due(w.archive, x, keys) {
      assert x in names;
    }
  }

  lemma {:induction false} TurnCounts(w: World, w1: World, names: seq<string>, keys: Keys)
    requires names != [] && AfterTurn(w, w1, names, keys)
    ensures Counted(w, names, keys) == Sum(Tally(0, 0, 0).Count(Due(w.archive, names[0], keys)), Counted(w1, names[1..], keys))
  {
    hide AfterTurn, ArchivedNames, ReplayedNames, OlderNames, Due, Tally.Count, Outcome.Acknowledged;
    var due := Due(w.archive, names[0], keys);
    ArchivedNamesTurn(w, w1, names, keys);
    ReplayedNamesTurn(w, w1, names, keys);
    OlderNamesTurn(w, w1, names, keys);
    OneMore(names[0], ArchivedNames(w1, names[1..]), due.Archived?);
    OneMore(names[0], ReplayedNames(w1, names[1..]), due.Acknowledged() && !due.Archived?);
    OneMore(names[0], OlderNames(w1, names[1..], keys), due.PreviousGenerationReplayed?);
    CountedOnce(due);
  }

  lemma {:induction false} CountedOnce(outcome: Outcome)
    ensures Tally(0, 0, 0).Count(outcome) == Tally(if outcome.Archived? then 1 else 0, if outcome.Acknowledged() && !outcome.Archived? then 1 else 0,
                                                   if outcome.PreviousGenerationReplayed? then 1 else 0)
  {
  }

  lemma {:induction false} OneMore(n: string, others: set<string>, counted: bool)
    requires n !in others
    ensures |(if counted then {n} else {}) + others| == (if counted then 1 else 0) + |others|
  {
    if !counted { assert {} + others == others; }
  }

  lemma {:induction false} CountThenSum(a: Tally, outcome: Outcome, b: Tally)
    ensures Sum(a.Count(outcome), b) == Sum(a, Sum(Tally(0, 0, 0).Count(outcome), b))
  {
  }

  /** A pass that stops at nothing has been through its whole listing, and its counters say what it met there. */
  lemma {:induction false} PassGoesThrough(c: Crypto, w: World, names: seq<string>, keys: Keys, draws: string -> Draw, tally: Tally)
    requires c.Valid() && Listing(names) && Once(names) && forall n :: draws(n).Valid()
    ensures var (w', counted, stopped) := ArchiveFrom(c, w, names, keys, draws, tally);
            stopped.None? ==>
              && (forall n :: n in w'.staging <==> n in w.staging && (n !in names || IsHookTemporary(n)))
              && (forall n | n in w'.staging :: w'.staging[n] == w.staging[n])
              && counted == Sum(tally, Counted(w, names, keys))
    decreases |names|
  {
    hide WalName, IsHookTemporary, ArchiveOne, Counted, Due, Tally.Count, Sum;
    if names == [] {
      NothingCounted(w, keys, tally);
    } else {
      var n, rest := names[0], names[1..];
      assert forall x :: x in names <==> x == n || x in rest;
      assert Listing(rest) && Once(rest);
      if !Segment(w, n) {
        SkippedCount(w, names, keys);
        PassGoesThrough(c, w, rest, keys, draws, tally);
      } else if w.staging[n] != [] {
        AcknowledgedAsDue(c, w, n, w.staging[n], keys, draws(n));
        var (w1, outcome) := ArchiveOne(c, w, n, w.staging[n], keys, draws(n));
        if outcome.Acknowledged() {
          PassGoesThrough(c, w1, rest, keys, draws, tally.Count(outcome));
          RestDue(w, w1, n, rest, keys);
          TurnCounts(w, w1, names, keys);
          CountThenSum(tally, outcome, Counted(w1, rest, keys));
        }
      }
    }
  }

  lemma {:induction false} RestDue(w: World, w1: World, n: string, rest: seq<string>, keys: Keys)
    requires Listing(rest) && n !in rest
    requires forall other | WalName(other) && other != n :: Due(w1.archive, other, keys) == Due(w.archive, other, keys)
    ensures forall x | x in rest && WalName(x) :: Due(w1.archive, x, keys) == Due(w.archive, x, keys)
  {
  }

  lemma {:induction false} NothingCounted(w: World, keys: Keys, tally: Tally)
    ensures Sum(tally, Counted(w, [], keys)) == tally
  {
    assert ArchivedNames(w, []) == {} && ReplayedNames(w, []) == {} && OlderNames(w, [], keys) == {};
  }

  /** With every segment ready and steps for each, a pass stops at nothing. */
  lemma {:induction false} ReadyPassSucceeds(c: Crypto, w: World, names: seq<string>, keys: Keys, draws: string -> Draw, tally: Tally)
    requires c.Valid() && Registered(c, keys) && Listing(names) && Once(names) && forall n :: draws(n).Valid()
    requires forall n | n in names && Segment(w, n) :: Ready(c, w.archive, n, w.staging[n], keys, draws(n))
    requires w.stepsLeft >= 7 * |names|
    ensures ArchiveFrom(c, w, names, keys, draws, tally).2 == None
    decreases |names|
  {
    hide WalName, IsHookTemporary, ArchiveOne, Due, Ready, AddsPair, Tally.Count;
    if names != [] {
      var n, rest := names[0], names[1..];
      assert forall x :: x in names <==> x == n || x in rest;
      assert Listing(rest) && Once(rest);
      if Segment(w, n) {
        assert n in names;
        ReadyNonempty(c, w.archive, n, w.staging[n], keys, draws(n));
        TurnCompletes(c, w, n, w.staging[n], keys, draws(n));
        DueAcknowledges(w.archive, n, keys);
        var (w1, outcome) := ArchiveOne(c, w, n, w.staging[n], keys, draws(n));
        forall x | x in rest && Segment(w1, x) ensures Ready(c, w1.archive, x, w1.staging[x], keys, draws(x)) {
          assert x in names && x != n && Segment(w, x);
          ReadyStays(c, w.archive, w1.archive, n, x, w.staging[x], keys, draws(x));
        }
        ReadyPassSucceeds(c, w1, rest, keys, draws, tally.Count(outcome));
      } else {
        ReadyPassSucceeds(c, w, rest, keys, draws, tally);
      }
    }
  }

  lemma {:induction false} ReadyNonempty(c: Crypto, archive: Archive, walFile: string, source: Bytes, keys: Keys, draw: Draw)
    requires Ready(c, archive, walFile, source, keys, draw)
    ensures source != []
  {
  }

  lemma {:induction false} DueAcknowledges(archive: Archive, walFile: string, keys: Keys)
    ensures Due(archive, walFile, keys).Acknowledged()
  {
  }

  // ---------- `archiveWalOnce` ----------

  /**
    A pass that reports success has archived its whole listing: every staged segment is
    gone from staging and held, everything else is still staged, and the counters are
    the numbers of segments that had no manifest, that had one, and that had one of
    another key.
  */
  lemma {:induction false} SuccessIsWhole(c: Crypto, w: World, listing: seq<string>, keys: Keys, draws: string -> Draw)
    requires c.Valid() && CollisionFree(c) && Once(listing) && (forall n :: draws(n).Valid())
    requires WalRecovery.SizesFit(w.staging)
    ensures var (w', tally, stopped) := ArchiveWalOnce(c, w, listing, keys, draws);
            stopped.None? ==>
              && Listing(listing) && |keys.key| == 32 && keys.registration.fingerprint == c.hash(keys.key)
              && (forall n :: n in w'.staging <==> n in w.staging && (n !in listing || IsHookTemporary(n)))
              && (forall n | n in w'.staging :: w'.staging[n] == w.staging[n])
              && (forall n | n in listing && Segment(w, n) :: Held(c, w'.archive, n, w.staging[n]))
              && tally == Tally(|ArchivedNames(w, listing)|, |ReplayedNames(w, listing)|, |OlderNames(w, listing, keys)|)
  {
    var (w', tally, stopped) := ArchiveWalOnce(c, w, listing, keys, draws);
    if stopped.None? {
      assert Listing(listing) && Registered(c, keys);
      hide WalName, IsHookTemporary, ArchiveFrom, ArchivedNames, ReplayedNames, OlderNames, Held;
      PassGoesThrough(c, w, listing, keys, draws, Tally(0, 0, 0));
      assert forall i | 0 <= i < |listing| :: listing[i] in listing;
      WalRecovery.ArchiveFromSafe(c, w, listing, keys, draws, Tally(0, 0, 0));
    }
  }

  /**
    With enough steps, fresh temporary names, and every segment new, interrupted, or
    published under the current or a retained key, a pass over an acceptable listing
    succeeds.
  */
  lemma {:induction false} ReadySucceeds(c: Crypto, w: World, listing: seq<string>, keys: Keys, draws: string -> Draw)
    requires c.Valid() && |keys.key| == 32 && keys.registration.fingerprint == c.hash(keys.key) && Listing(listing) && Once(listing) && (forall n :: draws(n).Valid())
    requires forall n | n in listing && Segment(w, n) :: Ready(c, w.archive, n, w.staging[n], keys, draws(n))
    requires w.stepsLeft >= 7 * |listing|
    ensures ArchiveWalOnce(c, w, listing, keys, draws).2 == None
  {
    hide WalName, IsHookTemporary, ArchiveFrom, Ready;
    ReadyPassSucceeds(c, w, listing, keys, draws, Tally(0, 0, 0));
  }

  /** A new segment is ready. */
  lemma {:induction false} NewIsReady(c: Crypto, archive: Archive, walFile: string, source: Bytes, keys: Keys, draw: Draw)
    requires source != [] && |source| + OVERHEAD <= MAX_SAFE_INTEGER && Unused(archive, walFile, draw)
    requires ManifestNameOf(walFile) !in archive && ArtifactNameOf(walFile) !in archive
    ensures Ready(c, archive, walFile, source, keys, draw)
  {
  }

  /** So is one whose pair an older generation published, as long as its key is retained. */
  lemma {:induction false} OlderIsReady(c: Crypto, archive: Archive, walFile: string, source: Bytes, keys: Keys, draw: Draw, key: Bytes)
    requires source != [] && HealthyPair(c, archive, walFile, key) && HeldUnder(c, archive, walFile, source, key)
    requires var m := archive[ManifestNameOf(walFile)].manifest;
             && m.keyId != keys.keyId && m.keyId in keys.historical && keys.historical[m.keyId] == key
             && m.identity.value.instanceId == keys.registration.instanceId
             && m.identity.value.organizationId == keys.registration.organizationId
    ensures Ready(c, archive, walFile, source, keys, draw)
  {
    hide Open;
    assert ReplaysUnder(c, archive, walFile, source, keys, key, source);
  }
}
