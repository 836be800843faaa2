/**
  Recovery of an encrypted WAL archive and the end-to-end guarantee
  (scripts/src/wal-archive.ts: `materializeWalArchive`).
*/
module WalRecovery {
  import opened Wrappers
  import opened RecoveryArtifact
  import opened WalNames
  import opened WalArchive
  import opened WalSafety

  // ---------- Whole runs of the archiver ----------

  datatype Event =
    | Stage(name: string, bytes: Bytes)
    | ArchivePass(listing: seq<string>, keys: Keys, draws: string -> Draw, steps: nat)

  /** Besides the directories: what was acknowledged, and the key each manifest was written with. */
  datatype History = History(
    staging: map<string, Bytes>, archive: Archive, acknowledged: map<string, Bytes>, keyFor: map<string, Bytes>)

  const EMPTY := History(map[], map[], map[], map[])

  predicate SizesFit(staging: map<string, Bytes>) {
    forall n | n in staging :: |staging[n]| + OVERHEAD <= MAX_SAFE_INTEGER
  }

  ghost predicate Possible(e: Event) {
    match e
    case Stage(_, bytes) => |bytes| + OVERHEAD <= MAX_SAFE_INTEGER
    case ArchivePass(_, _, draws, _) => forall n :: draws(n).Valid()
  }

  /** Every manifest a pass adds was written with the pass's key. */
  function NewKeys(before: Archive, after: Archive, key: Bytes): map<string, Bytes> {
    map n | n in after && IsManifestName(n) && n !in before :: Stem(n, MANIFEST_SUFFIX) := key
  }

  function After(c: Crypto, s: History, e: Event): History {
    match e
    case Stage(name, bytes) => s.(staging := s.staging[name := bytes])
    case ArchivePass(listing, keys, draws, steps) =>
      var w := ArchiveWalOnce(c, World(s.staging, s.archive, steps), listing, keys, draws).0;
      History(w.staging, w.archive,
              s.acknowledged + map n | n in s.staging && n !in w.staging :: s.staging[n],
              s.keyFor + NewKeys(s.archive, w.archive, keys.key))
  }

  function Play(c: Crypto, s: History, events: seq<Event>): History
    decreases |events|
  {
    if events == [] then s else Play(c, After(c, s, events[0]), events[1..])
  }

  ghost predicate Inv(c: Crypto, s: History) {
    && SizesFit(s.staging)
    && (forall n | n in s.acknowledged :: WalName(n) && Held(c, s.archive, n, s.acknowledged[n]))
    && (forall n | n in s.archive && !IsTemporary(n) :: IsManifestName(n) || IsArtifactName(n))
    && (forall w | WalName(w) && ManifestNameOf(w) in s.archive ::
          w in s.keyFor && HealthyPair(c, s.archive, w, s.keyFor[w]))
  }

  lemma {:induction false} HeldStays(c: Crypto, before: Archive, after: Archive, walFile: string, plain: Bytes)
    requires WalName(walFile) && Preserves(before, after) && Held(c, before, walFile, plain)
    ensures Held(c, after, walFile, plain)
  {
    NotTemporary(walFile);
    var key :| HeldUnder(c, before, walFile, plain, key);
    assert HeldUnder(c, after, walFile, plain, key);
  }

  lemma {:induction false} HealthyStays(c: Crypto, before: Archive, after: Archive, walFile: string, key: Bytes)
    requires WalName(walFile) && Preserves(before, after) && HealthyPair(c, before, walFile, key)
    ensures HealthyPair(c, after, walFile, key)
  {
    NotTemporary(walFile);
  }

  /** What a pass may do to the directories, whatever its budget and however it ends. */
  ghost predicate PassSafe(c: Crypto, w: World, w': World, key: Bytes) {
    && Preserves(w.archive, w'.archive)
    && (forall n | n in w'.archive && n !in w.archive && !IsTemporary(n) :: IsManifestName(n) || IsArtifactName(n))
    && (forall n | n in w'.staging :: n in w.staging && w'.staging[n] == w.staging[n])
    && (forall n | n in w.staging && n !in w'.staging :: WalName(n) && Held(c, w'.archive, n, w.staging[n]))
    && (forall walFile | WalName(walFile) && ManifestNameOf(walFile) in w'.archive && ManifestNameOf(walFile) !in w.archive ::
          HealthyPair(c, w'.archive, walFile, key))
  }

  lemma {:induction false} PassSafeTransitive(c: Crypto, w: World, w1: World, w2: World, key: Bytes)
    requires PassSafe(c, w, w1, key) && PassSafe(c, w1, w2, key)
    ensures PassSafe(c, w, w2, key)
  {
    forall n | n in w.staging && n !in w2.staging ensures WalName(n) && Held(c, w2.archive, n, w.staging[n]) {
      if n !in w1.staging { HeldStays(c, w1.archive, w2.archive, n, w.staging[n]); }
    }
    forall walFile | WalName(walFile) && ManifestNameOf(walFile) in w2.archive && ManifestNameOf(walFile) !in w.archive
      ensures HealthyPair(c, w2.archive, walFile, key)
    {
      if ManifestNameOf(walFile) in w1.archive { HealthyStays(c, w1.archive, w2.archive, walFile, key); }
    }
  }

  lemma {:induction false} OneSafe(c: Crypto, w: World, walFile: string, keys: Keys, draw: Draw)
    requires WalName(walFile) && walFile in w.staging && w.staging[walFile] != []
    requires |w.staging[walFile]| + OVERHEAD <= MAX_SAFE_INTEGER
    requires draw.Valid() && c.Valid() && CollisionFree(c) && Registered(c, keys)
    ensures PassSafe(c, w, ArchiveOne(c, w, walFile, w.staging[walFile], keys, draw).0, keys.key)
  {
    var source := w.staging[walFile];
    ArchiveOneConserves(c, w, walFile, source, keys, draw);
    ArchiveOneHealthy(c, w, walFile, source, keys, draw);
    PublishedNames(walFile);
    var (w', _) := ArchiveOne(c, w, walFile, source, keys, draw);
    forall other | WalName(other) && ManifestNameOf(other) in w'.archive && ManifestNameOf(other) !in w.archive
      ensures other == walFile
    {
      NotTemporary(other);
      PublishedNames(other);
      ArchiveNamesPartition(ManifestNameOf(other));
    }
  }

  lemma {:induction false} ArchiveFromSafe(c: Crypto, w: World, names: seq<string>, keys: Keys, draws: string -> Draw, tally: Tally)
    requires c.Valid() && CollisionFree(c) && Registered(c, keys) && SizesFit(w.staging)
    requires forall n :: draws(n).Valid()
    requires forall i | 0 <= i < |names| :: WalName(names[i]) || IsHookTemporary(names[i])
    ensures PassSafe(c, w, ArchiveFrom(c, w, names, keys, draws, tally).0, keys.key)
    decreases |names|
  {
    if names != [] {
      if IsHookTemporary(names[0]) || names[0] !in w.staging {
        ArchiveFromSafe(c, w, names[1..], keys, draws, tally);
      } else if w.staging[names[0]] != [] {
        OneSafe(c, w, names[0], keys, draws(names[0]));
        var (w1, outcome) := ArchiveOne(c, w, names[0], w.staging[names[0]], keys, draws(names[0]));
        if outcome.Acknowledged() {
          ArchiveFromSafe(c, w1, names[1..], keys, draws, tally.Count(outcome));
          PassSafeTransitive(c, w, w1, ArchiveFrom(c, w1, names[1..], keys, draws, tally.Count(outcome)).0, keys.key);
        }
      }
    }
  }

  lemma {:induction false} PassIsSafe(c: Crypto, s: History, e: Event)
    requires c.Valid() && CollisionFree(c) && SizesFit(s.staging) && e.ArchivePass? && Possible(e)
    ensures var w := World(s.staging, s.archive, e.steps);
            PassSafe(c, w, ArchiveWalOnce(c, w, e.listing, e.keys, e.draws).0, e.keys.key)
  {
    var w := World(s.staging, s.archive, e.steps);
    if Registered(c, e.keys) && forall n | n in e.listing :: WalName(n) || IsHookTemporary(n) {
      assert forall i | 0 <= i < |e.listing| :: e.listing[i] in e.listing;
      ArchiveFromSafe(c, w, e.listing, e.keys, e.draws, Tally(0, 0, 0));
    }
  }

  lemma {:induction false} AcknowledgedStayHeld(c: Crypto, s: History, w': World, key: Bytes, steps: nat)
    requires PassSafe(c, World(s.staging, s.archive, steps), w', key)
    requires forall n | n in s.acknowledged :: WalName(n) && Held(c, s.archive, n, s.acknowledged[n])
    ensures var acknowledged := s.acknowledged + map n | n in s.staging && n !in w'.staging :: s.staging[n];
            forall n | n in acknowledged :: WalName(n) && Held(c, w'.archive, n, acknowledged[n])
  {
    hide WalName, IsTemporary, IsManifestName, IsArtifactName, Held, Preserves;
    var acknowledged := s.acknowledged + map n | n in s.staging && n !in w'.staging :: s.staging[n];
    forall n | n in acknowledged ensures WalName(n) && Held(c, w'.archive, n, acknowledged[n]) {
      if !(n in s.staging && n !in w'.staging) { HeldStays(c, s.archive, w'.archive, n, s.acknowledged[n]); }
    }
  }

  lemma {:induction false} PairsStayHealthy(c: Crypto, s: History, w': World, key: Bytes, steps: nat)
    requires PassSafe(c, World(s.staging, s.archive, steps), w', key)
    requires forall w | WalName(w) && ManifestNameOf(w) in s.archive ::
          w in s.keyFor && HealthyPair(c, s.archive, w, s.keyFor[w])
    ensures var keyFor := s.keyFor + NewKeys(s.archive, w'.archive, key);
            forall w | WalName(w) && ManifestNameOf(w) in w'.archive :: w in keyFor && HealthyPair(c, w'.archive, w, keyFor[w])
  {
    var keyFor := s.keyFor + NewKeys(s.archive, w'.archive, key);
    forall walFile | WalName(walFile) && ManifestNameOf(walFile) in w'.archive
      ensures walFile in keyFor && HealthyPair(c, w'.archive, walFile, keyFor[walFile])
    {
      NewKey(s.archive, w'.archive, key, walFile);
      if ManifestNameOf(walFile) in s.archive {
        HealthyStays(c, s.archive, w'.archive, walFile, s.keyFor[walFile]);
      }
    }
  }

  lemma {:induction false} NewKey(before: Archive, after: Archive, key: Bytes, walFile: string)
    requires WalName(walFile) && ManifestNameOf(walFile) in after
    ensures ManifestNameOf(walFile) in before <==> walFile !in NewKeys(before, after, key)
    ensures walFile in NewKeys(before, after, key) ==> NewKeys(before, after, key)[walFile] == key
  {
    PublishedNames(walFile);
  }

  lemma {:induction false} PassKeepsInv(c: Crypto, s: History, e: Event)
    requires c.Valid() && CollisionFree(c) && Inv(c, s) && e.ArchivePass? && Possible(e)
    ensures Inv(c, After(c, s, e))
    ensures Preserves(s.archive, After(c, s, e).archive)
  {
    var w := World(s.staging, s.archive, e.steps);
    var w' := ArchiveWalOnce(c, w, e.listing, e.keys, e.draws).0;
    PassIsSafe(c, s, e);
    AcknowledgedStayHeld(c, s, w', e.keys.key, e.steps);
    PairsStayHealthy(c, s, w', e.keys.key, e.steps);
  }

  /**
    WAL conservation over every run: with staging, key rotation, crashes at any step
    and retries in any order, each acknowledged segment is held, byte for byte, and
    every manifest makes a healthy pair under the key it was written with.
  */
  lemma {:induction false} EveryRunConserves(c: Crypto, s: History, events: seq<Event>)
    requires c.Valid() && CollisionFree(c) && Inv(c, s) && forall e | e in events :: Possible(e)
    ensures Inv(c, Play(c, s, events))
    ensures Preserves(s.archive, Play(c, s, events).archive)
    decreases |events|
  {
    if events != [] {
      assert events[0] in events;
      if events[0].ArchivePass? { PassKeepsInv(c, s, events[0]); }
      EveryRunConserves(c, After(c, s, events[0]), events[1..]);
    }
  }

  // ---------- Recovery ----------

  datatype Keyring = Keyring(instanceId: nat, organizationId: nat, keys: map<nat, Bytes>)

  datatype Request = Request(
    key: Bytes, keyId: nat, keyring: Option<Keyring>, expectedFingerprint: Option<Bytes>,
    expectedInstance: Option<nat>, expectedOrganization: Option<nat>)
  {
    function Select(m: Manifest): Option<Bytes> {
      match keyring
      case Some(ring) => if m.keyId in ring.keys then Some(ring.keys[m.keyId]) else None
      case None => if m.keyId == keyId then Some(key) else None
    }

    function Instance(): Option<nat> {
      if expectedInstance.Some? || keyring.None? then expectedInstance else Some(keyring.value.instanceId)
    }

    function Organization(): Option<nat> {
      if expectedOrganization.Some? || keyring.None? then expectedOrganization else Some(keyring.value.organizationId)
    }
  }

  datatype RecoveryRefusal =
    | NonFileEntry
    | ArchiveEmpty
    | PairsIncomplete
    | KeyBytesMismatch
    | UnreadableManifest
    | NoKey
    | WrongKey
    | DifferentInstance
    | PairIdentity
    | InvalidArtifact
    | WrongPlaintext

  /** A manifest has its artifact beside it, and an artifact its manifest. */
  predicate Accompanied(archive: Archive, n: string) {
    && (IsManifestName(n) ==> ArtifactNameOf(Stem(n, MANIFEST_SUFFIX)) in archive)
    && (IsArtifactName(n) ==> ManifestNameOf(Stem(n, ARTIFACT_SUFFIX)) in archive)
  }

  /** Every entry is a file; those that are not temporaries are exact artifact and manifest pairs, at least one. */
  ghost predicate ExactPairs(archive: Archive) {
    && (forall n | n in archive :: !archive[n].NotAFile?)
    && (forall n | n in archive && !IsTemporary(n) :: IsManifestName(n) || IsArtifactName(n))
    && (exists n :: n in archive && IsManifestName(n))
    && (forall n | n in archive :: Accompanied(archive, n))
  }

  predicate Readable(archive: Archive, names: seq<string>) {
    forall n | n in names :: n in archive && archive[n].Text?
  }

  predicate SameInstance(a: Manifest, b: Manifest) {
    a.identity.Some? && b.identity.Some? ==>
      a.identity.value.instanceId == b.identity.value.instanceId
      && a.identity.value.organizationId == b.identity.value.organizationId
  }

  predicate Expected(r: Request, m: Manifest) {
    m.identity.Some? ==>
      && (r.Instance().Some? ==> m.identity.value.instanceId == r.Instance().value)
      && (r.Organization().Some? ==> m.identity.value.organizationId == r.Organization().value)
  }

  /** A key is at hand for every manifest, is the key its fingerprint names, and all manifests are of one instance. */
  predicate KeysHeld(c: Crypto, archive: Archive, names: seq<string>, r: Request)
    requires Readable(archive, names)
  {
    && (r.expectedFingerprint.Some? ==> |r.key| == KEY_BYTES && c.hash(r.key) == r.expectedFingerprint.value)
    && (forall n | n in names ::
          && r.Select(archive[n].manifest).Some?
          && KeyMatches(c, archive[n].manifest, r.Select(archive[n].manifest).value)
          && Expected(r, archive[n].manifest))
    && (forall a, b | a in names && b in names :: SameInstance(archive[a].manifest, archive[b].manifest))
  }

  /** The artifact beside a manifest is the recorded one and opens to the recorded plaintext. */
  predicate PairSound(c: Crypto, archive: Archive, n: string, r: Request)
    requires n in archive && archive[n].Text? && r.Select(archive[n].manifest).Some?
  {
    var m := archive[n].manifest;
    && n == ManifestNameOf(m.walFile)
    && ArtifactNameOf(m.walFile) in archive && archive[ArtifactNameOf(m.walFile)].Blob?
    && var artifact := archive[ArtifactNameOf(m.walFile)].bytes;
    && Verifies(c, artifact, m.artifactSha256, m.artifactBytes)
    && var plain := Open(c, r.Select(m).value, artifact);
    && plain.Some? && c.hash(plain.value) == m.plaintextSha256 && |plain.value| == m.plaintextBytes
  }

  ghost predicate Restorable(c: Crypto, archive: Archive, names: seq<string>, r: Request) {
    && ExactPairs(archive)
    && Readable(archive, names)
    && KeysHeld(c, archive, names, r)
    && forall n | n in names :: PairSound(c, archive, n, r)
  }

  /** The manifests of an archive in the order of a listing. */
  function ManifestNames(listing: seq<string>): (names: seq<string>)
    ensures forall n :: n in names <==> n in listing && IsManifestName(n)
    ensures Distinct(listing) ==> Distinct(names)
    ensures |names| <= |listing|
  {
    if listing == [] then []
    else
      assert forall n :: n in listing <==> n == listing[0] || n in listing[1..];
      (if IsManifestName(listing[0]) then [listing[0]] else []) + ManifestNames(listing[1..])
  }

  predicate Distinct(names: seq<string>) {
    forall i, j | 0 <= i < j < |names| :: names[i] != names[j]
  }

  ghost predicate Lists(listing: seq<string>, archive: Archive) {
    Distinct(listing) && forall n :: n in listing <==> n in archive
  }

  /** The checks on names made before any key is loaded. */
  method CheckPairs(archive: Archive, listing: seq<string>) returns (refused: Option<RecoveryRefusal>)
    requires Lists(listing, archive)
    ensures refused.None? <==> ExactPairs(archive)
  {
    hide IsManifestName, IsArtifactName, IsTemporary, Accompanied;
    if exists n | n in archive :: archive[n].NotAFile? { return Some(NonFileEntry); }
    if forall n | n in archive :: IsTemporary(n) {
      forall n | n in archive ensures !IsManifestName(n) { ArchiveNamesPartition(n); }
      return Some(ArchiveEmpty);
    }
    var names := ManifestNames(listing);
    if || |names| < 1
       || (exists n | n in archive :: !IsTemporary(n) && !IsManifestName(n) && !IsArtifactName(n))
       || (exists n | n in archive :: !Accompanied(archive, n))
    {
      if |names| < 1 {
        forall n | n in archive ensures !IsManifestName(n) { assert n !in names; }
      }
      return Some(PairsIncomplete);
    }
    assert names[0] in names;
    refused := None;
  }

  /**
    The loop that refuses an inconsistent key set before any segment is written:
    instance and organization are fixed by the request or by the first manifest
    that names them.
  */
  method CheckKeys(c: Crypto, archive: Archive, names: seq<string>, r: Request) returns (refused: Option<RecoveryRefusal>)
    requires Readable(archive, names)
    ensures refused.None? <==> KeysHeld(c, archive, names, r)
  {
    if r.expectedFingerprint.Some? {
      if |r.key| != KEY_BYTES || c.hash(r.key) != r.expectedFingerprint.value { return Some(KeyBytesMismatch); }
    }
    var instance, organization := r.Instance(), r.Organization();
    ghost var fixedBy: Option<nat> := None;
    var i := 0;
    while i < |names|
      invariant 0 <= i <= |names|
      invariant forall j | 0 <= j < i :: ManifestKeyHeld(c, archive[names[j]].manifest, r)
      invariant forall j | 0 <= j < i && archive[names[j]].manifest.identity.Some? ::
        && instance == Some(archive[names[j]].manifest.identity.value.instanceId)
        && organization == Some(archive[names[j]].manifest.identity.value.organizationId)
      invariant fixedBy.None? ==> instance == r.Instance() && organization == r.Organization()
      invariant fixedBy.Some? ==> fixedBy.value < i && archive[names[fixedBy.value]].manifest.identity.Some?
    {
      var m := archive[names[i]].manifest;
      assert names[i] in names;
      var selected := r.Select(m);
      if selected.None? { return Some(NoKey); }
      if !KeyMatches(c, m, selected.value) { return Some(WrongKey); }
      if m.identity.Some? {
        if || (instance.Some? && m.identity.value.instanceId != instance.value)
           || (organization.Some? && m.identity.value.organizationId != organization.value)
        {
          if fixedBy.Some? {
            assert names[fixedBy.value] in names;
            assert !SameInstance(archive[names[fixedBy.value]].manifest, m);
          }
          return Some(DifferentInstance);
        }
        instance, organization := Some(m.identity.value.instanceId), Some(m.identity.value.organizationId);
        fixedBy := Some(i);
      }
      i := i + 1;
    }
    refused := None;
  }

  predicate ManifestKeyHeld(c: Crypto, m: Manifest, r: Request) {
    r.Select(m).Some? && KeyMatches(c, m, r.Select(m).value) && Expected(r, m)
  }

  /** The plaintext that recovery writes for one manifest. */
  function Plaintext(c: Crypto, archive: Archive, n: string, r: Request): Bytes
    requires n in archive && archive[n].Text? && r.Select(archive[n].manifest).Some? && PairSound(c, archive, n, r)
  {
    var m := archive[n].manifest;
    Open(c, r.Select(m).value, archive[ArtifactNameOf(m.walFile)].bytes).value
  }

  predicate Sound(c: Crypto, archive: Archive, names: seq<string>, r: Request) {
    && Readable(archive, names)
    && forall n | n in names ::
         r.Select(archive[n].manifest).Some? && PairSound(c, archive, n, r) && IsManifestName(n)
  }

  /** What a successful recovery leaves in the target directory: one file per manifest. */
  function Recovered(c: Crypto, archive: Archive, names: seq<string>, r: Request): map<string, Bytes>
    requires Sound(c, archive, names, r)
  {
    map n | n in names :: Stem(n, MANIFEST_SUFFIX) := Plaintext(c, archive, n, r)
  }

  /**
    `materializeWalArchive`: it succeeds on exactly the restorable archives, and the
    target, empty at first, then holds exactly one file per manifest.
  */
  method Materialize(c: Crypto, archive: Archive, listing: seq<string>, r: Request)
      returns (refused: Option<RecoveryRefusal>, target: map<string, Bytes>, walFiles: seq<string>)
    requires Lists(listing, archive)
    ensures refused.None? <==> Restorable(c, archive, ManifestNames(listing), r)
    ensures refused.None? ==>
      && Sound(c, archive, ManifestNames(listing), r)
      && target == Recovered(c, archive, ManifestNames(listing), r)
      && Distinct(walFiles) && (forall w :: w in walFiles <==> w in target)
  {
    target, walFiles := map[], [];
    refused := CheckPairs(archive, listing);
    if refused.Some? { return; }
    var names := ManifestNames(listing);
    if exists n | n in names :: !archive[n].Text? {
      refused := Some(UnreadableManifest);
      return;
    }
    refused := CheckKeys(c, archive, names, r);
    if refused.Some? { return; }
    refused, target, walFiles := RestoreSegments(c, archive, names, r);
  }

  /** The loop that verifies, decrypts and writes one segment after the other. */
  method RestoreSegments(c: Crypto, archive: Archive, names: seq<string>, r: Request)
      returns (refused: Option<RecoveryRefusal>, target: map<string, Bytes>, walFiles: seq<string>)
    requires Distinct(names) && Readable(archive, names)
    requires forall n | n in names ::
      && r.Select(archive[n].manifest).Some?
      && IsManifestName(n) && ArtifactNameOf(Stem(n, MANIFEST_SUFFIX)) in archive
    ensures refused.None? <==> Sound(c, archive, names, r)
    ensures refused.None? ==>
      && target == Recovered(c, archive, names, r)
      && Distinct(walFiles) && (forall w :: w in walFiles <==> w in target)
  {
    target, walFiles := map[], [];
    var i := 0;
    while i < |names|
      invariant 0 <= i <= |names|
      invariant Sound(c, archive, names[..i], r)
      invariant target == Recovered(c, archive, names[..i], r)
      invariant Distinct(walFiles) && forall w :: w in walFiles <==> w in target
    {
      var name := names[i];
      assert name in names;
      var m := archive[name].manifest;
      if name != ManifestNameOf(m.walFile) { return Some(PairIdentity), target, walFiles; }
      assert name[..|m.walFile|] == m.walFile == Stem(name, MANIFEST_SUFFIX);
      var artifact := archive[ArtifactNameOf(m.walFile)];
      if !artifact.Blob? || !Verifies(c, artifact.bytes, m.artifactSha256, m.artifactBytes) {
        return Some(InvalidArtifact), target, walFiles;
      }
      var plain := Open(c, r.Select(m).value, artifact.bytes);
      if plain.None? || c.hash(plain.value) != m.plaintextSha256 || |plain.value| != m.plaintextBytes {
        return Some(WrongPlaintext), target, walFiles;
      }
      RecoveredGrows(c, archive, names, i, r);
      target := target[m.walFile := plain.value];
      walFiles := walFiles + [m.walFile];
      i := i + 1;
    }
    assert names[..i] == names;
    refused := None;
  }

  lemma {:induction false} RecoveredGrows(c: Crypto, archive: Archive, names: seq<string>, i: nat, r: Request)
    requires i < |names| && Distinct(names) && Sound(c, archive, names[..i], r) && IsManifestName(names[i])
    requires names[i] in archive && archive[names[i]].Text?
    requires r.Select(archive[names[i]].manifest).Some? && PairSound(c, archive, names[i], r)
    ensures Sound(c, archive, names[..i + 1], r)
    ensures archive[names[i]].manifest.walFile == Stem(names[i], MANIFEST_SUFFIX)
    ensures archive[names[i]].manifest.walFile !in Recovered(c, archive, names[..i], r)
    ensures Recovered(c, archive, names[..i + 1], r)
         == Recovered(c, archive, names[..i], r)[archive[names[i]].manifest.walFile := Plaintext(c, archive, names[i], r)]
  {
    hide PairSound, KeyMatches, Plaintext, Request.Select, WalName, Stem;
    PairStem(c, archive, names[i], r);
    assert names[..i + 1] == names[..i] + [names[i]];
    assert names[i] !in names[..i];
    forall n | n in names[..i] ensures Stem(n, MANIFEST_SUFFIX) != Stem(names[i], MANIFEST_SUFFIX) { StemsDiffer(n, names[i]); }
  }

  lemma {:induction false} StemsDiffer(a: string, b: string)
    requires IsManifestName(a) && IsManifestName(b) && a != b
    ensures Stem(a, MANIFEST_SUFFIX) != Stem(b, MANIFEST_SUFFIX)
  {
    hide WalName, Stem;
  }

  lemma {:induction false} PairStem(c: Crypto, archive: Archive, n: string, r: Request)
    requires n in archive && archive[n].Text? && IsManifestName(n)
    requires r.Select(archive[n].manifest).Some? && PairSound(c, archive, n, r)
    ensures archive[n].manifest.walFile == Stem(n, MANIFEST_SUFFIX)
  {
    var w := archive[n].manifest.walFile;
    assert ManifestNameOf(w)[..|w|] == w;
  }

  // ---------- End to end ----------

  /**
    After any run of the archiver, if recovery succeeds with whatever keys it was
    given, the target holds exactly one file per manifest, and every acknowledged
    segment is among them with its original bytes.
  */
  lemma {:induction false} EndToEnd(c: Crypto, events: seq<Event>, listing: seq<string>, r: Request)
    requires c.Valid() && CollisionFree(c) && forall e | e in events :: Possible(e)
    requires Lists(listing, Play(c, EMPTY, events).archive)
    requires Restorable(c, Play(c, EMPTY, events).archive, ManifestNames(listing), r)
    ensures var s := Play(c, EMPTY, events);
            && Sound(c, s.archive, ManifestNames(listing), r)
            && var target := Recovered(c, s.archive, ManifestNames(listing), r);
            && (forall w :: w in target <==> WalName(w) && ManifestNameOf(w) in s.archive)
            && (forall w | w in s.acknowledged :: w in target && target[w] == s.acknowledged[w])
  {
    EveryRunConserves(c, EMPTY, events);
    var s := Play(c, EMPTY, events);
    var names := ManifestNames(listing);
    var target := Recovered(c, s.archive, names, r);
    forall w ensures w in target <==> WalName(w) && ManifestNameOf(w) in s.archive {
      if WalName(w) && ManifestNameOf(w) in s.archive {
        PublishedNames(w);
        assert ManifestNameOf(w) in names;
      }
    }
    forall w | w in s.acknowledged ensures w in target && target[w] == s.acknowledged[w] {
      var key :| HeldUnder(c, s.archive, w, s.acknowledged[w], key);
      PublishedNames(w);
      assert ManifestNameOf(w) in names;
      assert c.hash(target[w]) == c.hash(s.acknowledged[w]);
    }
  }

  /**
    Conversely nothing but missing keys or an interrupted segment can block recovery:
    an archive our runs wrote is restorable exactly when it consists of complete
    pairs and the request holds the original key of every manifest.
  */
  lemma {:induction false} RestorableIffKeysHeld(c: Crypto, s: History, listing: seq<string>, r: Request)
    requires c.Valid() && CollisionFree(c) && Inv(c, s) && Lists(listing, s.archive) && ExactPairs(s.archive)
    ensures Readable(s.archive, ManifestNames(listing))
    ensures Restorable(c, s.archive, ManifestNames(listing), r) <==> KeysHeld(c, s.archive, ManifestNames(listing), r)
  {
    var names := ManifestNames(listing);
    forall n | n in names ensures n in s.archive && s.archive[n].Text? {
      var w := Stem(n, MANIFEST_SUFFIX);
      assert n == ManifestNameOf(w);
    }
    if KeysHeld(c, s.archive, names, r) {
      forall n | n in names ensures PairSound(c, s.archive, n, r) {
        var w := Stem(n, MANIFEST_SUFFIX);
        assert n == ManifestNameOf(w) && HealthyPair(c, s.archive, w, s.keyFor[w]);
        var m := s.archive[n].manifest;
        assert c.hash(r.Select(m).value) == c.hash(s.keyFor[w]);
        assert r.Select(m).value == s.keyFor[w];
      }
    }
  }
}
