/**
  What recovery asks of an archive and of the keys it is given (scripts/src/wal-archive.ts,
  materializeWalArchive), told from the entries and the request alone.
*/
module WalKeyring {
  import opened Wrappers
  import opened RecoveryArtifact
  import opened WalNames
  import opened WalArchive
  import opened WalSafety
  import opened WalRecovery

  // ---------- What is restorable ----------

  /** The key for a manifest: the ring's under the manifest's key id, or without a ring the one key under its own id. */
  predicate KeyFor(r: Request, m: Manifest, key: Bytes) {
    match r.keyring
    case Some(ring) => m.keyId in ring.keys && key == ring.keys[m.keyId]
    case None => m.keyId == r.keyId && key == r.key
  }

  /** A given expectation, or else the ring's own value, is met. */
  predicate Agrees(expected: Option<nat>, ofRing: Option<nat>, value: nat) {
    match expected
    case Some(e) => value == e
    case None => ofRing.Some? ==> value == ofRing.value
  }

  function RingInstance(r: Request): Option<nat> {
    if r.keyring.Some? then Some(r.keyring.value.instanceId) else None
  }

  function RingOrganization(r: Request): Option<nat> {
    if r.keyring.Some? then Some(r.keyring.value.organizationId) else None
  }

  /** The key is the one its manifest names, and the manifest is of the instance asked for. */
  predicate Names(c: Crypto, r: Request, m: Manifest, key: Bytes) {
    m.identity.Some? ==>
      && |key| == 32 && c.hash(key) == m.identity.value.fingerprint
      && Agrees(r.expectedInstance, RingInstance(r), m.identity.value.instanceId)
      && Agrees(r.expectedOrganization, RingOrganization(r), m.identity.value.organizationId)
  }

  /** The entry `n` restores to `plain` under `key`. */
  predicate Restores(c: Crypto, archive: Archive, n: string, r: Request, key: Bytes, plain: Bytes) {
    && n in archive && archive[n].Text?
    && var m := archive[n].manifest;
    && n == m.walFile + ".manifest.json" && KeyFor(r, m, key) && Names(c, r, m, key)
    && m.walFile + ".aes256gcm" in archive && archive[m.walFile + ".aes256gcm"].Blob?
    && var artifact := archive[m.walFile + ".aes256gcm"].bytes;
    && OVERHEAD < |artifact| <= MAX_SAFE_INTEGER && |artifact| == m.artifactBytes && c.hash(artifact) == m.artifactSha256
    && Open(c, key, artifact) == Some(plain)
    && c.hash(plain) == m.plaintextSha256 && |plain| == m.plaintextBytes
  }

  /** Files only, each a temporary, or one half of a pair whose other half is there; at least one pair. */
  ghost predicate Complete(archive: Archive) {
    && (forall n | n in archive :: !archive[n].NotAFile?)
    && (forall n | n in archive :: IsTemporary(n) || exists w :: WalName(w) && (n == w + ".manifest.json" || n == w + ".aes256gcm"))
    && (forall w | WalName(w) :: w + ".manifest.json" in archive <==> w + ".aes256gcm" in archive)
    && (exists w :: WalName(w) && w + ".manifest.json" in archive)
  }

  lemma {:induction false} ManifestNameIs(n: string)
    ensures IsManifestName(n) <==> exists w :: WalName(w) && n == w + ".manifest.json"
    ensures IsArtifactName(n) <==> exists w :: WalName(w) && n == w + ".aes256gcm"
  {
    if w :| WalName(w) && n == w + ".manifest.json" { PublishedNames(w); }
    if w :| WalName(w) && n == w + ".aes256gcm" { PublishedNames(w); }
    if IsManifestName(n) { assert n == Stem(n, MANIFEST_SUFFIX) + ".manifest.json"; }
    if IsArtifactName(n) { assert n == Stem(n, ARTIFACT_SUFFIX) + ".aes256gcm"; }
  }

  lemma {:induction false} PairsIffComplete(archive: Archive)
    ensures ExactPairs(archive) <==> Complete(archive)
  {
    hide WalName, IsTemporary, IsManifestName, IsArtifactName, EndsWith;
    if ExactPairs(archive) {
      forall n | n in archive ensures IsTemporary(n) || exists w :: WalName(w) && (n == w + ".manifest.json" || n == w + ".aes256gcm") {
        ManifestNameIs(n);
      }
      forall w | WalName(w) ensures w + ".manifest.json" in archive <==> w + ".aes256gcm" in archive {
        PublishedNames(w);
        assert w + ".manifest.json" == ManifestNameOf(w) && w + ".aes256gcm" == ArtifactNameOf(w);
        assert ManifestNameOf(w) in archive ==> Accompanied(archive, ManifestNameOf(w));
        assert ArtifactNameOf(w) in archive ==> Accompanied(archive, ArtifactNameOf(w));
      }
      var n :| n in archive && IsManifestName(n);
      ManifestNameIs(n);
    }
    if Complete(archive) {
      forall n | n in archive && !IsTemporary(n) ensures IsManifestName(n) || IsArtifactName(n) {
        var w :| WalName(w) && (n == w + ".manifest.json" || n == w + ".aes256gcm");
        PublishedNames(w);
      }
      forall n | n in archive ensures Accompanied(archive, n) { StandsWith(archive, n); }
      var w :| WalName(w) && w + ".manifest.json" in archive;
      PublishedNames(w);
      assert IsManifestName(w + ".manifest.json");
    }
  }

  lemma {:induction false} StandsWith(archive: Archive, n: string)
    requires n in archive && forall w | WalName(w) :: w + ".manifest.json" in archive <==> w + ".aes256gcm" in archive
    ensures Accompanied(archive, n)
  {
    hide WalName;
    if IsManifestName(n) {
      var w := Stem(n, MANIFEST_SUFFIX);
      assert n == w + ".manifest.json" && ArtifactNameOf(w) == w + ".aes256gcm";
    }
    if IsArtifactName(n) {
      var w := Stem(n, ARTIFACT_SUFFIX);
      assert n == w + ".aes256gcm" && ManifestNameOf(w) == w + ".manifest.json";
    }
  }

  ghost predicate RestoresSome(c: Crypto, archive: Archive, n: string, r: Request) {
    exists key: Bytes, plain: Bytes :: Restores(c, archive, n, r, key, plain)
  }

  predicate OneInstance(archive: Archive, names: seq<string>) {
    forall a, b | a in names && b in names && a in archive && b in archive && archive[a].Text? && archive[b].Text? ::
      archive[a].manifest.identity.Some? && archive[b].manifest.identity.Some? ==>
        && archive[a].manifest.identity.value.instanceId == archive[b].manifest.identity.value.instanceId
        && archive[a].manifest.identity.value.organizationId == archive[b].manifest.identity.value.organizationId
  }

  /** The checks on one manifest, its key and its artifact, one by one, come to this. */
  lemma {:induction false} RestoresIff(c: Crypto, archive: Archive, n: string, r: Request)
    requires n in archive && archive[n].Text?
    ensures RestoresSome(c, archive, n, r) <==>
              && r.Select(archive[n].manifest).Some?
              && KeyMatches(c, archive[n].manifest, r.Select(archive[n].manifest).value)
              && WalRecovery.Expected(r, archive[n].manifest)
              && PairSound(c, archive, n, r)
  {
    hide Open;
    var m := archive[n].manifest;
    assert ManifestNameOf(m.walFile) == m.walFile + ".manifest.json" && ArtifactNameOf(m.walFile) == m.walFile + ".aes256gcm";
    if r.Select(m).Some? && PairSound(c, archive, n, r) {
      var plain := Open(c, r.Select(m).value, archive[ArtifactNameOf(m.walFile)].bytes).value;
      assert KeyMatches(c, m, r.Select(m).value) && WalRecovery.Expected(r, m) ==> Restores(c, archive, n, r, r.Select(m).value, plain);
    }
  }

  /** Recovery succeeds on exactly these archives, keys and expectations. */
  lemma {:induction false} RestorableIff(c: Crypto, archive: Archive, names: seq<string>, r: Request)
    ensures Restorable(c, archive, names, r) <==>
              && Complete(archive)
              && (r.expectedFingerprint.Some? ==> |r.key| == 32 && c.hash(r.key) == r.expectedFingerprint.value)
              && (forall n | n in names :: RestoresSome(c, archive, n, r))
              && OneInstance(archive, names)
  {
    hide ExactPairs, Complete, PairSound, KeyMatches, WalRecovery.Expected, Request.Select, Restores;
    PairsIffComplete(archive);
    forall n | n in names
      ensures RestoresSome(c, archive, n, r) ==> n in archive && archive[n].Text?
      ensures n in archive && archive[n].Text? ==>
                (RestoresSome(c, archive, n, r) <==>
                  && r.Select(archive[n].manifest).Some?
                  && KeyMatches(c, archive[n].manifest, r.Select(archive[n].manifest).value)
                  && WalRecovery.Expected(r, archive[n].manifest)
                  && PairSound(c, archive, n, r))
    {
      if n in archive && archive[n].Text? { RestoresIff(c, archive, n, r); } else { RestoresNothing(c, archive, n, r); }
    }
  }

  lemma {:induction false} RestoresNothing(c: Crypto, archive: Archive, n: string, r: Request)
    requires !(n in archive && archive[n].Text?)
    ensures !RestoresSome(c, archive, n, r)
  {
  }

  /** What a manifest restores to is what ends up in the target, under the segment's name. */
  lemma {:induction false} RecoveredIs(c: Crypto, archive: Archive, names: seq<string>, r: Request, w: string, key: Bytes, plain: Bytes)
    requires Sound(c, archive, names, r) && w + ".manifest.json" in names && WalName(w)
    requires Restores(c, archive, w + ".manifest.json", r, key, plain)
    ensures w in Recovered(c, archive, names, r) && Recovered(c, archive, names, r)[w] == plain
  {
    hide Open;
    var n := w + ".manifest.json";
    PublishedNames(w);
    assert n == ManifestNameOf(w) && Stem(n, MANIFEST_SUFFIX) == w;
    var m := archive[n].manifest;
    assert n == ManifestNameOf(m.walFile) && ManifestNameOf(m.walFile)[..|n| - 14] == m.walFile && ManifestNameOf(w)[..|n| - 14] == w;
    assert Plaintext(c, archive, n, r) == plain;
    SameStem(names, n);
  }

  lemma {:induction false} SameStem(names: seq<string>, n: string)
    requires IsManifestName(n)
    ensures forall x | x in names && IsManifestName(x) && Stem(x, MANIFEST_SUFFIX) == Stem(n, MANIFEST_SUFFIX) :: x == n
  {
    hide WalName;
  }

  // ---------- After any run ----------

  /** For every manifest the ring has the key it was written with, under its key id; or without a ring the one key is that. */
  ghost predicate HoldsOriginals(s: History, r: Request) {
    forall w | WalName(w) && w + ".manifest.json" in s.archive ::
      && w in s.keyFor && s.archive[w + ".manifest.json"].Text?
      && KeyFor(r, s.archive[w + ".manifest.json"].manifest, s.keyFor[w])
  }

  /** All manifests are of the one instance that is asked for, or that the ring is of. */
  ghost predicate OfInstance(s: History, r: Request) {
    exists instance: nat, organization: nat ::
      && Agrees(r.expectedInstance, RingInstance(r), instance) && Agrees(r.expectedOrganization, RingOrganization(r), organization)
      && forall w | WalName(w) && w + ".manifest.json" in s.archive && s.archive[w + ".manifest.json"].Text? ::
           s.archive[w + ".manifest.json"].manifest.identity.Some? ==>
             && s.archive[w + ".manifest.json"].manifest.identity.value.instanceId == instance
             && s.archive[w + ".manifest.json"].manifest.identity.value.organizationId == organization
  }

  lemma {:induction false} HealthyRestores(c: Crypto, s: History, r: Request, w: string)
    requires c.Valid() && Inv(c, s) && WalName(w) && w + ".manifest.json" in s.archive
    requires s.archive[w + ".manifest.json"].Text? && w in s.keyFor
    requires KeyFor(r, s.archive[w + ".manifest.json"].manifest, s.keyFor[w])
    requires Names(c, r, s.archive[w + ".manifest.json"].manifest, s.keyFor[w])
    ensures exists plain :: Restores(c, s.archive, w + ".manifest.json", r, s.keyFor[w], plain)
  {
    hide Open;
    assert ManifestNameOf(w) == w + ".manifest.json" && ArtifactNameOf(w) == w + ".aes256gcm";
    assert HealthyPair(c, s.archive, w, s.keyFor[w]);
    var plain := Open(c, s.keyFor[w], s.archive[ArtifactNameOf(w)].bytes).value;
    assert Restores(c, s.archive, w + ".manifest.json", r, s.keyFor[w], plain);
  }

  lemma {:induction false} OriginalsName(c: Crypto, s: History, r: Request, w: string)
    requires Inv(c, s) && HoldsOriginals(s, r) && OfInstance(s, r) && WalName(w) && w + ".manifest.json" in s.archive
    ensures w in s.keyFor && s.archive[w + ".manifest.json"].Text?
    ensures Names(c, r, s.archive[w + ".manifest.json"].manifest, s.keyFor[w])
  {
    hide Open, WalName, Agrees;
    assert ManifestNameOf(w) == w + ".manifest.json";
    assert HealthyPair(c, s.archive, w, s.keyFor[w]);
  }

  lemma {:induction false} InstanceIsOne(s: History, r: Request, names: seq<string>)
    requires OfInstance(s, r) && forall n | n in names :: exists w :: WalName(w) && n == w + ".manifest.json"
    ensures OneInstance(s.archive, names)
  {
    hide WalName, Agrees;
  }

  /**
    Whatever was archived, in whatever generations, with whatever crashes: once every
    pair is complete, recovery with the original keys in the ring, or with the one key
    when there was only one, succeeds, and the target holds every acknowledged segment
    with its original bytes.
  */
  lemma {:induction false} OriginalKeysRestore(c: Crypto, events: seq<Event>, listing: seq<string>, r: Request)
    requires c.Valid() && CollisionFree(c) && forall e | e in events :: Possible(e)
    requires var s := Play(c, EMPTY, events);
             Lists(listing, s.archive) && Complete(s.archive) && HoldsOriginals(s, r) && OfInstance(s, r)
    requires r.expectedFingerprint.Some? ==> |r.key| == 32 && c.hash(r.key) == r.expectedFingerprint.value
    ensures var s := Play(c, EMPTY, events);
            && Restorable(c, s.archive, ManifestNames(listing), r) && Sound(c, s.archive, ManifestNames(listing), r)
            && var target := Recovered(c, s.archive, ManifestNames(listing), r);
               forall w | w in s.acknowledged :: w in target && target[w] == s.acknowledged[w]
  {
    hide Restorable, Restores, Complete, HoldsOriginals, OfInstance, Names, KeyFor, Inv, Play, WalName, Recovered, Sound;
    EmptyInv(c);
    EveryRunConserves(c, EMPTY, events);
    var s := Play(c, EMPTY, events);
    var names := ManifestNames(listing);
    forall n | n in names ensures RestoresSome(c, s.archive, n, r) && exists w :: WalName(w) && n == w + ".manifest.json" {
      ManifestNameIs(n);
      var w :| WalName(w) && n == w + ".manifest.json";
      OriginalsName(c, s, r, w);
      OriginalKey(s, r, w);
      HealthyRestores(c, s, r, w);
    }
    InstanceIsOne(s, r, names);
    RestorableIff(c, s.archive, names, r);
    EndToEnd(c, events, listing, r);
  }

  lemma {:induction false} OriginalKey(s: History, r: Request, w: string)
    requires HoldsOriginals(s, r) && WalName(w) && w + ".manifest.json" in s.archive
    ensures w in s.keyFor && s.archive[w + ".manifest.json"].Text? && KeyFor(r, s.archive[w + ".manifest.json"].manifest, s.keyFor[w])
  {
    hide WalName, KeyFor;
  }

  lemma {:induction false} EmptyInv(c: Crypto)
    ensures Inv(c, EMPTY)
  {
  }
}
