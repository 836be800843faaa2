/**
  The names that WAL archiving and recovery tell apart, character by character
  (scripts/src/wal-archive.ts and scripts/src/recovery-publication.ts).
*/
module WalNames {

  const MANIFEST_SUFFIX := ".manifest.json"
  const ARTIFACT_SUFFIX := ".aes256gcm"
  const PARTIAL := ".partial-"
  const HOOK := ".partial."

  predicate Digit(ch: char) { '0' <= ch <= '9' }

  predicate UpperHex(s: string) {
    forall i | 0 <= i < |s| :: Digit(s[i]) || 'A' <= s[i] <= 'F'
  }

  predicate LowerHex(s: string) {
    forall i | 0 <= i < |s| :: Digit(s[i]) || 'a' <= s[i] <= 'f'
  }

  /** [1-9][0-9]{0,9} */
  predicate Decimal(s: string) {
    1 <= |s| <= 10 && s[0] != '0' && forall i | 0 <= i < |s| :: Digit(s[i])
  }

  /** A segment, a timeline history file or a backup history file. */
  predicate WalName(s: string) {
    || (|s| == 24 && UpperHex(s))
    || (|s| == 16 && UpperHex(s[..8]) && s[8..] == ".history")
    || (|s| == 40 && UpperHex(s[..24]) && s[24] == '.' && UpperHex(s[25..33]) && s[33..] == ".backup")
  }

  function ManifestNameOf(walFile: string): string { walFile + MANIFEST_SUFFIX }

  function ArtifactNameOf(walFile: string): string { walFile + ARTIFACT_SUFFIX }

  predicate EndsWith(s: string, suffix: string) {
    |suffix| <= |s| && s[|s| - |suffix|..] == suffix
  }

  function Stem(s: string, suffix: string): (r: string)
    requires EndsWith(s, suffix)
    ensures s == r + suffix
  {
    s[..|s| - |suffix|]
  }

  predicate IsManifestName(name: string) {
    EndsWith(name, MANIFEST_SUFFIX) && WalName(Stem(name, MANIFEST_SUFFIX))
  }

  predicate IsArtifactName(name: string) {
    EndsWith(name, ARTIFACT_SUFFIX) && WalName(Stem(name, ARTIFACT_SUFFIX))
  }

  /** A process id of `digits` characters and a random suffix follow the published name. */
  predicate TemporaryAt(name: string, digits: nat) {
    && |name| >= |PARTIAL| + digits + 17
    && var cut := |name| - 17 - digits;
    && name[cut - |PARTIAL|..cut] == PARTIAL
    && Decimal(name[cut..|name| - 17])
    && name[|name| - 17] == '-'
    && LowerHex(name[|name| - 16..])
    && (IsManifestName(name[..cut - |PARTIAL|]) || IsArtifactName(name[..cut - |PARTIAL|]))
  }

  /** `isRecoveryTemporaryFile(name, "wal")`. */
  predicate IsTemporary(name: string) {
    exists digits: nat | digits <= 10 :: TemporaryAt(name, digits)
  }

  /** `isHookTemporary`: what PostgreSQL's archive hook leaves while it copies a segment. */
  predicate IsHookTemporary(name: string) {
    exists digits: nat | digits <= 10 :: HookTemporaryAt(name, digits)
  }

  predicate HookTemporaryAt(name: string, digits: nat) {
    && |name| >= |HOOK| + digits
    && var cut := |name| - digits;
    && name[cut - |HOOK|..cut] == HOOK
    && Decimal(name[cut..])
    && WalName(name[..cut - |HOOK|])
  }

  /** Process id and random suffix of a temporary name. */
  datatype Spool = Spool(pid: string, hex: string) {
    predicate Valid() { Decimal(pid) && |hex| == 16 && LowerHex(hex) }
  }

  function TemporaryOf(target: string, spool: Spool): string {
    target + PARTIAL + spool.pid + "-" + spool.hex
  }

  /** Every temporary name the publishers generate is recognised as one. */
  lemma {:induction false} TemporaryRecognised(target: string, spool: Spool)
    requires spool.Valid() && (IsManifestName(target) || IsArtifactName(target))
    ensures IsTemporary(TemporaryOf(target, spool))
  {
    var name := TemporaryOf(target, spool);
    var cut := |name| - 17 - |spool.pid|;
    assert name[..cut - |PARTIAL|] == target;
    assert name[cut - |PARTIAL|..cut] == PARTIAL;
    assert name[cut..|name| - 17] == spool.pid;
    assert name[|name| - 16..] == spool.hex;
    assert TemporaryAt(name, |spool.pid|);
  }

  /** The published names of a segment are classified as such and give the segment back. */
  lemma {:induction false} PublishedNames(walFile: string)
    requires WalName(walFile)
    ensures IsManifestName(ManifestNameOf(walFile)) && Stem(ManifestNameOf(walFile), MANIFEST_SUFFIX) == walFile
    ensures IsArtifactName(ArtifactNameOf(walFile)) && Stem(ArtifactNameOf(walFile), ARTIFACT_SUFFIX) == walFile
  {
    var m, a := ManifestNameOf(walFile), ArtifactNameOf(walFile);
    assert m[|m| - |MANIFEST_SUFFIX|..] == MANIFEST_SUFFIX && m[..|m| - |MANIFEST_SUFFIX|] == walFile;
    assert a[|a| - |ARTIFACT_SUFFIX|..] == ARTIFACT_SUFFIX && a[..|a| - |ARTIFACT_SUFFIX|] == walFile;
  }

  /** Classification of archive entries is a partition: no name is of two kinds. */
  lemma {:induction false} ArchiveNamesPartition(name: string)
    ensures !(IsManifestName(name) && IsArtifactName(name))
    ensures IsTemporary(name) ==> !IsManifestName(name) && !IsArtifactName(name)
  {
    if EndsWith(name, MANIFEST_SUFFIX) {
      assert name[|name| - 1] == name[|name| - |MANIFEST_SUFFIX|..][|MANIFEST_SUFFIX| - 1] == 'n';
    }
    if EndsWith(name, ARTIFACT_SUFFIX) {
      assert name[|name| - 1] == name[|name| - |ARTIFACT_SUFFIX|..][|ARTIFACT_SUFFIX| - 1] == 'm';
    }
    if IsTemporary(name) {
      assert name[|name| - 1] == name[|name| - 16..][15];
    }
  }

  lemma {:induction false} HookTail(name: string)
    requires IsHookTemporary(name)
    ensures |name| > 24 && Digit(name[|name| - 1])
  {
    var digits: nat :| digits <= 10 && HookTemporaryAt(name, digits);
    assert Digit(name[|name| - digits..][digits - 1]);
  }

  lemma {:induction false} WalTail(name: string)
    requires WalName(name) && |name| > 24
    ensures name[|name| - 1] == 'p'
  {
    assert name[33..][6] == 'p';
  }

  /** A staged segment is never mistaken for the hook's temporary copy of one. */
  lemma {:induction false} StagingNamesPartition(name: string)
    requires WalName(name)
    ensures !IsHookTemporary(name)
  {
    if |name| > 24 { WalTail(name); }
    if IsHookTemporary(name) { HookTail(name); }
  }
}
