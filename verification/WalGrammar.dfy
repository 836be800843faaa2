/**
  The grammars of the names in the staging and archive directories, as texts put together
  from parts (the expressions of scripts/src/wal-archive.ts and
  scripts/src/recovery-publication.ts).
*/
module WalGrammar {
  import opened WalNames

  /** [0-9A-F] */
  predicate Capital(c: char) { '0' <= c <= '9' || 'A' <= c <= 'F' }

  /** [0-9a-f] */
  predicate Small(c: char) { '0' <= c <= '9' || 'a' <= c <= 'f' }

  predicate Capitals(s: string, n: nat) {
    |s| == n && forall c | c in s :: Capital(c)
  }

  predicate Smalls(s: string, n: nat) {
    |s| == n && forall c | c in s :: Small(c)
  }

  /** [1-9][0-9]{0,9} */
  predicate ProcessId(s: string) {
    1 <= |s| <= 10 && '1' <= s[0] <= '9' && forall c | c in s :: '0' <= c <= '9'
  }

  /** 24 capitals, 8 and ".history", or 24, a dot, 8 and ".backup". */
  ghost predicate WalText(s: string) {
    || Capitals(s, 24)
    || (exists timeline :: Capitals(timeline, 8) && s == timeline + ".history")
    || (exists segment, offset :: Capitals(segment, 24) && Capitals(offset, 8) && s == segment + "." + offset + ".backup")
  }

  lemma {:induction false} CapitalsIff(s: string, n: nat)
    ensures Capitals(s, n) <==> |s| == n && UpperHex(s)
  {
    if |s| == n && UpperHex(s) {
      forall c | c in s ensures Capital(c) { var i :| 0 <= i < |s| && s[i] == c; }
    }
    if Capitals(s, n) {
      forall i | 0 <= i < |s| ensures Digit(s[i]) || 'A' <= s[i] <= 'F' { assert s[i] in s && Capital(s[i]); }
    }
  }

  lemma {:induction false} SmallsIff(s: string, n: nat)
    ensures Smalls(s, n) <==> |s| == n && LowerHex(s)
  {
    if |s| == n && LowerHex(s) {
      forall c | c in s ensures Small(c) { var i :| 0 <= i < |s| && s[i] == c; }
    }
    if Smalls(s, n) {
      forall i | 0 <= i < |s| ensures Digit(s[i]) || 'a' <= s[i] <= 'f' { assert s[i] in s && Small(s[i]); }
    }
  }

  lemma {:induction false} ProcessIdIff(s: string)
    ensures ProcessId(s) <==> Decimal(s)
  {
    if Decimal(s) {
      forall c | c in s ensures '0' <= c <= '9' { var i :| 0 <= i < |s| && s[i] == c; }
    }
    if ProcessId(s) {
      forall i | 0 <= i < |s| ensures Digit(s[i]) { assert s[i] in s; }
    }
  }

  /** The names of segments, timeline histories and backup histories are exactly these texts. */
  lemma {:induction false} WalNameIff(s: string)
    ensures WalName(s) <==> WalText(s)
  {
    hide Capitals, UpperHex;
    CapitalsIff(s, 24);
    if |s| == 16 && UpperHex(s[..8]) && s[8..] == ".history" {
      CapitalsIff(s[..8], 8);
      assert s == s[..8] + ".history";
    }
    if |s| == 40 && UpperHex(s[..24]) && s[24] == '.' && UpperHex(s[25..33]) && s[33..] == ".backup" {
      CapitalsIff(s[..24], 24);
      CapitalsIff(s[25..33], 8);
      assert s == s[..24] + "." + s[25..33] + ".backup";
    }
    if timeline :| Capitals(timeline, 8) && s == timeline + ".history" {
      CapitalsIff(timeline, 8);
      assert s[..8] == timeline && s[8..] == ".history";
    }
    if segment, offset :| Capitals(segment, 24) && Capitals(offset, 8) && s == segment + "." + offset + ".backup" {
      CapitalsIff(segment, 24);
      CapitalsIff(offset, 8);
      BackupParts(segment, offset);
    }
  }

  lemma {:induction false} BackupParts(segment: string, offset: string)
    requires |segment| == 24 && |offset| == 8
    ensures var s := segment + "." + offset + ".backup";
            |s| == 40 && s[..24] == segment && s[24] == '.' && s[25..33] == offset && s[33..] == ".backup"
  {
  }

  ghost predicate ManifestText(s: string) {
    exists wal :: WalText(wal) && s == wal + ".manifest.json"
  }

  ghost predicate ArtifactText(s: string) {
    exists wal :: WalText(wal) && s == wal + ".aes256gcm"
  }

  lemma {:induction false} PublishedIff(s: string)
    ensures IsManifestName(s) <==> ManifestText(s)
    ensures IsArtifactName(s) <==> ArtifactText(s)
  {
    hide WalName, WalText;
    if IsManifestName(s) {
      WalNameIff(Stem(s, MANIFEST_SUFFIX));
      assert s == Stem(s, MANIFEST_SUFFIX) + ".manifest.json";
    }
    if IsArtifactName(s) {
      WalNameIff(Stem(s, ARTIFACT_SUFFIX));
      assert s == Stem(s, ARTIFACT_SUFFIX) + ".aes256gcm";
    }
    if wal :| WalText(wal) && s == wal + ".manifest.json" {
      WalNameIff(wal);
      PublishedNames(wal);
    }
    if wal :| WalText(wal) && s == wal + ".aes256gcm" {
      WalNameIff(wal);
      PublishedNames(wal);
    }
  }

  /** A published name, ".partial-", a process id, a dash and sixteen small digits. */
  predicate TemporaryText(name: string, published: string, pid: string, random: string) {
    ProcessId(pid) && Smalls(random, 16) && name == published + ".partial-" + pid + "-" + random
  }

  lemma {:induction false} TemporaryParts(published: string, pid: string, random: string)
    requires |random| == 16
    ensures var name := published + ".partial-" + pid + "-" + random;
            var cut := |name| - 17 - |pid|;
            && cut == |published| + 9 && name[..cut - 9] == published && name[cut - 9..cut] == ".partial-"
            && name[cut..|name| - 17] == pid && name[|name| - 17] == '-' && name[|name| - 16..] == random
  {
  }

  /** The temporaries of the archive are exactly these names. */
  lemma {:induction false} TemporaryIff(name: string)
    ensures IsTemporary(name) <==>
              exists published, pid, random :: (ManifestText(published) || ArtifactText(published)) && TemporaryText(name, published, pid, random)
  {
    hide IsManifestName, IsArtifactName, ManifestText, ArtifactText, Decimal, LowerHex, ProcessId, Smalls;
    if IsTemporary(name) {
      var digits: nat :| digits <= 10 && TemporaryAt(name, digits);
      var cut := |name| - 17 - digits;
      var published, pid, random := name[..cut - 9], name[cut..|name| - 17], name[|name| - 16..];
      ProcessIdIff(pid);
      SmallsIff(random, 16);
      PublishedIff(published);
      assert name == published + ".partial-" + pid + "-" + random;
      assert TemporaryText(name, published, pid, random);
    }
    if published, pid, random :| (ManifestText(published) || ArtifactText(published)) && TemporaryText(name, published, pid, random) {
      ProcessIdIff(pid);
      SmallsIff(random, 16);
      PublishedIff(published);
      TemporaryParts(published, pid, random);
      Short(pid);
      assert TemporaryAt(name, |pid|);
    }
  }

  lemma {:induction false} Short(pid: string)
    requires Decimal(pid)
    ensures |pid| <= 10
  {
  }

  /** The archive hook's temporaries are exactly a segment's name, ".partial." and a process id. */
  lemma {:induction false} HookTemporaryIff(name: string)
    ensures IsHookTemporary(name) <==> exists wal, pid :: WalText(wal) && ProcessId(pid) && name == wal + ".partial." + pid
  {
    hide WalName, WalText, Decimal, ProcessId;
    if IsHookTemporary(name) {
      var digits: nat :| digits <= 10 && HookTemporaryAt(name, digits);
      var cut := |name| - digits;
      var wal, pid := name[..cut - 9], name[cut..];
      ProcessIdIff(pid);
      WalNameIff(wal);
      assert name == wal + ".partial." + pid;
    }
    if wal, pid :| WalText(wal) && ProcessId(pid) && name == wal + ".partial." + pid {
      ProcessIdIff(pid);
      WalNameIff(wal);
      Short(pid);
      var cut := |name| - |pid|;
      assert name[cut..] == pid && name[cut - 9..cut] == ".partial." && name[..cut - 9] == wal;
      assert HookTemporaryAt(name, |pid|);
    }
  }
}
