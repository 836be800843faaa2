# BoardAgent verification

A Dafny model of the parts of BoardAgent that must not lose or leak: which backups are
kept and how the rest are removed, how write-ahead log segments are archived and
restored, how encrypted exports are stored, committed, reconciled and deleted, how a read
reserves space for the JSON it is about to render, and four smaller mechanisms (the audit
catch-up loop, the pinned metadata fetch, the IP normal form, the source-tree digest and
key-generation install).

`dafny verify dfyconfig.toml` checks everything.

## How it is modelled

* **Crashes.** A directory, or a pair of directories, is a map from names to entries with
  a number `stepsLeft`. Every creation, link, rename and unlink spends one step; when none
  is left the process is dead, before the next mutation. A theorem for every `stepsLeft`
  is a theorem for a crash at every step. Runs are sequences of such attempts, mixed with
  whatever else may happen in between.
* **Methods and specifications.** Code that changes things is a class whose methods are
  proved equal to a function of the old state (`State() == ...old(State())...`), or to
  state its promise outright. The theorems are about those functions, over all runs.
* **Cryptography.** AES-256-GCM is a positional keystream and a tag, SHA-256 a function;
  all are function values, arbitrary in every theorem. Freedom from collisions is a
  hypothesis of the theorems that need it (`WalSafety.CollisionFree`,
  `SourceTree.DigestsAgreeIff`), never an assumption of the model.
* **Other people's code.** JSON and canonical JSON codecs of the export envelope, Unicode
  normal form C, `net.isIP`, directory listings and the allocator's decision to grant a
  reservation are function parameters. What a database snapshot can be is a predicate
  (`Selection`, `Snapshot`, `Edges`): rows by primary key. What a transaction of the export
  reconciler does is read off `lib/db`, and may commit, roll back, or commit and throw.

| module | what it holds |
|---|---|
| `Retention`, `RetentionPolicy` | the three bucket passes, the algebra of keeping; the policy said of timestamps alone |
| `Calendar` | timestamps, and the day, week and month keys made of them |
| `Pruning`, `PruningSafety`, `PruningPolicy` | the prune run step by step; safety over every run; what a run does to any directory |
| `RecoveryArtifact` | the encrypted artifact, its short reads and writes, two-pass decryption |
| `WalNames`, `WalGrammar`, `WalArchive`, `WalSafety`, `WalProgress` | file names, the archive protocol, conservation, and that a pass gets through its listing |
| `WalRecovery`, `WalKeyring` | restoration after any run; which archives and keys restore to what |
| `ExportStore`, `ExportSafety`, `ExportInventory` | chunks, commit marker, restoration and deletion; what they guarantee; exactly when each succeeds |
| `ExportEnvelope`, `EnvelopeOpening`, `ByteCodecs` | the encrypted envelope; which bytes open to what; big-endian lengths and base64url |
| `ExportReconcile`, `ReconcileTurns`, `ReconcileSafety` | the reconciler's branches; the table of what a turn counts, writes and deletes; counting, sparing, convergence |
| `AuditCatchup` | the checkpoint loop and its exact envelope |
| `JsonSize` | the text of JSON, what it costs, and the drift of rows between snapshots |
| `BoardVoteAdmission`, `VoteViewAdmission`, `DocumentAdmission`, `KeyNames` | reservations of the single-gate reads |
| `BoardVoteOutcomes`, `DocumentOutcomes` | exactly when those reads succeed, told from the rows of the two snapshots |
| `ProposalText`, `ProposalInspection`, `CommunicationsRows`, `CommunicationsAdmission` | payload measurement and three-snapshot admission |
| `CommunicationsOutcomes` | exactly when a list is returned, told from the rows of the three snapshots |
| `SourceTree`, `KeyInstall`, `KeyTree`, `PinnedFetch`, `IpText`, `IpAddress`, `IpNormalForm`, `Int32` | the smaller mechanisms |

## What the proofs found

* **Local dates in UTC keys.** `utcDay` and `utcMonth` slice the text of a timestamp, so a
  timestamp with another offset than `Z` lands in the day its text spells; `utcWeek` goes
  through the instant. `Calendar.TextDayIsUtcDay` gives the exact condition,
  `Calendar.OffsetTextSplitsOneInstant` one instant with two day keys.
* **Week keys of the first century.** `utcWeek` hands a year of 0 to 99 to `Date.UTC`, which
  takes it for 1900 to 1999, so a week on the border of the year 100, or of February and March
  of the year 0, has two keys (`Calendar.RemappedYearSplitsWeek`).
  `Calendar.WeekKeysAgreeIff` is exact; from the year 100 on, keys and weeks agree.
* **A dead publication stops all pruning.** A base backup is published by two links. If it
  dies between them the artifact is left without a manifest, and every later run that is not
  interrupted is refused for it. `PruningSafety.CrashClosedPruning` shows that nothing else
  refuses a run, and that no kept backup is touched meanwhile.
* **A marker temporary blocks an export directory.** The temporary of `manifest.json` is
  `manifest.json.tmp-<hex>`, which no pattern of the store tolerates: a crash while the
  marker is written leaves a directory that inspection, restoration and deletion all
  refuse. `ExportSafety.CrashedPublicationDeletableIff` gives the exact window.
* **Reconciliation converges except for requests that expire on the way.** If a request has
  two directories and a leased build, one pass can preserve a directory in its turn and,
  when the request has expired by the turn of a partial one, fail the request; the next pass
  deletes what the first preserved. And a partial directory preserved by one pass is deleted
  by the next if its request expires in between. `ReconcileSafety.SecondPassIdleIff` shows
  that nothing else keeps a second pass busy, `ReconcileSafety.OvertakenExample` is a
  concrete instance.
* **A completed build can keep its queued jobs.** When the settling transaction throws after
  the completion committed, the entry counts as healthy and nothing settles the jobs later
  (`ReconcileSafety.CompletionSettlesIff`).
* **An empty plaintext seals but never opens**, in the recovery format
  (`RecoveryArtifact.SealOpen`); an audit chain export without attestation can be read but
  no longer written (`ExportEnvelope.OpenedEncodesBack`).

## Model

| member | source | states |
|---|---|---|
| Calendar.DateOfDay | scripts/src/base-backup.ts:211-222 | the date that the UTC getters break a day down to is a real date, and is that day |
| Calendar.DayOfDate | scripts/src/base-backup.ts:211-222 | the other way round: every real date is what its day breaks down to |
| Calendar.WeekKeysAgreeIff | scripts/src/base-backup.ts:211-222 | the week keys of two texts of the schema are equal iff one Monday-to-Sunday week holds both UTC days and Date.UTC moves both dates alike |
| Calendar.WeekKeysAgreeIffSameWeek | scripts/src/base-backup.ts:211-222 | for UTC years of 100 or later the keys are equal iff one Monday-to-Sunday week holds both UTC days |
| Calendar.RemappedYearSplitsWeek | scripts/src/base-backup.ts:211-222 | 0099-12-31 and 0100-01-01 lie in one week and have the keys 1999-12-28 and 0099-12-28 |
| Calendar.TextDayIsUtcDay | scripts/src/base-backup.ts:203-206 | the day sliced from the text is the UTC day iff the offset crosses no midnight |
| Calendar.OffsetTextSplitsOneInstant | scripts/src/base-backup.ts:203-222 | a concrete instant, spelled with two offsets, gets two day and month keys and one week key |
| Calendar.DayKeysAgreeIff | scripts/src/base-backup.ts:203-209 | day keys are equal iff year, month and day of the texts are, month keys iff year and month are |
| Retention.SelectMeaning | scripts/src/base-backup.ts:260-269 | one bucket pass selects exactly the newest backup of each of the latest `limit` buckets present |
| Retention.SelectIgnoresUnselected | scripts/src/base-backup.ts:260-269 | a pass over any part that contains its selection selects the same, for any bucket function |
| Retention.SelectFromPart | scripts/src/base-backup.ts:260-269 | what a pass selects of the whole it selects of every part that contains it, with any buckets already observed |
| Retention.RetentionGuarantees | scripts/src/base-backup.ts:253-275 | kept is exactly the newest of each of 7 days, 4 weeks and 12 months present; at most 21 backups; the newest always |
| Retention.KeepStable | scripts/src/base-backup.ts:253-275 | keeping from any part between the kept set and the whole keeps the same set |
| Retention.KeepFromPart | scripts/src/base-backup.ts:253-275 | a backup kept of the whole is kept of every part it belongs to |
| Retention.PathIndependence | scripts/src/base-backup.ts:253-275 | pruning and then adding keeps what one pass over everything keeps: choose(choose(M) + N) = choose(M + N) |
| Retention.NewestFirstDescending | scripts/src/base-backup.ts:254-258 | sorting gives every backup once, in strictly descending (time, id) order |
| Retention.DescendingUnique | scripts/src/base-backup.ts:254-258 | there is only one such order, so the choice does not depend on the input order |
| Retention.KeepBuckets | scripts/src/base-backup.ts:260-269 | the loop over `kept` and `observed` computes one pass |
| Retention.ChooseRetentionIds | scripts/src/base-backup.ts:253-275 | the three loops return exactly the ids of the kept set of the given manifests |
| RetentionPolicy.KeptExactly | scripts/src/base-backup.ts:253-275 | of any history of timestamps: a backup is kept iff no backup of its day is later and fewer than 7 days hold a later one, or so for weeks and 4, or for months and 12; later is the greater instant, the greater id on a tie |
| RetentionPolicy.LatestKept | scripts/src/base-backup.ts:253-275 | the backup with the greatest instant, and greatest id among those, is kept in every history that has one |
| RetentionPolicy.SortedLatestFirst | scripts/src/base-backup.ts:254-258 | in the sorted list the instant never grows and on a tie the id falls, so the first has the greatest instant and the greatest id among those |
| Pruning.BackupDirectory.ResumeRetirements | scripts/src/base-backup.ts:224-251 | every marker's artifact and then the marker go, in listing order, with a crash before any step and a refusal at the first marker that is not usable |
| Pruning.BackupDirectory.PruneGenerations | scripts/src/base-backup.ts:283-367 | checks, choice of the doomed, then rename, artifact, marker for each, with a crash before any step |
| Pruning.BackupDirectory.RetireAll | scripts/src/base-backup.ts:343-357 | the retirement loop is the specified sequence of renames and removals |
| Pruning.BackupDirectory.Prune | scripts/src/base-backup.ts:277-367 | resuming and pruning together are one run of the specification |
| PruningSafety.RunSafe | scripts/src/base-backup.ts:277-367 | one run, crashed anywhere, keeps the invariant; completed, it leaves exactly the chosen pairs; it is refused only for an artifact whose publication died between its links, and with enough steps it does not crash |
| PruningSafety.EveryRunSafe | scripts/src/base-backup.ts:224-367 | the invariant holds after every sequence of crashed and complete runs, publications, publications that die between their links, and stray temporaries |
| PruningSafety.CrashClosedPruning | scripts/src/base-backup.ts:224-541 | over all such histories every live manifest has its artifact and every kept backup of the whole history is live; no run is refused and the first complete one leaves exactly the chosen pairs and no marker iff no publication died between its two links, else every run that does not crash is refused for the orphan |
| PruningSafety.KeptAgree | scripts/src/base-backup.ts:253-281 | the choice made on the partly pruned directory is the choice over the whole history |
| PruningSafety.AnyDirectoryFailsClosed | scripts/src/base-backup.ts:224-342 | in a directory in any state a manifest live afterwards still has its artifact unless a marker of its id was there, and a refused run has removed only markers and their artifacts |
| PruningSafety.MarkerBesideLiveManifest | scripts/src/base-backup.ts:224-251 | the exception is real: a marker beside a live manifest of the same id costs that manifest its artifact |
| PruningPolicy.ObjectsIff | scripts/src/base-backup.ts:283-342 | the checks refuse iff the directory is not orderly: regular files only, each a temporary or half of a complete pair, all of one database |
| PruningPolicy.PruneFromExact | scripts/src/base-backup.ts:343-357 | with steps for each, the retirement loop removes exactly the manifests and artifacts of its list, in whatever order, and leaves no marker of them |
| PruningPolicy.RunExactly | scripts/src/base-backup.ts:224-367 | a run that does not die, in a directory in any state, completes iff every marker is usable and what is left after them is orderly; it then leaves exactly the files that are not of a live backup the policy does not keep, with the removed reported in the order of their completion texts |
| PruningPolicy.HistoryKept | scripts/src/base-backup.ts:253-281 | the backups that every run keeps live are exactly those the policy keeps of the whole history, published by timestamps |
| RecoveryArtifact.Sink.WriteAll | scripts/src/recovery-artifact.ts:32-46 | short writes are continued until all bytes are written; it fails only when a write makes no progress, and leaves a prefix |
| RecoveryArtifact.Source.ReadExactly | scripts/src/recovery-artifact.ts:109-122 | on success the exact number of bytes, each seen at its position during the read, across short reads of a changing file |
| RecoveryArtifact.SealOpen | scripts/src/recovery-artifact.ts:55-107 | encrypt then decrypt is the identity on nonempty plaintext; the empty one is refused on reading |
| RecoveryArtifact.EncryptArtifact | scripts/src/recovery-artifact.ts:55-107 | whatever the chunk boundaries and short writes, the sink receives the sealed whole, laid out as `SealedIff` says, with its length and hash; it is refused only for the key length or a write that makes no progress |
| RecoveryArtifact.VerifyArtifact | scripts/src/recovery-artifact.ts:138-163 | on a file that does not change, success iff length and hash are as recorded |
| RecoveryArtifact.AuthenticatePass | scripts/src/recovery-artifact.ts:165-212 | the first pass succeeds only if the snapshot bytes it read carry a valid tag |
| RecoveryArtifact.YieldPass | scripts/src/recovery-artifact.ts:213-250 | the second pass yields exactly the decryption of the authenticated snapshot, in chunks |
| RecoveryArtifact.DecryptArtifact | scripts/src/recovery-artifact.ts:165-250 | with a source that changes between any two reads nothing is yielded unless the tag validates, and what is yielded is the decryption of the authenticated bytes |
| RecoveryArtifact.CryptAppend | scripts/src/recovery-artifact.ts:74-85 | encryption is positional: chunks encrypted at their offsets are the encryption of the whole |
| RecoveryArtifact.SealedIff | scripts/src/recovery-artifact.ts:55-107 | bytes are the sealed plaintext iff they are the 31 bytes of the magic, the 12 of the nonce, bytes that xor with the plaintext are the keystream of key and nonce at their own positions, and the 16 of the tag over magic and those bytes |
| RecoveryArtifact.OpensIff | scripts/src/recovery-artifact.ts:165-250 | an artifact opens to a plaintext iff key and length are in range and it is laid out as that plaintext under the nonce it carries |
| WalNames.TemporaryRecognised | scripts/src/recovery-publication.ts:34-73 | every temporary the publisher makes is recognised as one |
| WalNames.PublishedNames | scripts/src/wal-archive.ts:32-34 | manifest and artifact names are injective in the segment and are no temporaries |
| WalNames.ArchiveNamesPartition | scripts/src/wal-archive.ts:413-422 | the three archive name classes exclude each other, and what is in none is refused |
| WalNames.StagingNamesPartition | scripts/src/wal-archive.ts:550-560 | segment names and hook temporaries exclude each other in the staging directory |
| WalGrammar.WalNameIff | scripts/src/wal-archive.ts:32-34 | the segment names are exactly 24 capital hexadecimal digits, 8 and .history, or 24, a dot, 8 and .backup |
| WalGrammar.TemporaryIff | scripts/src/recovery-publication.ts:62-73 | the archive's temporaries are exactly a published name, .partial-, a process id, a dash and sixteen small hexadecimal digits, whichever way the text is cut |
| WalGrammar.HookTemporaryIff | scripts/src/wal-archive.ts:554-557 | the hook's temporaries are exactly a segment name, .partial. and a process id |
| WalArchive.Archiver.PublishFile | scripts/src/recovery-publication.ts:34-60 | exclusive creation through a temporary and a link; an existing file is never overwritten |
| WalArchive.Archiver.AcknowledgeStaged | scripts/src/wal-archive.ts:182-186 | the staged file is unlinked, and nothing else |
| WalArchive.Archiver.ReplayOne | scripts/src/wal-archive.ts:228-262 | an existing pair is acknowledged only after it validates against the staged bytes |
| WalArchive.Archiver.ArchiveSegment | scripts/src/wal-archive.ts:249-344 | the resumable protocol over staged file, artifact and manifest, with a crash before any step |
| WalArchive.Archiver.ArchiveOnce | scripts/src/wal-archive.ts:531-635 | the loop over the listing archives in order and counts each outcome once |
| WalSafety.ArchiveOneConserves | scripts/src/wal-archive.ts:249-344 | one attempt overwrites and removes no archived file, and unlinks the staged one only when the archive holds a pair that decrypts to exactly its bytes |
| WalSafety.ArchiveOneHealthy | scripts/src/wal-archive.ts:249-344 | a manifest is published only beside its artifact, and opens under the key in use |
| WalSafety.ResumableClosed | scripts/src/wal-archive.ts:249-344 | every crash leaves a resumable state, and a resumable state with steps left completes |
| WalSafety.RetriesComplete | scripts/src/wal-archive.ts:249-344 | any number of crashed attempts followed by one uncrashed attempt acknowledges the segment |
| WalProgress.ReplayIff | scripts/src/wal-archive.ts:228-262 | a segment with a published pair is acknowledged iff the manifest names it, the key is the current one or the retained one of its generation, and artifact and staged bytes are what it records; it counts as of the current or an older generation by its key id |
| WalProgress.TurnCompletes | scripts/src/wal-archive.ts:249-344 | a ready segment with seven steps is acknowledged, as archived if it had no manifest, else as of its generation, with nothing new in the archive but its pair |
| WalProgress.SuccessIsWhole | scripts/src/wal-archive.ts:531-635 | a pass that stops at nothing has acknowledged every segment of its listing, and each is held; its counters are the number of segments that had no manifest, had one, and had one of another key |
| WalProgress.ReadySucceeds | scripts/src/wal-archive.ts:531-635 | with every segment of the listing ready and seven steps for each a pass stops at nothing |
| WalProgress.OlderIsReady | scripts/src/wal-archive.ts:228-262 | a segment whose pair an older generation published is ready as long as that key is retained |
| WalRecovery.EveryRunConserves | scripts/src/wal-archive.ts:531-635 | over all runs of passes, crashes, key rotations and new segments every acknowledged segment stays held under its original key |
| WalRecovery.CheckPairs | scripts/src/wal-archive.ts:413-441 | succeeds iff the archive is exactly pairs of manifest and artifact, temporaries aside |
| WalRecovery.CheckKeys | scripts/src/wal-archive.ts:443-458 | succeeds iff every manifest is of one instance, as expected, and its key is held |
| WalRecovery.RestoreSegments | scripts/src/wal-archive.ts:459-513 | the loop succeeds iff every pair is sound, and the target is then exactly one file per manifest with its decrypted bytes |
| WalRecovery.Materialize | scripts/src/wal-archive.ts:384-529 | it succeeds on exactly the restorable archives, and the target is then exactly the recovered map |
| WalRecovery.EndToEnd | scripts/src/wal-archive.ts:384-635 | after any run of archiving, with crashes and key rotation, a successful restoration holds every acknowledged segment with its original bytes and one file per manifest |
| WalRecovery.RestorableIffKeysHeld | scripts/src/wal-archive.ts:443-513 | an archive of complete pairs made by any run restores iff the request holds the original key of every manifest |
| WalKeyring.PairsIffComplete | scripts/src/wal-archive.ts:413-441 | the archive is accepted iff every file is a temporary or the manifest or artifact of a segment that has both, and there is one |
| WalKeyring.RestorableIff | scripts/src/wal-archive.ts:384-513 | recovery succeeds iff the fingerprint is met, all manifests are of one instance, and each restores under the key of its own id in the ring, or without a ring under the one key of that id, as said of lengths, hashes and decryption |
| WalKeyring.RecoveredIs | scripts/src/wal-archive.ts:459-513 | what a manifest restores to is what ends up in the target under its segment's name |
| WalKeyring.OriginalKeysRestore | scripts/src/wal-archive.ts:384-635 | after any run, over rotations and crashes, a complete archive restores with a ring that holds each original key under its id, or the one key, and the target has every acknowledged segment with its bytes |
| ExportStore.ChunksCoverEnvelope | artifacts/server/src/export-artifact-store.ts:439-459 | ordinals from 0, contiguous offsets, no empty or oversized chunk, and the chunks in order are the envelope |
| ExportStore.ArtifactDirectory.WriteFile | artifacts/server/src/export-artifact-store.ts:406-428 | exclusive write through a temporary; existing equal bytes are accepted, others refused |
| ExportStore.ArtifactDirectory.WriteEnvelope | artifacts/server/src/export-artifact-store.ts:437-467 | the chunk loop writes the split and returns the manifest's entries |
| ExportStore.ArtifactDirectory.PublishEnvelope | artifacts/server/src/export-artifact-store.ts:430-494 | the chunks first, the commit marker last |
| ExportStore.ArtifactDirectory.RestoreMarker | artifacts/server/src/export-artifact-store.ts:704-732 | the marker is written only over a complete set of known files |
| ExportStore.ArtifactDirectory.DeleteArtifact | artifacts/server/src/export-artifact-store.ts:646-701 | matching chunks, then marker and temporaries, then the directory; a different chunk stops it |
| ExportStore.ArtifactDirectory.DeletePartialArtifact | artifacts/server/src/export-artifact-store.ts:735-758 | only a directory that still is the inspected inventory is removed |
| ExportSafety.EveryRunCommits | artifacts/server/src/export-artifact-store.ts:406-758 | over every run of publications, restorations and deletions with crashes, a marker present before deletion starts means every chunk is there with its length and hash |
| ExportSafety.CommittedChunksReadable | artifacts/server/src/export-artifact-store.ts:618-644 | so reading any chunk of a committed manifest succeeds with the recorded length and hash |
| ExportSafety.DeletionResumes | artifacts/server/src/export-artifact-store.ts:646-701 | deletion resumes from each of its crash points, never fails, and ends with the directory gone |
| ExportSafety.DeletionSparesOthers | artifacts/server/src/export-artifact-store.ts:646-701 | whatever the directory, no chunk that differs from the manifest is removed |
| ExportSafety.DeletionSucceedsIff | artifacts/server/src/export-artifact-store.ts:646-701 | with steps left, deletion succeeds on exactly the deletable directories |
| ExportSafety.MarkerTemporaryBlocks | artifacts/server/src/export-artifact-store.ts:406-428 | a left-over temporary of the marker makes inspection, restoration and deletion refuse |
| ExportSafety.CrashedPublicationDeletableIff | artifacts/server/src/export-artifact-store.ts:430-494 | a first publication that dies leaves a deletable directory iff it did not die in the two steps around the marker's temporary |
| ExportStore.ChunksFull | artifacts/server/src/export-artifact-store.ts:439-459 | every chunk but the last has the full chunk length |
| ExportInventory.CommittedIff | artifacts/server/src/export-artifact-store.ts:496-594 | a directory is inspected as committed iff its marker names this request and artifact, every chunk it lists is there with its length and hash, and nothing else is but chunk temporaries |
| ExportInventory.PartialIff | artifacts/server/src/export-artifact-store.ts:496-594 | it is inspected as partial iff it has no marker and only chunks and their temporaries within the ceiling, and then as exactly the names, lengths and hashes on disk |
| ExportInventory.OnlyInspectedRemoved | artifacts/server/src/export-artifact-store.ts:735-758 | if the deletion of a partial artifact changed anything, the directory had no marker and its names, lengths and hashes were those of the fingerprint |
| ExportInventory.PartialDeletionIff | artifacts/server/src/export-artifact-store.ts:735-758 | with enough steps it finishes with the directory gone iff that holds, with no foreign name and within the ceiling; else it fails and changes nothing |
| ExportInventory.DeletionIff | artifacts/server/src/export-artifact-store.ts:646-701 | with enough steps deletion by manifest finishes with the directory gone iff the marker is that manifest or absent, every chunk there is the recorded one, and nothing else is there but chunk temporaries |
| ExportInventory.RestorationIff | artifacts/server/src/export-artifact-store.ts:704-732 | with enough steps the marker is put back iff every chunk of the manifest is there as recorded with nothing foreign beside and no other marker; then nothing else has changed |
| ExportInventory.FinishedIsPublished | artifacts/server/src/export-artifact-store.ts:430-494 | a finished publication has a marker with its own request and artifact, the envelope's length and one entry per chunk of the split, and those chunks |
| ExportInventory.PublishedIsInspected | artifacts/server/src/export-artifact-store.ts:430-594 | it is then inspected as committed under its own ids, unless something foreign lies beside it |
| ExportInventory.FreshPublicationFinishes | artifacts/server/src/export-artifact-store.ts:430-494 | from an absent directory an envelope within the ceiling is published in three steps a chunk and four more, and is inspected as committed |
| ByteCodecs.BigEndianRoundTrip | artifacts/server/src/export-artifact-store.ts:214-216 | a length written in w bytes reads back as itself iff it is below 256^w |
| ByteCodecs.MostSignificantFirst | artifacts/server/src/export-artifact-store.ts:214-216 | the four bytes of a length are its quotients by 256^3, 256^2, 256 and 1, modulo 256 |
| ByteCodecs.Base64RoundTrip | artifacts/server/src/export-artifact-store.ts:191-205 | decoding the base64url of any bytes gives them back |
| ByteCodecs.Base64Means | artifacts/server/src/export-artifact-store.ts:191-205 | three bytes become the four base64url digits of their number, one or two left over the two or three digits of theirs, shifted |
| ByteCodecs.WholeGroupsRoundTrip | artifacts/server/src/export-artifact-store.ts:257-258 | text of whole groups of four has one reading, which encodes to it |
| ExportEnvelope.EncodesIff | artifacts/server/src/export-artifact-store.ts:162-205 | encoding refuses exactly: an audit chain without attestation, a wrong key or nonce length, a changed component |
| ExportEnvelope.EncodedLaidOut | artifacts/server/src/export-artifact-store.ts:162-205 | an encoded export is the magic, the header length in four bytes, the header of these ids, hash and nonce, bytes that xor with the package of all the input are the keystream at their own positions, and the tag over the header and those bytes |
| ExportEnvelope.EnvelopeRoundTripIff | artifacts/server/src/export-artifact-store.ts:162-324 | chunked, joined and decrypted, an encoded export gives back its header, scope, snapshot, attestation and components iff it is self-consistent with nonempty components, and is refused otherwise |
| ExportEnvelope.OpenedEncodesBack | artifacts/server/src/export-artifact-store.ts:228-324 | an envelope that opens is byte for byte the encoding of what it opened to, except an audit chain without attestation, which the encoder refuses |
| EnvelopeOpening.OpensIff | artifacts/server/src/export-artifact-store.ts:228-324 | bytes decrypt to an export under a key iff they are its header and package laid out under the header's nonce, with a header text of 2 to 16384 bytes, texts that read back, and contents that fit together as listed; so every other byte string is refused |
| ExportReconcile.TurnCountsOnce | artifacts/server/src/core-worker-handlers.ts:880-1009 | a turn of the loop that ends normally adds one to exactly one of the seven counters, one that throws in the try part, in the catch part or in the store adds nothing |
| ReconcileTurns.TurnTable | artifacts/server/src/core-worker-handlers.ts:880-1009 | exactly when each of the seven counters rises and when the turn throws, read off row, inventory and what the transactions do; an anomaly iff one of the listed cases holds |
| ReconcileTurns.RowTable | artifacts/server/src/core-worker-handlers.ts:915-1005 | the row after a turn: completed, with its jobs settled if that commits too; failed where it may be; what another worker left; else as it was |
| ReconcileTurns.DiskTable | artifacts/server/src/core-worker-handlers.ts:906-1005 | the files after a turn: the directory deleted by its manifest, deleted as inspected, or its marker restored in exactly the listed cases, as far as the store gets; else nothing changes |
| ReconcileTurns.DirectoryAfter | artifacts/server/src/core-worker-handlers.ts:880-1009 | a directory that was inspected and counted: gone if deleted, inspected as committed under the recorded manifest if restored, untouched if anything else was counted |
| ReconcileTurns.CaughtTable | artifacts/server/src/core-worker-handlers.ts:945-975 | after a completion that threw: healthy, failed with the directory deleted, or preserved, by what the row says then |
| ExportReconcile.Reconciler.ReconcileEntry | artifacts/server/src/core-worker-handlers.ts:880-1009 | one entry takes the specified branch on database, disk and the seven counters, with transactions that may commit, roll back or commit and throw; it increments exactly one counter once, or throws and increments none |
| ExportReconcile.Reconciler.CompleteBuild | artifacts/server/src/core-worker-handlers.ts:930-944 | the try part counts a recovery only after completion and settlement have both committed |
| ExportReconcile.Reconciler.CatchFailure | artifacts/server/src/core-worker-handlers.ts:945-975 | a completion that threw is judged again by the refreshed row, on top of what the try part counted |
| ExportReconcile.Reconciler.ReconcileAll | artifacts/server/src/core-worker-handlers.ts:887-1009 | wherever the loop throws, the counters went up by exactly the number of turns that ended normally |
| ExportReconcile.Reconciler.ReconcileExports | artifacts/server/src/core-worker-handlers.ts:865-1027 | scan, loop and the seven counters are one pass of the specification; any anomaly refuses at the end |
| ReconcileSafety.EveryEntryCountedOnce | artifacts/server/src/core-worker-handlers.ts:865-1027 | the counters of a pass that returns add up to the scanned directories, none an anomaly; those of one that reports anomalies add up too; after a throw they add up to the directories before it |
| ReconcileSafety.PassSpares | artifacts/server/src/core-worker-handlers.ts:880-1009 | no pass, however interrupted, removes or alters a file of a served artifact or of a leased build whose request has not expired |
| ReconcileSafety.StepEffect | artifacts/server/src/core-worker-handlers.ts:880-1009 | a counted, non-anomalous step moves its row and directory to a reconciled state and touches nothing else |
| ReconcileSafety.SecondPassIdleIff | artifacts/server/src/core-worker-handlers.ts:865-1027 | after a normal return over a database nobody else changed, while time passes as it likes, a second pass deletes and changes nothing iff no request was overtaken in the first and none with a partial directory expires before its turn in the second |
| ReconcileSafety.OvertakenExample | artifacts/server/src/core-worker-handlers.ts:987-1005 | a concrete site whose first pass returns normally and whose second pass is not idle |
| ReconcileSafety.CompletionSettlesIff | artifacts/server/src/core-worker-handlers.ts:929-956 | a committed completion leaves no pending job iff the settling transaction commits too; otherwise no later pass looks at them |
| AuditCatchup.AuditLedger.Sign | artifacts/server/src/core-worker-handlers.ts:1104-1150 | the loop with its moving target is the specification, and an error leaves the tables as they were |
| AuditCatchup.CatchUpExact | artifacts/server/src/core-worker-handlers.ts:1122-1147 | at every iteration the target is the moving head, and the loop succeeds iff the segments still needed fit in the 1002 |
| AuditCatchup.SignsIff | artifacts/server/src/core-worker-handlers.ts:1107-1148 | signing succeeds iff the watermark is reached and the backlog P is 1 to 1,000,999; it uses max(1, ceil((P-1)/999)) segments that cover the backlog without a gap |
| AuditCatchup.SigningAgain | artifacts/server/src/core-worker-handlers.ts:1107-1148 | signing again right away covers exactly the one attestation the first call left |
| JsonSize.EscapedBound | artifacts/server/src/communications-list-read.ts:56-57 | escaping a string takes at most six bytes for each of its UTF-8 bytes |
| JsonSize.FlatObjectBound | artifacts/server/src/communications-list-read.ts:53-57 | a flat object's text is at most fixedObject of its keys and six bytes a UTF-8 byte of its scalars, nulls included |
| JsonSize.CompactNotLonger | artifacts/server/src/response-allocation.ts:80-81 | compact text is never longer than text with PostgreSQL's spacing |
| JsonSize.DriftBound | artifacts/server/src/board-vote-read-projection.ts:157-161 | rows with distinct keys, each within an admitted row of its key, total no more in number and charge |
| BoardVoteAdmission.RowBound | artifacts/server/src/board-vote-read-projection.ts:84-111 | one page row costs at most 286 (or 326) and six bytes a measured byte, 15 (or 16) members, 2 containers |
| BoardVoteAdmission.PageBound | artifacts/server/src/board-vote-read-projection.ts:180-193 | the rendered page is within boardVotePageCost of its own snapshot |
| BoardVoteAdmission.GateNeverCostsMore | artifacts/server/src/board-vote-read-projection.ts:157-161 | a later snapshot behind the gate costs no more than the admitted one |
| BoardVoteAdmission.ReservationBoundsPage | artifacts/server/src/board-vote-read-projection.ts:152-282 | for any two snapshots a returned page is the whole second snapshot, every row observed in the first, and within what was reserved |
| BoardVoteAdmission.PageLoadsIff | artifacts/server/src/board-vote-read-projection.ts:194-282 | over well-formed snapshots the read succeeds iff the gate holds; unchanged snapshots always load |
| BoardVoteAdmission.PageMetadata | artifacts/server/src/board-vote-read-projection.ts:194-227 | the loop with its set of seen keys accepts exactly rows with countable scalars, fitting joins and distinct keys |
| BoardVoteAdmission.LoadAdmittedPage | artifacts/server/src/board-vote-read-projection.ts:248-282 | the loader is the specified read |
| BoardVoteOutcomes.MetadataPassesIff | artifacts/server/src/board-vote-read-projection.ts:194-227 | metadata passes iff every row has fewer than 25 digits of bytes, its joins, and ids unlike those of any row before; else the first row that has not decides how it is refused |
| BoardVoteOutcomes.PageOutcome | artifacts/server/src/board-vote-read-projection.ts:135-282 | a page is the later snapshot iff 1 to 501 rows were asked for and no more observed, all fine, 2 + 286 (or 326) a row + 6 a measured byte granted, and every later row is an observed one in ids, times and digest and no longer; else Invalid for a bad request or repeated row, Unavailable for the rest |
| VoteViewAdmission.ProxyViewBound | artifacts/server/src/board-vote-read-projection.ts:336-347 | the whole proxy view, revocations nested or null, is within 54 + 186r + 77v + 6s bytes and the reported counts |
| VoteViewAdmission.ReservationBoundsProxy | artifacts/server/src/board-vote-read-projection.ts:358-443 | a returned proxy status is within its reservation, be the later snapshot the admitted one or empty |
| VoteViewAdmission.ProxyLoadsIff | artifacts/server/src/board-vote-read-projection.ts:336-443 | the proxy read succeeds iff its gate holds and the loaded grants are those asked for |
| VoteViewAdmission.CheckGrants | artifacts/server/src/board-vote-read-projection.ts:410-428 | the loop with its set of seen grants accepts exactly distinct grants of the vote and the member with named revocations |
| VoteViewAdmission.VoteLineageCost | artifacts/server/src/board-vote-read-projection.ts:486-504 | the loop over s, n and o accepts exactly measured arrays of at most two edges and returns the charge |
| VoteViewAdmission.LineageViewBound | artifacts/server/src/board-vote-read-projection.ts:486-504 | the lineage view with its nested arrays is within 36 + 227r + 6s + n bytes and the reported counts |
| VoteViewAdmission.LoadLineage | artifacts/server/src/board-vote-read-projection.ts:512-573 | the lineage read succeeds iff metadata, reservation, gate and item identities allow it, and is then within its reservation |
| VoteViewAdmission.SelectedEdgeOwn | artifacts/server/src/board-vote-read-projection.ts:558-571 | behind the gate an item made from the compared columns passes its identity check |
| BoardVoteOutcomes.ProxyOutcome | artifacts/server/src/board-vote-read-projection.ts:311-443 | whatever the ids and snapshots, grants are returned iff counts and bytes are plausible, 54 + 186r + 77v + 6s granted, the later snapshot empty or the admitted one in counts and digest and no longer, and each grant, by the names of its fields, one of the vote to or by the member, none twice |
| BoardVoteOutcomes.LineageOutcome | artifacts/server/src/board-vote-read-projection.ts:465-573 | what a lineage read asks for, on the edges alone: at most two that touch the vote, 252 + 227r + 6s + n granted, every later edge an admitted one in columns, digest and array count and no longer, naming its votes |
| DocumentAdmission.ObserveRows | artifacts/server/src/document-metadata-projection.ts:205-249 | the loop over ids and total accepts exactly the legal selections and returns their total |
| DocumentAdmission.KindKeys | artifacts/server/src/document-metadata-projection.ts:182-187 | the four coefficients are the cost of their key lists and wrappers |
| DocumentAdmission.LoadDocuments | artifacts/server/src/document-metadata-projection.ts:272-337 | for any two snapshots a returned page is the second one within the reservation for the first; success iff acceptable, granted, gated, in order, with the cursors observed and the identities asked for |
| DocumentAdmission.CheckTuples | artifacts/server/src/document-metadata-projection.ts:304-335 | the loop over `previous` accepts exactly rows that match observed tuples in order |
| DocumentAdmission.SelectedMatch | artifacts/server/src/document-metadata-projection.ts:304-335 | behind the gate, over rows the query selected, the checks come down to the order |
| DocumentOutcomes.SubsequenceIff | artifacts/server/src/document-metadata-projection.ts:304-335 | the checks on the returned rows pass iff they are a subsequence of the observed ones, by id and cursor, each naming, by its fields, its row and what was asked for |
| DocumentOutcomes.DocumentOutcome | artifacts/server/src/document-metadata-projection.ts:188-335 | what a document read asks for, on the rows alone: limits, countable rows, the literal reservation of its kind granted, every later row an observed one in id, times and digest and no longer, and the subsequence |
| DocumentAdmission.ReservationBoundsCertificate | artifacts/server/src/certificate-tool-projection.ts:115-132 | the certificate view with its arbitrary nested payload is within 267 + 6s + n bytes and the reported counts, for a later snapshot behind the gate |
| DocumentOutcomes.CertificateGateIff | artifacts/server/src/certificate-tool-projection.ts:87-132 | the gate passes iff id, board, digest and stored length are the same and no measure is larger; the reservation is 267 + 6s + n bytes |
| ProposalInspection.MeasurePayload | artifacts/server/src/proposal-payload-inspection.ts:63-115 | the iterative walk with its stack refuses exactly when the recursive measure does and returns the same totals |
| ProposalInspection.MeasureBounds | artifacts/server/src/proposal-payload-inspection.ts:42-115 | accepted payloads are measured exactly in members and containers, and in bytes of JSON.stringify but for what six bytes a UTF-8 byte leave over in their strings |
| ProposalInspection.AcceptedIff | artifacts/server/src/proposal-payload-inspection.ts:42-83 | a parsed payload is measured iff its strings are ASCII or in normal form, its numbers finite, and it nests at most 512 containers |
| ProposalText.RawDepth | artifacts/server/src/proposal-payload-inspection.ts:18-39 | the loop over quotes, escapes and brackets is the specified scan |
| ProposalText.ScanMeasures | artifacts/server/src/proposal-payload-inspection.ts:18-39 | the scan of any text refuses it iff its brackets nest over 512 and else raises the maximum to their nesting |
| ProposalText.InspectText | artifacts/server/src/proposal-payload-inspection.ts:122-156 | depth, then syntax, then measure |
| ProposalText.RawTextAcceptedIff | artifacts/server/src/proposal-payload-inspection.ts:18-156 | a raw text is accepted iff it is JSON, clean, and nests at most 512 containers, dropped branches included; maxDepth is its nesting |
| ProposalText.DroppedBranchRefused | artifacts/server/src/proposal-payload-inspection.ts:16-39 | an object nested too deep under a repeated name is refused although its value would be shallow |
| CommunicationsRows.ReferencesBound | artifacts/server/src/communications-list-read.ts:112-133 | a supported reference list is within its metered count and bytes |
| CommunicationsRows.ProposalBound | artifacts/server/src/communications-list-read.ts:220-257 | a proposal row is within json_upper, property_count and object_count, its payload apart |
| CommunicationsRows.RequestBound | artifacts/server/src/communications-list-read.ts:170-208 | a secretariat request with its turns and references is within its metered cost |
| CommunicationsAdmission.ChargeFrontier | artifacts/server/src/communications-list-read.ts:397-410 | the preflight loop accepts exactly supported, countable rows with a safe canonical total, and charges their sum |
| CommunicationsAdmission.InspectPayloads | artifacts/server/src/communications-list-read.ts:433-459 | the inspection loop succeeds iff every row is inspectable under its frontier row, and gathers each payload once |
| CommunicationsAdmission.DeliverPage | artifacts/server/src/communications-list-read.ts:461-489 | the last loop delivers one row per row of the content snapshot, all of the frontier, none twice, each proposal with the id, digest and version of its frontier row |
| CommunicationsAdmission.DriftCosts | artifacts/server/src/communications-list-read.ts:265-282 | rows with distinct ids within the bounds of their ids cost no more in all three measures |
| CommunicationsAdmission.PageWithin | artifacts/server/src/communications-list-read.ts:265-282 | the page costs no more than the frontier and the inspected payloads were charged |
| CommunicationsAdmission.LoadAdmittedList | artifacts/server/src/communications-list-read.ts:365-490 | for any three snapshots a normal return has distinct rows of the original frontier, each proposal with the payload inspected under its length and digest, in all within the final reservation, which never shrinks; undisturbed reads succeed |
| CommunicationsOutcomes.FixedAllowances | artifacts/server/src/communications-list-read.ts:53-106 | the five fixed allowances are two bytes of braces and ten more than its name for every key, nested values included |
| CommunicationsOutcomes.RequestMetered | artifacts/server/src/communications-list-read.ts:170-208 | the metadata query charges a request 201 + 6 a byte, 195 + 6 a byte for each turn and 33 + 6 a byte for each reference of one, with 10, 9 and 2 members and 2, 2 and 1 containers |
| CommunicationsOutcomes.ProposalMetered | artifacts/server/src/communications-list-read.ts:210-257 | it charges a proposal 271 + 6 a byte, 33 + 6 a byte for each reference and 136 + 6 a byte for a disposition, with 13, 2 and 6 members and 2, 1 and 1 containers |
| CommunicationsOutcomes.RequestsOutcome | artifacts/server/src/communications-list-read.ts:365-490 | a secretariat list is returned iff the limit is in range, every row supported and countable, their metered total granted, and every later row one of them in id, version and digest and no dearer |
| CommunicationsOutcomes.ProposalsOutcome | artifacts/server/src/communications-list-read.ts:365-490 | a proposals list is returned iff so, and every payload of the second snapshot has the length and digest the first holds and is accepted, the totals of both are granted, and every row of the third is one whose payload was inspected, naming its id, digest and version |
| SourceTree.FrameInjective | scripts/src/source-tree-sha256.ts:7-11 | an eight-byte frame reads back as its length below 2^64 |
| SourceTree.EntryBytes | scripts/src/source-tree-sha256.ts:21-34 | an entry is the framed name, a zero byte and a zero frame for a missing file, else a one byte and the framed content |
| SourceTree.FramedBytes | scripts/src/source-tree-sha256.ts:7-20 | the digest input is the domain, the count and the entries in order |
| SourceTree.EntryPrefixFree | scripts/src/source-tree-sha256.ts:21-34 | no entry is a proper prefix of another |
| SourceTree.UniquelyDecodable | scripts/src/source-tree-sha256.ts:13-36 | equal digest input means equal lists of names and contents, a missing file distinct from an empty one |
| SourceTree.DigestsAgreeIff | scripts/src/source-tree-sha256.ts:13-36 | two trees have one digest iff they are equal, unless they collide |
| SourceTree.SourceTreeSha256 | scripts/src/source-tree-sha256.ts:13-36 | the loop returns the hash of the framed list, and fails iff a read fails otherwise than by absence or a length does not fit |
| KeyInstall.RoleFiles.Put | scripts/src/key-generation-install.ts:391-395 | a path is taken in iff it is new and has no component that begins with a dot |
| KeyInstall.RoleFiles.CheckPrefixes | scripts/src/key-generation-install.ts:474-482 | the upward walks succeed iff no path is a directory of another |
| KeyInstall.CollisionMeans | scripts/src/key-generation-install.ts:498-509 | a collision with what a role has built so far means the plan does not fit together |
| KeyInstall.FitsGrows | scripts/src/key-generation-install.ts:498-509 | a file that collides with nothing built so far fits the plan so far |
| KeyInstall.Installer.InitializeDirectory | scripts/src/key-generation-install.ts:486-496 | a new directory and its marker, collision only with a planned file |
| KeyInstall.Installer.InstallFile | scripts/src/key-generation-install.ts:501-508 | the missing directories from the top down, then the file |
| KeyInstall.Installer.Finish | scripts/src/key-generation-install.ts:537-542 | markers off, compose.yaml, generation.json, in this order, with a crash before any step |
| KeyInstall.Installer.Install | scripts/src/key-generation-install.ts:483-542 | refused only if the paths do not fit together, done only if they do; done leaves exactly the planned tree; in every crash state generation.json means all else is complete and unmarked; in every state nothing lies in an unmarked directory until every planned file is in place |
| KeyTree.FinalTreeExactly | scripts/src/key-generation-install.ts:483-542 | of paths that fit together the finished tree is, path by path, each planned file with its bytes below server, worker, operator or recovery, the directories above them, compose.yaml and generation.json, and nothing else |
| KeyTree.InterruptedIff | scripts/src/key-generation-install.ts:486-541 | what Install says of a crash: unless every planned file is in place with its bytes, nothing lies in a directory that has not its .initialization-incomplete beside it |
| PinnedFetch.SettlesAtMostOnce | artifacts/server/src/client-registration.ts:441-542 | over every interleaving at most one of resolve and reject is called; deadline and abort listener are there iff unsettled |
| PinnedFetch.SettledByFirst | artifacts/server/src/client-registration.ts:441-542 | the one settlement is the verdict on the first event that has one, read off the events before it: what ended, timed out, went over maxBytes, was refused or failed first |
| PinnedFetch.AbortedRun | artifacts/server/src/client-registration.ts:452-468 | an attempt on a signal aborted beforehand is rejected as a timeout once, whatever comes, and destroys every response that arrives |
| PinnedFetch.LateResponses | artifacts/server/src/client-registration.ts:487-492 | a settled attempt destroys each response that still arrives and nothing else |
| PinnedFetch.ResolvedBody | artifacts/server/src/client-registration.ts:508-530 | a resolved body is the concatenation of all data received from an accepted response before its end, at most maxBytes |
| PinnedFetch.SettledForGood | artifacts/server/src/client-registration.ts:452-460 | later events change nothing about a settled attempt |
| PinnedFetch.DeadlineSettles | artifacts/server/src/client-registration.ts:461-468 | a deadline, abort or request error settles whatever is open |
| PinnedFetch.CloseSettles | artifacts/server/src/client-registration.ts:493-537 | a closed response, or a request closed before any, leaves nothing open |
| PinnedFetch.Attempt.OnResponse | artifacts/server/src/client-registration.ts:487-507 | the response handler is the specified step |
| PinnedFetch.Attempt.OnData | artifacts/server/src/client-registration.ts:508-517 | the data handler is the specified step |
| PinnedFetch.Attempt.OnEnd | artifacts/server/src/client-registration.ts:518-530 | the end handler is the specified step |
| PinnedFetch.Attempt.Refuse | artifacts/server/src/client-registration.ts:452-460 | failing settles once, drops the chunks and destroys what is open |
| Int32.OctetPair | artifacts/server/src/auth-page.ts:140-145 | shift and or of two octets are a * 256 + b |
| Int32.OctetNumber | artifacts/server/src/client-registration.ts:143-148 | the shifts of the four octets, the sign of the first taken back, are their places in the number |
| Int32.HalfWords | artifacts/server/src/client-registration.ts:182-193 | mask and unsigned shift give the two halves of a 32-bit number |
| IpAddress.ParsersAgree | artifacts/server/src/client-registration.ts:182-209 | the two copies of the IPv6 parser, with their 32-bit operators, agree on every input |
| IpAddress.OctetsOfDotted | artifacts/server/src/auth-page.ts:128-132 | the dotted text of four octets reads back as them |
| IpAddress.ParsesForm | artifacts/server/src/auth-page.ts:134-162 | every legal IPv6 text, in either case, elided or not, with or without a dotted quad, parses to the address it denotes |
| IpAddress.AcceptedIff | artifacts/server/src/auth-page.ts:164-174 | a text has a normal form iff it denotes an address |
| IpAddress.SameNormalFormIff | artifacts/server/src/auth-page.ts:164-174 | two accepted texts normalise alike iff they denote the same address, mapped IPv6 being IPv4 |
| IpAddress.NormalizingTwice | artifacts/server/src/auth-page.ts:164-174 | normalising is idempotent |
| IpNormalForm.NormalText | artifacts/server/src/auth-page.ts:164-174 | the normal form of any IPv6 text, letter by letter: a dotted quad if the first five groups are 0 and the sixth 65535, else 39 characters, eight groups of four lower-case digits with their values and a colon between |
| IpNormalForm.MappedText | artifacts/server/src/auth-page.ts:164-174 | an IPv4 address, alone or behind ::ffff: in either case, normalises to its own dotted text |

## Left out

- PruningSafety.MarkerBesideLiveManifest: shows a state only another writer can make, because no run of the model reaches it.
- RecoveryArtifact.VerifyArtifact: states length and hash for a file that does not change meanwhile, because for a changing one the hash is of a mixture of its versions.
- WalSafety.RetriesComplete: asks each retry for fresh temporary names, which the source draws at random.
- ExportStore.ArtifactDirectory.PublishEnvelope: leaves out the abort checks, because an abort between two steps is a crash there.
- ExportStore.ArtifactDirectory.DeleteArtifact: leaves out locators, file kinds and the request directory above, because the model holds one artifact directory of regular files.
- ExportStore.ArtifactDirectory.DeletePartialArtifact: has the files themselves for their fingerprint, and no request directory above.
- ProposalText.RawTextAcceptedIff: takes JSON.parse as a function whose values nest no deeper than their texts.
- CommunicationsAdmission.DeliverPage: has the null payload of a loaded item by construction, because the query writes it.
- ReconcileSafety.SecondPassIdleIff: speaks of the directories the first pass scanned, because the source scans at most a hundred.
- Names of base backups and their parts are constructors, not text; the text of the WAL and recovery names is modelled.
- File kinds other than regular files, symbolic links, permissions, ownership, fsync, key zeroing, time limits and abort signals (an abort is a crash between two steps).
- The removal of both files when a base backup publication fails without dying; no event remains of it.
- Chunk file names with leading zeros.
- The clean-up loop before reconciliation, its alerts, and the failing of stopped queued exports: repeated calls of database functions.
- Manifests, headers and packages as JSON text: they are values, with their codecs as parameters.
- Timestamps as text beyond the fields they spell, and the report fields and counters of temporaries.
- The row ordering and row-level security of the SQL, jsonb's ordering of object keys (it does not change a size), and page encoding after the rows are loaded.
- The other projections with a flat reservation (export status, certificate resource, draft resume): the same bound on one row, nothing new.
- The allocation manager behind a reservation, and the formula from a reservation to units.
- `loopbackIp`, `ipClass` and the public address ranges, which read single groups of a parsed address.
- DNS pinning, TLS options and header reading of the metadata fetch; the response's content type.
- Key loading, database checks and compose text of the key-generation install; an empty path component, which no planned path has.
