/**
  Which bytes decrypt to which export, told from the layout and the contents alone
  (artifacts/server/src/export-artifact-store.ts, decryptExportEnvelope).
*/
module EnvelopeOpening {
  import opened Wrappers
  import opened ExportEnvelope
  import ByteCodecs
  import RecoveryArtifact

  /** The package that an opened export came in. */
  function PackageIn(o: Opened): Package {
    Package(o.attestation, o.scope, o.snapshot, Pack(o.components))
  }

  /**
    The contents fit together: an attestation only for an audit chain, a valid snapshot of
    this scope under the header's ids and hash, and for each of its descriptors the one
    component it describes, nonempty and unchanged.
  */
  predicate FitsTogether(c: RecoveryArtifact.Crypto, codec: Codec, o: Opened) {
    && (o.attestation.Some? ==> o.scope.exportType.AuditChain?)
    && codec.validSnapshot(o.snapshot) && codec.snapshotHash(o.snapshot) == o.header.snapshotSha256
    && o.snapshot.exportRequestId == o.header.exportRequestId && o.snapshot.organizationId == o.header.organizationId
    && o.scope.organizationId == o.snapshot.organizationId && o.scope.boardId == o.snapshot.boardId && o.scope.exportType == o.snapshot.exportType
    && codec.scopeHash(o.scope) == o.snapshot.scopeSha256
    && 1 <= |o.components| <= 256 && |o.components| == |o.snapshot.components|
    && forall k | 0 <= k < |o.components| ::
         && o.components[k].bytes != [] && c.hash(o.components[k].bytes) == o.components[k].sha256
         && o.snapshot.components[k] == Descriptor(o.components[k].name, o.components[k].rowCount, o.components[k].sha256, |o.components[k].bytes|)
  }

  /** The texts of header and package read back, and the header's is of 2 to 16384 bytes. */
  predicate ReadsBack(codec: Codec, o: Opened) {
    && 2 <= |codec.headerText(o.header)| <= 16384 && codec.parseHeader(codec.headerText(o.header)) == Some(o.header)
    && codec.packageText(PackageIn(o)) != [] && codec.parsePackage(codec.packageText(PackageIn(o))) == Some(PackageIn(o))
  }

  /** The bytes are the export's header and package, laid out under this key and the header's nonce. */
  predicate OpensUnder(c: RecoveryArtifact.Crypto, codec: Codec, bytes: Bytes, key: Bytes, o: Opened, nonce: Bytes) {
    && |key| == 32 && |nonce| == 12 && o.header.nonce == ByteCodecs.Base64(nonce)
    && ReadsBack(codec, o) && FitsTogether(c, codec, o)
    && LaidOut(c, key, nonce, codec.headerText(o.header), codec.packageText(PackageIn(o)), bytes)
  }

  lemma {:induction false} LaidOutIs(c: RecoveryArtifact.Crypto, key: Bytes, nonce: Bytes, header: Bytes, plain: Bytes, bytes: Bytes)
    requires c.Valid() && LaidOut(c, key, nonce, header, plain, bytes)
    ensures bytes == Assemble(c, key, nonce, header, plain)
  {
    MagicIs();
    hide MAGIC, RecoveryArtifact.Crypt, RecoveryArtifact.Keyed, ByteCodecs.BigEndian;
    var start := 35 + |header|;
    RecoveryArtifact.CryptKeyed(c, key, nonce, plain, bytes[start..start + |plain|]);
    assert bytes == bytes[..31] + bytes[31..35] + bytes[35..start] + bytes[start..start + |plain|] + bytes[start + |plain|..];
  }

  /** A package text opens to an export iff it is the text of that export's package, which reads back, and its contents fit together. */
  lemma {:induction false} PackageOpens(c: RecoveryArtifact.Crypto, codec: Codec, plain: Bytes, o: Opened)
    ensures OpenPackage(c, codec, o.header, plain) == Ok(o) <==>
              && plain == codec.packageText(PackageIn(o)) && codec.parsePackage(plain) == Some(PackageIn(o)) && FitsTogether(c, codec, o)
  {
    hide ByteCodecs.Base64, ByteCodecs.FromBase64, Pack, Unpack;
    PackedUnpacks(o.components);
    if OpenPackage(c, codec, o.header, plain) == Ok(o) {
      OpenedPackage(c, codec, o.header, plain, o);
      PackageParsed(c, codec, plain, o);
      PackedMatch(c, o.snapshot.components, o.components);
      DescribedAll(c, codec, o);
    } else if plain == codec.packageText(PackageIn(o)) && codec.parsePackage(plain) == Some(PackageIn(o)) && FitsTogether(c, codec, o) {
      PackedMatch(c, o.snapshot.components, o.components);
      assert forall k | 0 <= k < |o.components| :: Describes(c, o.snapshot.components[k], o.components[k]);
    }
  }

  lemma {:induction false} PackageParsed(c: RecoveryArtifact.Crypto, codec: Codec, plain: Bytes, o: Opened)
    requires OpenPackage(c, codec, o.header, plain) == Ok(o)
    ensures codec.parsePackage(plain) == Some(PackageIn(o)) && Acceptable(codec, PackageIn(o)) && Bound(codec, o.header, PackageIn(o))
    ensures |o.snapshot.components| == |o.components|
    ensures forall k | 0 <= k < |o.components| :: Matches(c, o.snapshot.components[k], Pack(o.components)[k])
  {
    hide Acceptable, Matches, Pack, Unpack;
    var p := codec.parsePackage(plain).value;
    UnpackedPacks(c, p.snapshot.components, p.components);
    assert p == PackageIn(o);
  }

  lemma {:induction false} DescribedAll(c: RecoveryArtifact.Crypto, codec: Codec, o: Opened)
    requires Acceptable(codec, PackageIn(o)) && Bound(codec, o.header, PackageIn(o))
    requires forall k | 0 <= k < |o.components| :: Describes(c, o.snapshot.components[k], o.components[k])
    ensures FitsTogether(c, codec, o)
  {
    hide ByteCodecs.Base64, ByteCodecs.FromBase64;
    PackedUnpacks(o.components);
  }

  /** Bytes decrypt to an export under a key iff they are that export laid out under it. */
  lemma {:induction false} OpensIff(c: RecoveryArtifact.Crypto, codec: Codec, bytes: Bytes, key: Bytes, o: Opened)
    requires c.Valid()
    ensures Decode(c, codec, bytes, key) == Ok(o) <==> exists nonce :: OpensUnder(c, codec, bytes, key, o, nonce)
  {
    hide Decode, OpensUnder;
    if Decode(c, codec, bytes, key) == Ok(o) { DecodedOpens(c, codec, bytes, key, o); }
    if nonce :| OpensUnder(c, codec, bytes, key, o, nonce) { OpensDecoded(c, codec, bytes, key, o, nonce); }
  }

  lemma {:induction false} DecodedOpens(c: RecoveryArtifact.Crypto, codec: Codec, bytes: Bytes, key: Bytes, o: Opened)
    requires c.Valid() && Decode(c, codec, bytes, key) == Ok(o)
    ensures OpensUnder(c, codec, bytes, key, o, ByteCodecs.FromBase64(o.header.nonce))
  {
    hide Decode, OpenPackage, MAGIC, Assemble, LaidOut, FitsTogether, RecoveryArtifact.Crypt, ByteCodecs.FromBase64, ByteCodecs.FromBigEndian, ByteCodecs.Base64, Pack;
    OpenedPieces(c, codec, bytes, key, o);
    HeaderRead(c, codec, bytes, key, o);
    var nonce := ByteCodecs.FromBase64(o.header.nonce);
    var h := |MAGIC| + 4;
    var t, e := h + ByteCodecs.FromBigEndian(bytes[|MAGIC|..h]), |bytes| - 16;
    Reassembles(c, codec, bytes, key, o, h, t, e);
    var plain := RecoveryArtifact.Crypt(c, key, nonce, 0, bytes[t..e]);
    PackageOpens(c, codec, plain, o);
    NonceReadsBack(o.header.nonce);
    RecoveryArtifact.CryptTwice(c, key, nonce, 0, bytes[t..e]);
    AssembledLaidOut(c, key, nonce, codec.headerText(o.header), plain);
  }

  lemma {:induction false} HeaderRead(c: RecoveryArtifact.Crypto, codec: Codec, bytes: Bytes, key: Bytes, o: Opened)
    requires Decode(c, codec, bytes, key) == Ok(o)
    ensures |key| == 32 && 2 <= |codec.headerText(o.header)| <= 16384 && codec.parseHeader(codec.headerText(o.header)) == Some(o.header)
  {
    hide Acceptable, Bound, Matches, Unpack, MAGIC, RecoveryArtifact.Crypt, ByteCodecs.FromBase64, ByteCodecs.FromBigEndian;
  }

  lemma {:induction false} OpensDecoded(c: RecoveryArtifact.Crypto, codec: Codec, bytes: Bytes, key: Bytes, o: Opened, nonce: Bytes)
    requires c.Valid() && OpensUnder(c, codec, bytes, key, o, nonce)
    ensures Decode(c, codec, bytes, key) == Ok(o)
  {
    hide Decode, OpenPackage, Assemble, LaidOut, FitsTogether, RecoveryArtifact.Crypt, ByteCodecs.Base64, Pack;
    var plain := codec.packageText(PackageIn(o));
    LaidOutIs(c, key, nonce, codec.headerText(o.header), plain, bytes);
    AssembledOpens(c, codec, key, nonce, o.header, PackageIn(o));
    PackageOpens(c, codec, plain, o);
  }
}
