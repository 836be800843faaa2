/**
  The encrypted export envelope (artifacts/server/src/export-artifact-store.ts,
  encodeEnvelope and decryptExportEnvelope).

  AES-256-GCM and SHA-256 are those of `RecoveryArtifact.Crypto`.  Canonical JSON and
  its parsers, schema shapes included, are the function values of `Codec`.
*/
module ExportEnvelope {
  import opened Wrappers
  import ByteCodecs
  import ExportStore
  import RecoveryArtifact

  type Text = seq<ByteCodecs.Sextet>

  const MAGIC: Bytes := Ascii("BOARDAGENT-EXPORT-AES256GCM-V1\n")
  const TAG_BYTES: nat := 16
  const NONCE_BYTES: nat := 12
  const KEY_BYTES: nat := 32
  const MAX_HEADER_BYTES: nat := 16384

  datatype ExportType = AuditChain | SystemData

  /** `rest` stands for the other fields of the scope, and of the snapshot. */
  datatype Scope = Scope(organizationId: nat, boardId: Option<nat>, exportType: ExportType, rest: Bytes)

  datatype Descriptor = Descriptor(name: string, rowCount: nat, sha256: Bytes, byteLength: nat)

  datatype Snapshot = Snapshot(exportRequestId: nat, organizationId: nat, boardId: Option<nat>, exportType: ExportType, scopeSha256: Bytes, components: seq<Descriptor>, rest: Bytes)

  datatype Component = Component(name: string, rowCount: nat, sha256: Bytes, bytes: Bytes)

  datatype Header = Header(artifactId: nat, exportRequestId: nat, organizationId: nat, snapshotSha256: Bytes, encryptionKeyId: nat, nonce: Text)

  datatype Packed = Packed(name: string, rowCount: nat, sha256: Bytes, bytes: Text)

  /** Version 2 when there is an attestation, version 1 otherwise. */
  datatype Package = Package(attestation: Option<Bytes>, scope: Scope, snapshot: Snapshot, components: seq<Packed>)

  datatype Input = Input(exportRequestId: nat, scope: Scope, snapshot: Snapshot, snapshotSha256: Bytes, components: seq<Component>,
                         artifactId: nat, encryptionKeyId: nat, nonce: Bytes, attestation: Option<Bytes>)

  datatype Opened = Opened(header: Header, scope: Scope, snapshot: Snapshot, attestation: Option<Bytes>, components: seq<Component>)

  datatype Codec = Codec(
    headerText: Header -> Bytes,
    parseHeader: Bytes -> Option<Header>,
    packageText: Package -> Bytes,
    parsePackage: Bytes -> Option<Package>,
    validSnapshot: Snapshot -> bool,
    scopeHash: Scope -> Bytes,
    snapshotHash: Snapshot -> Bytes)

  datatype Failure = AttestationRequired | BadKey | BadNonce | ComponentHash | BadEnvelope | BadBounds | BadMetadata | NotCanonical | AuthenticationFailed | BadPackage | BadBinding

  // ---------- Encoding ----------

  function HeaderOf(i: Input): Header {
    Header(i.artifactId, i.exportRequestId, i.snapshot.organizationId, i.snapshotSha256, i.encryptionKeyId, ByteCodecs.Base64(i.nonce))
  }

  function Pack(components: seq<Component>): (r: seq<Packed>)
    ensures |r| == |components|
    ensures forall k | 0 <= k < |r| ::
              r[k] == Packed(components[k].name, components[k].rowCount, components[k].sha256, ByteCodecs.Base64(components[k].bytes))
  {
    if components == [] then []
    else
      var first := components[0];
      [Packed(first.name, first.rowCount, first.sha256, ByteCodecs.Base64(first.bytes))] + Pack(components[1..])
  }

  function PackageOf(i: Input): Package {
    Package(i.attestation, i.scope, i.snapshot, Pack(i.components))
  }

  predicate Frozen(c: RecoveryArtifact.Crypto, components: seq<Component>) {
    forall k | 0 <= k < |components| :: c.hash(components[k].bytes) == components[k].sha256
  }

  function Assemble(c: RecoveryArtifact.Crypto, key: Bytes, nonce: Bytes, header: Bytes, plain: Bytes): Bytes {
    var text := RecoveryArtifact.Crypt(c, key, nonce, 0, plain);
    MAGIC + ByteCodecs.BigEndian(|header|, 4) + header + text + c.tag(key, nonce, header, text)
  }

  function Encode(c: RecoveryArtifact.Crypto, codec: Codec, key: Bytes, i: Input): Result<Bytes, Failure> {
    if i.scope.exportType.AuditChain? && i.attestation.None? then Err(AttestationRequired)
    else if |key| != KEY_BYTES then Err(BadKey)
    else if |i.nonce| != NONCE_BYTES then Err(BadNonce)
    else if !Frozen(c, i.components) then Err(ComponentHash)
    else Ok(Assemble(c, key, i.nonce, codec.headerText(HeaderOf(i)), codec.packageText(PackageOf(i))))
  }

  // ---------- Decoding ----------

  /** What the package schema refines beyond the shapes. */
  predicate Acceptable(codec: Codec, p: Package) {
    && (p.attestation.Some? ==> p.scope.exportType.AuditChain?)
    && codec.validSnapshot(p.snapshot)
    && 1 <= |p.components| <= 256
    && forall k | 0 <= k < |p.components| :: p.components[k].bytes != []
  }

  predicate Bound(codec: Codec, header: Header, p: Package) {
    && p.snapshot.exportRequestId == header.exportRequestId
    && p.snapshot.organizationId == header.organizationId
    && p.scope.organizationId == p.snapshot.organizationId
    && p.scope.boardId == p.snapshot.boardId
    && p.scope.exportType == p.snapshot.exportType
    && codec.scopeHash(p.scope) == p.snapshot.scopeSha256
    && codec.snapshotHash(p.snapshot) == header.snapshotSha256
    && |p.components| == |p.snapshot.components|
  }

  predicate Matches(c: RecoveryArtifact.Crypto, descriptor: Descriptor, packed: Packed) {
    var bytes := ByteCodecs.FromBase64(packed.bytes);
    && ByteCodecs.Base64(bytes) == packed.bytes
    && descriptor == Descriptor(packed.name, packed.rowCount, packed.sha256, |bytes|)
    && c.hash(bytes) == packed.sha256
  }

  function Unpack(packed: seq<Packed>): (r: seq<Component>)
    ensures |r| == |packed|
    ensures forall k | 0 <= k < |r| ::
              r[k] == Component(packed[k].name, packed[k].rowCount, packed[k].sha256, ByteCodecs.FromBase64(packed[k].bytes))
  {
    if packed == [] then []
    else
      var first := packed[0];
      [Component(first.name, first.rowCount, first.sha256, ByteCodecs.FromBase64(first.bytes))] + Unpack(packed[1..])
  }

  function OpenPackage(c: RecoveryArtifact.Crypto, codec: Codec, header: Header, plain: Bytes): Result<Opened, Failure> {
    match codec.parsePackage(plain)
    case None => Err(BadPackage)
    case Some(p) =>
      if !Acceptable(codec, p) then Err(BadPackage)
      else if plain != codec.packageText(p) || !Bound(codec, header, p) then Err(BadBinding)
      else if exists k :: 0 <= k < |p.components| && !Matches(c, p.snapshot.components[k], p.components[k]) then Err(BadBinding)
      else Ok(Opened(header, p.scope, p.snapshot, p.attestation, Unpack(p.components)))
  }

  /** `decryptExportEnvelope`. */
  function Decode(c: RecoveryArtifact.Crypto, codec: Codec, bytes: Bytes, key: Bytes): Result<Opened, Failure> {
    var headerStart := |MAGIC| + 4;
    if |bytes| < |MAGIC| + 4 + 2 + TAG_BYTES || bytes[..|MAGIC|] != MAGIC then Err(BadEnvelope)
    else
      var headerLength := ByteCodecs.FromBigEndian(bytes[|MAGIC|..headerStart]);
      var textStart := headerStart + headerLength;
      if headerLength < 2 || headerLength > MAX_HEADER_BYTES || textStart + TAG_BYTES >= |bytes| then Err(BadBounds)
      else
        var headerBytes := bytes[headerStart..textStart];
        match codec.parseHeader(headerBytes)
        case None => Err(BadMetadata)
        case Some(header) =>
          if |header.nonce| != 16 then Err(BadMetadata)
          else if headerBytes != codec.headerText(header) then Err(NotCanonical)
          else if |key| != KEY_BYTES then Err(BadKey)
          else
            var nonce := ByteCodecs.FromBase64(header.nonce);
            var end := |bytes| - TAG_BYTES;
            if c.tag(key, nonce, headerBytes, bytes[textStart..end]) != bytes[end..] then Err(AuthenticationFailed)
            else OpenPackage(c, codec, header, RecoveryArtifact.Crypt(c, key, nonce, 0, bytes[textStart..end]))
  }

  // ---------- The round trip ----------

  /** An attestation exactly for audit chains, and a snapshot that describes just these nonempty components. */
  predicate SelfConsistent(c: RecoveryArtifact.Crypto, codec: Codec, i: Input) {
    && (i.attestation.Some? <==> i.scope.exportType.AuditChain?)
    && codec.validSnapshot(i.snapshot) && 1 <= |i.components| <= 256
    && i.exportRequestId == i.snapshot.exportRequestId
    && i.scope.organizationId == i.snapshot.organizationId && i.scope.boardId == i.snapshot.boardId && i.scope.exportType == i.snapshot.exportType
    && codec.scopeHash(i.scope) == i.snapshot.scopeSha256 && codec.snapshotHash(i.snapshot) == i.snapshotSha256
    && |i.components| == |i.snapshot.components|
    && forall k | 0 <= k < |i.components| ::
         && i.components[k].bytes != [] && c.hash(i.components[k].bytes) == i.components[k].sha256
         && i.snapshot.components[k] == Descriptor(i.components[k].name, i.components[k].rowCount, i.components[k].sha256, |i.components[k].bytes|)
  }

  /** The codec reads back these two texts, and the header's is within its bounds. */
  predicate Faithful(codec: Codec, header: Header, p: Package) {
    && codec.parseHeader(codec.headerText(header)) == Some(header)
    && codec.parsePackage(codec.packageText(p)) == Some(p)
    && 2 <= |codec.headerText(header)| <= 16384 && codec.packageText(p) != []
  }

  /** Where the pieces of an envelope lie. */
  lemma {:induction false} Pieces(magic: Bytes, length: Bytes, header: Bytes, text: Bytes, tag: Bytes)
    ensures var bytes := magic + length + header + text + tag;
            var h, t, e := |magic| + |length|, |magic| + |length| + |header|, |bytes| - |tag|;
            && bytes[..|magic|] == magic && bytes[|magic|..h] == length && bytes[h..t] == header
            && bytes[t..e] == text && bytes[e..] == tag
  {
  }

  lemma {:induction false} MagicLength()
    ensures |MAGIC| == 31
  {
  }

  lemma {:induction false} Power4()
    ensures ByteCodecs.Power(4) == 4294967296
  {
    assert ByteCodecs.Power(1) == 256;
    assert ByteCodecs.Power(2) == 65536;
    assert ByteCodecs.Power(3) == 16777216;
  }

  lemma {:induction false} DecodesPieces(c: RecoveryArtifact.Crypto, codec: Codec, key: Bytes, length: Bytes, h: Bytes, header: Header, text: Bytes, tag: Bytes)
    requires |length| == 4 && ByteCodecs.FromBigEndian(length) == |h| && 2 <= |h| <= MAX_HEADER_BYTES && text != [] && |tag| == TAG_BYTES
    requires codec.parseHeader(h) == Some(header) && |header.nonce| == 16 && h == codec.headerText(header) && |key| == KEY_BYTES
    requires tag == c.tag(key, ByteCodecs.FromBase64(header.nonce), h, text)
    ensures Decode(c, codec, MAGIC + length + h + text + tag, key)
         == OpenPackage(c, codec, header, RecoveryArtifact.Crypt(c, key, ByteCodecs.FromBase64(header.nonce), 0, text))
  {
    MagicLength();
    hide OpenPackage, MAGIC, RecoveryArtifact.Crypt, ByteCodecs.FromBase64, ByteCodecs.FromBigEndian;
    Pieces(MAGIC, length, h, text, tag);
  }

  /** What was assembled under a key is taken apart under the same key. */
  lemma {:induction false} AssembledOpens(c: RecoveryArtifact.Crypto, codec: Codec, key: Bytes, nonce: Bytes, header: Header, p: Package)
    requires c.Valid() && |key| == KEY_BYTES && |nonce| == NONCE_BYTES && header.nonce == ByteCodecs.Base64(nonce) && Faithful(codec, header, p)
    ensures Decode(c, codec, Assemble(c, key, nonce, codec.headerText(header), codec.packageText(p)), key)
         == OpenPackage(c, codec, header, codec.packageText(p))
  {
    hide OpenPackage, Decode, MAGIC, RecoveryArtifact.Crypt, ByteCodecs.FromBase64, ByteCodecs.FromBigEndian, ByteCodecs.BigEndian, ByteCodecs.Base64;
    var h, plain := codec.headerText(header), codec.packageText(p);
    var text := RecoveryArtifact.Crypt(c, key, nonce, 0, plain);
    Power4();
    ByteCodecs.BigEndianRoundTrip(|h|, 4);
    ByteCodecs.Base64RoundTrip(nonce);
    ByteCodecs.WholeTriplesLength(nonce);
    RecoveryArtifact.CryptTwice(c, key, nonce, 0, plain);
    assert |c.tag(key, nonce, h, text)| == TAG_BYTES;
    DecodesPieces(c, codec, key, ByteCodecs.BigEndian(|h|, 4), h, header, text, c.tag(key, nonce, h, text));
  }

  /** A descriptor that says of a component just what the component is, and a component that is unchanged. */
  predicate Describes(c: RecoveryArtifact.Crypto, descriptor: Descriptor, component: Component) {
    && descriptor == Descriptor(component.name, component.rowCount, component.sha256, |component.bytes|)
    && c.hash(component.bytes) == component.sha256
  }

  lemma {:induction false} PackedUnpacks(components: seq<Component>)
    ensures Unpack(Pack(components)) == components
    ensures forall k | 0 <= k < |components| :: Pack(components)[k].bytes != [] <==> components[k].bytes != []
  {
    forall k | 0 <= k < |components| {
      ByteCodecs.Base64RoundTrip(components[k].bytes);
    }
  }

  lemma {:induction false} PackedMatch(c: RecoveryArtifact.Crypto, descriptors: seq<Descriptor>, components: seq<Component>)
    requires |descriptors| == |components|
    ensures forall k | 0 <= k < |components| :: Matches(c, descriptors[k], Pack(components)[k]) <==> Describes(c, descriptors[k], components[k])
  {
    forall k | 0 <= k < |components|
      ensures Matches(c, descriptors[k], Pack(components)[k]) <==> Describes(c, descriptors[k], components[k])
    {
      ByteCodecs.Base64RoundTrip(components[k].bytes);
    }
  }

  /** `SelfConsistent`, said of the parts that the decoder checks one after another. */
  lemma {:induction false} ConsistentParts(c: RecoveryArtifact.Crypto, codec: Codec, i: Input)
    requires Frozen(c, i.components) && (i.scope.exportType.AuditChain? ==> i.attestation.Some?)
    ensures SelfConsistent(c, codec, i) <==>
              && Acceptable(codec, PackageOf(i)) && Bound(codec, HeaderOf(i), PackageOf(i))
              && forall k | 0 <= k < |i.components| :: Describes(c, i.snapshot.components[k], i.components[k])
  {
    hide ByteCodecs.Base64;
    PackedUnpacks(i.components);
  }

  lemma {:induction false} PackageOpensIff(c: RecoveryArtifact.Crypto, codec: Codec, i: Input)
    requires Faithful(codec, HeaderOf(i), PackageOf(i)) && Frozen(c, i.components)
    requires i.scope.exportType.AuditChain? ==> i.attestation.Some?
    ensures SelfConsistent(c, codec, i) ==>
              OpenPackage(c, codec, HeaderOf(i), codec.packageText(PackageOf(i))) == Ok(Opened(HeaderOf(i), i.scope, i.snapshot, i.attestation, i.components))
    ensures !SelfConsistent(c, codec, i) ==> OpenPackage(c, codec, HeaderOf(i), codec.packageText(PackageOf(i))).Err?
  {
    hide SelfConsistent, Acceptable, Frozen, Matches, Describes, HeaderOf, Unpack, ByteCodecs.Base64;
    ConsistentParts(c, codec, i);
    PackedUnpacks(i.components);
    if |i.components| == |i.snapshot.components| {
      PackedMatch(c, i.snapshot.components, i.components);
    }
  }

  /**
    The round trip through the chunks, exactly: an export that encodes, cut into chunks
    of any size and joined again in ordinal order, decrypts to its own header, scope,
    snapshot, attestation and components if and only if it is self-consistent, and is
    refused otherwise.
  */
  lemma {:induction false} EnvelopeRoundTripIff(c: RecoveryArtifact.Crypto, codec: Codec, key: Bytes, i: Input, chunkBytes: nat)
    requires c.Valid() && chunkBytes >= 1 && Faithful(codec, HeaderOf(i), PackageOf(i)) && Encode(c, codec, key, i).Ok?
    ensures var envelope := Encode(c, codec, key, i).value;
            var r := Decode(c, codec, ExportStore.Joined(ExportStore.Split(envelope, chunkBytes)), key);
            && (r.Ok? <==> SelfConsistent(c, codec, i))
            && (r.Ok? ==> r.value == Opened(HeaderOf(i), i.scope, i.snapshot, i.attestation, i.components))
  {
    hide OpenPackage, SelfConsistent, Decode;
    ExportStore.SplitJoined(Encode(c, codec, key, i).value, chunkBytes);
    AssembledOpens(c, codec, key, i.nonce, HeaderOf(i), PackageOf(i));
    PackageOpensIff(c, codec, i);
  }

  /** Encoding refuses an audit chain without its attestation, a wrong key or nonce length, and a changed component; nothing else. */
  lemma {:induction false} EncodesIff(c: RecoveryArtifact.Crypto, codec: Codec, key: Bytes, i: Input)
    ensures Encode(c, codec, key, i).Ok? <==>
              && (i.scope.exportType.AuditChain? ==> i.attestation.Some?)
              && |key| == 32 && |i.nonce| == 12
              && forall k | 0 <= k < |i.components| :: c.hash(i.components[k].bytes) == i.components[k].sha256
  {
  }

  // ---------- One envelope for one export ----------

  /** The input an opened envelope speaks of. */
  function InputOf(o: Opened): Input {
    Input(o.header.exportRequestId, o.scope, o.snapshot, o.header.snapshotSha256, o.components,
          o.header.artifactId, o.header.encryptionKeyId, ByteCodecs.FromBase64(o.header.nonce), o.attestation)
  }

  lemma {:induction false} UnpackedPacks(c: RecoveryArtifact.Crypto, descriptors: seq<Descriptor>, packed: seq<Packed>)
    requires |descriptors| == |packed| && forall k | 0 <= k < |packed| :: Matches(c, descriptors[k], packed[k])
    ensures Pack(Unpack(packed)) == packed && Frozen(c, Unpack(packed))
  {
    forall k | 0 <= k < |packed|
      ensures Pack(Unpack(packed))[k] == packed[k] && c.hash(Unpack(packed)[k].bytes) == Unpack(packed)[k].sha256
    {
      assert Matches(c, descriptors[k], packed[k]);
    }
  }

  /** What decrypting found: the parts of the envelope, and a package that opens. */
  predicate Laid(c: RecoveryArtifact.Crypto, codec: Codec, bytes: Bytes, key: Bytes, o: Opened, h: nat, t: nat, e: nat) {
    var nonce := ByteCodecs.FromBase64(o.header.nonce);
    && h == |MAGIC| + 4 && h <= t < e <= |bytes| && bytes[..|MAGIC|] == MAGIC
    && t == h + ByteCodecs.FromBigEndian(bytes[|MAGIC|..h])
    && |key| == KEY_BYTES && |o.header.nonce| == 16 && bytes[h..t] == codec.headerText(o.header)
    && c.tag(key, nonce, bytes[h..t], bytes[t..e]) == bytes[e..]
    && OpenPackage(c, codec, o.header, RecoveryArtifact.Crypt(c, key, nonce, 0, bytes[t..e])) == Ok(o)
  }

  lemma {:induction false} OpenedPieces(c: RecoveryArtifact.Crypto, codec: Codec, bytes: Bytes, key: Bytes, o: Opened)
    requires Decode(c, codec, bytes, key) == Ok(o)
    ensures |bytes| >= |MAGIC| + 4 + TAG_BYTES
    ensures Laid(c, codec, bytes, key, o, |MAGIC| + 4, |MAGIC| + 4 + ByteCodecs.FromBigEndian(bytes[|MAGIC|..|MAGIC| + 4]), |bytes| - TAG_BYTES)
  {
    hide Acceptable, Bound, Matches, Unpack, MAGIC, RecoveryArtifact.Crypt, ByteCodecs.FromBase64, ByteCodecs.FromBigEndian;
    MagicLength();
  }

  lemma {:induction false} Reassembles(c: RecoveryArtifact.Crypto, codec: Codec, bytes: Bytes, key: Bytes, o: Opened, h: nat, t: nat, e: nat)
    requires Laid(c, codec, bytes, key, o, h, t, e)
    ensures var nonce := ByteCodecs.FromBase64(o.header.nonce);
            Assemble(c, key, nonce, codec.headerText(o.header), RecoveryArtifact.Crypt(c, key, nonce, 0, bytes[t..e])) == bytes
  {
    hide MAGIC, RecoveryArtifact.Crypt, OpenPackage, ByteCodecs.FromBigEndian, ByteCodecs.BigEndian, ByteCodecs.FromBase64;
    RecoveryArtifact.CryptTwice(c, key, ByteCodecs.FromBase64(o.header.nonce), 0, bytes[t..e]);
    ByteCodecs.FromBigEndianRoundTrip(bytes[|MAGIC|..h]);
    assert |bytes[h..t]| == ByteCodecs.FromBigEndian(bytes[|MAGIC|..h]);
    assert bytes == bytes[..|MAGIC|] + bytes[|MAGIC|..h] + bytes[h..t] + bytes[t..e] + bytes[e..];
  }

  lemma {:induction false} OpenedPackage(c: RecoveryArtifact.Crypto, codec: Codec, header: Header, plain: Bytes, o: Opened)
    requires OpenPackage(c, codec, header, plain) == Ok(o)
    ensures o.header == header && o.snapshot.organizationId == header.organizationId && Frozen(c, o.components)
    ensures codec.packageText(Package(o.attestation, o.scope, o.snapshot, Pack(o.components))) == plain
  {
    hide Acceptable, Frozen, Pack, Unpack, Matches;
    var p := codec.parsePackage(plain).value;
    UnpackedPacks(c, p.snapshot.components, p.components);
    assert p == Package(o.attestation, o.scope, o.snapshot, Pack(o.components));
  }

  lemma {:induction false} NonceReadsBack(nonce: Text)
    requires |nonce| == 16
    ensures ByteCodecs.Base64(ByteCodecs.FromBase64(nonce)) == nonce && |ByteCodecs.FromBase64(nonce)| == NONCE_BYTES
  {
    hide ByteCodecs.Base64, ByteCodecs.FromBase64;
    ByteCodecs.WholeGroupsRoundTrip(nonce);
  }

  lemma {:induction false} EncodesTo(c: RecoveryArtifact.Crypto, codec: Codec, key: Bytes, i: Input, bytes: Bytes)
    requires |key| == KEY_BYTES && |i.nonce| == NONCE_BYTES && Frozen(c, i.components)
    requires Assemble(c, key, i.nonce, codec.headerText(HeaderOf(i)), codec.packageText(PackageOf(i))) == bytes
    ensures Encode(c, codec, key, i) == if i.scope.exportType.AuditChain? && i.attestation.None? then Err(AttestationRequired) else Ok(bytes)
  {
    hide Assemble, Frozen, HeaderOf, PackageOf;
  }

  /**
    Decryption is canonical: an envelope that opens under a key is byte for byte what
    encoding its contents under that key and its nonce gives.  The one exception is an
    audit chain without attestation, which the decoder still reads and the encoder refuses.
  */
  lemma {:induction false} OpenedEncodesBack(c: RecoveryArtifact.Crypto, codec: Codec, bytes: Bytes, key: Bytes, o: Opened)
    requires Decode(c, codec, bytes, key) == Ok(o)
    ensures Encode(c, codec, key, InputOf(o)) ==
              if o.scope.exportType.AuditChain? && o.attestation.None? then Err(AttestationRequired) else Ok(bytes)
  {
    hide Decode, Encode, OpenPackage, MAGIC, Assemble, Frozen, Pack, RecoveryArtifact.Crypt, ByteCodecs.FromBase64, ByteCodecs.FromBigEndian, ByteCodecs.Base64;
    OpenedPieces(c, codec, bytes, key, o);
    var h := |MAGIC| + 4;
    var t, e := h + ByteCodecs.FromBigEndian(bytes[|MAGIC|..h]), |bytes| - TAG_BYTES;
    Reassembles(c, codec, bytes, key, o, h, t, e);
    OpenedPackage(c, codec, o.header, RecoveryArtifact.Crypt(c, key, ByteCodecs.FromBase64(o.header.nonce), 0, bytes[t..e]), o);
    NonceReadsBack(o.header.nonce);
    assert HeaderOf(InputOf(o)) == o.header;
    EncodesTo(c, codec, key, InputOf(o), bytes);
  }

  // ---------- The layout ----------

  /**
    The envelope byte by byte: the magic, the header's length in four bytes, the header,
    the package under the keystream from position 0, and the tag over header and ciphertext.
  */
  predicate LaidOut(c: RecoveryArtifact.Crypto, key: Bytes, nonce: Bytes, header: Bytes, plain: Bytes, bytes: Bytes) {
    var start := 35 + |header|;
    && |bytes| == start + |plain| + 16
    && bytes[..31] == Ascii("BOARDAGENT-EXPORT-AES256GCM-V1\n")
    && bytes[31..35] == ByteCodecs.BigEndian(|header|, 4) && bytes[35..start] == header
    && RecoveryArtifact.Keyed(c, key, nonce, plain, bytes[start..start + |plain|])
    && bytes[start + |plain|..] == c.tag(key, nonce, header, bytes[start..start + |plain|])
  }

  lemma {:induction false} AssembledLaidOut(c: RecoveryArtifact.Crypto, key: Bytes, nonce: Bytes, header: Bytes, plain: Bytes)
    requires c.Valid()
    ensures LaidOut(c, key, nonce, header, plain, Assemble(c, key, nonce, header, plain))
  {
    MagicIs();
    hide MAGIC, RecoveryArtifact.Crypt, RecoveryArtifact.Keyed, ByteCodecs.BigEndian;
    var text := RecoveryArtifact.Crypt(c, key, nonce, 0, plain);
    RecoveryArtifact.CryptKeyed(c, key, nonce, plain, text);
    assert |c.tag(key, nonce, header, text)| == 16;
    Pieces(MAGIC, ByteCodecs.BigEndian(|header|, 4), header, text, c.tag(key, nonce, header, text));
  }

  lemma {:induction false} MagicIs()
    ensures |MAGIC| == 31 && MAGIC == Ascii("BOARDAGENT-EXPORT-AES256GCM-V1\n")
  {
  }

  /** An encoded export is its header and its package in this layout, under its own nonce. */
  lemma {:induction false} EncodedLaidOut(c: RecoveryArtifact.Crypto, codec: Codec, key: Bytes, i: Input, bytes: Bytes)
    requires c.Valid() && Encode(c, codec, key, i) == Ok(bytes)
    ensures var header := Header(i.artifactId, i.exportRequestId, i.snapshot.organizationId, i.snapshotSha256, i.encryptionKeyId, ByteCodecs.Base64(i.nonce));
            var package := Package(i.attestation, i.scope, i.snapshot, Pack(i.components));
            LaidOut(c, key, i.nonce, codec.headerText(header), codec.packageText(package), bytes)
  {
    hide LaidOut, Assemble, Frozen, Pack, ByteCodecs.Base64;
    AssembledLaidOut(c, key, i.nonce, codec.headerText(HeaderOf(i)), codec.packageText(PackageOf(i)));
  }
}
