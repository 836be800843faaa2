/**
  The encrypted artifact format of scripts/src/recovery-artifact.ts.

  AES-256-GCM is a positional keystream and a tag over the additional data and the
  whole ciphertext; both, and SHA-256, are function values in `Crypto`.  `Seal` and
  `Open` are the format as values.  The methods below move the bytes the way the
  source does: through short reads and writes, in chunks, from a file that another
  process may be rewriting.
*/
module RecoveryArtifact {
  import opened Wrappers

  const NONCE_BYTES := 12
  const AUTH_TAG_BYTES := 16
  const KEY_BYTES := 32
  const IO_CHUNK_BYTES := 65536
  const MAGIC: Bytes := Ascii("BOARDAGENT-BACKUP-AES256GCM-V1\0")
  const OVERHEAD := |MAGIC| + NONCE_BYTES + AUTH_TAG_BYTES

  /** keystream(key, nonce, position), tag(key, nonce, additional data, ciphertext), hash(bytes). */
  datatype Crypto = Crypto(
    keystream: (Bytes, Bytes, nat) -> bv8,
    tag: (Bytes, Bytes, Bytes, Bytes) -> Bytes,
    hash: Bytes -> Bytes)
  {
    ghost predicate Valid() {
      forall key, nonce, aad, text :: |tag(key, nonce, aad, text)| == AUTH_TAG_BYTES
    }
  }

  /** Counter mode from a stream position: the same function encrypts and decrypts. */
  function Crypt(c: Crypto, key: Bytes, nonce: Bytes, position: nat, text: Bytes): (r: Bytes)
    ensures |r| == |text|
  {
    seq(|text|, i requires 0 <= i < |text| => text[i] ^ c.keystream(key, nonce, position + i))
  }

  lemma {:induction false} CryptTwice(c: Crypto, key: Bytes, nonce: Bytes, position: nat, text: Bytes)
    ensures Crypt(c, key, nonce, position, Crypt(c, key, nonce, position, text)) == text
  {
    var once := Crypt(c, key, nonce, position, text);
    forall i | 0 <= i < |text| ensures Crypt(c, key, nonce, position, once)[i] == text[i] {
      XorTwice(text[i], c.keystream(key, nonce, position + i));
    }
  }

  /** A part of a text is decrypted as the whole is, given the position it stands at. */
  lemma {:induction false} CryptPart(c: Crypto, key: Bytes, nonce: Bytes, text: Bytes, from: nat, to: nat)
    requires from <= to <= |text|
    ensures Crypt(c, key, nonce, from, text[from..to]) == Crypt(c, key, nonce, 0, text)[from..to]
  {
    var part, whole := Crypt(c, key, nonce, from, text[from..to]), Crypt(c, key, nonce, 0, text);
    forall i | 0 <= i < to - from ensures part[i] == whole[from..to][i] {
      assert whole[from..to][i] == whole[from + i] && text[from..to][i] == text[from + i];
    }
  }

  lemma {:induction false} XorTwice(a: bv8, k: bv8)
    ensures (a ^ k) ^ k == a
  {
  }

  lemma {:induction false} CryptAppend(c: Crypto, key: Bytes, nonce: Bytes, position: nat, a: Bytes, b: Bytes)
    ensures Crypt(c, key, nonce, position, a + b)
         == Crypt(c, key, nonce, position, a) + Crypt(c, key, nonce, position + |a|, b)
  {
  }

  // ---------- The format as values ----------

  function Seal(c: Crypto, key: Bytes, nonce: Bytes, plain: Bytes): Bytes {
    var text := Crypt(c, key, nonce, 0, plain);
    MAGIC + nonce + text + c.tag(key, nonce, MAGIC, text)
  }

  function Open(c: Crypto, key: Bytes, artifact: Bytes): Option<Bytes> {
    if |key| != KEY_BYTES || |artifact| <= OVERHEAD || |artifact| > MAX_SAFE_INTEGER || artifact[..|MAGIC|] != MAGIC then None
    else
      var end := |artifact| - AUTH_TAG_BYTES;
      var nonce := artifact[|MAGIC|..|MAGIC| + NONCE_BYTES];
      var text := artifact[|MAGIC| + NONCE_BYTES..end];
      if c.tag(key, nonce, MAGIC, text) != artifact[end..] then None
      else Some(Crypt(c, key, nonce, 0, text))
  }

  /** Opening what was sealed gives it back exactly when there was something to seal. */
  lemma {:induction false} SealOpen(c: Crypto, key: Bytes, nonce: Bytes, plain: Bytes)
    requires c.Valid() && |key| == KEY_BYTES && |nonce| == NONCE_BYTES && |plain| + OVERHEAD <= MAX_SAFE_INTEGER
    ensures Open(c, key, Seal(c, key, nonce, plain)) == if plain == [] then None else Some(plain)
  {
    var text := Crypt(c, key, nonce, 0, plain);
    var tag := c.tag(key, nonce, MAGIC, text);
    var sealed := Seal(c, key, nonce, plain);
    assert |tag| == AUTH_TAG_BYTES && |sealed| == OVERHEAD + |plain|;
    assert sealed[..|MAGIC|] == MAGIC;
    assert sealed[|MAGIC|..|MAGIC| + NONCE_BYTES] == nonce;
    assert sealed[|MAGIC| + NONCE_BYTES..|sealed| - AUTH_TAG_BYTES] == text;
    assert sealed[|sealed| - AUTH_TAG_BYTES..] == tag;
    CryptTwice(c, key, nonce, 0, plain);
  }

  predicate KeyedAt(plain: bv8, text: bv8, k: bv8) {
    text ^ plain == k
  }

  lemma {:induction false} XorCancels(a: bv8, k: bv8)
    ensures (a ^ k) ^ a == k
  {
  }

  lemma {:induction false} XorReturns(a: bv8, b: bv8)
    ensures b ^ (a ^ b) == a
  {
  }

  lemma {:induction false} XorSwaps(a: bv8, b: bv8)
    ensures a ^ b == b ^ a
  {
  }

  lemma {:induction false} XorMoves(plain: bv8, text: bv8, k: bv8)
    ensures text == plain ^ k <==> KeyedAt(plain, text, k)
  {
    if text == plain ^ k { XorCancels(plain, k); }
    if KeyedAt(plain, text, k) { XorReturns(text, plain); }
  }

  lemma {:induction false} KeyedSwaps(plain: bv8, text: bv8, k: bv8)
    ensures KeyedAt(plain, text, k) <==> KeyedAt(text, plain, k)
  {
    XorSwaps(plain, text);
  }

  /** `text` is `plain` under the keystream from position 0: byte by byte their exclusive or is the keystream. */
  predicate Keyed(c: Crypto, key: Bytes, nonce: Bytes, plain: Bytes, text: Bytes) {
    |text| == |plain| && forall i | 0 <= i < |plain| :: KeyedAt(plain[i], text[i], c.keystream(key, nonce, i))
  }

  lemma {:induction false} CryptAt(c: Crypto, key: Bytes, nonce: Bytes, text: Bytes, i: nat)
    requires i < |text|
    ensures Crypt(c, key, nonce, 0, text)[i] == text[i] ^ c.keystream(key, nonce, i)
  {
  }

  lemma {:induction false} CryptKeyed(c: Crypto, key: Bytes, nonce: Bytes, plain: Bytes, text: Bytes)
    ensures text == Crypt(c, key, nonce, 0, plain) <==> Keyed(c, key, nonce, plain, text)
  {
    hide Crypt, KeyedAt;
    var there := Crypt(c, key, nonce, 0, plain);
    if |text| == |plain| {
      forall i | 0 <= i < |plain| ensures text[i] == there[i] <==> KeyedAt(plain[i], text[i], c.keystream(key, nonce, i)) {
        CryptAt(c, key, nonce, plain, i);
        XorMoves(plain[i], text[i], c.keystream(key, nonce, i));
      }
      AllEqual(text, there);
    }
  }

  /** Encryption and decryption are under the same keystream. */
  lemma {:induction false} KeyedBack(c: Crypto, key: Bytes, nonce: Bytes, plain: Bytes, text: Bytes)
    ensures Keyed(c, key, nonce, plain, text) <==> Keyed(c, key, nonce, text, plain)
  {
    hide KeyedAt;
    if |text| == |plain| {
      forall i | 0 <= i < |plain| {
        KeyedSwaps(plain[i], text[i], c.keystream(key, nonce, i));
      }
    }
  }

  lemma {:induction false} AllEqual(a: Bytes, b: Bytes)
    requires |a| == |b|
    ensures a == b <==> forall i | 0 <= i < |a| :: a[i] == b[i]
  {
  }

  /** The layout: the magic, the nonce, the plaintext under the keystream, the tag over magic and ciphertext. */
  predicate LaidOut(c: Crypto, key: Bytes, nonce: Bytes, plain: Bytes, artifact: Bytes) {
    var magic := Ascii("BOARDAGENT-BACKUP-AES256GCM-V1\0");
    && |artifact| == 59 + |plain| && artifact[..31] == magic && artifact[31..43] == nonce
    && Keyed(c, key, nonce, plain, artifact[43..43 + |plain|])
    && artifact[43 + |plain|..] == c.tag(key, nonce, magic, artifact[43..43 + |plain|])
  }

  /** What is sealed has this layout, and nothing else has. */
  lemma {:induction false} SealedIff(c: Crypto, key: Bytes, nonce: Bytes, plain: Bytes, artifact: Bytes)
    requires c.Valid() && |nonce| == 12
    ensures artifact == Seal(c, key, nonce, plain) <==> LaidOut(c, key, nonce, plain, artifact)
  {
    MagicLength();
    hide Crypt, Keyed, MAGIC;
    var text := Crypt(c, key, nonce, 0, plain);
    var sealed := Seal(c, key, nonce, plain);
    assert |c.tag(key, nonce, MAGIC, text)| == 16;
    CryptKeyed(c, key, nonce, plain, text);
    assert sealed[..31] == MAGIC && sealed[31..43] == nonce && sealed[43..43 + |plain|] == text;
    assert sealed[43 + |plain|..] == c.tag(key, nonce, MAGIC, text);
    if LaidOut(c, key, nonce, plain, artifact) {
      CryptKeyed(c, key, nonce, plain, artifact[43..43 + |plain|]);
      assert artifact == artifact[..31] + artifact[31..43] + artifact[43..43 + |plain|] + artifact[43 + |plain|..];
    }
  }

  lemma {:induction false} MagicLength()
    ensures |MAGIC| == 31 && MAGIC == Ascii("BOARDAGENT-BACKUP-AES256GCM-V1\0")
  {
  }

  /** An artifact opens to a plaintext exactly if it has the layout for it, some bytes of it, and a safe length. */
  lemma {:induction false} OpensIff(c: Crypto, key: Bytes, artifact: Bytes, plain: Bytes)
    requires c.Valid()
    ensures Open(c, key, artifact) == Some(plain) <==>
              && |key| == 32 && 59 < |artifact| <= MAX_SAFE_INTEGER
              && LaidOut(c, key, artifact[31..43], plain, artifact)
  {
    MagicLength();
    hide Crypt, Keyed, MAGIC;
    if |artifact| > 59 {
      var nonce, text := artifact[31..43], artifact[43..|artifact| - 16];
      CryptKeyed(c, key, nonce, text, plain);
      KeyedBack(c, key, nonce, plain, text);
      KeyedBack(c, key, nonce, Crypt(c, key, nonce, 0, text), text);
      CryptKeyed(c, key, nonce, text, Crypt(c, key, nonce, 0, text));
    }
  }

  /** `verifyBackupArtifact`: length and hash as the manifest records them. */
  predicate Verifies(c: Crypto, artifact: Bytes, sha256: Bytes, byteLength: nat) {
    OVERHEAD < |artifact| <= MAX_SAFE_INTEGER && |artifact| == byteLength && c.hash(artifact) == sha256
  }

  // ---------- Files ----------

  datatype Failure = BadKey | BadLength | BadMagic | EndedUnexpectedly | NoProgress | AuthenticationFailed | LengthMismatch | HashMismatch

  /** A handle opened for writing; `accepts(n)` bounds what the n-th write takes. */
  class Sink {
    const accepts: nat -> nat
    var writes: nat
    var content: Bytes

    constructor (accepts: nat -> nat)
      ensures content == [] && this.accepts == accepts
    {
      this.accepts := accepts;
      writes := 0;
      content := [];
    }

    method Write(part: Bytes) returns (n: nat)
      modifies this
      ensures n <= |part| && content == old(content) + part[..n] && writes == old(writes) + 1
      ensures part != [] && accepts(old(writes)) >= 1 ==> n >= 1
    {
      n := if accepts(writes) < |part| then accepts(writes) else |part|;
      content := content + part[..n];
      writes := writes + 1;
    }

    /** `writeAll`: short writes are continued; a write without progress is an error. */
    method WriteAll(value: Bytes) returns (r: Result<nat, Failure>)
      modifies this
      ensures r.Ok? ==> content == old(content) + value && r.value == |value|
      ensures r.Err? ==> old(content) <= content <= old(content) + value
      ensures (forall n :: accepts(n) >= 1) ==> r.Ok?
    {
      var offset := 0;
      while offset < |value|
        invariant offset <= |value| && content == old(content) + value[..offset]
      {
        var n := Write(value[offset..]);
        assert value[..offset] + value[offset..][..n] == value[..offset + n];
        if n < 1 { return Err(NoProgress); }
        offset := offset + n;
      }
      assert value[..offset] == value;
      r := Ok(|value|);
    }
  }

  /**
    A handle opened for reading.  The n-th read sees the bytes `versions(n)`, so the
    file may change between any two reads, and returns at most `grants(n)` of them.
  */
  class Source {
    const versions: nat -> Bytes
    const grants: nat -> nat
    var turn: nat

    constructor (versions: nat -> Bytes, grants: nat -> nat)
      ensures this.versions == versions && this.grants == grants && turn == 0
    {
      this.versions := versions;
      this.grants := grants;
      turn := 0;
    }

    /** The byte was at this position of the file at one of the reads from `since` up to `until`. */
    ghost predicate Seen(since: nat, until: nat, position: nat, b: bv8) {
      exists t: nat :: since <= t < until && position < |versions(t)| && versions(t)[position] == b
    }

    ghost predicate AllSeen(since: nat, until: nat, position: nat, value: Bytes) {
      forall i | 0 <= i < |value| :: Seen(since, until, position + i, value[i])
    }

    /** Nobody writes the file, and reads make progress. */
    ghost predicate Steady(bytes: Bytes) {
      forall t: nat :: versions(t) == bytes && grants(t) >= 1
    }

    method Read(position: nat, length: nat) returns (part: Bytes)
      modifies this
      ensures |part| <= length && turn == old(turn) + 1
      ensures AllSeen(old(turn), turn, position, part)
      ensures part == [] ==> length == 0 || grants(old(turn)) == 0 || |versions(old(turn))| <= position
    {
      var now := versions(turn);
      var n := if grants(turn) < length then grants(turn) else length;
      part := if position >= |now| then [] else if n < |now| - position then now[position..position + n] else now[position..];
      turn := turn + 1;
      forall i | 0 <= i < |part| ensures Seen(old(turn), turn, position + i, part[i]) {
        assert versions(old(turn))[position + i] == part[i];
      }
    }

    /** `readExactly`: short reads are continued; a read of nothing is an error. */
    method ReadExactly(position: nat, byteLength: nat) returns (r: Result<Bytes, Failure>)
      modifies this
      ensures turn >= old(turn)
      ensures r.Ok? ==> |r.value| == byteLength && AllSeen(old(turn), turn, position, r.value)
      ensures r.Err? ==> r.error == EndedUnexpectedly && forall bytes | Steady(bytes) :: |bytes| < position + byteLength
    {
      var value: Bytes := [];
      while |value| < byteLength
        invariant |value| <= byteLength && turn >= old(turn)
        invariant AllSeen(old(turn), turn, position, value)
        decreases byteLength - |value|
      {
        ghost var before, mid := value, turn;
        var part := Read(position + |value|, byteLength - |value|);
        if |part| < 1 { return Err(EndedUnexpectedly); }
        value := value + part;
        forall i | 0 <= i < |value| ensures Seen(old(turn), turn, position + i, value[i]) {
          if i < |before| {
            assert Seen(old(turn), mid, position + i, value[i]);
          } else {
            assert Seen(mid, turn, position + |before| + (i - |before|), part[i - |before|]);
          }
        }
      }
      r := Ok(value);
    }

    /** What was read from a file nobody writes is that part of the file. */
    lemma {:induction false} SteadyPart(bytes: Bytes, since: nat, until: nat, position: nat, value: Bytes)
      requires Steady(bytes) && AllSeen(since, until, position, value)
      ensures value != [] ==> position + |value| <= |bytes| && value == bytes[position..position + |value|]
    {
      forall i | 0 <= i < |value| ensures position + i < |bytes| && value[i] == bytes[position + i] {
        assert Seen(since, until, position + i, value[i]);
      }
      if value != [] { assert Seen(since, until, position + (|value| - 1), value[|value| - 1]); }
    }
  }

  // ---------- Writing an artifact ----------

  function Joined(chunks: seq<Bytes>): Bytes {
    if chunks == [] then [] else Joined(chunks[..|chunks| - 1]) + chunks[|chunks| - 1]
  }

  datatype EncryptedArtifact = EncryptedArtifact(sha256: Bytes, byteLength: nat, plaintextSha256: Bytes, plaintextByteLength: nat)

  /**
    `encryptBackupArtifact`: whatever the boundaries of the source's chunks, the
    temporary file holds the sealed plaintext and the result describes both.
  */
  method EncryptArtifact(c: Crypto, key: Bytes, nonce: Bytes, source: seq<Bytes>, handle: Sink)
      returns (r: Result<EncryptedArtifact, Failure>)
    requires handle.content == []
    modifies handle
    ensures |key| != KEY_BYTES <==> r == Err(BadKey)
    ensures r.Ok? ==>
      && handle.content == Seal(c, key, nonce, Joined(source))
      && r.value == EncryptedArtifact(
           c.hash(handle.content), |handle.content|, c.hash(Joined(source)), |Joined(source)|)
    ensures r.Ok? && c.Valid() && |nonce| == NONCE_BYTES ==> LaidOut(c, key, nonce, Joined(source), handle.content)
    ensures |key| == KEY_BYTES && (forall n :: handle.accepts(n) >= 1) ==> r.Ok?
  {
    if |key| != KEY_BYTES { return Err(BadKey); }
    var written := handle.WriteAll(MAGIC);
    if written.Err? { return Err(NoProgress); }
    written := handle.WriteAll(nonce);
    if written.Err? { return Err(NoProgress); }
    var plain, text: Bytes := [], [];
    var i := 0;
    while i < |source|
      invariant 0 <= i <= |source|
      invariant plain == Joined(source[..i]) && text == Crypt(c, key, nonce, 0, plain)
      invariant handle.content == MAGIC + nonce + text
    {
      var encrypted := Crypt(c, key, nonce, |plain|, source[i]);
      CryptAppend(c, key, nonce, 0, plain, source[i]);
      assert source[..i + 1][..i] == source[..i];
      if |encrypted| > 0 {
        written := handle.WriteAll(encrypted);
        if written.Err? { return Err(NoProgress); }
      }
      plain, text := plain + source[i], text + encrypted;
      i := i + 1;
    }
    assert source[..i] == source;
    written := handle.WriteAll(c.tag(key, nonce, MAGIC, text));
    if written.Err? { return Err(NoProgress); }
    if c.Valid() && |nonce| == NONCE_BYTES { SealedIff(c, key, nonce, plain, handle.content); }
    r := Ok(EncryptedArtifact(c.hash(handle.content), |handle.content|, c.hash(plain), |plain|));
  }

  // ---------- Reading an artifact ----------

  /** `verifyBackupArtifact`: of a file nobody writes, it accepts exactly what `Verifies` says. */
  method VerifyArtifact(c: Crypto, file: Source, size: nat, sha256: Bytes, byteLength: nat) returns (r: Result<(), Failure>)
    modifies file
    ensures forall bytes | file.Steady(bytes) && |bytes| == size :: r.Ok? <==> Verifies(c, bytes, sha256, byteLength)
  {
    if size <= OVERHEAD || size > MAX_SAFE_INTEGER { return Err(BadLength); }
    if size != byteLength { return Err(LengthMismatch); }
    var content: Bytes := [];
    ghost var start := file.turn;
    while |content| < size
      invariant |content| <= size && file.turn >= start
      invariant forall bytes | file.Steady(bytes) && |bytes| == size :: content == bytes[..|content|]
      decreases size - |content|
    {
      var position := |content|;
      var length := if size - position < IO_CHUNK_BYTES then size - position else IO_CHUNK_BYTES;
      ghost var since := file.turn;
      var part := file.ReadExactly(position, length);
      if part.Err? { return Err(EndedUnexpectedly); }
      content := content + part.value;
      forall bytes | file.Steady(bytes) && |bytes| == size ensures content == bytes[..|content|] {
        file.SteadyPart(bytes, since, file.turn, position, part.value);
      }
    }
    assert forall bytes | file.Steady(bytes) && |bytes| == size :: bytes[..|content|] == bytes;
    r := if c.hash(content) == sha256 then Ok(()) else Err(HashMismatch);
  }

  /** What the first pass of a decryption fixed: nonce, tag and the private ciphertext snapshot. */
  datatype Session = Session(nonce: Bytes, tag: Bytes, snapshot: Bytes)

  predicate Authentic(c: Crypto, key: Bytes, s: Session) {
    c.tag(key, s.nonce, MAGIC, s.snapshot) == s.tag
  }

  /** First pass: copy the ciphertext into the snapshot and authenticate the copy; release nothing. */
  method AuthenticatePass(c: Crypto, key: Bytes, file: Source, size: nat) returns (r: Result<Session, Failure>)
    requires OVERHEAD < size
    modifies file
    ensures r.Ok? ==> Authentic(c, key, r.value) && |r.value.snapshot| == size - OVERHEAD
    ensures r.Ok? ==> file.AllSeen(old(file.turn), file.turn, |MAGIC| + NONCE_BYTES, r.value.snapshot)
    ensures forall bytes | file.Steady(bytes) && |bytes| == size ::
              && (r.Ok? <==> bytes[..|MAGIC|] == MAGIC && Authentic(c, key, SessionOf(bytes)))
              && (r.Ok? ==> r.value == SessionOf(bytes))
  {
    var start := file.turn;
    var magic := file.ReadExactly(0, |MAGIC|);
    if magic.Err? { return Err(magic.error); }
    ghost var m := file.turn;
    if magic.value != MAGIC {
      r := Err(BadMagic);
      forall bytes | file.Steady(bytes) && |bytes| == size ensures bytes[..|MAGIC|] != MAGIC {
        file.SteadyPart(bytes, start, m, 0, magic.value);
      }
      return;
    }
    var nonce := file.ReadExactly(|MAGIC|, NONCE_BYTES);
    if nonce.Err? { return Err(nonce.error); }
    ghost var n := file.turn;
    var tag := file.ReadExactly(size - AUTH_TAG_BYTES, AUTH_TAG_BYTES);
    if tag.Err? { return Err(tag.error); }
    var base, end := |MAGIC| + NONCE_BYTES, size - AUTH_TAG_BYTES;
    var snapshot: Bytes := [];
    var since := file.turn;
    while base + |snapshot| < end
      invariant base + |snapshot| <= end && file.turn >= since
      invariant file.AllSeen(since, file.turn, base, snapshot)
      decreases end - |snapshot|
    {
      var position := base + |snapshot|;
      var length := if end - position < IO_CHUNK_BYTES then end - position else IO_CHUNK_BYTES;
      ghost var before, mid := snapshot, file.turn;
      var encrypted := file.ReadExactly(position, length);
      if encrypted.Err? { return Err(encrypted.error); }
      snapshot := snapshot + encrypted.value;
      forall i | 0 <= i < |snapshot| ensures file.Seen(since, file.turn, base + i, snapshot[i]) {
        if i < |before| {
          assert file.Seen(since, mid, base + i, snapshot[i]);
        } else {
          assert file.Seen(mid, file.turn, position + (i - |before|), encrypted.value[i - |before|]);
        }
      }
    }
    var session := Session(nonce.value, tag.value, snapshot);
    forall bytes | file.Steady(bytes) && |bytes| == size
      ensures bytes[..|MAGIC|] == MAGIC && session == SessionOf(bytes)
    {
      file.SteadyPart(bytes, start, m, 0, magic.value);
      file.SteadyPart(bytes, m, n, |MAGIC|, nonce.value);
      file.SteadyPart(bytes, n, since, size - AUTH_TAG_BYTES, tag.value);
      file.SteadyPart(bytes, since, file.turn, base, snapshot);
    }
    forall i | 0 <= i < |snapshot| ensures file.Seen(start, file.turn, base + i, snapshot[i]) {
      assert file.Seen(since, file.turn, base + i, snapshot[i]);
    }
    r := if Authentic(c, key, session) then Ok(session) else Err(AuthenticationFailed);
  }

  function SessionOf(bytes: Bytes): Session
    requires |bytes| > OVERHEAD
  {
    var end := |bytes| - AUTH_TAG_BYTES;
    Session(bytes[|MAGIC|..|MAGIC| + NONCE_BYTES], bytes[end..], bytes[|MAGIC| + NONCE_BYTES..end])
  }

  /**
    `decryptBackupArtifact`.  The source may change between any two reads, and the
    sizes come from `lstat` and `fstat`.  Nothing is yielded unless a tag validated;
    what is yielded, in whatever chunks, is always the beginning, and after a normal
    end the whole, of the decryption of the very bytes that were authenticated, and
    every one of those bytes was read from the source.  Of a source nobody writes
    the plaintext is what `Open` says.
  */
  method DecryptArtifact(c: Crypto, key: Bytes, file: Source, lstatSize: nat, size: nat, snapshotGrants: nat -> nat)
      returns (yielded: seq<Bytes>, r: Result<(), Failure>, ghost session: Option<Session>)
    modifies file
    ensures yielded != [] || r.Ok? ==> session.Some?
    ensures session.Some? ==>
      && Authentic(c, key, session.value)
      && Joined(yielded) <= Crypt(c, key, session.value.nonce, 0, session.value.snapshot)
      && (r.Ok? ==> Joined(yielded) == Crypt(c, key, session.value.nonce, 0, session.value.snapshot))
      && file.AllSeen(old(file.turn), file.turn, |MAGIC| + NONCE_BYTES, session.value.snapshot)
    ensures (forall t :: snapshotGrants(t) >= 1) ==>
      forall bytes | file.Steady(bytes) && |bytes| == lstatSize == size ::
        && (r.Ok? <==> Open(c, key, bytes).Some?)
        && (r.Ok? ==> Open(c, key, bytes) == Some(Joined(yielded)))
        && (r.Err? ==> yielded == [])
  {
    yielded, session := [], None;
    if |key| != KEY_BYTES { r := Err(BadKey); return; }
    if lstatSize <= OVERHEAD || lstatSize > MAX_SAFE_INTEGER || size <= OVERHEAD || size > MAX_SAFE_INTEGER {
      r := Err(BadLength);
      return;
    }
    var authenticated := AuthenticatePass(c, key, file, size);
    if authenticated.Err? { r := Err(authenticated.error); return; }
    var s := authenticated.value;
    session := Some(s);
    var snapshot := new Source(_ => s.snapshot, snapshotGrants);
    r, yielded := YieldPass(c, key, s, snapshot);
  }

  /** Second pass: decrypt the private snapshot chunk by chunk. */
  method YieldPass(c: Crypto, key: Bytes, s: Session, snapshot: Source)
      returns (r: Result<(), Failure>, yielded: seq<Bytes>)
    requires forall t :: snapshot.versions(t) == s.snapshot
    modifies snapshot
    ensures Joined(yielded) <= Crypt(c, key, s.nonce, 0, s.snapshot)
    ensures r.Ok? ==> Joined(yielded) == Crypt(c, key, s.nonce, 0, s.snapshot)
    ensures (forall t :: snapshot.grants(t) >= 1) ==> r.Ok?
  {
    hide Crypt;
    assert (forall t :: snapshot.grants(t) >= 1) ==> snapshot.Steady(s.snapshot);
    yielded := [];
    var plain := Crypt(c, key, s.nonce, 0, s.snapshot);
    var position := 0;
    while position < |s.snapshot|
      invariant position <= |s.snapshot| && Joined(yielded) == plain[..position]
    {
      var left := |s.snapshot| - position;
      var length := if left < IO_CHUNK_BYTES then left else IO_CHUNK_BYTES;
      ghost var since := snapshot.turn;
      var part := snapshot.ReadExactly(position, length);
      if part.Err? {
        r := Err(part.error);
        return;
      }
      forall i | 0 <= i < length ensures part.value[i] == s.snapshot[position + i] {
        assert snapshot.Seen(since, snapshot.turn, position + i, part.value[i]);
      }
      assert part.value == s.snapshot[position..position + length];
      CryptPart(c, key, s.nonce, s.snapshot, position, position + length);
      var decrypted := Crypt(c, key, s.nonce, position, part.value);
      assert plain[..position] + plain[position..position + length] == plain[..position + length];
      assert (yielded + [decrypted])[..|yielded|] == yielded;
      yielded := yielded + [decrypted];
      position := position + length;
    }
    r := Ok(());
  }
}
