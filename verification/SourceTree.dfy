/**
  The digest of a source tree (scripts/src/source-tree-sha256.ts): length frames,
  a presence byte and the contents, fed piece by piece to SHA-256.
*/
module SourceTree {
  import opened Wrappers
  import ByteCodecs

  const FRAME_BYTES: nat := 8
  const LIMIT: nat := 0x1_0000_0000_0000_0000
  const MAGIC: Bytes := Ascii("boardagent.source-tree-sha256.v2\0")

  /** A named source, by the UTF-8 of its name; a missing file has no content. */
  datatype Source = Source(name: Bytes, content: Option<Bytes>)

  /** `lengthFrame`. */
  function Frame(length: nat): (r: Bytes)
    ensures |r| == FRAME_BYTES
  {
    ByteCodecs.BigEndian(length, FRAME_BYTES)
  }

  function Presence(content: Option<Bytes>): bv8 {
    if content.None? then 0 else 1
  }

  function Payload(content: Option<Bytes>): Bytes {
    if content.None? then [] else content.value
  }

  function Body(content: Option<Bytes>): Bytes {
    [Presence(content)] + Framing(Payload(content))
  }

  /** Bytes behind their length. */
  function Framing(bytes: Bytes): Bytes {
    Frame(|bytes|) + bytes
  }

  function Entry(s: Source): Bytes {
    Framing(s.name) + Body(s.content)
  }

  function Entries(sources: seq<Source>): Bytes {
    if sources == [] then [] else Entries(sources[..|sources| - 1]) + Entry(sources[|sources| - 1])
  }

  /** Everything the digest is fed. */
  function Framed(sources: seq<Source>): Bytes {
    MAGIC + Frame(|sources|) + Entries(sources)
  }

  predicate SizedSource(s: Source) {
    |s.name| < LIMIT && |Payload(s.content)| < LIMIT
  }

  /** Lengths the frame can hold; writing a larger one throws. */
  predicate Sized(sources: seq<Source>) {
    && |sources| < LIMIT
    && forall s | s in sources :: SizedSource(s)
  }

  // ---------- Unique decodability ----------

  lemma {:induction false} LimitIsPower()
    ensures ByteCodecs.Power(FRAME_BYTES) == LIMIT
  {
    assert ByteCodecs.Power(2) == 0x1_0000;
    assert ByteCodecs.Power(4) == 0x1_0000_0000;
    assert ByteCodecs.Power(6) == 0x1_0000_0000_0000;
  }

  /** A frame read back is its length, below 2^64. */
  lemma {:induction false} FrameInjective(m: nat, n: nat)
    requires m < LIMIT && n < LIMIT && Frame(m) == Frame(n)
    ensures m == n
  {
    LimitIsPower();
    ByteCodecs.BigEndianInjective(m, n, FRAME_BYTES);
  }

  lemma {:induction false} Split(a: Bytes, x: Bytes, b: Bytes, y: Bytes)
    requires a + x == b + y && |a| == |b|
    ensures a == b && x == y
  {
    assert a == (a + x)[..|a|] && b == (b + y)[..|b|];
    assert x == (a + x)[|a|..] && y == (b + y)[|b|..];
  }

  lemma {:induction false} Associate(a: Bytes, b: Bytes, c: Bytes)
    ensures (a + b) + c == a + (b + c)
  {
  }

  /** A frame and the bytes it announces, whatever follows. */
  lemma {:induction false} FramingPrefix(a: Bytes, x: Bytes, b: Bytes, y: Bytes)
    requires |a| < LIMIT && |b| < LIMIT && Framing(a) + x == Framing(b) + y
    ensures a == b && x == y
  {
    hide Frame;
    Associate(Frame(|a|), a, x);
    Associate(Frame(|b|), b, y);
    Split(Frame(|a|), a + x, Frame(|b|), b + y);
    FrameInjective(|a|, |b|);
    Split(a, x, b, y);
  }

  lemma {:induction false} BodyPrefix(c: Option<Bytes>, x: Bytes, d: Option<Bytes>, y: Bytes)
    requires |Payload(c)| < LIMIT && |Payload(d)| < LIMIT && Body(c) + x == Body(d) + y
    ensures c == d && x == y
  {
    hide Framing;
    Associate([Presence(c)], Framing(Payload(c)), x);
    Associate([Presence(d)], Framing(Payload(d)), y);
    Split([Presence(c)], Framing(Payload(c)) + x, [Presence(d)], Framing(Payload(d)) + y);
    FramingPrefix(Payload(c), x, Payload(d), y);
    assert [Presence(c)][0] == [Presence(d)][0];
  }

  /** No entry is a proper prefix of another: binary content cannot pass for a boundary. */
  lemma {:induction false} EntryPrefixFree(s: Source, x: Bytes, t: Source, y: Bytes)
    requires SizedSource(s) && SizedSource(t) && Entry(s) + x == Entry(t) + y
    ensures s == t && x == y
  {
    hide Framing, Body;
    Associate(Framing(s.name), Body(s.content), x);
    Associate(Framing(t.name), Body(t.content), y);
    FramingPrefix(s.name, Body(s.content) + x, t.name, Body(t.content) + y);
    BodyPrefix(s.content, x, t.content, y);
  }

  lemma {:induction false} EntriesHead(sources: seq<Source>)
    requires sources != []
    ensures Entries(sources) == Entry(sources[0]) + Entries(sources[1..])
  {
    hide Entry;
    var n := |sources| - 1;
    if n == 0 {
      assert sources[..0] == [] && sources[1..] == [];
      assert Entries(sources) == [] + Entry(sources[0]);
    } else {
      EntriesHead(sources[..n]);
      assert sources[..n][1..] == sources[1..][..n - 1];
      Associate(Entry(sources[0]), Entries(sources[1..][..n - 1]), Entry(sources[n]));
    }
  }

  lemma {:induction false} EntriesInjective(s: seq<Source>, t: seq<Source>)
    requires |s| == |t| && (forall x | x in s :: SizedSource(x)) && (forall x | x in t :: SizedSource(x)) && Entries(s) == Entries(t)
    ensures s == t
    decreases |s|
  {
    hide Entry, Entries, SizedSource;
    if s != [] {
      EntriesHead(s);
      EntriesHead(t);
      assert s[0] in s && t[0] in t;
      EntryPrefixFree(s[0], Entries(s[1..]), t[0], Entries(t[1..]));
      EntriesInjective(s[1..], t[1..]);
      assert s == [s[0]] + s[1..] && t == [t[0]] + t[1..];
    }
  }

  /** The framing is uniquely decodable; in particular a missing file differs from an empty one. */
  lemma {:induction false} UniquelyDecodable(s: seq<Source>, t: seq<Source>)
    requires Sized(s) && Sized(t)
    ensures Framed(s) == Framed(t) <==> s == t
  {
    if Framed(s) == Framed(t) {
      hide Frame, Entries, MAGIC;
      Associate(MAGIC, Frame(|s|), Entries(s));
      Associate(MAGIC, Frame(|t|), Entries(t));
      Split(MAGIC, Frame(|s|) + Entries(s), MAGIC, Frame(|t|) + Entries(t));
      Split(Frame(|s|), Entries(s), Frame(|t|), Entries(t));
      FrameInjective(|s|, |t|);
      EntriesInjective(s, t);
    }
  }

  /** Two trees have the same digest iff they are the same, unless they are a collision of the hash itself. */
  lemma {:induction false} DigestsAgreeIff(hash: Bytes -> Bytes, s: seq<Source>, t: seq<Source>)
    requires Sized(s) && Sized(t)
    requires hash(Framed(s)) == hash(Framed(t)) ==> Framed(s) == Framed(t)
    ensures hash(Framed(s)) == hash(Framed(t)) <==> s == t
  {
    UniquelyDecodable(s, t);
  }

  // ---------- The loop ----------

  datatype Reading = Contents(bytes: Bytes) | Missing | Unreadable

  /** A digest in progress. */
  class Digest {
    var fed: Bytes

    constructor ()
      ensures fed == []
    {
      fed := [];
    }

    method Update(bytes: Bytes)
      modifies this
      ensures fed == old(fed) + bytes
    {
      fed := fed + bytes;
    }

    method LengthFrame(length: nat) returns (ok: bool)
      modifies this
      ensures ok <==> length < LIMIT
      ensures fed == if ok then old(fed) + Frame(length) else old(fed)
    {
      ok := length < LIMIT;
      if ok { Update(Frame(length)); }
    }
  }

  function ContentOf(reading: Reading): Option<Bytes> {
    if reading.Contents? then Some(reading.bytes) else None
  }

  function Sources(names: seq<Bytes>, read: Bytes -> Reading): (r: seq<Source>)
    ensures |r| == |names| && forall i | 0 <= i < |names| :: r[i] == Source(names[i], ContentOf(read(names[i])))
  {
    seq(|names|, i requires 0 <= i < |names| => Source(names[i], ContentOf(read(names[i]))))
  }

  /** The pieces of one entry, in the order they are fed. */
  lemma {:induction false} FedEntry(before: Bytes, s: Source, after: Bytes)
    requires after == before + Frame(|s.name|) + s.name + [Presence(s.content)] + Frame(|Payload(s.content)|) + Payload(s.content)
    ensures after == before + Entry(s)
  {
    hide Frame;
    var b := [Presence(s.content)] + Framing(Payload(s.content));
    assert after == before + Framing(s.name) + b;
  }

  /** One turn of the loop. */
  method FeedSource(digest: Digest, name: Bytes, reading: Reading) returns (ok: bool)
    modifies digest
    ensures ok <==> !reading.Unreadable? && SizedSource(Source(name, ContentOf(reading)))
    ensures ok ==> digest.fed == old(digest.fed) + Entry(Source(name, ContentOf(reading)))
  {
    hide Frame, Entry;
    ok := digest.LengthFrame(|name|);
    if !ok { return; }
    digest.Update(name);
    if reading.Unreadable? { return false; }
    digest.Update([if reading.Contents? then 1 else 0]);
    ok := digest.LengthFrame(if reading.Contents? then |reading.bytes| else 0);
    if !ok { return; }
    if reading.Contents? { digest.Update(reading.bytes); }
    FedEntry(old(digest.fed), Source(name, ContentOf(reading)), digest.fed);
  }

  lemma {:induction false} NoEntries()
    ensures Entries([]) == []
  {
  }

  lemma {:induction false} EntriesGrow(before: Bytes, sources: seq<Source>, i: nat)
    requires i < |sources|
    ensures before + Entries(sources[..i]) + Entry(sources[i]) == before + Entries(sources[..i + 1])
  {
    hide Entry;
    assert sources[..i + 1][..i] == sources[..i];
    Associate(before, Entries(sources[..i]), Entry(sources[i]));
  }

  lemma {:induction false} AllRead(names: seq<Bytes>, sources: seq<Source>, read: Bytes -> Reading)
    requires |names| == |sources| < LIMIT
    requires forall k | 0 <= k < |names| :: !read(names[k]).Unreadable? && SizedSource(sources[k])
    ensures (forall name | name in names :: !read(name).Unreadable?) && Sized(sources)
  {
    hide SizedSource;
  }

  /** `sourceTreeSha256ForFiles`: a missing file is part of the digest, any other failed read ends it. */
  method SourceTreeSha256(names: seq<Bytes>, read: Bytes -> Reading, hash: Bytes -> Bytes) returns (r: Result<Bytes, ()>)
    ensures r.Ok? <==> (forall name | name in names :: !read(name).Unreadable?) && Sized(Sources(names, read))
    ensures r.Ok? ==> r.value == hash(Framed(Sources(names, read)))
  {
    hide Frame, MAGIC, Entry, Entries, SizedSource, Sources;
    var sources := Sources(names, read);
    var digest := new Digest();
    digest.Update(MAGIC);
    var ok := digest.LengthFrame(|names|);
    if !ok { return Err(()); }
    NoEntries();
    assert sources[..0] == [];
    for i := 0 to |names|
      invariant digest.fed == MAGIC + Frame(|names|) + Entries(sources[..i])
      invariant forall k | 0 <= k < i :: !read(names[k]).Unreadable? && SizedSource(sources[k])
    {
      var name := names[i];
      assert name in names && sources[i] in sources;
      ok := FeedSource(digest, name, read(name));
      if !ok { return Err(()); }
      EntriesGrow(MAGIC + Frame(|names|), sources, i);
    }
    assert sources[..|names|] == sources;
    AllRead(names, sources, read);
    r := Ok(hash(digest.fed));
  }

  // ---------- The layout ----------

  /** One entry: the name behind its length, then 1, the length and the content, or 0 and a length of zero for a missing file. */
  lemma {:induction false} EntryBytes(s: Source)
    ensures Entry(s) == ByteCodecs.BigEndian(|s.name|, 8) + s.name +
              match s.content
              case None => [0] + ByteCodecs.BigEndian(0, 8)
              case Some(content) => [1] + ByteCodecs.BigEndian(|content|, 8) + content
  {
    hide ByteCodecs.BigEndian;
  }

  /** The digest input: the format's name, the number of entries, and the entries in order. */
  lemma {:induction false} FramedBytes(sources: seq<Source>, last: Source)
    ensures Framed(sources) == Ascii("boardagent.source-tree-sha256.v2\0") + ByteCodecs.BigEndian(|sources|, 8) + Entries(sources)
    ensures Entries([]) == [] && Entries(sources + [last]) == Entries(sources) + Entry(last)
  {
    hide ByteCodecs.BigEndian, Entry;
    assert (sources + [last])[..|sources|] == sources;
  }
}
