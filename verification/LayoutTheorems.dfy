/** Where every field of a container file stands, byte by byte. */
module LayoutTheorems {
  import opened Bytes
  import opened LittleEndian
  import opened ContainerFormat
  import opened ContainerIo

  /** Numbers at the end of what is known to stand in `s`. */
  lemma Last16(s: seq<byte>, pre: seq<byte>, v: u16)
    requires HasAt(s, 0, pre + LeBytes(v, 2))
    ensures HasAt(s, 0, pre) && Is16(s, |pre|, v)
  {
    HasParts(s, 0, pre, LeBytes(v, 2));
    U16RoundTrip(v);
    Two(s[|pre|..|pre| + 2]);
  }

  lemma Last32(s: seq<byte>, pre: seq<byte>, v: u32)
    requires HasAt(s, 0, pre + LeBytes(v, 4))
    ensures HasAt(s, 0, pre) && Is32(s, |pre|, v)
  {
    HasParts(s, 0, pre, LeBytes(v, 4));
    U32RoundTrip(v);
    Four(s[|pre|..|pre| + 4]);
  }

  lemma Last64(s: seq<byte>, pre: seq<byte>, v: u64)
    requires HasAt(s, 0, pre + LeBytes(v, 8))
    ensures HasAt(s, 0, pre) && Is64(s, |pre|, v)
  {
    HasParts(s, 0, pre, LeBytes(v, 8));
    U64RoundTrip(v);
    Eight(s[|pre|..|pre| + 8]);
  }

  lemma LastByte(s: seq<byte>, pre: seq<byte>, v: byte)
    requires HasAt(s, 0, pre + [v])
    ensures HasAt(s, 0, pre) && |pre| < |s| && s[|pre|] == v
  {
    HasParts(s, 0, pre, [v]);
    assert s[|pre|..|pre| + 1][0] == v;
  }

  lemma LastBytes(s: seq<byte>, pre: seq<byte>, tail: seq<byte>)
    requires s == pre + tail
    ensures HasAt(s, 0, pre) && s[|pre|..] == tail
  {
    HasParts(s, 0, pre, tail);
  }

  // ----- header and tracks -----

  lemma HeaderLayout(h: FileHeader)
    requires EncodeFileHeader(h).Success?
    ensures var s := EncodeFileHeader(h).value;
      var n := if h.version == 1 then 4 else 8;
      && |s| == n + 16 && (h.version == 1 || h.version == 2)
      && s[..n] == (if h.version == 1 then [0x53, 0x52, 0x53, 0x4d]
                    else [0x53, 0x52, 0x53, 0x35, 0x32, 0x38, 0, 0])
      && Is16(s, n, h.version) && Is16(s, n + 2, h.flags) && Is32(s, n + 4, |s|) && Is16(s, n + 8, h.trackCount)
      && Is16(s, n + 10, 0) && Is32(s, n + 12, h.cueInterval)
  {
    hide LeBytes, HasAt, Is16, Is32;
    var s := EncodeFileHeader(h).value;
    var magic := s[..|s| - 16];
    assert magic == if h.version == 1 then CONTAINER_MAGIC_LEGACY else CONTAINER_MAGIC;
    var a := magic + LeBytes(h.version, 2);
    var b := a + LeBytes(h.flags, 2);
    var c := b + LeBytes(h.headerLen, 4);
    var d := c + LeBytes(h.trackCount, 2);
    var e := d + LeBytes(0, 2);
    assert s == e + LeBytes(h.cueInterval, 4);
    LastBytes(s, s, []);
    Last32(s, e, h.cueInterval);
    Last16(s, d, 0);
    Last16(s, c, h.trackCount);
    Last32(s, b, h.headerLen);
    Last16(s, a, h.flags);
    Last16(s, magic, h.version);
  }

  lemma TrackLayout(t: TrackDescriptor)
    requires EncodeTrack(t).Success?
    ensures var s := EncodeTrack(t).value;
      && |s| == 16 + |t.config|
      && Is16(s, 0, t.trackId)
      && s[2] == (match t.kind
                  case Audio => 1 case Video => 2 case Data => 3 case Subtitle => 4 case Metadata => 5
                  case Attachment => 6)
      && s[3] == 0 && Is16(s, 4, t.codecId) && Is16(s, 6, t.flags) && Is32(s, 8, t.timescale)
      && Is32(s, 12, |t.config|) && s[16..] == t.config
  {
    hide LeBytes, HasAt, Is16, Is32;
    var s := EncodeTrack(t).value;
    var a := [] + LeBytes(t.trackId, 2);
    var b := a + [t.kind.Code()];
    var c := b + [0];
    var d := c + LeBytes(t.codecId, 2);
    var e := d + LeBytes(t.flags, 2);
    var f := e + LeBytes(t.timescale, 4);
    assert s == f + LeBytes(|t.config|, 4) + t.config;
    LastBytes(s, f + LeBytes(|t.config|, 4), t.config);
    Last32(s, f, |t.config|);
    Last32(s, e, t.timescale);
    Last16(s, d, t.flags);
    Last16(s, c, t.codecId);
    LastByte(s, b, 0);
    LastByte(s, a, t.kind.Code());
    Last16(s, [], t.trackId);
  }

  // ----- blocks -----

  predicate PacketLayout(s: seq<byte>, p: Packet) {
    && |s| == 32 + |p.payload|
    && Is16(s, 0, p.header.trackId) && Is16(s, 2, p.header.flags) && Is64(s, 4, p.header.sequence)
    && Is64(s, 12, p.header.pts) && Is64(s, 20, p.header.dts) && Is32(s, 28, |p.payload|)
    && s[32..] == p.payload
  }

  predicate EntryLayout(s: seq<byte>, e: IndexEntry) {
    && |s| == 28
    && Is64(s, 0, e.packetNumber) && Is64(s, 8, e.fileOffset) && Is16(s, 16, e.trackId) && Is16(s, 18, e.flags)
    && Is64(s, 20, e.pts)
  }

  predicate FitsEntry(e: IndexEntry) {
    e.packetNumber < U64_LIMIT && e.fileOffset < U64_LIMIT
  }

  lemma PacketBytes(p: Packet)
    requires p.header.sequence < U64_LIMIT && |p.payload| < U32_LIMIT
    ensures PacketLayout(BodyBytes(PacketOf(p)), p)
  {
    hide LeBytes, HasAt, Is16, Is32, Is64;
    var s := BodyBytes(PacketOf(p));
    var a := [] + LeBytes(p.header.trackId, 2);
    var b := a + LeBytes(p.header.flags, 2);
    var c := b + LeBytes(p.header.sequence, 8);
    var d := c + LeBytes(p.header.pts, 8);
    var e := d + LeBytes(p.header.dts, 8);
    assert s == e + LeBytes(|p.payload|, 4) + p.payload;
    LastBytes(s, e + LeBytes(|p.payload|, 4), p.payload);
    Last32(s, e, |p.payload|);
    Last64(s, d, p.header.dts);
    Last64(s, c, p.header.pts);
    Last64(s, b, p.header.sequence);
    Last16(s, a, p.header.flags);
    Last16(s, [], p.header.trackId);
  }

  lemma EntryAtItsPlace(e: IndexEntry)
    requires FitsEntry(e)
    ensures EntryLayout(EntryBytes(e), e)
  {
    hide LeBytes, HasAt, Is16, Is64;
    var s := EntryBytes(e);
    var a := [] + LeBytes(e.packetNumber, 8);
    var b := a + LeBytes(e.fileOffset, 8);
    var c := b + LeBytes(e.trackId, 2);
    var d := c + LeBytes(e.flags, 2);
    assert s == d + LeBytes(e.pts, 8);
    LastBytes(s, s, []);
    Last64(s, d, e.pts);
    Last16(s, c, e.flags);
    Last16(s, b, e.trackId);
    Last64(s, a, e.fileOffset);
    Last64(s, [], e.packetNumber);
  }

  lemma {:induction false} EntriesAtTheirPlaces(es: seq<IndexEntry>, i: nat)
    requires i < |es| && FitsEntry(es[i])
    ensures EntryLayout(EntriesBytes(es)[28 * i..28 * i + 28], es[i])
    decreases |es|
  {
    hide EntryBytes, EntryLayout;
    var n := |es| - 1;
    var before := EntriesBytes(es[..n]);
    if i < n {
      EntriesAtTheirPlaces(es[..n], i);
      assert EntriesBytes(es)[28 * i..28 * i + 28] == before[28 * i..28 * i + 28];
    } else {
      EntryAtItsPlace(es[i]);
      assert EntriesBytes(es)[28 * i..28 * i + 28] == EntryBytes(es[i]);
    }
  }

  ghost predicate EntriesLayout(s: seq<byte>, from: nat, es: seq<IndexEntry>) {
    && |s| == from + 28 * |es|
    && forall i :: 0 <= i < |es| ==> EntryLayout(s[from + 28 * i..from + 28 * i + 28], es[i])
  }

  /** The body of a block: two numbers and a count in front of a cue's entries, a count in front of an index's. */
  ghost predicate BodyLayout(s: seq<byte>, b: Block) {
    match b
    case PacketOf(p) => PacketLayout(s, p)
    case CueOf(c) =>
      && Is64(s, 0, c.cueId) && Is64(s, 8, c.firstPacketNumber) && Is32(s, 16, |c.entries|)
      && EntriesLayout(s, 20, c.entries)
    case IndexOf(es) => Is32(s, 0, |es|) && EntriesLayout(s, 4, es)
  }

  ghost predicate Fits(b: Block) {
    match b
    case PacketOf(p) => p.header.sequence < U64_LIMIT
    case CueOf(c) =>
      && c.cueId < U64_LIMIT && c.firstPacketNumber < U64_LIMIT
      && forall i :: 0 <= i < |c.entries| ==> FitsEntry(c.entries[i])
    case IndexOf(es) => forall i :: 0 <= i < |es| ==> FitsEntry(es[i])
  }

  lemma EntriesFrom(s: seq<byte>, from: nat, es: seq<IndexEntry>)
    requires |s| == from + 28 * |es| && s[from..] == EntriesBytes(es)
    requires forall i :: 0 <= i < |es| ==> FitsEntry(es[i])
    ensures EntriesLayout(s, from, es)
  {
    hide EntriesBytes, FitsEntry, EntryLayout;
    forall i | 0 <= i < |es|
      ensures EntryLayout(s[from + 28 * i..from + 28 * i + 28], es[i])
    {
      EntriesAtTheirPlaces(es, i);
      assert s[from + 28 * i..from + 28 * i + 28] == s[from..][28 * i..28 * i + 28];
    }
  }

  lemma CueBytes(c: CueBlock)
    requires Fits(CueOf(c)) && |c.entries| < U32_LIMIT
    ensures BodyLayout(BodyBytes(CueOf(c)), CueOf(c))
  {
    hide LeBytes, HasAt, Is32, Is64, EntriesBytes, EntriesLayout, FitsEntry;
    var s := BodyBytes(CueOf(c));
    var a := [] + LeBytes(c.cueId, 8);
    var b := a + LeBytes(c.firstPacketNumber, 8);
    assert s == b + LeBytes(|c.entries|, 4) + EntriesBytes(c.entries);
    LastBytes(s, b + LeBytes(|c.entries|, 4), EntriesBytes(c.entries));
    Last32(s, b, |c.entries|);
    Last64(s, a, c.firstPacketNumber);
    Last64(s, [], c.cueId);
    EntriesFrom(s, 20, c.entries);
  }

  lemma IndexBytes(es: seq<IndexEntry>)
    requires Fits(IndexOf(es)) && |es| < U32_LIMIT
    ensures BodyLayout(BodyBytes(IndexOf(es)), IndexOf(es))
  {
    hide LeBytes, HasAt, Is32, EntriesBytes, EntriesLayout, FitsEntry;
    var s := BodyBytes(IndexOf(es));
    assert s == [] + LeBytes(|es|, 4) + EntriesBytes(es);
    LastBytes(s, [] + LeBytes(|es|, 4), EntriesBytes(es));
    Last32(s, [], |es|);
    EntriesFrom(s, 4, es);
  }

  /** A whole block: magic, type code, three zero bytes, length, both checksums and the body. */
  lemma BlockLayout(cs: Checksums, useCrc32c: bool, b: Block)
    requires Fits(b) && EncodeBlock(cs, useCrc32c, b).Success?
    ensures var s := EncodeBlock(cs, useCrc32c, b).value;
      && |s| >= 20
      && s[..4] == [0x53, 0x42, 0x4c, 0x4b]
      && s[4] == (match b case PacketOf(_) => 1 case CueOf(_) => 2 case IndexOf(_) => 3)
      && s[5] == s[6] == s[7] == 0
      && Is32(s, 8, |s| - 20)
      && Is32(s, 12, if useCrc32c then cs.crc32c(s[20..]) else cs.crc32(s[20..]))
      && Is32(s, 16, if useCrc32c then cs.crc32c(s[..16]) else cs.crc32(s[..16]))
      && BodyLayout(s[20..], b)
  {
    var s, body := EncodeBlock(cs, useCrc32c, b).value, BodyBytes(b);
    match b {
      case PacketOf(p) => PacketBytes(p);
      case CueOf(c) => CueBytes(c);
      case IndexOf(es) => IndexBytes(es);
    }
    hide BodyBytes, LeBytes, BodyLayout, Fits;
    EnvelopeLayout(cs, useCrc32c, b);
  }

  lemma EnvelopeLayout(cs: Checksums, useCrc32c: bool, b: Block)
    requires |BodyBytes(b)| < U32_LIMIT
    ensures var s := BlockBytes(cs, useCrc32c, b);
      && |s| >= 20 && s[20..] == BodyBytes(b)
      && s[..4] == [0x53, 0x42, 0x4c, 0x4b]
      && s[4] == (match b case PacketOf(_) => 1 case CueOf(_) => 2 case IndexOf(_) => 3)
      && s[5] == s[6] == s[7] == 0
      && Is32(s, 8, |s| - 20)
      && Is32(s, 12, if useCrc32c then cs.crc32c(s[20..]) else cs.crc32(s[20..]))
      && Is32(s, 16, if useCrc32c then cs.crc32c(s[..16]) else cs.crc32(s[..16]))
  {
    hide BodyBytes, LeBytes, HasAt, Is32;
    var body := BodyBytes(b);
    var s := BlockBytes(cs, useCrc32c, b);
    var a := BLOCK_MAGIC + [b.Type().Code()];
    var c := a + [0];
    var d := c + [0];
    var e := d + [0];
    TwoZeros();
    var f := e + LeBytes(|body|, 4);
    var g := f + LeBytes(cs.Of(body, useCrc32c), 4);
    assert g == Prelude(b.Type(), |body|, cs.Of(body, useCrc32c));
    assert s[..16] == g && s[20..] == body;
    LastBytes(s, g + LeBytes(cs.Of(g, useCrc32c), 4), body);
    Last32(s, g, cs.Of(g, useCrc32c));
    Last32(s, f, cs.Of(body, useCrc32c));
    Last32(s, e, |body|);
    LastByte(s, d, 0);
    LastByte(s, c, 0);
    LastByte(s, a, 0);
    LastByte(s, BLOCK_MAGIC, b.Type().Code());
  }

  lemma TwoZeros()
    ensures LeBytes(0, 2) == [0, 0]
  {
    TwoBytes(0);
  }
}
