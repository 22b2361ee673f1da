/**
 Every container structure reads back as it was written, wherever in the file it lies.
 */
module ContainerTheorems {
  import opened Wrappers
  import opened Bytes
  import opened ContainerFormat
  import opened ContainerIo

  // ----- what the reader's limits and integer widths admit -----

  ghost predicate ReadableEntries(es: seq<IndexEntry>) {
    forall i :: 0 <= i < |es| ==> es[i].packetNumber < U64_LIMIT && es[i].fileOffset < U64_LIMIT
  }

  ghost predicate Readable(b: Block) {
    && |BodyBytes(b)| <= MAX_BLOCK_BODY_BYTES
    && match b
       case PacketOf(p) => p.header.payloadLen == |p.payload| && p.header.sequence < U64_LIMIT
       case CueOf(c) => c.cueId < U64_LIMIT && c.firstPacketNumber < U64_LIMIT && ReadableEntries(c.entries)
       case IndexOf(es) => ReadableEntries(es)
  }

  // ----- headers -----

  lemma HeaderFieldsRoundTrip(h: FileHeader)
    requires h.version == CONTAINER_VERSION_LEGACY || h.version == CONTAINER_VERSION
    ensures ParseHeaderFields(HeaderFields(h)) == Success(h)
  {
    hide LeBytes;
    var s := HeaderFields(h);
    assert s[0..2] == LeBytes(h.version, 2) && s[2..4] == LeBytes(h.flags, 2) && s[4..8] == LeBytes(h.headerLen, 4);
    assert s[8..10] == LeBytes(h.trackCount, 2) && s[12..16] == LeBytes(h.cueInterval, 4);
    U16RoundTrip(h.version);
    U16RoundTrip(h.flags);
    U32RoundTrip(h.headerLen);
    U16RoundTrip(h.trackCount);
    U32RoundTrip(h.cueInterval);
  }

  /** An encodable header, of either version, is read back from where it was written. */
  lemma FileHeaderRoundTrip(h: FileHeader, data: seq<byte>, pos: nat)
    requires EncodeFileHeader(h).Success? && HasAt(data, pos, EncodeFileHeader(h).value)
    ensures FileHeaderAt(data, pos) == (Success(h), pos + |EncodeFileHeader(h).value|)
  {
    hide HeaderFields, ParseHeaderFields;
    HeaderFieldsRoundTrip(h);
    if h.version == CONTAINER_VERSION_LEGACY {
      HasParts(data, pos, CONTAINER_MAGIC_LEGACY, HeaderFields(h));
    } else {
      assert CONTAINER_MAGIC == CONTAINER_MAGIC[..4] + CONTAINER_MAGIC[4..];
      HasParts(data, pos, CONTAINER_MAGIC, HeaderFields(h));
      HasParts(data, pos, CONTAINER_MAGIC[..4], CONTAINER_MAGIC[4..]);
      assert CONTAINER_MAGIC[..4] != CONTAINER_MAGIC_LEGACY by {
        assert CONTAINER_MAGIC[..4][3] != CONTAINER_MAGIC_LEGACY[3];
      }
    }
  }

  lemma TrackFieldsParse(t: TrackDescriptor)
    requires |t.config| < U32_LIMIT
    ensures var s := TrackFields(t);
            && U16At(s[..3], 0) == t.trackId
            && s[..3][2] == t.kind.Code()
            && U16At(s[3..], 1) == t.codecId
            && U16At(s[3..], 3) == t.flags
            && U32At(s[3..], 5) == t.timescale
            && U32At(s[3..], 9) == |t.config|
  {
    hide LeBytes;
    var s := TrackFields(t);
    assert s[..3] == LeBytes(t.trackId, 2) + [t.kind.Code()];
    assert s[3..] == [0] + LeBytes(t.codecId, 2) + LeBytes(t.flags, 2) + LeBytes(t.timescale, 4)
                     + LeBytes(|t.config|, 4);
    assert s[..3][0..2] == LeBytes(t.trackId, 2) && s[3..][1..3] == LeBytes(t.codecId, 2);
    assert s[3..][3..5] == LeBytes(t.flags, 2) && s[3..][5..9] == LeBytes(t.timescale, 4);
    assert s[3..][9..13] == LeBytes(|t.config|, 4);
    U16RoundTrip(t.trackId);
    U16RoundTrip(t.codecId);
    U16RoundTrip(t.flags);
    U32RoundTrip(t.timescale);
    U32RoundTrip(|t.config|);
  }

  lemma TrackRoundTrip(t: TrackDescriptor, data: seq<byte>, pos: nat)
    requires EncodeTrack(t).Success? && HasAt(data, pos, TrackBytes(t))
    ensures TrackAt(data, pos) == (Success(t), pos + |TrackBytes(t)|)
  {
    hide TrackFields;
    var s := TrackFields(t);
    TrackFieldsParse(t);
    HasParts(data, pos, s, t.config);
    assert s == s[..3] + s[3..];
    HasParts(data, pos, s[..3], s[3..]);
    ReadsBack(data, pos, s[..3]);
    ReadsBack(data, pos + 3, s[3..]);
    ReadsBack(data, pos + 16, t.config);
    assert TrackKind.FromCode(t.kind.Code()) == Some(t.kind);
  }

  function TracksBytes(ts: seq<TrackDescriptor>): seq<byte> {
    if ts == [] then [] else TrackBytes(ts[0]) + TracksBytes(ts[1..])
  }

  lemma {:induction false} TracksRoundTrip(ts: seq<TrackDescriptor>, data: seq<byte>, pos: nat)
    requires forall i :: 0 <= i < |ts| ==> EncodeTrack(ts[i]).Success?
    requires HasAt(data, pos, TracksBytes(ts))
    ensures TracksAt(data, pos, |ts|) == (Success(ts), pos + |TracksBytes(ts)|)
    decreases |ts|
  {
    hide TrackAt, TrackBytes;
    if ts != [] {
      HasParts(data, pos, TrackBytes(ts[0]), TracksBytes(ts[1..]));
      TrackRoundTrip(ts[0], data, pos);
      TracksRoundTrip(ts[1..], data, pos + |TrackBytes(ts[0])|);
      assert [ts[0]] + ts[1..] == ts;
    }
  }

  // ----- bodies -----

  lemma PacketRoundTrip(p: Packet)
    requires Readable(PacketOf(p))
    ensures DecodePacket(BodyBytes(PacketOf(p))) == Success(p)
  {
    hide LeBytes;
    var h := p.header;
    var s := BodyBytes(PacketOf(p));
    assert s[0..2] == LeBytes(h.trackId, 2) && s[2..4] == LeBytes(h.flags, 2) && s[4..12] == LeBytes(h.sequence, 8);
    assert s[12..20] == LeBytes(h.pts, 8) && s[20..28] == LeBytes(h.dts, 8);
    assert s[28..32] == LeBytes(|p.payload|, 4) && s[32..] == p.payload;
    U16RoundTrip(h.trackId);
    U16RoundTrip(h.flags);
    U64RoundTrip(h.sequence);
    U64RoundTrip(h.pts);
    U64RoundTrip(h.dts);
    U32RoundTrip(|p.payload|);
  }

  lemma Middle(head: seq<byte>, mid: seq<byte>, tail: seq<byte>)
    ensures (head + mid + tail)[|head|..|head| + |mid|] == mid
  {
  }

  /** The five fields of an entry, cut at each of its borders. */
  lemma SameBytes(a: seq<byte>, b: seq<byte>, c: seq<byte>, d: seq<byte>, e: seq<byte>)
    ensures [] + a + (b + c + d + e) == a + b + c + d + e
    ensures a + b + (c + d + e) == a + b + c + d + e
    ensures a + b + c + (d + e) == a + b + c + d + e
    ensures a + b + c + d + e + [] == a + b + c + d + e
  {
  }

  lemma EntryRoundTrip(e: IndexEntry)
    requires e.packetNumber < U64_LIMIT && e.fileOffset < U64_LIMIT
    ensures DecodeEntry(EntryBytes(e)) == e
  {
    hide LeBytes;
    var number, offset, pts := LeBytes(e.packetNumber, 8), LeBytes(e.fileOffset, 8), LeBytes(e.pts, 8);
    var track, flags := LeBytes(e.trackId, 2), LeBytes(e.flags, 2);
    Middle([], number, offset + track + flags + pts);
    Middle(number, offset, track + flags + pts);
    Middle(number + offset, track, flags + pts);
    Middle(number + offset + track, flags, pts);
    Middle(number + offset + track + flags, pts, []);
    SameBytes(number, offset, track, flags, pts);
    U64RoundTrip(e.packetNumber);
    U64RoundTrip(e.fileOffset);
    U16RoundTrip(e.trackId);
    U16RoundTrip(e.flags);
    U64RoundTrip(e.pts);
  }

  lemma {:induction false} EntriesBytesAt(es: seq<IndexEntry>, i: nat)
    requires i < |es|
    ensures EntriesBytes(es)[ENTRY_LEN * i..ENTRY_LEN * i + ENTRY_LEN] == EntryBytes(es[i])
    decreases |es|
  {
    hide EntryBytes;
    var n := |es| - 1;
    if i < n {
      EntriesBytesAt(es[..n], i);
      assert EntriesBytes(es)[ENTRY_LEN * i..ENTRY_LEN * i + ENTRY_LEN]
          == EntriesBytes(es[..n])[ENTRY_LEN * i..ENTRY_LEN * i + ENTRY_LEN];
    }
  }

  lemma EntriesRoundTrip(es: seq<IndexEntry>)
    requires ReadableEntries(es)
    ensures DecodeEntries(EntriesBytes(es)) == es
  {
    hide EntryBytes, DecodeEntry, EntriesBytes;
    forall i | 0 <= i < |es|
      ensures DecodeEntries(EntriesBytes(es))[i] == es[i]
    {
      EntriesBytesAt(es, i);
      EntryRoundTrip(es[i]);
    }
  }

  lemma CueRoundTrip(c: CueBlock)
    requires Readable(CueOf(c))
    ensures DecodeCue(BodyBytes(CueOf(c))) == Success(c)
  {
    hide LeBytes, EntriesBytes, DecodeEntries;
    var s := BodyBytes(CueOf(c));
    assert s[0..8] == LeBytes(c.cueId, 8) && s[8..16] == LeBytes(c.firstPacketNumber, 8);
    assert s[16..20] == LeBytes(|c.entries|, 4) && s[20..] == EntriesBytes(c.entries);
    U64RoundTrip(c.cueId);
    U64RoundTrip(c.firstPacketNumber);
    U32RoundTrip(|c.entries|);
    EntriesRoundTrip(c.entries);
  }

  lemma IndexRoundTrip(es: seq<IndexEntry>)
    requires Readable(IndexOf(es))
    ensures DecodeIndex(BodyBytes(IndexOf(es))) == Success(es)
  {
    hide LeBytes, EntriesBytes, DecodeEntries;
    var s := BodyBytes(IndexOf(es));
    assert s[0..4] == LeBytes(|es|, 4) && s[4..] == EntriesBytes(es);
    U32RoundTrip(|es|);
    EntriesRoundTrip(es);
  }

  lemma BodyRoundTrip(b: Block)
    requires Readable(b)
    ensures DecodeBody(b.Type(), BodyBytes(b)) == Success(b)
  {
    hide BodyBytes, DecodePacket, DecodeCue, DecodeIndex;
    match b
    case PacketOf(p) => PacketRoundTrip(p);
    case CueOf(c) => CueRoundTrip(c);
    case IndexOf(es) => IndexRoundTrip(es);
  }

  // ----- blocks -----

  lemma PreludeParses(kind: BlockType, bodyLen: u32, bodyCrc: u32)
    ensures var s := Prelude(kind, bodyLen, bodyCrc);
            && s[0..4] == BLOCK_MAGIC
            && BlockType.FromCode(s[4]) == Some(kind)
            && s[5] == 0
            && U32At(s, 8) == bodyLen
            && U32At(s, 12) == bodyCrc
  {
    hide LeBytes;
    var s := Prelude(kind, bodyLen, bodyCrc);
    assert s[8..12] == LeBytes(bodyLen, 4) && s[12..16] == LeBytes(bodyCrc, 4);
    U32RoundTrip(bodyLen);
    U32RoundTrip(bodyCrc);
  }

  /** A block's header is accepted where it was written if its body is within the limit, and refused otherwise. */
  lemma HeaderReads(cs: Checksums, useCrc32c: bool, b: Block, data: seq<byte>, pos: nat)
    requires |BodyBytes(b)| < U32_LIMIT && HasAt(data, pos, BlockBytes(cs, useCrc32c, b)[..BLOCK_HEADER_LEN])
    ensures BlockHeaderAt(cs, useCrc32c, data, pos) ==
      if |BodyBytes(b)| <= MAX_BLOCK_BODY_BYTES
      then (Success(BlockHeader(b.Type(), 0, |BodyBytes(b)|, cs.Of(BodyBytes(b), useCrc32c))), pos + BLOCK_HEADER_LEN)
      else (Failure(InvalidData(LimitExceeded("block body_len > MAX_BLOCK_BODY_BYTES"))), pos + BLOCK_HEADER_LEN)
  {
    hide BodyBytes, Prelude;
    var body := BodyBytes(b);
    var prelude := Prelude(b.Type(), |body|, cs.Of(body, useCrc32c));
    var crc := LeBytes(cs.Of(prelude, useCrc32c), 4);
    PreludeParses(b.Type(), |body|, cs.Of(body, useCrc32c));
    assert BlockBytes(cs, useCrc32c, b)[..BLOCK_HEADER_LEN] == prelude + crc;
    HasParts(data, pos, prelude, crc);
    ReadsBack(data, pos, prelude);
    ReadsBack(data, pos + 16, crc);
    assert crc[0..4] == crc;
    U32RoundTrip(cs.Of(prelude, useCrc32c));
  }

  /** A readable block's header is accepted where it was written, and its body passes its checksum. */
  lemma EnvelopeRoundTrip(cs: Checksums, useCrc32c: bool, b: Block, data: seq<byte>, pos: nat)
    requires Readable(b) && HasAt(data, pos, BlockBytes(cs, useCrc32c, b))
    ensures var h := BlockHeader(b.Type(), 0, |BodyBytes(b)|, cs.Of(BodyBytes(b), useCrc32c));
            && BlockHeaderAt(cs, useCrc32c, data, pos) == (Success(h), pos + BLOCK_HEADER_LEN)
            && BlockBodyAt(cs, useCrc32c, data, pos + BLOCK_HEADER_LEN, h)
               == (Success(BodyBytes(b)), pos + |BlockBytes(cs, useCrc32c, b)|)
  {
    hide BodyBytes, Prelude, BlockHeaderAt;
    var bytes, body := BlockBytes(cs, useCrc32c, b), BodyBytes(b);
    assert bytes == bytes[..BLOCK_HEADER_LEN] + body;
    HasParts(data, pos, bytes[..BLOCK_HEADER_LEN], body);
    HeaderReads(cs, useCrc32c, b, data, pos);
    ReadsBack(data, pos + BLOCK_HEADER_LEN, body);
  }
}
