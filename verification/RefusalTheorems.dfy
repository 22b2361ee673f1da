/** What the container's encoders and decoders refuse, with which error, and where a refusal leaves the cursor. */
module RefusalTheorems {
  import opened Wrappers
  import opened Bytes
  import opened ContainerFormat
  import opened ContainerIo
  import opened DemuxSpec
  import opened AcceptTheorems
  import opened MuxSpec
  import opened DemuxTheorems

  // ----- encoders -----

  lemma HeaderEncodable(h: FileHeader)
    ensures EncodeFileHeader(h).Success? <==>
      && h.trackCount <= 1024
      && ((h.version == 1 && h.headerLen == 20) || (h.version == 2 && h.headerLen == 24))
    ensures EncodeFileHeader(h).Failure? ==> EncodeFileHeader(h).error.InvalidInput?
  {
  }

  lemma BlockEncodable(cs: Checksums, useCrc32c: bool, b: Block)
    ensures EncodeBlock(cs, useCrc32c, b).Success? <==>
      match b
      case PacketOf(p) => |p.payload| <= 67_108_864
      case CueOf(c) => |c.entries| <= 1_000_000
      case IndexOf(es) => |es| <= 1_000_000
    ensures EncodeBlock(cs, useCrc32c, b).Failure? ==> EncodeBlock(cs, useCrc32c, b).error.InvalidInput?
  {
    hide BlockBytes;
  }

  lemma TrackEncodable(t: TrackDescriptor)
    ensures EncodeTrack(t).Success? <==> |t.config| <= 1_048_576
    ensures EncodeTrack(t).Failure? ==> EncodeTrack(t).error.InvalidInput?
  {
    hide TrackBytes;
  }

  // ----- headers of files and tracks -----

  predicate StartsWith(data: seq<byte>, pos: nat, bytes: seq<byte>) {
    pos + |bytes| <= |data| && data[pos..pos + |bytes|] == bytes
  }

  /**
   A file header behind its magic of `n` bytes: a short file, then the version, then the length, then the
   version again against the magic, then the number of tracks.
   */
  lemma FieldsRefused(data: seq<byte>, pos: nat, v2: bool)
    ensures var (r, next) := HeaderFieldsAt(data, pos, v2);
      if pos + 16 > |data| then r == Failure(UnexpectedEof) && next >= |data|
      else
        var version, len, tracks := U16At(data, pos), U32At(data, pos + 4), U16At(data, pos + 8);
        && next == pos + 16
        && (version != 1 && version != 2 ==> r == Failure(InvalidData(UnsupportedVersion(version))))
        && ((version == 1 || version == 2) && len != (if v2 then 24 else 20) ==>
              r == Failure(InvalidData(InvalidHeaderLayout(if v2 then 24 else 20, len))))
        && (len == (if v2 then 24 else 20) && version == (if v2 then 1 else 2) ==>
              r == Failure(InvalidData(UnsupportedVersion(version))))
        && (len == (if v2 then 24 else 20) && version == (if v2 then 2 else 1) && tracks > 1024 ==>
              r == Failure(InvalidData(LimitExceeded("track_count > MAX_TRACKS"))))
        && (len == (if v2 then 24 else 20) && version == (if v2 then 2 else 1) && tracks <= 1024 ==>
              r == Success(FileHeader(version, U16At(data, pos + 2), len, tracks, U32At(data, pos + 12))))
  {
    hide FromLe;
    if pos + 16 <= |data| {
      var rest := data[pos..pos + 16];
      assert rest[0..2] == data[pos..pos + 2] && rest[2..4] == data[pos + 2..pos + 4];
      assert rest[4..8] == data[pos + 4..pos + 8] && rest[8..10] == data[pos + 8..pos + 10];
      assert rest[12..16] == data[pos + 12..pos + 16];
    }
  }

  /** Which magic decides the layout of a file header. */
  lemma MagicDecides(data: seq<byte>, pos: nat)
    ensures var r := FileHeaderAt(data, pos);
      if StartsWith(data, pos, [0x53, 0x52, 0x53, 0x4d]) then r == HeaderFieldsAt(data, pos + 4, false)
      else if StartsWith(data, pos, [0x53, 0x52, 0x53, 0x35, 0x32, 0x38, 0, 0]) then
        r == HeaderFieldsAt(data, pos + 8, true)
      else if pos + 8 <= |data| then
        r == (Failure(InvalidData(InvalidMagic(data[pos..pos + 4]))), pos + 8)
      else r.0 == Failure(UnexpectedEof) && r.1 >= |data|
  {
    hide HeaderFieldsAt;
    if pos + 8 <= |data| {
      assert data[pos..pos + 4] + data[pos + 4..pos + 8] == data[pos..pos + 8];
    }
  }

  lemma TrackRefused(data: seq<byte>, pos: nat)
    ensures var (r, next) := TrackAt(data, pos);
      if pos + 3 > |data| then r == Failure(UnexpectedEof) && next >= |data|
      else if data[pos + 2] < 1 || data[pos + 2] > 6 then
        r == Failure(InvalidData(InvalidTrackKind(data[pos + 2]))) && next == pos + 3
      else if pos + 16 > |data| then r == Failure(UnexpectedEof) && next >= |data|
      else if U32At(data, pos + 12) > 1_048_576 then
        r == Failure(InvalidData(LimitExceeded("track config > MAX_TRACK_CONFIG_BYTES"))) && next == pos + 16
      else if U32At(data, pos + 12) > 0 && pos + 16 + U32At(data, pos + 12) > |data| then
        r == Failure(UnexpectedEof) && next >= |data|
      else r.Success? && next == pos + 16 + U32At(data, pos + 12)
  {
    hide FromLe;
    if pos + 16 <= |data| {
      var f := data[pos + 3..pos + 16];
      assert f[9..13] == data[pos + 12..pos + 16];
    }
  }

  // ----- bodies -----

  lemma PacketRefused(body: seq<byte>)
    ensures DecodePacket(body) == Failure(InvalidLength("packet block")) <==> |body| < 32
    ensures |body| >= 32 ==>
      && (DecodePacket(body) == Failure(LimitExceeded("packet payload_len > MAX_PACKET_PAYLOAD_BYTES")) <==>
            U32At(body, 28) > 67_108_864)
      && (DecodePacket(body) == Failure(InvalidLength("packet payload")) <==>
            U32At(body, 28) <= 67_108_864 && |body| != 32 + U32At(body, 28))
      && (DecodePacket(body).Success? <==> U32At(body, 28) <= 67_108_864 && |body| == 32 + U32At(body, 28))
  {
    hide FromLe;
  }

  lemma CueRefused(body: seq<byte>)
    ensures DecodeCue(body) == Failure(InvalidLength("cue block")) <==> |body| < 20
    ensures |body| >= 20 ==>
      && (DecodeCue(body) == Failure(InvalidLength("cue index entries")) <==> |body| != 20 + 28 * U32At(body, 16))
      && (DecodeCue(body).Failure? && DecodeCue(body).error.LimitExceeded? <==>
            |body| == 20 + 28 * U32At(body, 16) && U32At(body, 16) > 1_000_000)
      && (DecodeCue(body).Success? <==> |body| == 20 + 28 * U32At(body, 16) && U32At(body, 16) <= 1_000_000)
  {
    hide FromLe, DecodeEntries;
  }

  lemma IndexRefused(body: seq<byte>)
    ensures DecodeIndex(body) == Failure(InvalidLength("index block")) <==> |body| < 4
    ensures |body| >= 4 ==>
      && (DecodeIndex(body) == Failure(InvalidLength("index entries")) <==> |body| != 4 + 28 * U32At(body, 0))
      && (DecodeIndex(body).Failure? && DecodeIndex(body).error.LimitExceeded? <==>
            |body| == 4 + 28 * U32At(body, 0) && U32At(body, 0) > 1_000_000)
      && (DecodeIndex(body).Success? <==> |body| == 4 + 28 * U32At(body, 0) && U32At(body, 0) <= 1_000_000)
  {
    hide FromLe, DecodeEntries;
  }

  // ----- the block envelope -----

  /** A block header: a short file, the magic, the checksum, the type and the body's length, in this order. */
  lemma BlockHeaderRefused(cs: Checksums, useCrc32c: bool, data: seq<byte>, pos: nat)
    ensures var (r, next) := BlockHeaderAt(cs, useCrc32c, data, pos);
      if pos + 16 > |data| then r == Failure(UnexpectedEof) && next >= |data|
      else if data[pos..pos + 4] != [0x53, 0x42, 0x4c, 0x4b] then
        r == Failure(InvalidData(InvalidMagic(data[pos..pos + 4]))) && next == pos + 16
      else if pos + 20 > |data| then r == Failure(UnexpectedEof) && next >= |data|
      else
        var stored, computed := U32At(data, pos + 16), cs.Of(data[pos..pos + 16], useCrc32c);
        && next == pos + 20
        && (stored != computed ==> r == Failure(InvalidData(InvalidHeaderCrc(stored, computed))))
        && (stored == computed && (data[pos + 4] < 1 || data[pos + 4] > 3) ==>
              r == Failure(InvalidData(InvalidBlockType(data[pos + 4]))))
        && (stored == computed && 1 <= data[pos + 4] <= 3 && U32At(data, pos + 8) > 16_777_216 ==>
              r == Failure(InvalidData(LimitExceeded("block body_len > MAX_BLOCK_BODY_BYTES"))))
        && (stored == computed && 1 <= data[pos + 4] <= 3 && U32At(data, pos + 8) <= 16_777_216 ==> r.Success?)
  {
    hide FromLe;
    if pos + 20 <= |data| {
      var prelude, crc := data[pos..pos + 16], data[pos + 16..pos + 20];
      SliceOf(data, pos, 16, 0, 4);
      SliceOf(data, pos, 16, 8, 4);
      assert crc[0..4] == crc && prelude[4] == data[pos + 4];
    } else if pos + 16 <= |data| {
      assert data[pos..pos + 16][0..4] == data[pos..pos + 4];
    }
  }

  lemma BodyRefused(cs: Checksums, useCrc32c: bool, data: seq<byte>, pos: nat, h: BlockHeader)
    ensures var (r, next) := BlockBodyAt(cs, useCrc32c, data, pos, h);
      if h.bodyLen > 16_777_216 then
        r == Failure(InvalidData(LimitExceeded("block body_len > MAX_BLOCK_BODY_BYTES"))) && next == pos
      else if h.bodyLen > 0 && pos + h.bodyLen > |data| then r == Failure(UnexpectedEof) && next >= |data|
      else
        var body := if h.bodyLen == 0 then [] else data[pos..pos + h.bodyLen];
        var computed := cs.Of(body, useCrc32c);
        && next == pos + h.bodyLen
        && r == if h.bodyCrc == computed then Success(body)
                else Failure(InvalidData(InvalidBodyCrc(h.bodyCrc, computed)))
  {
  }

  // ----- the window of resynchronization -----

  /** The probe is what is left of the file, but at most 8192 bytes of it. */
  lemma ProbeIs(f: File, pos: nat)
    requires pos <= |f.data|
    ensures |Probe(f, pos)| == (if |f.data| - pos < 8192 then |f.data| - pos else 8192)
    ensures StartsWith(f.data, pos, Probe(f, pos))
  {
  }

  // ----- which checksum -----

  /** Files of version 1 are guarded by CRC-32, files of version 2 by CRC-32C, when written and when read. */
  lemma VersionDecidesChecksum(cs: Checksums, h: FileHeader, tracks: seq<TrackDescriptor>, data: seq<byte>,
                               bytes: seq<byte>)
    requires EncodeFileHeader(h).Success?
    ensures cs.Of(bytes, LayoutOf(cs, h, tracks).useCrc32c)
            == if h.version == 1 then cs.crc32(bytes) else cs.crc32c(bytes)
    ensures cs.Of(bytes, FileOf(cs, h, data).useCrc32c)
            == if h.version == 1 then cs.crc32(bytes) else cs.crc32c(bytes)
  {
    hide Preamble;
  }
}
