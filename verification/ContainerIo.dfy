/**
 Encoding and decoding of every container structure. Decoders are functions of the whole file
 and a cursor; they give the outcome and the cursor afterwards.
 */
module ContainerIo {
  import opened Wrappers
  import opened Bytes
  import opened ContainerFormat

  // ----- reading at a cursor -----

  /** `Read::read_exact`: all bytes or end of file, which leaves the cursor behind the last byte. */
  function ReadExactAt(data: seq<byte>, pos: nat, n: nat): (r: (Result<seq<byte>, IoError>, nat))
    ensures r.1 >= pos
    ensures r.0.Success? ==> |r.0.value| == n && r.1 == pos + n
    ensures r.0.Failure? ==> r.0.error == UnexpectedEof && r.1 >= |data|
  {
    if n == 0 then (Success([]), pos)
    else if pos + n <= |data| then (Success(data[pos..pos + n]), pos + n)
    else (Failure(UnexpectedEof), if pos < |data| then |data| else pos)
  }

  ghost predicate HasAt(data: seq<byte>, pos: nat, bytes: seq<byte>) {
    pos + |bytes| <= |data| && data[pos..pos + |bytes|] == bytes
  }

  lemma HasParts(data: seq<byte>, pos: nat, a: seq<byte>, b: seq<byte>)
    ensures HasAt(data, pos, a + b) <==> HasAt(data, pos, a) && HasAt(data, pos + |a|, b)
  {
    if HasAt(data, pos, a + b) {
      assert data[pos..pos + |a|] == data[pos..pos + |a + b|][..|a|] == a;
      assert data[pos + |a|..pos + |a| + |b|] == data[pos..pos + |a + b|][|a|..] == b;
    }
    if HasAt(data, pos, a) && HasAt(data, pos + |a|, b) {
      assert data[pos..pos + |a + b|] == data[pos..pos + |a|] + data[pos + |a|..pos + |a| + |b|];
    }
  }

  lemma ReadsBack(data: seq<byte>, pos: nat, bytes: seq<byte>)
    requires HasAt(data, pos, bytes)
    ensures ReadExactAt(data, pos, |bytes|) == (Success(bytes), pos + |bytes|)
  {
  }

  // ----- file header -----

  function HeaderFields(h: FileHeader): (s: seq<byte>)
    ensures |s| == 16
  {
    LeBytes(h.version, 2) + LeBytes(h.flags, 2) + LeBytes(h.headerLen, 4) + LeBytes(h.trackCount, 2)
    + LeBytes(0, 2) + LeBytes(h.cueInterval, 4)
  }

  function EncodeFileHeader(h: FileHeader): Result<seq<byte>, IoError> {
    if h.trackCount > MAX_TRACKS then Failure(InvalidInput("track_count exceeds MAX_TRACKS"))
    else if h.version == CONTAINER_VERSION_LEGACY then
      if h.headerLen != FILE_HEADER_V1_ON_DISK_LEN then
        Failure(InvalidInput("v1 header_len must be FILE_HEADER_V1_ON_DISK_LEN"))
      else Success(CONTAINER_MAGIC_LEGACY + HeaderFields(h))
    else if h.version == CONTAINER_VERSION then
      if h.headerLen != FILE_HEADER_V2_ON_DISK_LEN then
        Failure(InvalidInput("v2 header_len must be FILE_HEADER_V2_ON_DISK_LEN"))
      else Success(CONTAINER_MAGIC + HeaderFields(h))
    else Failure(InvalidInput("unsupported container version for encode"))
  }

  function ParseHeaderFields(rest: seq<byte>): Result<FileHeader, ReadError>
    requires |rest| == 16
  {
    var version := U16At(rest, 0);
    if version != CONTAINER_VERSION_LEGACY && version != CONTAINER_VERSION then Failure(UnsupportedVersion(version))
    else Success(FileHeader(version, U16At(rest, 2), U32At(rest, 4), U16At(rest, 8), U32At(rest, 12)))
  }

  function LayoutError(h: FileHeader, magicIsV2: bool): Option<ReadError> {
    var expected := if magicIsV2 then FILE_HEADER_V2_ON_DISK_LEN else FILE_HEADER_V1_ON_DISK_LEN;
    if h.headerLen != expected then Some(InvalidHeaderLayout(expected, h.headerLen))
    else if magicIsV2 && h.version < CONTAINER_VERSION then Some(UnsupportedVersion(h.version))
    else if !magicIsV2 && h.version != CONTAINER_VERSION_LEGACY then Some(UnsupportedVersion(h.version))
    else None
  }

  /** The fields after either magic, and the checks on them. */
  function HeaderFieldsAt(data: seq<byte>, pos: nat, magicIsV2: bool): (r: (Result<FileHeader, IoError>, nat))
    ensures r.1 >= pos
  {
    match ReadExactAt(data, pos, 16)
    case (Failure(e), p) => (Failure(e), p)
    case (Success(rest), p) =>
      match ParseHeaderFields(rest)
      case Failure(e) => (Failure(InvalidData(e)), p)
      case Success(h) =>
        match LayoutError(h, magicIsV2)
        case Some(e) => (Failure(InvalidData(e)), p)
        case None =>
          if h.trackCount > MAX_TRACKS then (Failure(InvalidData(LimitExceeded("track_count > MAX_TRACKS"))), p)
          else (Success(h), p)
  }

  function FileHeaderAt(data: seq<byte>, pos: nat): (r: (Result<FileHeader, IoError>, nat))
    ensures r.1 >= pos
  {
    match ReadExactAt(data, pos, 4)
    case (Failure(e), p) => (Failure(e), p)
    case (Success(prefix), p) =>
      if prefix == CONTAINER_MAGIC_LEGACY then HeaderFieldsAt(data, p, false)
      else
        match ReadExactAt(data, p, 4)
        case (Failure(e), p') => (Failure(e), p')
        case (Success(more), p') =>
          if prefix + more != CONTAINER_MAGIC then (Failure(InvalidData(InvalidMagic(prefix))), p')
          else HeaderFieldsAt(data, p', true)
  }

  // ----- track descriptor -----

  function EncodeTrack(t: TrackDescriptor): Result<seq<byte>, IoError> {
    if |t.config| > MAX_TRACK_CONFIG_BYTES then Failure(InvalidInput("track config exceeds MAX_TRACK_CONFIG_BYTES"))
    else Success(TrackBytes(t))
  }

  function TrackFields(t: TrackDescriptor): (s: seq<byte>)
    ensures |s| == 16
  {
    LeBytes(t.trackId, 2) + [t.kind.Code()] + [0] + LeBytes(t.codecId, 2) + LeBytes(t.flags, 2)
    + LeBytes(t.timescale, 4) + LeBytes(|t.config|, 4)
  }

  function TrackBytes(t: TrackDescriptor): seq<byte> {
    TrackFields(t) + t.config
  }

  /**
   The reads of the fixed fields fail at different fields, but every short one with the same
   outcome, so the three bytes up to the track kind and the thirteen after it decide.
   */
  function TrackAt(data: seq<byte>, pos: nat): (r: (Result<TrackDescriptor, IoError>, nat))
    ensures r.1 >= pos
  {
    match ReadExactAt(data, pos, 3)
    case (Failure(e), p) => (Failure(e), p)
    case (Success(first), p) =>
      match TrackKind.FromCode(first[2])
      case None => (Failure(InvalidData(InvalidTrackKind(first[2]))), p)
      case Some(kind) => TrackRestAt(data, p, U16At(first, 0), kind)
  }

  function TrackRestAt(data: seq<byte>, pos: nat, trackId: u16, kind: TrackKind)
    : (r: (Result<TrackDescriptor, IoError>, nat))
    ensures r.1 >= pos
  {
    match ReadExactAt(data, pos, 13)
    case (Failure(e), p) => (Failure(e), p)
    case (Success(f), p) =>
      var len := U32At(f, 9);
      if len > MAX_TRACK_CONFIG_BYTES then
        (Failure(InvalidData(LimitExceeded("track config > MAX_TRACK_CONFIG_BYTES"))), p)
      else
        match ReadExactAt(data, p, len)
        case (Failure(e), p') => (Failure(e), p')
        case (Success(config), p') =>
          (Success(TrackDescriptor(trackId, kind, U16At(f, 1), U16At(f, 3), U32At(f, 5), config)), p')
  }

  function TracksAt(data: seq<byte>, pos: nat, n: nat): (r: (Result<seq<TrackDescriptor>, IoError>, nat))
    ensures r.1 >= pos
    ensures r.0.Success? ==> |r.0.value| == n
    decreases n
  {
    if n == 0 then (Success([]), pos)
    else
      match TrackAt(data, pos)
      case (Failure(e), p) => (Failure(e), p)
      case (Success(t), p) =>
        match TracksAt(data, p, n - 1)
        case (Failure(e), p') => (Failure(e), p')
        case (Success(ts), p') => (Success([t] + ts), p')
  }

  // ----- bodies -----

  function PacketFields(p: Packet): (s: seq<byte>)
    ensures |s| == 32
  {
    LeBytes(p.header.trackId, 2) + LeBytes(p.header.flags, 2) + LeBytes(p.header.sequence, 8)
    + LeBytes(p.header.pts, 8) + LeBytes(p.header.dts, 8) + LeBytes(|p.payload|, 4)
  }

  function EntryBytes(e: IndexEntry): (s: seq<byte>)
    ensures |s| == ENTRY_LEN
  {
    LeBytes(e.packetNumber, 8) + LeBytes(e.fileOffset, 8) + LeBytes(e.trackId, 2) + LeBytes(e.flags, 2)
    + LeBytes(e.pts, 8)
  }

  function EntriesBytes(es: seq<IndexEntry>): (s: seq<byte>)
    ensures |s| == ENTRY_LEN * |es|
  {
    if es == [] then [] else EntriesBytes(es[..|es| - 1]) + EntryBytes(es[|es| - 1])
  }

  function BodyBytes(b: Block): seq<byte> {
    match b
    case PacketOf(p) => PacketFields(p) + p.payload
    case CueOf(c) =>
      LeBytes(c.cueId, 8) + LeBytes(c.firstPacketNumber, 8) + LeBytes(|c.entries|, 4) + EntriesBytes(c.entries)
    case IndexOf(es) => LeBytes(|es|, 4) + EntriesBytes(es)
  }

  function DecodePacket(body: seq<byte>): Result<Packet, ReadError> {
    if |body| < 32 then Failure(InvalidLength("packet block"))
    else
      var payloadLen := U32At(body, 28);
      if payloadLen > MAX_PACKET_PAYLOAD_BYTES then
        Failure(LimitExceeded("packet payload_len > MAX_PACKET_PAYLOAD_BYTES"))
      else if |body| != 32 + payloadLen then Failure(InvalidLength("packet payload"))
      else
        Success(Packet(PacketHeader(U16At(body, 0), U16At(body, 2), U64At(body, 4), U64At(body, 12),
                                    U64At(body, 20), payloadLen),
                       body[32..]))
  }

  function DecodeEntry(chunk: seq<byte>): IndexEntry
    requires |chunk| == ENTRY_LEN
  {
    IndexEntry(U64At(chunk, 0), U64At(chunk, 8), U16At(chunk, 16), U16At(chunk, 18), U64At(chunk, 20))
  }

  function DecodeEntries(payload: seq<byte>): (es: seq<IndexEntry>)
    ensures |es| == |payload| / ENTRY_LEN
  {
    seq(|payload| / ENTRY_LEN, i requires 0 <= i < |payload| / ENTRY_LEN =>
      DecodeEntry(payload[ENTRY_LEN * i..ENTRY_LEN * i + ENTRY_LEN]))
  }

  /** The size checks that cue and index blocks share. */
  function EntriesError(payloadLen: nat, count: u32, what: string): Option<ReadError> {
    if payloadLen != count * ENTRY_LEN then Some(InvalidLength(what))
    else if count > MAX_INDEX_ENTRIES_PER_BLOCK then
      Some(LimitExceeded("index entry count > MAX_INDEX_ENTRIES_PER_BLOCK"))
    else None
  }

  function DecodeCue(body: seq<byte>): Result<CueBlock, ReadError> {
    if |body| < 20 then Failure(InvalidLength("cue block"))
    else
      match EntriesError(|body| - 20, U32At(body, 16), "cue index entries")
      case Some(e) => Failure(e)
      case None => Success(CueBlock(U64At(body, 0), U64At(body, 8), DecodeEntries(body[20..])))
  }

  function DecodeIndex(body: seq<byte>): Result<seq<IndexEntry>, ReadError> {
    if |body| < 4 then Failure(InvalidLength("index block"))
    else
      match EntriesError(|body| - 4, U32At(body, 0), "index entries")
      case Some(e) => Failure(e)
      case None => Success(DecodeEntries(body[4..]))
  }

  function DecodeBody(kind: BlockType, body: seq<byte>): Result<Block, IoError> {
    match kind
    case PacketType =>
      (match DecodePacket(body) case Failure(e) => Failure(InvalidData(e)) case Success(p) => Success(PacketOf(p)))
    case CueType =>
      (match DecodeCue(body) case Failure(e) => Failure(InvalidData(e)) case Success(c) => Success(CueOf(c)))
    case IndexType =>
      (match DecodeIndex(body) case Failure(e) => Failure(InvalidData(e)) case Success(es) => Success(IndexOf(es)))
  }

  // ----- the block envelope -----

  function Prelude(kind: BlockType, bodyLen: nat, bodyCrc: u32): (s: seq<byte>)
    ensures |s| == 16
  {
    BLOCK_MAGIC + [kind.Code()] + [0] + LeBytes(0, 2) + LeBytes(bodyLen, 4) + LeBytes(bodyCrc, 4)
  }

  function BlockBytes(cs: Checksums, useCrc32c: bool, b: Block): (s: seq<byte>)
    ensures |s| == BLOCK_HEADER_LEN + |BodyBytes(b)|
  {
    var body := BodyBytes(b);
    var prelude := Prelude(b.Type(), |body|, cs.Of(body, useCrc32c));
    prelude + LeBytes(cs.Of(prelude, useCrc32c), 4) + body
  }

  /** The encoders' limits; the body length then always fits its 32-bit field. */
  function EncodeBlock(cs: Checksums, useCrc32c: bool, b: Block): Result<seq<byte>, IoError> {
    match b
    case PacketOf(p) =>
      if |p.payload| > MAX_PACKET_PAYLOAD_BYTES then
        Failure(InvalidInput("packet payload exceeds MAX_PACKET_PAYLOAD_BYTES"))
      else Success(BlockBytes(cs, useCrc32c, b))
    case CueOf(c) =>
      if |c.entries| > MAX_INDEX_ENTRIES_PER_BLOCK then
        Failure(InvalidInput("cue entries > MAX_INDEX_ENTRIES_PER_BLOCK"))
      else Success(BlockBytes(cs, useCrc32c, b))
    case IndexOf(es) =>
      if |es| > MAX_INDEX_ENTRIES_PER_BLOCK then
        Failure(InvalidInput("index entries > MAX_INDEX_ENTRIES_PER_BLOCK"))
      else Success(BlockBytes(cs, useCrc32c, b))
  }

  function BlockHeaderAt(cs: Checksums, useCrc32c: bool, data: seq<byte>, pos: nat)
    : (r: (Result<BlockHeader, IoError>, nat))
    ensures r.1 >= pos
    ensures r.0.Success? ==> r.1 == pos + BLOCK_HEADER_LEN && HasAt(data, pos, BLOCK_MAGIC)
    ensures r.0 == Failure(UnexpectedEof) ==> r.1 >= |data|
  {
    match ReadExactAt(data, pos, 16)
    case (Failure(e), p) => (Failure(e), p)
    case (Success(prelude), p) =>
      if prelude[0..4] != BLOCK_MAGIC then (Failure(InvalidData(InvalidMagic(prelude[0..4]))), p)
      else
        match ReadExactAt(data, p, 4)
        case (Failure(e), p') => (Failure(e), p')
        case (Success(crc), p') =>
          var expected, actual := U32At(crc, 0), cs.Of(prelude, useCrc32c);
          if expected != actual then (Failure(InvalidData(InvalidHeaderCrc(expected, actual))), p')
          else
            match BlockType.FromCode(prelude[4])
            case None => (Failure(InvalidData(InvalidBlockType(prelude[4]))), p')
            case Some(kind) =>
              var len := U32At(prelude, 8);
              if len > MAX_BLOCK_BODY_BYTES then
                (Failure(InvalidData(LimitExceeded("block body_len > MAX_BLOCK_BODY_BYTES"))), p')
              else
                assert data[pos..pos + 4] == prelude[0..4];
                (Success(BlockHeader(kind, prelude[5], len, U32At(prelude, 12))), p')
  }

  function BlockBodyAt(cs: Checksums, useCrc32c: bool, data: seq<byte>, pos: nat, h: BlockHeader)
    : (r: (Result<seq<byte>, IoError>, nat))
    ensures r.1 >= pos
  {
    if h.bodyLen > MAX_BLOCK_BODY_BYTES then
      (Failure(InvalidData(LimitExceeded("block body_len > MAX_BLOCK_BODY_BYTES"))), pos)
    else
      match ReadExactAt(data, pos, h.bodyLen)
      case (Failure(e), p) => (Failure(e), p)
      case (Success(body), p) =>
        var actual := cs.Of(body, useCrc32c);
        if actual != h.bodyCrc then (Failure(InvalidData(InvalidBodyCrc(h.bodyCrc, actual))), p)
        else (Success(body), p)
  }
}
