/**
 The structures of a `.528` container, its limits and its errors.
 */
module ContainerFormat {
  import opened Wrappers
  import opened Bytes

  const CONTAINER_MAGIC_LEGACY: seq<byte> := [0x53, 0x52, 0x53, 0x4d]
  const CONTAINER_MAGIC: seq<byte> := [0x53, 0x52, 0x53, 0x35, 0x32, 0x38, 0, 0]
  const BLOCK_MAGIC: seq<byte> := [0x53, 0x42, 0x4c, 0x4b]
  const BLOCK_HEADER_LEN: nat := 20
  const CONTAINER_VERSION_LEGACY: u16 := 1
  const CONTAINER_VERSION: u16 := 2
  const FILE_HEADER_V1_ON_DISK_LEN: u32 := 20
  const FILE_HEADER_V2_ON_DISK_LEN: u32 := 24
  const MAX_TRACKS: u16 := 1024
  const MAX_TRACK_CONFIG_BYTES: nat := 1024 * 1024
  const MAX_PACKET_PAYLOAD_BYTES: u32 := 64 * 1024 * 1024
  const MAX_BLOCK_BODY_BYTES: u32 := 16 * 1024 * 1024
  const MAX_INDEX_ENTRIES_PER_BLOCK: u32 := 1_000_000
  const ENTRY_LEN: nat := 28
  const RESYNC_PROBE_BYTES: nat := 8192

  const KEYFRAME: u16 := 1
  const CONFIG: u16 := 2
  const CORRUPT: u16 := 16

  datatype ReadError =
    | InvalidMagic(seen: seq<byte>)
    | UnsupportedVersion(version: u16)
    | InvalidTrackKind(code: byte)
    | InvalidBlockType(code: byte)
    | InvalidLength(what: string)
    | InvalidHeaderCrc(expected: u32, actual: u32)
    | InvalidBodyCrc(expected: u32, actual: u32)
    | LimitExceeded(what: string)
    | InvalidHeaderLayout(expectedLen: u32, actual: u32)

  datatype IoError =
    | UnexpectedEof
    | InvalidData(error: ReadError)
    | InvalidInput(what: string)
    | StorageFull

  datatype TrackKind = Audio | Video | Data | Subtitle | Metadata | Attachment {
    function Code(): byte {
      match this
      case Audio => 1
      case Video => 2
      case Data => 3
      case Subtitle => 4
      case Metadata => 5
      case Attachment => 6
    }

    static function FromCode(code: byte): Option<TrackKind> {
      if code == 1 then Some(Audio)
      else if code == 2 then Some(Video)
      else if code == 3 then Some(Data)
      else if code == 4 then Some(Subtitle)
      else if code == 5 then Some(Metadata)
      else if code == 6 then Some(Attachment)
      else None
    }
  }

  datatype FileHeader =
    FileHeader(version: u16, flags: u16, headerLen: u32, trackCount: u16, cueInterval: u32)
  {
    /** Which of the two checksums guards the blocks of this file. */
    predicate UsesCrc32c() {
      version >= CONTAINER_VERSION
    }
  }

  datatype TrackDescriptor =
    TrackDescriptor(trackId: u16, kind: TrackKind, codecId: u16, flags: u16, timescale: u32, config: seq<byte>)

  datatype PacketHeader =
    PacketHeader(trackId: u16, flags: u16, sequence: nat, pts: u64, dts: u64, payloadLen: u32)

  datatype Packet = Packet(header: PacketHeader, payload: seq<byte>)

  datatype IndexEntry = IndexEntry(packetNumber: nat, fileOffset: nat, trackId: u16, flags: u16, pts: u64)

  datatype CueBlock = CueBlock(cueId: nat, firstPacketNumber: nat, entries: seq<IndexEntry>)

  datatype BlockType = PacketType | CueType | IndexType {
    function Code(): byte {
      match this
      case PacketType => 1
      case CueType => 2
      case IndexType => 3
    }

    static function FromCode(code: byte): Option<BlockType> {
      if code == 1 then Some(PacketType)
      else if code == 2 then Some(CueType)
      else if code == 3 then Some(IndexType)
      else None
    }
  }

  datatype BlockHeader = BlockHeader(blockType: BlockType, flags: byte, bodyLen: u32, bodyCrc: u32)

  datatype Block = PacketOf(packet: Packet) | CueOf(cue: CueBlock) | IndexOf(entries: seq<IndexEntry>) {
    function Type(): BlockType {
      match this
      case PacketOf(_) => PacketType
      case CueOf(_) => CueType
      case IndexOf(_) => IndexType
    }
  }

  /** CRC-32 and CRC-32C, of which the container only needs that they are functions of the bytes. */
  datatype Checksums = Checksums(crc32: seq<byte> -> u32, crc32c: seq<byte> -> u32) {
    function Of(bytes: seq<byte>, useCrc32c: bool): u32 {
      if useCrc32c then crc32c(bytes) else crc32(bytes)
    }
  }
}
