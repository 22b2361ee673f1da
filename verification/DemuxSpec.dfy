/**
 What the demuxer reads, as functions of the file and the cursor.
 */
module DemuxSpec {
  import opened Wrappers
  import opened Bytes
  import opened ContainerFormat
  import opened ContainerIo

  /** `find_next_block_magic`: the first place at or after `start` where the magic stands. */
  function FindNextBlockMagic(data: seq<byte>, start: nat): (r: Option<nat>)
    ensures r.Some? ==> start <= r.value && HasAt(data, r.value, BLOCK_MAGIC)
    ensures forall i :: start <= i && (r.Some? ==> i < r.value) ==> !HasAt(data, i, BLOCK_MAGIC)
    decreases if start < |data| then |data| - start else 0
  {
    if start + |BLOCK_MAGIC| > |data| then None
    else if data[start..start + |BLOCK_MAGIC|] == BLOCK_MAGIC then Some(start)
    else FindNextBlockMagic(data, start + 1)
  }

  /** A file being read: everything the outcome of a read depends on besides the cursor. */
  datatype File = File(cs: Checksums, useCrc32c: bool, data: seq<byte>)

  /** A block and where its envelope starts. */
  datatype Located = Located(offset: nat, block: Block)

  /** The block whose header stands at `pos`, given that header. */
  function BlockAfterHeader(f: File, pos: nat, h: BlockHeader): (r: (Result<Option<Located>, IoError>, nat))
    ensures r.1 >= pos + BLOCK_HEADER_LEN
    ensures r.0.Success? ==> r.0.value.Some? && r.0.value.value.offset == pos
  {
    match BlockBodyAt(f.cs, f.useCrc32c, f.data, pos + BLOCK_HEADER_LEN, h)
    case (Failure(e), p) => (Failure(e), p)
    case (Success(body), p) =>
      match DecodeBody(h.blockType, body)
      case Failure(e) => (Failure(e), p)
      case Success(b) => (Success(Some(Located(pos, b))), p)
  }

  function Probe(f: File, pos: nat): (r: seq<byte>)
    ensures pos + |r| <= |f.data| || r == []
  {
    if pos > |f.data| then []
    else if pos + RESYNC_PROBE_BYTES <= |f.data| then f.data[pos..pos + RESYNC_PROBE_BYTES]
    else f.data[pos..]
  }

  /** The next block, or nothing at the end of the file; a bad header is skipped by resynchronizing. */
  function NextBlockAt(f: File, pos: nat): (r: (Result<Option<Located>, IoError>, nat))
    ensures r.1 >= pos
    ensures r.0.Success? && r.0.value.Some? ==>
              && pos <= r.0.value.value.offset < r.1
              && HasAt(f.data, r.0.value.value.offset, BLOCK_MAGIC)
    decreases if pos < |f.data| then |f.data| - pos else 0
  {
    match BlockHeaderAt(f.cs, f.useCrc32c, f.data, pos)
    case (Success(h), p) => BlockAfterHeader(f, pos, h)
    case (Failure(UnexpectedEof), p) => (Success(None), p)
    case (Failure(e), p) =>
      var probe := Probe(f, pos);
      if |probe| < |BLOCK_MAGIC| then (Failure(e), pos + |probe|)
      else
        match FindNextBlockMagic(probe, 1)
        case None => (Failure(e), pos + |probe|)
        case Some(offset) => NextBlockAt(f, pos + offset)
  }

  datatype DemuxedPacket = DemuxedPacket(offset: nat, packet: Packet)

  /** `next_packet`: cue and index blocks are passed over. */
  function NextPacketAt(f: File, pos: nat): (r: (Result<Option<DemuxedPacket>, IoError>, nat))
    ensures r.1 >= pos
    ensures r.0.Success? && r.0.value.Some? ==> r.1 > pos
    decreases if pos < |f.data| then |f.data| - pos else 0
  {
    match NextBlockAt(f, pos)
    case (Failure(e), p) => (Failure(e), p)
    case (Success(None), p) => (Success(None), p)
    case (Success(Some(Located(offset, PacketOf(packet)))), p) => (Success(Some(DemuxedPacket(offset, packet))), p)
    case (Success(Some(_)), p) => NextPacketAt(f, p)
  }

  function EntryOf(offset: nat, packet: Packet): IndexEntry {
    IndexEntry(packet.header.sequence, offset, packet.header.trackId, packet.header.flags, packet.header.pts)
  }

  /**
   The entries `rebuild_index` gathers from `pos` on: a packet gives its own, a cue gives its
   copies, an index block replaces everything and ends the scan.
   */
  function ScanIndex(f: File, pos: nat, acc: seq<IndexEntry>): Result<seq<IndexEntry>, IoError>
    decreases if pos < |f.data| then |f.data| - pos else 0
  {
    match NextBlockAt(f, pos)
    case (Failure(e), p) => Failure(e)
    case (Success(None), p) => Success(acc)
    case (Success(Some(Located(_, IndexOf(entries)))), p) => Success(entries)
    case (Success(Some(Located(offset, PacketOf(packet)))), p) => ScanIndex(f, p, acc + [EntryOf(offset, packet)])
    case (Success(Some(Located(_, CueOf(cue)))), p) => ScanIndex(f, p, acc + cue.entries)
  }

  /** What the same scan has gathered, and where it stands, when it stops for whatever reason. */
  function ScanStop(f: File, pos: nat, acc: seq<IndexEntry>): (seq<IndexEntry>, nat)
    decreases if pos < |f.data| then |f.data| - pos else 0
  {
    match NextBlockAt(f, pos)
    case (Failure(_), p) => (acc, p)
    case (Success(None), p) => (acc, p)
    case (Success(Some(Located(_, IndexOf(entries)))), p) => (entries, p)
    case (Success(Some(Located(offset, PacketOf(packet)))), p) => ScanStop(f, p, acc + [EntryOf(offset, packet)])
    case (Success(Some(Located(_, CueOf(cue)))), p) => ScanStop(f, p, acc + cue.entries)
  }
}
