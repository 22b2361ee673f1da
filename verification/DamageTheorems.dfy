/** What a file gives out in which one block's body was altered. */
module DamageTheorems {
  import opened Wrappers
  import opened Bytes
  import opened ContainerFormat
  import opened ContainerIo
  import opened ContainerTheorems
  import opened MuxSpec
  import opened DemuxSpec
  import opened DemuxTheorems
  import opened CutTheorems
  import opened PlaybackTheorems

  /** `data` with the bytes from `pos` on overwritten. */
  function Overwrite(data: seq<byte>, pos: nat, bytes: seq<byte>): (r: seq<byte>)
    requires pos + |bytes| <= |data|
    ensures |r| == |data|
  {
    data[..pos] + bytes + data[pos + |bytes|..]
  }

  lemma OverwriteKeeps(data: seq<byte>, pos: nat, bytes: seq<byte>, at: nat, kept: seq<byte>)
    requires pos + |bytes| <= |data| && HasAt(data, at, kept)
    requires at + |kept| <= pos || pos + |bytes| <= at
    ensures HasAt(Overwrite(data, pos, bytes), at, kept)
  {
  }

  lemma OverwriteHas(data: seq<byte>, pos: nat, bytes: seq<byte>)
    requires pos + |bytes| <= |data|
    ensures HasAt(Overwrite(data, pos, bytes), pos, bytes)
  {
  }

  /** A block whose header stands but whose body has another checksum is refused with both of them. */
  lemma AlteredBodyRefused(f: File, l: Layout, b: Block, pos: nat, body: seq<byte>)
    requires DemuxTheorems.Fits(f, l) && |BodyBytes(b)| == |body| <= MAX_BLOCK_BODY_BYTES
    requires HasAt(f.data, pos, l.BytesOf(b)[..BLOCK_HEADER_LEN]) && HasAt(f.data, pos + BLOCK_HEADER_LEN, body)
    requires l.cs.Of(body, l.useCrc32c) != l.cs.Of(BodyBytes(b), l.useCrc32c)
    ensures NextBlockAt(f, pos).0
      == Failure(InvalidData(InvalidBodyCrc(l.cs.Of(BodyBytes(b), l.useCrc32c), l.cs.Of(body, l.useCrc32c))))
  {
    hide BodyBytes, BlockHeaderAt, DecodeBody, Prelude;
    HeaderReads(f.cs, f.useCrc32c, b, f.data, pos);
    ReadsBack(f.data, pos + BLOCK_HEADER_LEN, body);
  }

  /** Up to a block that is reported broken a file gives out exactly the packets of the blocks before it. */
  lemma {:induction false} UpcomingToFailure(f: File, l: Layout, pos: nat, blocks: seq<Block>)
    requires DemuxTheorems.Fits(f, l) && AllReadable(blocks) && HasAt(f.data, pos, Serialize(l, blocks))
    requires NextBlockAt(f, pos + |Serialize(l, blocks)|).0.Failure?
    ensures Upcoming(f, pos) == PacketsFrom(l, pos, blocks)
    decreases |blocks|
  {
    hide NextBlockAt, Readable, Layout.BytesOf, HasAt;
    if blocks != [] {
      var next := pos + |l.BytesOf(blocks[0])|;
      HasParts(f.data, pos, l.BytesOf(blocks[0]), Serialize(l, blocks[1..]));
      BlockIsRead(f, l, blocks[0], pos);
      UpcomingToFailure(f, l, next, blocks[1..]);
      if !blocks[0].PacketOf? {
        assert NextPacketAt(f, pos) == NextPacketAt(f, next);
        SameUpcoming(f, pos, next);
      }
    }
  }

  lemma SameUpcoming(f: File, pos: nat, next: nat)
    requires NextPacketAt(f, pos) == NextPacketAt(f, next)
    ensures Upcoming(f, pos) == Upcoming(f, next)
  {
    hide NextPacketAt;
  }

  /**
   A finished file in which the body of its `k`-th block was altered, so that its checksum differs: the
   packets before that block are given out unchanged, and then reading ends with the checksum error,
   which names the stored and the computed checksum.
   */
  lemma AlteredFile(cs: Checksums, header: FileHeader, tracks: seq<TrackDescriptor>, packets: seq<Packet>,
                    k: nat, body: seq<byte>)
    requires WrittenRun(cs, header, tracks, packets) && PayloadsFit(packets) && CuesFit(header.cueInterval, |packets|)
    requires k < |ClosedBlocks(LayoutOf(cs, header, tracks), packets)|
    requires var l := LayoutOf(cs, header, tracks);
      var good := BodyBytes(ClosedBlocks(l, packets)[k]);
      |body| == |good| && cs.Of(body, l.useCrc32c) != cs.Of(good, l.useCrc32c)
    ensures var l := LayoutOf(cs, header, tracks);
      var present, good := ClosedBlocks(l, packets)[..k], BodyBytes(ClosedBlocks(l, packets)[k]);
      var data, at := FinishedFile(cs, header, tracks, packets), l.base + |Serialize(l, present)| + BLOCK_HEADER_LEN;
      && at + |body| <= |data|
      && var f := FileOf(cs, header, Overwrite(data, at, body));
      var e := InvalidData(InvalidBodyCrc(cs.Of(good, l.useCrc32c), cs.Of(body, l.useCrc32c)));
      && Upcoming(f, l.base) == PacketsFrom(l, l.base, present)
      && ReadPackets(f, l.base) == Failure(e)
  {
    hide Serialize, PacketsFrom, ClosedBlocks, EncodeFileHeader, TracksBytes, PayloadsFit, CuesFit, IndexFor,
         NextBlockAt, Readable, BodyBytes, Prelude, Overwrite, HasAt, Upcoming, Layout.BytesOf, ReadPackets;
    var data, l := FinishedFile(cs, header, tracks, packets), LayoutOf(cs, header, tracks);
    var all := FinishedBlocks(l, packets);
    var b, present := all[k], all[..k];
    var pos := l.base + |Serialize(l, present)|;
    assert present == ClosedBlocks(l, packets)[..k] && b == ClosedBlocks(l, packets)[k];
    FinishedParts(cs, header, tracks, packets);
    SerializeAppend(l, ClosedBlocks(l, packets), IndexOf(IndexFor(l, ClosedBlocks(l, packets))));
    ClosedReadable(l, packets);
    SplitBlocks(l, all, k);
    HasParts(data, l.base, Serialize(l, present), Serialize(l, all[k..]));
    BlockParts(data, l, pos, all[k..]);
    var f := FileOf(cs, header, Overwrite(data, pos + BLOCK_HEADER_LEN, body));
    OverwriteKeeps(data, pos + BLOCK_HEADER_LEN, body, l.base, Serialize(l, present));
    OverwriteKeeps(data, pos + BLOCK_HEADER_LEN, body, pos, l.BytesOf(b)[..BLOCK_HEADER_LEN]);
    OverwriteHas(data, pos + BLOCK_HEADER_LEN, body);
    ReadableBody(b);
    AlteredBodyRefused(f, l, b, pos, body);
    ReadToFailure(f, l, l.base, present);
    UpcomingToFailure(f, l, l.base, present);
  }

  lemma BlockParts(data: seq<byte>, l: Layout, pos: nat, blocks: seq<Block>)
    requires blocks != [] && HasAt(data, pos, Serialize(l, blocks))
    ensures |l.BytesOf(blocks[0])| == BLOCK_HEADER_LEN + |BodyBytes(blocks[0])|
    ensures HasAt(data, pos, l.BytesOf(blocks[0])[..BLOCK_HEADER_LEN])
    ensures pos + |l.BytesOf(blocks[0])| <= |data|
  {
    hide BodyBytes, Prelude;
    var bytes := l.BytesOf(blocks[0]);
    HasParts(data, pos, bytes, Serialize(l, blocks[1..]));
    assert bytes == bytes[..BLOCK_HEADER_LEN] + bytes[BLOCK_HEADER_LEN..];
    HasParts(data, pos, bytes[..BLOCK_HEADER_LEN], bytes[BLOCK_HEADER_LEN..]);
  }

  lemma ReadableBody(b: Block)
    requires Readable(b)
    ensures |BodyBytes(b)| <= MAX_BLOCK_BODY_BYTES
  {
  }
}
