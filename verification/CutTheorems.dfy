/** Where a file may be cut or its index may be too large, and what reading it then comes to. */
module CutTheorems {
  import opened Wrappers
  import opened Bytes
  import opened ContainerFormat
  import opened ContainerIo
  import opened ContainerTheorems
  import opened MuxSpec
  import opened DemuxSpec
  import opened DemuxTheorems

  /** A file that ends inside a block's body: the block is reported broken, not missing. */
  lemma CutInBodyFails(f: File, l: Layout, b: Block, pos: nat, k: nat)
    requires DemuxTheorems.Fits(f, l) && |BodyBytes(b)| <= MAX_BLOCK_BODY_BYTES
    requires BLOCK_HEADER_LEN <= k < |l.BytesOf(b)| && pos + k == |f.data|
    requires HasAt(f.data, pos, l.BytesOf(b)[..k])
    ensures NextBlockAt(f, pos).0 == Failure(UnexpectedEof)
  {
    hide BodyBytes, BlockHeaderAt, DecodeBody, Prelude;
    var bytes := l.BytesOf(b);
    assert bytes[..k] == bytes[..BLOCK_HEADER_LEN] + bytes[BLOCK_HEADER_LEN..k];
    HasParts(f.data, pos, bytes[..BLOCK_HEADER_LEN], bytes[BLOCK_HEADER_LEN..k]);
    HeaderReads(f.cs, f.useCrc32c, b, f.data, pos);
  }

  /**
   Cutting a finished file anywhere in a block whose body the reader admits: the index can be rebuilt
   if and only if the cut leaves less than the block's header, and otherwise the file is reported as
   ending too soon.
   */
  lemma CutRebuildsExactly(cs: Checksums, header: FileHeader, tracks: seq<TrackDescriptor>, packets: seq<Packet>,
                           k: nat, stub: nat)
    requires WrittenRun(cs, header, tracks, packets) && PayloadsFit(packets) && CuesFit(header.cueInterval, |packets|)
    requires var l := LayoutOf(cs, header, tracks);
      && k <= |ClosedBlocks(l, packets)| && stub < |l.BytesOf(FinishedBlocks(l, packets)[k])|
      && (k == |ClosedBlocks(l, packets)| ==> IndexFits(|packets|))
    ensures var l := LayoutOf(cs, header, tracks);
      var cut := l.base + |Serialize(l, ClosedBlocks(l, packets)[..k])| + stub;
      var data := FinishedFile(cs, header, tracks, packets);
      && cut <= |data|
      && var r := ScanIndex(FileOf(cs, header, data[..cut]), l.base, []);
         (r.Success? <==> stub < BLOCK_HEADER_LEN) && (r.Failure? ==> r == Failure(UnexpectedEof))
  {
    hide Serialize, PacketsFrom, ClosedBlocks, FinishedFile, EncodeFileHeader, TracksBytes, PayloadsFit, CuesFit,
         IndexFits, IndexFor, Layout.BytesOf, NextBlockAt, SameEntries, Gathered, HasAt, BodyBytes;
    var data, l := FinishedFile(cs, header, tracks, packets), LayoutOf(cs, header, tracks);
    var present := ClosedBlocks(l, packets)[..k];
    CutPresent(cs, header, tracks, packets, k, stub);
    if stub < BLOCK_HEADER_LEN {
      CutFileIndex(cs, header, tracks, packets, k, stub);
    } else {
      var b := FinishedBlocks(l, packets)[k];
      BodyAdmitted(cs, header, tracks, packets, k);
      var pos := l.base + |Serialize(l, present)|;
      CutInBodyFails(FileOf(cs, header, data[..pos + stub]), l, b, pos, stub);
    }
  }

  lemma BodyAdmitted(cs: Checksums, header: FileHeader, tracks: seq<TrackDescriptor>, packets: seq<Packet>, k: nat)
    requires WrittenRun(cs, header, tracks, packets) && PayloadsFit(packets) && CuesFit(header.cueInterval, |packets|)
    requires var l := LayoutOf(cs, header, tracks);
      && k <= |ClosedBlocks(l, packets)|
      && (k == |ClosedBlocks(l, packets)| ==> IndexFits(|packets|))
    ensures |BodyBytes(FinishedBlocks(LayoutOf(cs, header, tracks), packets)[k])| <= MAX_BLOCK_BODY_BYTES
  {
    hide Serialize, PacketsFrom, ClosedBlocks, EncodeFileHeader, TracksBytes, PayloadsFit, CuesFit, IndexFor,
         Layout.BytesOf, HasAt;
    var l := LayoutOf(cs, header, tracks);
    var closed := ClosedBlocks(l, packets);
    FinishedParts(cs, header, tracks, packets);
    SerializeAppend(l, closed, IndexOf(IndexFor(l, closed)));
    if k < |closed| {
      ClosedReadable(l, packets);
    } else {
      IndexBody(l, packets);
    }
  }

  lemma IndexBody(l: Layout, packets: seq<Packet>)
    ensures |BodyBytes(IndexOf(IndexFor(l, ClosedBlocks(l, packets))))| == 4 + ENTRY_LEN * |packets|
  {
    hide PacketsFrom, ClosedBlocks;
    ClosedHoldsPackets(l, packets);
    IndexLength(l, ClosedBlocks(l, packets));
  }

  /**
   A finished file with more entries than the reader admits in an index. Unless the bytes behind the
   start of the index hold a block magic within the probe window, neither its packets nor its index
   can be read: both end in the limit error that the index's header meets.
   */
  lemma OversizeIndexFails(cs: Checksums, header: FileHeader, tracks: seq<TrackDescriptor>, packets: seq<Packet>)
    requires WrittenRun(cs, header, tracks, packets) && PayloadsFit(packets) && CuesFit(header.cueInterval, |packets|)
    requires !IndexFits(|packets|) && |packets| <= MAX_INDEX_ENTRIES_PER_BLOCK
    requires var l := LayoutOf(cs, header, tracks);
      var f := FileOf(cs, header, FinishedFile(cs, header, tracks, packets));
      FindNextBlockMagic(Probe(f, l.base + |Serialize(l, ClosedBlocks(l, packets))|), 1).None?
    ensures var l := LayoutOf(cs, header, tracks);
      var f := FileOf(cs, header, FinishedFile(cs, header, tracks, packets));
      var e := InvalidData(LimitExceeded("block body_len > MAX_BLOCK_BODY_BYTES"));
      ScanIndex(f, l.base, []) == Failure(e) && ReadPackets(f, l.base) == Failure(e)
  {
    hide Serialize, PacketsFrom, ClosedBlocks, EncodeFileHeader, TracksBytes, PayloadsFit, CuesFit, IndexFor,
         Layout.BytesOf, NextBlockAt, Gathered, Probe, FindNextBlockMagic, Readable, AllReadable;
    var l := LayoutOf(cs, header, tracks);
    var closed := ClosedBlocks(l, packets);
    var b := IndexOf(IndexFor(l, closed));
    var f := FileOf(cs, header, FinishedFile(cs, header, tracks, packets));
    var pos := l.base + |Serialize(l, closed)|;
    FinishedParts(cs, header, tracks, packets);
    SerializeAppend(l, closed, b);
    HasParts(f.data, l.base, Serialize(l, closed), l.BytesOf(b));
    ClosedReadable(l, packets);
    ClosedCuesCopy(l, packets);
    IndexBody(l, packets);
    IndexHeaderRefused(f, l, b, pos);
    ScanGathers(f, l, l.base, closed, []);
    ReadToFailure(f, l, l.base, closed);
  }

  lemma IndexHeaderRefused(f: File, l: Layout, b: Block, pos: nat)
    requires DemuxTheorems.Fits(f, l) && MAX_BLOCK_BODY_BYTES < |BodyBytes(b)| < U32_LIMIT
    requires HasAt(f.data, pos, l.BytesOf(b)) && FindNextBlockMagic(Probe(f, pos), 1).None?
    ensures NextBlockAt(f, pos).0 == Failure(InvalidData(LimitExceeded("block body_len > MAX_BLOCK_BODY_BYTES")))
  {
    hide BodyBytes, BlockHeaderAt, Prelude, FindNextBlockMagic, Probe;
    var bytes := l.BytesOf(b);
    assert bytes == bytes[..BLOCK_HEADER_LEN] + bytes[BLOCK_HEADER_LEN..];
    HasParts(f.data, pos, bytes[..BLOCK_HEADER_LEN], bytes[BLOCK_HEADER_LEN..]);
    HeaderReads(f.cs, f.useCrc32c, b, f.data, pos);
  }

  /** Reading over any blocks up to one that is reported broken ends with its error. */
  lemma {:induction false} ReadToFailure(f: File, l: Layout, pos: nat, blocks: seq<Block>)
    requires DemuxTheorems.Fits(f, l) && AllReadable(blocks) && HasAt(f.data, pos, Serialize(l, blocks))
    requires NextBlockAt(f, pos + |Serialize(l, blocks)|).0.Failure?
    ensures ReadPackets(f, pos) == Failure(NextBlockAt(f, pos + |Serialize(l, blocks)|).0.error)
    decreases |blocks|
  {
    hide NextBlockAt, Readable, Layout.BytesOf, HasAt;
    if blocks != [] {
      var next := pos + |l.BytesOf(blocks[0])|;
      HasParts(f.data, pos, l.BytesOf(blocks[0]), Serialize(l, blocks[1..]));
      BlockIsRead(f, l, blocks[0], pos);
      ReadToFailure(f, l, next, blocks[1..]);
      ReadPastBlock(f, pos, blocks[0], next);
    }
  }
}
