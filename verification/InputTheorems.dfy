/** From what a caller hands to the muxer to what the demuxer gives out, field by field. */
module InputTheorems {
  import opened Bytes
  import opened ContainerFormat
  import opened ContainerIo
  import opened MuxSpec
  import opened DemuxSpec
  import opened DemuxTheorems

  /** The arguments of one call of `write_packet`. */
  datatype Input = Input(trackId: u16, pts: u64, dts: u64, keyframe: bool, payload: seq<byte>)

  ghost predicate Writable(inputs: seq<Input>) {
    forall i :: 0 <= i < |inputs| ==> |inputs[i].payload| < U32_LIMIT
  }

  /** The packets of a run of calls, numbered from zero. */
  ghost function PacketsOf(inputs: seq<Input>): seq<Packet>
    requires Writable(inputs)
  {
    seq(|inputs|, i requires 0 <= i < |inputs| =>
      var c := inputs[i];
      NewPacket(i, c.trackId, c.pts, c.dts, c.keyframe, c.payload))
  }

  /** `p` carries what the `i`-th call was given. */
  predicate Carries(p: Packet, i: nat, c: Input) {
    && p.header.trackId == c.trackId && p.header.pts == c.pts && p.header.dts == c.dts
    && p.header.flags == (if c.keyframe then 1 else 0)
    && p.header.sequence == i && p.header.payloadLen == |c.payload|
    && p.payload == c.payload
  }

  /** `e` says of the packet at `offset` what the `i`-th call was given. */
  predicate Describes(e: IndexEntry, i: nat, offset: nat, c: Input) {
    && e.packetNumber == i && e.fileOffset == offset && e.trackId == c.trackId && e.pts == c.pts
    && e.flags == (if c.keyframe then 1 else 0)
  }

  /**
   Reading a finished file to its end gives one packet for each call, in order, with the arguments of
   that call; its index says of each packet where it stands, its track, its pts and whether it is a
   keyframe.
   */
  lemma InputsComeBack(cs: Checksums, header: FileHeader, tracks: seq<TrackDescriptor>, inputs: seq<Input>)
    requires Writable(inputs) && RoundTrips(cs, header, tracks, PacketsOf(inputs))
    ensures var f := FileOf(cs, header, FinishedFile(cs, header, tracks, PacketsOf(inputs)));
            var l := LayoutOf(cs, header, tracks);
            var read, index := ReadPackets(f, l.base), ScanIndex(f, l.base, []);
            && read.Success? && |read.value| == |inputs|
            && (forall i :: 0 <= i < |inputs| ==> Carries(read.value[i].packet, i, inputs[i]))
            && index.Success? && |index.value| == |inputs|
            && (forall i :: 0 <= i < |inputs| ==> Describes(index.value[i], i, read.value[i].offset, inputs[i]))
  {
    hide ReadPackets, ScanIndex, WithinReadLimits, EncodeFileHeader, ClosedBlocks, Serialize, PacketsFrom, Numbered;
    var packets := PacketsOf(inputs);
    var l := LayoutOf(cs, header, tracks);
    var f := FileOf(cs, header, FinishedFile(cs, header, tracks, packets));
    FinishedReadBack(cs, header, tracks, packets);
    RebuiltIndex(cs, header, tracks, packets);
    var ps := PacketsFrom(l, l.base, ClosedBlocks(l, packets));
    ClosedHoldsPackets(l, packets);
    forall i | 0 <= i < |inputs|
      ensures Carries(ps[i].packet, i, inputs[i]) && Describes(Entries(ps)[i], i, ps[i].offset, inputs[i])
    {
      assert Packets(ps)[i] == packets[i];
    }
  }
}
