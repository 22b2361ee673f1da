/**
 The muxer: it appends to the file and keeps the index, the counters and the start of the next
 cue incrementally. `Valid` ties them to the blocks written.
 */
module Mux {
  import opened Wrappers
  import opened Bytes
  import opened ContainerFormat
  import opened ContainerIo
  import opened ContainerTheorems
  import DemuxTheorems
  import opened MuxSpec

  class MuxWriter {
    const cs: Checksums
    const header: FileHeader
    const tracks: seq<TrackDescriptor>
    /** Everything written so far; the stream position is its length. */
    var out: seq<byte>
    var packetCount: nat
    var cueCount: nat
    var sequence: nat
    var entries: seq<IndexEntry>
    var pendingCueStart: nat
    ghost var packets: seq<Packet>
    ghost var blocks: seq<Block>

    ghost predicate Encodable() {
      && EncodeFileHeader(header).Success?
      && EncodableTracks(tracks)
      && header.trackCount == |tracks|
    }

    ghost function L(): Layout
      requires Encodable()
    {
      LayoutOf(cs, header, tracks)
    }

    ghost predicate Valid()
      reads this
    {
      && Encodable()
      && Written(L(), Preamble(header, tracks), out, blocks, entries, packets)
      && |out| < U64_LIMIT
      && packetCount == sequence == |packets| == |entries|
      && pendingCueStart <= |entries|
    }

    /** No cue has failed to be written: blocks and cue counters are those of the packets. */
    ghost predicate InStep()
      requires Encodable()
      reads this
    {
      && blocks == BlocksFor(L(), packets)
      && pendingCueStart == PendingStart(L().interval, |packets|)
      && cueCount == CuesWritten(L().interval, |packets|)
    }

    constructor Init(cs: Checksums, header: FileHeader, tracks: seq<TrackDescriptor>, preamble: seq<byte>)
      requires EncodeFileHeader(header).Success? && EncodableTracks(tracks) && header.trackCount == |tracks|
      requires preamble == Preamble(header, tracks) && |preamble| < U64_LIMIT
      ensures Valid() && InStep() && packets == []
      ensures this.cs == cs && this.header == header && this.tracks == tracks
    {
      this.cs, this.header, this.tracks := cs, header, tracks;
      out := preamble;
      packetCount, cueCount, sequence, entries, pendingCueStart := 0, 0, 0, [], 0;
      packets, blocks := [], [];
      NothingWritten(LayoutOf(cs, header, tracks), preamble);
    }

    /** `MuxWriter::new`: the header's track count is replaced by the number of tracks. */
    static method New(cs: Checksums, header: FileHeader, tracks: seq<TrackDescriptor>)
      returns (r: Result<MuxWriter, IoError>)
      ensures r.Success? ==>
                && fresh(r.value) && r.value.Valid() && r.value.InStep()
                && r.value.packets == [] && r.value.cs == cs && r.value.tracks == tracks
                && r.value.header == header.(trackCount := |tracks|)
      ensures r.Success? <==>
                && |tracks| <= MAX_TRACKS
                && EncodeFileHeader(header.(trackCount := |tracks|)).Success?
                && EncodableTracks(tracks)
                && |Preamble(header.(trackCount := |tracks|), tracks)| < U64_LIMIT
    {
      hide EncodeFileHeader, TrackBytes;
      if |tracks| >= U16_LIMIT {
        return Failure(InvalidInput("too many tracks"));
      }
      if |tracks| > MAX_TRACKS {
        return Failure(InvalidInput("track table exceeds MAX_TRACKS"));
      }
      var header := header.(trackCount := |tracks|);
      var encoded := EncodeFileHeader(header);
      if encoded.Failure? {
        return Failure(encoded.error);
      }
      var out := encoded.value;
      for i := 0 to |tracks|
        invariant EncodableTracks(tracks[..i])
        invariant out == encoded.value + TracksBytes(tracks[..i])
      {
        var track := EncodeTrack(tracks[i]);
        if track.Failure? {
          return Failure(track.error);
        }
        AppendTrack(tracks, i);
        out := out + track.value;
      }
      assert tracks[..|tracks|] == tracks;
      if |out| >= U64_LIMIT {
        return Failure(StorageFull);
      }
      var writer := new MuxWriter.Init(cs, header, tracks, out);
      r := Success(writer);
    }

    /** `write_all` on a stream whose positions are 64 bits wide. */
    method WriteAll(bytes: seq<byte>) returns (ok: bool)
      requires |out| < U64_LIMIT
      modifies this`out
      ensures ok <==> |old(out)| + |bytes| < U64_LIMIT
      ensures out == if ok then old(out) + bytes else old(out)
    {
      ok := |out| + |bytes| < U64_LIMIT;
      if ok {
        out := out + bytes;
      }
    }

    /** `write_packet`. */
    method WritePacket(trackId: u16, pts: u64, dts: u64, keyframe: bool, payload: seq<byte>)
      returns (r: Result<(), IoError>)
      requires Valid()
      modifies this
      ensures Valid()
      ensures old(out) <= out
      ensures |payload| > MAX_PACKET_PAYLOAD_BYTES ==> r.Failure? && r.error.InvalidInput? && unchanged(this)
      ensures r.Success? ==>
                && |packets| == |old(packets)| + 1 && packets[..|old(packets)|] == old(packets)
                && var p := packets[|old(packets)|];
                && p.header.trackId == trackId && p.header.pts == pts && p.header.dts == dts
                && p.header.flags == (if keyframe then 1 else 0)
                && p.header.sequence == |old(packets)| && p.header.payloadLen == |payload|
                && p.payload == payload
      ensures |payload| <= MAX_PACKET_PAYLOAD_BYTES ==>
                var p := NewPacket(old(sequence), trackId, pts, dts, keyframe, payload);
                && (r.Success? ==> packets == old(packets) + [p])
                && (r.Failure? ==> packets == old(packets) || packets == old(packets) + [p])
                && (r.Success? && old(InStep()) ==> InStep())
                && (if packets == old(packets) then blocks == old(blocks)
                    else if r.Success? && header.cueInterval > 0 && |packets| % header.cueInterval == 0
                    then
                      var written := old(blocks) + [PacketOf(p)];
                      && blocks == written + [CueFor(L(), written, old(cueCount), old(pendingCueStart))]
                      && cueCount == old(cueCount) + 1 && pendingCueStart == |entries|
                    else
                      && blocks == old(blocks) + [PacketOf(p)]
                      && cueCount == old(cueCount) && pendingCueStart == old(pendingCueStart))
      ensures old(InStep()) && RoomFor(old(|out|), |payload|) ==> r.Success?
    {
      hide Written, Layout.BytesOf, BlockBytes, BlocksFor, EncodeFileHeader, Preamble;
      if |payload| >= U32_LIMIT {
        return Failure(InvalidInput("payload too large"));
      }
      var packet := NewPacket(sequence, trackId, pts, dts, keyframe, payload);
      r := AppendPacket(packet);
      if r.Failure? {
        return;
      }
      BlocksForStep(L(), old(packets), packet);
      PendingStep(header.cueInterval, packetCount);
      if header.cueInterval > 0 && packetCount % header.cueInterval == 0 {
        r := WritePeriodicCue();
      }
    }

    /** The packet block and its index entry, without the cue it may complete. */
    method AppendPacket(packet: Packet) returns (r: Result<(), IoError>)
      requires Valid()
      requires packet.header.sequence == sequence && packet.header.payloadLen == |packet.payload|
      modifies this
      ensures Valid()
      ensures old(out) <= out
      ensures r.Failure? ==> unchanged(this)
      ensures |packet.payload| > MAX_PACKET_PAYLOAD_BYTES ==> r.Failure? && r.error.InvalidInput?
      ensures r.Success? <==>
                |packet.payload| <= MAX_PACKET_PAYLOAD_BYTES && |old(out)| + |packet.payload| + 52 < U64_LIMIT
      ensures r.Success? ==>
                && packets == old(packets) + [packet]
                && blocks == old(blocks) + [PacketOf(packet)]
                && |out| == |old(out)| + |packet.payload| + 52
                && pendingCueStart == old(pendingCueStart) && cueCount == old(cueCount)
    {
      hide Written, Layout.BytesOf, BlockBytes, EncodeFileHeader, Preamble;
      var packetOffset := |out|;
      var block := EncodeBlock(cs, header.UsesCrc32c(), PacketOf(packet));
      if block.Failure? {
        return Failure(block.error);
      }
      PacketBlockLength(cs, header.UsesCrc32c(), packet);
      BytesOfBlock(cs, header, tracks, PacketOf(packet));
      var ok := WriteAll(block.value);
      if !ok {
        return Failure(StorageFull);
      }
      WrittenPacket(L(), Preamble(header, tracks), old(out), blocks, entries, packets, packet);
      entries := entries
        + [IndexEntry(packetCount, packetOffset, packet.header.trackId, packet.header.flags, packet.header.pts)];
      packetCount := packetCount + 1;
      sequence := sequence + 1;
      packets := packets + [packet];
      blocks := blocks + [PacketOf(packet)];
      r := Success(());
    }

    /** Room in limits and file for a packet of this size and for the cue it may complete. */
    ghost predicate RoomFor(written: nat, payloadLen: nat)
      requires Encodable()
    {
      && payloadLen <= MAX_PACKET_PAYLOAD_BYTES
      && L().interval <= MAX_INDEX_ENTRIES_PER_BLOCK
      && written + payloadLen + 92 + 28 * L().interval < U64_LIMIT
    }

    /** `write_periodic_cue`: a cue block with the entries no cue covers yet. */
    method WritePeriodicCue() returns (r: Result<(), IoError>)
      requires Valid()
      modifies this
      ensures Valid()
      ensures old(out) <= out
      ensures packets == old(packets) && entries == old(entries)
      ensures packetCount == old(packetCount) && sequence == old(sequence)
      ensures r.Success? ==>
                && blocks == old(blocks) + [CueFor(L(), old(blocks), old(cueCount), old(pendingCueStart))]
                && pendingCueStart == |entries| && cueCount == old(cueCount) + 1
                && |out| == |old(out)| + 40 + 28 * (|entries| - old(pendingCueStart))
      ensures r.Failure? ==> unchanged(this)
      ensures r.Success? <==>
                && |entries| - old(pendingCueStart) <= MAX_INDEX_ENTRIES_PER_BLOCK
                && |old(out)| + 40 + 28 * (|entries| - old(pendingCueStart)) < U64_LIMIT
    {
      hide Written, LayoutOf, Layout.BytesOf, BlockBytes, EncodeBlock, CueFor;
      hide EncodeFileHeader, EncodableTracks, Preamble;
      var pending := entries[pendingCueStart..];
      var first := if |pending| > 0 then pending[0].packetNumber else packetCount;
      WrittenCue(L(), Preamble(header, tracks), out, blocks, entries, packets, cueCount, pendingCueStart);
      var cue := CueOf(CueBlock(cueCount, first, pending));
      CueEncodes(cs, header.UsesCrc32c(), cue.cue);
      var block := EncodeBlock(cs, header.UsesCrc32c(), cue);
      if block.Failure? {
        return Failure(block.error);
      }
      BytesOfBlock(cs, header, tracks, cue);
      var ok := WriteAll(block.value);
      if !ok {
        return Failure(StorageFull);
      }
      cueCount := cueCount + 1;
      pendingCueStart := |entries|;
      blocks := blocks + [cue];
      r := Success(());
    }

    /** The end of `finalize`: the index block. */
    method WriteIndex() returns (r: Result<(), IoError>)
      requires Valid()
      modifies this`out
      ensures old(out) <= out && |out| < U64_LIMIT
      ensures r.Success? <==>
                |entries| <= MAX_INDEX_ENTRIES_PER_BLOCK && |old(out)| + 24 + 28 * |entries| < U64_LIMIT
      ensures r.Success? ==>
                out == Preamble(header, tracks) + Serialize(L(), blocks + [IndexOf(IndexFor(L(), blocks))])
      ensures r.Failure? ==> out == old(out)
    {
      hide Written, Layout.BytesOf, BlockBytes, EncodeFileHeader, Preamble, Serialize;
      var index := IndexOf(entries);
      var block := EncodeBlock(cs, header.UsesCrc32c(), index);
      if block.Failure? {
        return Failure(block.error);
      }
      IndexBlockLength(cs, header.UsesCrc32c(), entries);
      BytesOfBlock(cs, header, tracks, index);
      WrittenIndex(L(), Preamble(header, tracks), out, blocks, entries, packets);
      var ok := WriteAll(block.value);
      r := if ok then Success(()) else Failure(StorageFull);
    }

    /**
     `finalize`: the last cue, if one is due, and the index. Within the read limits the file meets
     everything that the round trip of a whole run asks for.
     */
    method Finalize() returns (r: Result<seq<byte>, IoError>)
      requires Valid()
      modifies this
      ensures r.Success? && old(InStep()) ==>
                && r.value == FinishedFile(cs, header, tracks, old(packets))
                && (DemuxTheorems.WithinReadLimits(header.cueInterval, old(packets)) ==>
                      DemuxTheorems.RoundTrips(cs, header, tracks, old(packets)))
      ensures r.Success? <==>
                && |old(entries)| <= MAX_INDEX_ENTRIES_PER_BLOCK
                && old(|out| + ClosingCueLength(|entries| - pendingCueStart) + 24 + 28 * |entries|) < U64_LIMIT
      ensures r.Success? ==> old(out) <= r.value && |r.value| < U64_LIMIT
      ensures r.Success? ==>
                var closed := old(if pendingCueStart < |entries|
                                  then blocks + [CueFor(L(), blocks, cueCount, pendingCueStart)] else blocks);
                r.value == Preamble(header, tracks) + Serialize(L(), closed + [IndexOf(IndexFor(L(), closed))])
    {
      WrittenIsNumbered(L(), Preamble(header, tracks), out, blocks, entries, packets);
      hide DemuxTheorems.WithinReadLimits, DemuxTheorems.RoundTrips, Numbered, EncodableTracks;
      hide Written, Layout.BytesOf, BlockBytes, EncodeFileHeader, Preamble, CueFor, Serialize, PacketsFrom, BlocksFor;
      if pendingCueStart < |entries| {
        var cue := WritePeriodicCue();
        if cue.Failure? {
          return Failure(cue.error);
        }
      }
      assert old(InStep()) ==> blocks == ClosedBlocks(L(), packets);
      hide ClosedBlocks, PendingStart, CuesWritten;
      var written := WriteIndex();
      if written.Failure? {
        return Failure(written.error);
      }
      r := Success(out);
      if old(InStep()) {
        Undisturbed(cs, header, tracks, packets, out);
      }
    }
  }

  lemma WrittenIsNumbered(l: Layout, preamble: seq<byte>, out: seq<byte>, blocks: seq<Block>,
                          entries: seq<IndexEntry>, packets: seq<Packet>)
    requires Written(l, preamble, out, blocks, entries, packets)
    ensures Numbered(packets)
  {
  }

  /** A finished file within the read limits meets the conditions of the round trip. */
  lemma Undisturbed(cs: Checksums, header: FileHeader, tracks: seq<TrackDescriptor>, packets: seq<Packet>,
                    out: seq<byte>)
    requires EncodeFileHeader(header).Success? && EncodableTracks(tracks) && header.trackCount == |tracks|
    requires Numbered(packets) && |out| < U64_LIMIT && out == FinishedFile(cs, header, tracks, packets)
    ensures DemuxTheorems.WithinReadLimits(header.cueInterval, packets) ==>
              DemuxTheorems.RoundTrips(cs, header, tracks, packets)
  {
    hide DemuxTheorems.WithinReadLimits, Numbered, FinishedFile, EncodableTracks, EncodeFileHeader;
  }

  lemma BytesOfBlock(cs: Checksums, header: FileHeader, tracks: seq<TrackDescriptor>, b: Block)
    requires EncodeFileHeader(header).Success?
    ensures LayoutOf(cs, header, tracks).BytesOf(b) == BlockBytes(cs, header.UsesCrc32c(), b)
  {
  }

  lemma PacketBlockLength(cs: Checksums, useCrc32c: bool, p: Packet)
    ensures |BlockBytes(cs, useCrc32c, PacketOf(p))| == 52 + |p.payload|
  {
  }

  lemma CueEncodes(cs: Checksums, useCrc32c: bool, c: CueBlock)
    ensures |BlockBytes(cs, useCrc32c, CueOf(c))| == 40 + 28 * |c.entries|
    ensures var r := EncodeBlock(cs, useCrc32c, CueOf(c));
      if |c.entries| <= MAX_INDEX_ENTRIES_PER_BLOCK then r == Success(BlockBytes(cs, useCrc32c, CueOf(c)))
      else r.Failure?
  {
  }

  lemma IndexBlockLength(cs: Checksums, useCrc32c: bool, entries: seq<IndexEntry>)
    ensures |BlockBytes(cs, useCrc32c, IndexOf(entries))| == 24 + 28 * |entries|
  {
  }

  /** The bytes of the cue that `finalize` writes for `pending` entries. */
  function ClosingCueLength(pending: int): int {
    if pending > 0 then 40 + 28 * pending else 0
  }

  lemma BlocksForStep(l: Layout, packets: seq<Packet>, packet: Packet)
    ensures BlocksFor(l, packets + [packet])
            == AfterPacket(l, BlocksFor(l, packets), packet, |packets| + 1)
  {
    assert (packets + [packet])[..|packets|] == packets;
  }

  lemma AppendTrack(tracks: seq<TrackDescriptor>, i: nat)
    requires i < |tracks|
    ensures TracksBytes(tracks[..i + 1]) == TracksBytes(tracks[..i]) + TrackBytes(tracks[i])
  {
    TracksAppend(tracks[..i], tracks[i]);
    assert tracks[..i] + [tracks[i]] == tracks[..i + 1];
  }

  lemma {:induction false} TracksAppend(tracks: seq<TrackDescriptor>, t: TrackDescriptor)
    ensures TracksBytes(tracks + [t]) == TracksBytes(tracks) + TrackBytes(t)
  {
    hide TrackBytes;
    if tracks == [] {
      assert tracks + [t] == [t] && [t][1..] == [];
    } else {
      assert (tracks + [t])[1..] == tracks[1..] + [t];
      TracksAppend(tracks[1..], t);
    }
  }
}
