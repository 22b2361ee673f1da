/**
 The file a run of the muxer leaves behind: blocks in order, a cue after every full interval,
 a last cue for what is left, and an index of all packets.
 */
module MuxSpec {
  import opened Arithmetic
  import opened Bytes
  import opened ContainerFormat
  import opened ContainerIo
  import opened ContainerTheorems
  import opened DemuxSpec

  /** What decides the bytes of a file's blocks besides its packets; `base` is where the first one starts. */
  datatype Layout = Layout(cs: Checksums, useCrc32c: bool, base: nat, interval: nat) {
    function BytesOf(b: Block): seq<byte> {
      BlockBytes(cs, useCrc32c, b)
    }
  }

  function Serialize(l: Layout, blocks: seq<Block>): seq<byte> {
    if blocks == [] then [] else l.BytesOf(blocks[0]) + Serialize(l, blocks[1..])
  }

  function PacketAt(pos: nat, b: Block): seq<DemuxedPacket> {
    match b
    case PacketOf(p) => [DemuxedPacket(pos, p)]
    case _ => []
  }

  /** The packets among `blocks`, each with the offset of its block when the first one starts at `pos`. */
  function PacketsFrom(l: Layout, pos: nat, blocks: seq<Block>): seq<DemuxedPacket>
    decreases |blocks|
  {
    if blocks == [] then []
    else PacketAt(pos, blocks[0]) + PacketsFrom(l, pos + |l.BytesOf(blocks[0])|, blocks[1..])
  }

  function Entries(ps: seq<DemuxedPacket>): seq<IndexEntry> {
    seq(|ps|, i requires 0 <= i < |ps| => EntryOf(ps[i].offset, ps[i].packet))
  }

  function Packets(ps: seq<DemuxedPacket>): seq<Packet> {
    seq(|ps|, i requires 0 <= i < |ps| => ps[i].packet)
  }

  /** The index of `blocks` as the packets themselves define it. */
  function IndexFor(l: Layout, blocks: seq<Block>): seq<IndexEntry> {
    Entries(PacketsFrom(l, l.base, blocks))
  }

  /** After `n` packets: the first one that no cue covers yet, and the number of cues written. */
  function PendingStart(interval: nat, n: nat): (r: nat)
    ensures r <= n
  {
    if interval == 0 then 0 else n - n % interval
  }

  function CuesWritten(interval: nat, n: nat): nat {
    if interval == 0 then 0 else n / interval
  }

  /** A cue for the packets from `first` on. */
  function CueFor(l: Layout, blocks: seq<Block>, cueId: nat, first: nat): Block {
    var entries := IndexFor(l, blocks);
    CueOf(CueBlock(cueId, first, if first <= |entries| then entries[first..] else []))
  }

  /** What writing the `n`-th packet adds: its block and, when an interval is full, a cue. */
  function AfterPacket(l: Layout, before: seq<Block>, packet: Packet, n: nat): seq<Block> {
    var blocks := before + [PacketOf(packet)];
    if l.interval > 0 && n % l.interval == 0 && n > 0 then
      blocks + [CueFor(l, blocks, CuesWritten(l.interval, n - 1), PendingStart(l.interval, n - 1))]
    else blocks
  }

  function BlocksFor(l: Layout, packets: seq<Packet>): seq<Block> {
    if packets == [] then []
    else
      var n := |packets|;
      AfterPacket(l, BlocksFor(l, packets[..n - 1]), packets[n - 1], n)
  }

  /** The blocks of a run and the cue for the packets that none covers yet. */
  function ClosedBlocks(l: Layout, packets: seq<Packet>): seq<Block> {
    var blocks := BlocksFor(l, packets);
    var n := |packets|;
    var pending := PendingStart(l.interval, n);
    if pending < n then blocks + [CueFor(l, blocks, CuesWritten(l.interval, n), pending)] else blocks
  }

  /** The blocks of a finished file. */
  function FinishedBlocks(l: Layout, packets: seq<Packet>): seq<Block> {
    var closed := ClosedBlocks(l, packets);
    closed + [IndexOf(IndexFor(l, closed))]
  }

  // ----- one block at a time from the end -----

  lemma {:induction false} SerializeAppend(l: Layout, blocks: seq<Block>, b: Block)
    ensures Serialize(l, blocks + [b]) == Serialize(l, blocks) + l.BytesOf(b)
    decreases |blocks|
  {
    hide Layout.BytesOf;
    if blocks == [] {
      assert blocks + [b] == [b] && [b][1..] == [];
    } else {
      assert (blocks + [b])[1..] == blocks[1..] + [b];
      SerializeAppend(l, blocks[1..], b);
    }
  }

  lemma {:induction false} PacketsAppend(l: Layout, pos: nat, blocks: seq<Block>, b: Block)
    ensures PacketsFrom(l, pos, blocks + [b])
            == PacketsFrom(l, pos, blocks) + PacketAt(pos + |Serialize(l, blocks)|, b)
    decreases |blocks|
  {
    hide Layout.BytesOf, PacketAt;
    if blocks == [] {
      assert blocks + [b] == [b] && [b][1..] == [];
    } else {
      assert (blocks + [b])[1..] == blocks[1..] + [b];
      PacketsAppend(l, pos + |l.BytesOf(blocks[0])|, blocks[1..], b);
    }
  }

  /** Appending a packet appends its entry; appending a cue or an index leaves the entries alone. */
  lemma IndexAppend(l: Layout, blocks: seq<Block>, b: Block)
    ensures IndexFor(l, blocks + [b])
            == IndexFor(l, blocks) + Entries(PacketAt(l.base + |Serialize(l, blocks)|, b))
    ensures Packets(PacketsFrom(l, l.base, blocks + [b]))
            == Packets(PacketsFrom(l, l.base, blocks)) + Packets(PacketAt(l.base + |Serialize(l, blocks)|, b))
  {
    hide Serialize, PacketsFrom;
    PacketsAppend(l, l.base, blocks, b);
  }

  // ----- what the packets of a run become -----

  /** Packets carry their position in the run as sequence number, and their payload's length. */
  ghost predicate Numbered(packets: seq<Packet>) {
    forall i :: 0 <= i < |packets| ==>
      packets[i].header.sequence == i && packets[i].header.payloadLen == |packets[i].payload|
  }

  function NewPacket(sequence: nat, trackId: u16, pts: u64, dts: u64, keyframe: bool, payload: seq<byte>): Packet
    requires |payload| < U32_LIMIT
  {
    Packet(PacketHeader(trackId, if keyframe then KEYFRAME else 0, sequence, pts, dts, |payload|), payload)
  }

  function Preamble(header: FileHeader, tracks: seq<TrackDescriptor>): seq<byte>
    requires EncodeFileHeader(header).Success?
  {
    EncodeFileHeader(header).value + TracksBytes(tracks)
  }

  function LayoutOf(cs: Checksums, header: FileHeader, tracks: seq<TrackDescriptor>): Layout
    requires EncodeFileHeader(header).Success?
  {
    Layout(cs, header.UsesCrc32c(), |Preamble(header, tracks)|, header.cueInterval)
  }

  ghost predicate EncodableTracks(tracks: seq<TrackDescriptor>) {
    forall i :: 0 <= i < |tracks| ==> EncodeTrack(tracks[i]).Success?
  }

  /** The whole file of a run that was finalized. */
  function FinishedFile(cs: Checksums, header: FileHeader, tracks: seq<TrackDescriptor>, packets: seq<Packet>)
    : seq<byte>
    requires EncodeFileHeader(header).Success?
  {
    var l := LayoutOf(cs, header, tracks);
    Preamble(header, tracks) + Serialize(l, FinishedBlocks(l, packets))
  }

  lemma AfterPacketHolds(l: Layout, before: seq<Block>, packet: Packet, n: nat)
    ensures var after := AfterPacket(l, before, packet, n);
            && Packets(PacketsFrom(l, l.base, after)) == Packets(PacketsFrom(l, l.base, before)) + [packet]
            && |IndexFor(l, after)| == |IndexFor(l, before)| + 1
  {
    hide Serialize, PacketsFrom, CuesWritten, PendingStart;
    var blocks := before + [PacketOf(packet)];
    IndexAppend(l, before, PacketOf(packet));
    assert Packets(PacketAt(l.base + |Serialize(l, before)|, PacketOf(packet))) == [packet];
    if n > 0 {
      var cue := CueFor(l, blocks, CuesWritten(l.interval, n - 1), PendingStart(l.interval, n - 1));
      IndexAppend(l, blocks, cue);
      assert Packets(PacketAt(l.base + |Serialize(l, blocks)|, cue)) == [];
    }
  }

  /** The blocks of a run hold its packets, in order, and nothing else but cues. */
  lemma {:induction false} BlocksHoldPackets(l: Layout, packets: seq<Packet>)
    ensures Packets(PacketsFrom(l, l.base, BlocksFor(l, packets))) == packets
    ensures |IndexFor(l, BlocksFor(l, packets))| == |packets|
    decreases |packets|
  {
    hide AfterPacket, Serialize;
    if packets != [] {
      var n := |packets|;
      assert BlocksFor(l, packets) == AfterPacket(l, BlocksFor(l, packets[..n - 1]), packets[n - 1], n);
      assert packets[..n - 1] + [packets[n - 1]] == packets;
      hide *;
      BlocksHoldPackets(l, packets[..n - 1]);
      AfterPacketHolds(l, BlocksFor(l, packets[..n - 1]), packets[n - 1], n);
    }
  }

  /** Counting one more packet either leaves the pending range open or closes it with a cue. */
  lemma PendingStep(interval: nat, n: nat)
    requires n > 0
    ensures interval == 0 || n % interval != 0 ==>
              && PendingStart(interval, n) == PendingStart(interval, n - 1)
              && CuesWritten(interval, n) == CuesWritten(interval, n - 1)
    ensures interval > 0 && n % interval == 0 ==>
              && PendingStart(interval, n) == n
              && PendingStart(interval, n - 1) == n - interval
              && CuesWritten(interval, n) == CuesWritten(interval, n - 1) + 1
  {
    if interval > 0 {
      var q, r := (n - 1) / interval, (n - 1) % interval;
      assert n - 1 == interval * q + r;
      if r == interval - 1 {
        assert n == interval * (q + 1) + 0;
        DivideExactly(q + 1, 0, interval);
      } else {
        DivideExactly(q, r + 1, interval);
      }
    }
  }

  // ----- the incremental state of a writer -----

  /** The bytes, entries and packets a writer keeps are those of the blocks it has written. */
  ghost predicate Written(l: Layout, preamble: seq<byte>, out: seq<byte>, blocks: seq<Block>,
                          entries: seq<IndexEntry>, packets: seq<Packet>)
  {
    && |preamble| == l.base
    && out == preamble + Serialize(l, blocks)
    && entries == IndexFor(l, blocks)
    && packets == Packets(PacketsFrom(l, l.base, blocks))
    && |entries| == |packets|
    && Numbered(packets)
  }

  lemma WrittenPacket(l: Layout, preamble: seq<byte>, out: seq<byte>, blocks: seq<Block>,
                      entries: seq<IndexEntry>, packets: seq<Packet>, packet: Packet)
    requires Written(l, preamble, out, blocks, entries, packets)
    requires packet.header.sequence == |packets| && packet.header.payloadLen == |packet.payload|
    ensures Written(l, preamble, out + l.BytesOf(PacketOf(packet)), blocks + [PacketOf(packet)],
                    entries + [EntryOf(|out|, packet)], packets + [packet])
  {
    hide Serialize, PacketsFrom, Layout.BytesOf;
    SerializeAppend(l, blocks, PacketOf(packet));
    IndexAppend(l, blocks, PacketOf(packet));
    var at := PacketAt(l.base + |Serialize(l, blocks)|, PacketOf(packet));
    assert Entries(at) == [EntryOf(|out|, packet)] && Packets(at) == [packet];
  }

  /** A cue adds no entry, and its first packet number is the number of entries before it. */
  lemma WrittenCue(l: Layout, preamble: seq<byte>, out: seq<byte>, blocks: seq<Block>,
                   entries: seq<IndexEntry>, packets: seq<Packet>, cueId: nat, start: nat)
    requires Written(l, preamble, out, blocks, entries, packets) && start <= |entries|
    ensures var cue := CueFor(l, blocks, cueId, start);
            && cue == CueOf(CueBlock(cueId, start, entries[start..]))
            && Written(l, preamble, out + l.BytesOf(cue), blocks + [cue], entries, packets)
    ensures start < |entries| ==> entries[start].packetNumber == start
  {
    hide Serialize, PacketsFrom, Layout.BytesOf;
    var cue := CueFor(l, blocks, cueId, start);
    SerializeAppend(l, blocks, cue);
    IndexAppend(l, blocks, cue);
    var at := PacketAt(l.base + |Serialize(l, blocks)|, cue);
    assert Entries(at) == [] && Packets(at) == [];
    if start < |entries| {
      assert packets[start].header.sequence == start;
    }
  }

  lemma WrittenIndex(l: Layout, preamble: seq<byte>, out: seq<byte>, blocks: seq<Block>,
                     entries: seq<IndexEntry>, packets: seq<Packet>)
    requires Written(l, preamble, out, blocks, entries, packets)
    ensures out + l.BytesOf(IndexOf(entries)) == preamble + Serialize(l, blocks + [IndexOf(IndexFor(l, blocks))])
  {
    hide Layout.BytesOf;
    SerializeAppend(l, blocks, IndexOf(entries));
  }

  lemma NothingWritten(l: Layout, preamble: seq<byte>)
    requires |preamble| == l.base
    ensures Written(l, preamble, preamble, [], [], [])
  {
  }
}
