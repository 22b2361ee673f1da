/**
 What the demuxer finds in the muxer's files: every packet in order, and an index in which each
 entry stands where its packet's block does.
 */
module DemuxTheorems {
  import opened Wrappers
  import opened Bytes
  import opened ContainerFormat
  import opened ContainerIo
  import opened ContainerTheorems
  import opened DemuxSpec
  import opened MuxSpec

  /** All packets from `pos` to the end of the file, by calling `next_packet` until it has none. */
  function ReadPackets(f: File, pos: nat): Result<seq<DemuxedPacket>, IoError>
    decreases if pos < |f.data| then |f.data| - pos else 0
  {
    match NextPacketAt(f, pos)
    case (Failure(e), _) => Failure(e)
    case (Success(None), _) => Success([])
    case (Success(Some(p)), next) =>
      NextPacketInFile(f, pos);
      match ReadPackets(f, next)
      case Failure(e) => Failure(e)
      case Success(ps) => Success([p] + ps)
  }

  lemma {:induction false} NextPacketInFile(f: File, pos: nat)
    ensures NextPacketAt(f, pos).0.Success? && NextPacketAt(f, pos).0.value.Some? ==> pos < |f.data|
    decreases if pos < |f.data| then |f.data| - pos else 0
  {
    hide NextBlockAt;
  }

  ghost predicate Fits(f: File, l: Layout) {
    f.cs == l.cs && f.useCrc32c == l.useCrc32c
  }

  ghost predicate AllReadable(blocks: seq<Block>) {
    forall i :: 0 <= i < |blocks| ==> Readable(blocks[i])
  }

  /** A readable block is what the demuxer returns at its start, and it leaves the cursor behind it. */
  lemma BlockIsRead(f: File, l: Layout, b: Block, pos: nat)
    requires Fits(f, l) && Readable(b) && HasAt(f.data, pos, l.BytesOf(b))
    ensures NextBlockAt(f, pos) == (Success(Some(Located(pos, b))), pos + |l.BytesOf(b)|)
  {
    hide BlockHeaderAt, BlockBodyAt, BodyBytes, DecodeBody, Readable;
    EnvelopeRoundTrip(f.cs, f.useCrc32c, b, f.data, pos);
    BodyRoundTrip(b);
  }

  /** The reader is done at `pos`: the next block is reported missing, not broken. */
  ghost predicate Ends(f: File, pos: nat) {
    NextBlockAt(f, pos).0 == Success(None)
  }

  lemma SameFour(s: seq<byte>, pos: nat, k: nat)
    requires 16 <= k && pos + k <= |s|
    ensures s[pos..pos + 16][0..4] == s[pos..pos + k][..4]
  {
  }

  /** A file that ends at a block boundary, or inside a block's header, simply ends there. */
  lemma CutInHeaderEnds(f: File, l: Layout, b: Block, pos: nat, k: nat)
    requires k < BLOCK_HEADER_LEN && pos + k == |f.data|
    requires HasAt(f.data, pos, l.BytesOf(b)[..k])
    ensures Ends(f, pos)
  {
    hide BodyBytes;
    if k >= 16 {
      assert l.BytesOf(b)[..k][..4] == l.BytesOf(b)[..4] == BLOCK_MAGIC;
      SameFour(f.data, pos, k);
    }
  }

  /** Reading on from a block yields its packet, if it is one, and then what follows. */
  lemma ReadPastBlock(f: File, pos: nat, b: Block, next: nat)
    requires NextBlockAt(f, pos) == (Success(Some(Located(pos, b))), next)
    ensures ReadPackets(f, pos)
            == match ReadPackets(f, next)
               case Failure(e) => Failure(e)
               case Success(ps) => Success(PacketAt(pos, b) + ps)
  {
    hide NextBlockAt;
    if !b.PacketOf? {
      assert NextPacketAt(f, pos) == NextPacketAt(f, next);
      if ReadPackets(f, next).Success? {
        assert PacketAt(pos, b) + ReadPackets(f, next).value == ReadPackets(f, next).value;
      }
    }
  }

  lemma {:induction false} PacketsReadBack(f: File, l: Layout, pos: nat, blocks: seq<Block>)
    requires Fits(f, l) && AllReadable(blocks)
    requires HasAt(f.data, pos, Serialize(l, blocks)) && Ends(f, pos + |Serialize(l, blocks)|)
    ensures ReadPackets(f, pos) == Success(PacketsFrom(l, pos, blocks))
    decreases |blocks|
  {
    hide NextBlockAt, Readable, Layout.BytesOf, PacketAt;
    if blocks != [] {
      hide ReadPackets;
      HasParts(f.data, pos, l.BytesOf(blocks[0]), Serialize(l, blocks[1..]));
      BlockIsRead(f, l, blocks[0], pos);
      PacketsReadBack(f, l, pos + |l.BytesOf(blocks[0])|, blocks[1..]);
      ReadPastBlock(f, pos, blocks[0], pos + |l.BytesOf(blocks[0])|);
    }
  }

  /** From the offset an index entry gives, reading continues with exactly that packet. */
  lemma {:induction false} ReadFromEntry(f: File, l: Layout, pos: nat, blocks: seq<Block>, i: nat)
    requires Fits(f, l) && AllReadable(blocks)
    requires HasAt(f.data, pos, Serialize(l, blocks)) && Ends(f, pos + |Serialize(l, blocks)|)
    requires i < |PacketsFrom(l, pos, blocks)|
    ensures ReadPackets(f, PacketsFrom(l, pos, blocks)[i].offset) == Success(PacketsFrom(l, pos, blocks)[i..])
    decreases |blocks|
  {
    hide NextBlockAt, Readable, Layout.BytesOf, ReadPackets, HasAt, Ends, Fits;
    var ps := PacketsFrom(l, pos, blocks);
    var rest := PacketsFrom(l, pos + |l.BytesOf(blocks[0])|, blocks[1..]);
    HasParts(f.data, pos, l.BytesOf(blocks[0]), Serialize(l, blocks[1..]));
    if blocks[0].PacketOf? && i == 0 {
      PacketsReadBack(f, l, pos, blocks);
      assert ps[0..] == ps;
    } else {
      var head := PacketAt(pos, blocks[0]);
      ReadFromEntry(f, l, pos + |l.BytesOf(blocks[0])|, blocks[1..], i - |head|);
      AfterHead(head, rest, i);
    }
  }

  lemma AfterHead<T>(head: seq<T>, rest: seq<T>, i: nat)
    requires |head| <= i < |head| + |rest|
    ensures (head + rest)[i] == rest[i - |head|] && (head + rest)[i..] == rest[i - |head|..]
  {
  }

  // ----- rebuilding the index -----

  /** What a scan over `blocks`, none of them an index, has gathered. */
  function Gathered(l: Layout, pos: nat, blocks: seq<Block>): seq<IndexEntry>
    decreases |blocks|
  {
    if blocks == [] then []
    else GatheredAt(pos, blocks[0]) + Gathered(l, pos + |l.BytesOf(blocks[0])|, blocks[1..])
  }

  function GatheredAt(pos: nat, b: Block): seq<IndexEntry> {
    match b
    case PacketOf(p) => [EntryOf(pos, p)]
    case CueOf(c) => c.entries
    case IndexOf(_) => []
  }

  ghost predicate NoIndex(blocks: seq<Block>) {
    forall i :: 0 <= i < |blocks| ==> !blocks[i].IndexOf?
  }

  lemma {:induction false} ScanGathers(f: File, l: Layout, pos: nat, blocks: seq<Block>, acc: seq<IndexEntry>)
    requires Fits(f, l) && AllReadable(blocks) && NoIndex(blocks)
    requires HasAt(f.data, pos, Serialize(l, blocks))
    ensures ScanIndex(f, pos, acc)
            == ScanIndex(f, pos + |Serialize(l, blocks)|, acc + Gathered(l, pos, blocks))
    decreases |blocks|
  {
    hide NextBlockAt, Readable, Layout.BytesOf;
    if blocks == [] {
      assert acc + [] == acc;
    } else {
      var next := pos + |l.BytesOf(blocks[0])|;
      var more := GatheredAt(pos, blocks[0]);
      HasParts(f.data, pos, l.BytesOf(blocks[0]), Serialize(l, blocks[1..]));
      BlockIsRead(f, l, blocks[0], pos);
      ScanGathers(f, l, next, blocks[1..], acc + more);
      assert acc + more + Gathered(l, next, blocks[1..]) == acc + Gathered(l, pos, blocks);
    }
  }

  lemma {:induction false} GatheredAppend(l: Layout, pos: nat, blocks: seq<Block>, b: Block)
    ensures Gathered(l, pos, blocks + [b])
            == Gathered(l, pos, blocks) + GatheredAt(pos + |Serialize(l, blocks)|, b)
    decreases |blocks|
  {
    hide Layout.BytesOf, GatheredAt;
    if blocks == [] {
      assert blocks + [b] == [b] && [b][1..] == [];
    } else {
      assert (blocks + [b])[1..] == blocks[1..] + [b];
      GatheredAppend(l, pos + |l.BytesOf(blocks[0])|, blocks[1..], b);
    }
  }

  /** Every cue repeats entries of packets that come before it. */
  ghost predicate CuesCopy(l: Layout, blocks: seq<Block>) {
    forall j :: 0 <= j < |blocks| ==> CueCopies(l, blocks[..j], blocks[j])
  }

  ghost predicate CueCopies(l: Layout, before: seq<Block>, b: Block) {
    && !b.IndexOf?
    && (b.CueOf? ==> forall e :: e in b.cue.entries ==> e in IndexFor(l, before))
  }

  lemma CuesCopyAppend(l: Layout, blocks: seq<Block>, b: Block)
    requires CuesCopy(l, blocks) && CueCopies(l, blocks, b)
    ensures CuesCopy(l, blocks + [b])
  {
    hide CueCopies;
    var longer := blocks + [b];
    forall j | 0 <= j < |longer|
      ensures CueCopies(l, longer[..j], longer[j])
    {
      if j < |blocks| {
        assert longer[..j] == blocks[..j];
      } else {
        assert longer[..j] == blocks;
      }
    }
  }

  lemma CueForCopies(l: Layout, blocks: seq<Block>, cueId: nat, first: nat)
    ensures CueCopies(l, blocks, CueFor(l, blocks, cueId, first))
  {
    hide IndexFor;
  }

  lemma {:induction false} RunCuesCopy(l: Layout, packets: seq<Packet>)
    ensures CuesCopy(l, BlocksFor(l, packets))
    decreases |packets|
  {
    hide CueCopies, CuesCopy, CueFor, CuesWritten, PendingStart;
    if packets == [] {
      EmptyCuesCopy(l);
    } else {
      var n := |packets|;
      var before := BlocksFor(l, packets[..n - 1]);
      var blocks := before + [PacketOf(packets[n - 1])];
      RunCuesCopy(l, packets[..n - 1]);
      PacketCopies(l, before, packets[n - 1]);
      CuesCopyAppend(l, before, PacketOf(packets[n - 1]));
      var cue := CueFor(l, blocks, CuesWritten(l.interval, n - 1), PendingStart(l.interval, n - 1));
      CueForCopies(l, blocks, CuesWritten(l.interval, n - 1), PendingStart(l.interval, n - 1));
      CuesCopyAppend(l, blocks, cue);
    }
  }

  lemma EmptyCuesCopy(l: Layout)
    ensures CuesCopy(l, [])
  {
  }

  lemma PacketCopies(l: Layout, before: seq<Block>, p: Packet)
    ensures CueCopies(l, before, PacketOf(p))
  {
  }

  lemma ClosedCuesCopy(l: Layout, packets: seq<Packet>)
    ensures CuesCopy(l, ClosedBlocks(l, packets))
  {
    hide CueCopies, CuesCopy, CueFor;
    var blocks := BlocksFor(l, packets);
    var n := |packets|;
    RunCuesCopy(l, packets);
    CueForCopies(l, blocks, CuesWritten(l.interval, n), PendingStart(l.interval, n));
    CuesCopyAppend(l, blocks, CueFor(l, blocks, CuesWritten(l.interval, n), PendingStart(l.interval, n)));
  }

  lemma CuesCopyPrefix(l: Layout, blocks: seq<Block>, k: nat)
    requires CuesCopy(l, blocks) && k <= |blocks|
    ensures CuesCopy(l, blocks[..k]) && NoIndex(blocks[..k])
  {
    forall j | 0 <= j < k
      ensures CueCopies(l, blocks[..k][..j], blocks[..k][j])
    {
      assert blocks[..k][..j] == blocks[..j];
      assert CueCopies(l, blocks[..j], blocks[j]);
    }
  }

  ghost predicate SameEntries(a: seq<IndexEntry>, b: seq<IndexEntry>) {
    forall e :: e in a <==> e in b
  }

  lemma SameEntriesAppend(a: seq<IndexEntry>, b: seq<IndexEntry>, moreA: seq<IndexEntry>, moreB: seq<IndexEntry>)
    requires SameEntries(a, b)
    requires moreA == moreB || (moreB == [] && forall e :: e in moreA ==> e in b)
    ensures SameEntries(a + moreA, b + moreB)
  {
  }

  /** Cues only repeat, so what a scan gathers is, as a set, the entries of the packets. */
  lemma {:induction false} GatheredIsIndex(l: Layout, blocks: seq<Block>)
    requires CuesCopy(l, blocks)
    ensures SameEntries(Gathered(l, l.base, blocks), IndexFor(l, blocks))
    decreases |blocks|
  {
    hide IndexFor, Gathered, Serialize, SameEntries, CuesCopy, CueCopies, GatheredAt, PacketAt, Entries, PacketsFrom,
         Packets;
    if blocks == [] {
      NothingGathered(l);
    } else {
      var n := |blocks| - 1;
      var before, b := blocks[..n], blocks[n];
      CuesCopyPrefix(l, blocks, n);
      GatheredIsIndex(l, before);
      LastCopies(l, blocks);
      assert before + [b] == blocks;
      GatheredAppend(l, l.base, before, b);
      IndexAppend(l, before, b);
      var pos := l.base + |Serialize(l, before)|;
      GatheredOrRepeated(l, before, b, pos);
      SameEntriesAppend(Gathered(l, l.base, before), IndexFor(l, before),
                        GatheredAt(pos, b), Entries(PacketAt(pos, b)));
    }
  }

  lemma LastCopies(l: Layout, blocks: seq<Block>)
    requires CuesCopy(l, blocks) && blocks != []
    ensures CueCopies(l, blocks[..|blocks| - 1], blocks[|blocks| - 1])
  {
  }

  lemma GatheredOrRepeated(l: Layout, before: seq<Block>, b: Block, pos: nat)
    requires CueCopies(l, before, b)
    ensures
      || GatheredAt(pos, b) == Entries(PacketAt(pos, b))
      || (Entries(PacketAt(pos, b)) == [] && forall e :: e in GatheredAt(pos, b) ==> e in IndexFor(l, before))
  {
    hide IndexFor;
    if b.PacketOf? {
      assert Entries([DemuxedPacket(pos, b.packet)]) == [EntryOf(pos, b.packet)];
    }
  }

  lemma NothingGathered(l: Layout)
    ensures SameEntries(Gathered(l, l.base, []), IndexFor(l, []))
  {
  }

  // ----- within the reader's limits -----

  /** The number of entries of the largest cue in a file of `n` packets. */
  function LargestCue(interval: nat, n: nat): nat {
    if 0 < interval < n then interval else n
  }

  ghost predicate PayloadsFit(packets: seq<Packet>) {
    forall i :: 0 <= i < |packets| ==> 32 + |packets[i].payload| <= MAX_BLOCK_BODY_BYTES
  }

  predicate CuesFit(interval: nat, n: nat) {
    20 + ENTRY_LEN * LargestCue(interval, n) <= MAX_BLOCK_BODY_BYTES
  }

  predicate IndexFits(n: nat) {
    4 + ENTRY_LEN * n <= MAX_BLOCK_BODY_BYTES
  }

  /** The writer's limits are looser than the reader's; these are the reader's, on a whole run. */
  ghost predicate WithinReadLimits(interval: nat, packets: seq<Packet>) {
    PayloadsFit(packets) && CuesFit(interval, |packets|) && IndexFits(|packets|)
  }

  /** Packets take room in the file, so a file of 64-bit size has a 64-bit number of them. */
  lemma {:induction false} PacketsTakeRoom(l: Layout, pos: nat, blocks: seq<Block>)
    ensures |PacketsFrom(l, pos, blocks)| <= |Serialize(l, blocks)|
    decreases |blocks|
  {
    hide Layout.BytesOf;
    if blocks != [] {
      BytesOfBlock(l, blocks[0]);
      PacketsTakeRoom(l, pos + |l.BytesOf(blocks[0])|, blocks[1..]);
    }
  }

  lemma {:induction false} OffsetsBelow(l: Layout, pos: nat, blocks: seq<Block>)
    ensures forall i :: 0 <= i < |PacketsFrom(l, pos, blocks)| ==>
              PacketsFrom(l, pos, blocks)[i].offset < pos + |Serialize(l, blocks)|
    decreases |blocks|
  {
    hide Layout.BytesOf;
    if blocks != [] {
      var next := pos + |l.BytesOf(blocks[0])|;
      var ps, rest := PacketsFrom(l, pos, blocks), PacketsFrom(l, next, blocks[1..]);
      OffsetsBelow(l, next, blocks[1..]);
      assert next > pos by {
        BytesOfBlock(l, blocks[0]);
      }
      forall i | 0 <= i < |ps|
        ensures ps[i].offset < pos + |Serialize(l, blocks)|
      {
        if blocks[0].PacketOf? && i == 0 {
          assert ps[i].offset == pos;
        } else {
          assert ps[i] == rest[if blocks[0].PacketOf? then i - 1 else i];
        }
      }
    }
  }

  lemma BytesOfBlock(l: Layout, b: Block)
    ensures |l.BytesOf(b)| >= BLOCK_HEADER_LEN
  {
  }

  lemma IndexReadable(l: Layout, blocks: seq<Block>)
    requires l.base + |Serialize(l, blocks)| < U64_LIMIT
    requires Numbered(Packets(PacketsFrom(l, l.base, blocks)))
    requires |IndexFor(l, blocks)| < U64_LIMIT
    ensures ReadableEntries(IndexFor(l, blocks))
  {
    hide Serialize, PacketsFrom;
    OffsetsBelow(l, l.base, blocks);
    var ps := PacketsFrom(l, l.base, blocks);
    forall i | 0 <= i < |ps|
      ensures IndexFor(l, blocks)[i].packetNumber == i
    {
      assert Packets(ps)[i].header.sequence == i;
    }
  }

  lemma CueReadable(l: Layout, blocks: seq<Block>, cueId: nat, first: nat)
    requires l.base + |Serialize(l, blocks)| < U64_LIMIT
    requires Numbered(Packets(PacketsFrom(l, l.base, blocks)))
    requires cueId <= |IndexFor(l, blocks)| < U64_LIMIT && first <= |IndexFor(l, blocks)|
    requires 20 + ENTRY_LEN * (|IndexFor(l, blocks)| - first) <= MAX_BLOCK_BODY_BYTES
    ensures Readable(CueFor(l, blocks, cueId, first))
  {
    hide Serialize, PacketsFrom, IndexFor;
    IndexReadable(l, blocks);
    var entries := IndexFor(l, blocks);
    assert ReadableEntries(entries[first..]);
  }

  lemma CuesAtMostPackets(interval: nat, n: nat)
    ensures CuesWritten(interval, n) <= n
  {
    if interval > 0 {
      Arithmetic.ScaledLe(1, interval, n / interval);
    }
  }

  lemma AfterPacketReadable(l: Layout, before: seq<Block>, p: Packet, n: nat, total: nat)
    requires 0 < n <= total < U64_LIMIT && |IndexFor(l, before)| == n - 1
    requires AllReadable(before) && Readable(PacketOf(p))
    requires Numbered(Packets(PacketsFrom(l, l.base, before + [PacketOf(p)])))
    requires 20 + ENTRY_LEN * LargestCue(l.interval, total) <= MAX_BLOCK_BODY_BYTES
    requires l.base + |Serialize(l, AfterPacket(l, before, p, n))| < U64_LIMIT
    ensures AllReadable(AfterPacket(l, before, p, n))
  {
    hide Serialize, PacketsFrom, IndexFor, Readable, CueFor, CuesWritten, PendingStart, Layout.BytesOf, Numbered;
    if l.interval > 0 && n % l.interval == 0 {
      var blocks := before + [PacketOf(p)];
      var first, cueId := PendingStart(l.interval, n - 1), CuesWritten(l.interval, n - 1);
      SerializeAppend(l, blocks, CueFor(l, blocks, cueId, first));
      IndexAppend(l, before, PacketOf(p));
      PendingStep(l.interval, n);
      CuesAtMostPackets(l.interval, n - 1);
      CueReadable(l, blocks, cueId, first);
    }
  }

  lemma FrontFits(packets: seq<Packet>, n: nat)
    requires |packets| == n + 1 && Numbered(packets) && PayloadsFit(packets)
    ensures Numbered(packets[..n]) && PayloadsFit(packets[..n])
    ensures packets[n].header.sequence == n && packets[n].header.payloadLen == |packets[n].payload|
    ensures 32 + |packets[n].payload| <= MAX_BLOCK_BODY_BYTES
  {
  }

  lemma {:induction false} RunReadable(l: Layout, packets: seq<Packet>, total: nat)
    requires Numbered(packets) && |packets| <= total < U64_LIMIT && PayloadsFit(packets)
    requires 20 + ENTRY_LEN * LargestCue(l.interval, total) <= MAX_BLOCK_BODY_BYTES
    requires l.base + |Serialize(l, BlocksFor(l, packets))| < U64_LIMIT
    ensures AllReadable(BlocksFor(l, packets))
    decreases |packets|
  {
    hide Serialize, PacketsFrom, IndexFor, Readable, AfterPacket, LargestCue, Numbered, PayloadsFit;
    if packets != [] {
      var n := |packets|;
      FrontFits(packets, n - 1);
      var p := packets[n - 1];
      var before := BlocksFor(l, packets[..n - 1]);
      BlocksHoldPackets(l, packets[..n - 1]);
      IndexAppend(l, before, PacketOf(p));
      assert packets[..n - 1] + [p] == packets;
      assert Packets(PacketAt(l.base + |Serialize(l, before)|, PacketOf(p))) == [p];
      assert BlocksFor(l, packets) == AfterPacket(l, before, p, n);
      ShorterBefore(l, before, p, n);
      RunReadable(l, packets[..n - 1], total);
      PacketReadable(p);
      AfterPacketReadable(l, before, p, n, total);
    }
  }

  lemma ShorterBefore(l: Layout, before: seq<Block>, p: Packet, n: nat)
    ensures |Serialize(l, before)| <= |Serialize(l, AfterPacket(l, before, p, n))|
  {
    hide Serialize, Layout.BytesOf, CueFor, CuesWritten, PendingStart;
    var blocks := before + [PacketOf(p)];
    SerializeAppend(l, before, PacketOf(p));
    if n > 0 {
      SerializeAppend(l, blocks, CueFor(l, blocks, CuesWritten(l.interval, n - 1), PendingStart(l.interval, n - 1)));
    }
  }

  lemma PacketReadable(p: Packet)
    requires p.header.payloadLen == |p.payload| && p.header.sequence < U64_LIMIT
    requires 32 + |p.payload| <= MAX_BLOCK_BODY_BYTES
    ensures Readable(PacketOf(p))
  {
  }

  // ----- a finished file -----

  /** A run that the writer accepts, up to its limits. */
  ghost predicate WrittenRun(cs: Checksums, header: FileHeader, tracks: seq<TrackDescriptor>, packets: seq<Packet>) {
    && EncodeFileHeader(header).Success?
    && EncodableTracks(tracks)
    && header.trackCount == |tracks|
    && Numbered(packets)
    && |FinishedFile(cs, header, tracks, packets)| < U64_LIMIT
  }

  /** Everything a round trip of a whole run needs: what the writer accepts and the reader admits. */
  ghost predicate RoundTrips(cs: Checksums, header: FileHeader, tracks: seq<TrackDescriptor>, packets: seq<Packet>) {
    WrittenRun(cs, header, tracks, packets) && WithinReadLimits(header.cueInterval, packets)
  }

  function FileOf(cs: Checksums, header: FileHeader, data: seq<byte>): File {
    File(cs, header.UsesCrc32c(), data)
  }

  /** The last cue and the index do not change what packets and entries there are. */
  lemma ClosedHoldsPackets(l: Layout, packets: seq<Packet>)
    ensures Packets(PacketsFrom(l, l.base, ClosedBlocks(l, packets))) == packets
    ensures PacketsFrom(l, l.base, FinishedBlocks(l, packets)) == PacketsFrom(l, l.base, ClosedBlocks(l, packets))
    ensures |PacketsFrom(l, l.base, ClosedBlocks(l, packets))| == |packets|
  {
    hide Serialize, PacketsFrom, BlocksFor, CuesWritten, PendingStart;
    var blocks := BlocksFor(l, packets);
    var n := |packets|;
    BlocksHoldPackets(l, packets);
    PacketsAppend(l, l.base, blocks, CueFor(l, blocks, CuesWritten(l.interval, n), PendingStart(l.interval, n)));
    var closed := ClosedBlocks(l, packets);
    PacketsAppend(l, l.base, closed, IndexOf(IndexFor(l, closed)));
  }

  lemma ClosedReadable(l: Layout, packets: seq<Packet>)
    requires Numbered(packets) && PayloadsFit(packets) && CuesFit(l.interval, |packets|)
    requires l.base + |Serialize(l, ClosedBlocks(l, packets))| < U64_LIMIT
    ensures AllReadable(ClosedBlocks(l, packets))
  {
    hide Serialize, PacketsFrom, BlocksFor, IndexFor, Readable, CueFor, CuesWritten, PendingStart;
    var blocks := BlocksFor(l, packets);
    var n := |packets|;
    var first, cueId := PendingStart(l.interval, n), CuesWritten(l.interval, n);
    BlocksHoldPackets(l, packets);
    PacketsTakeRoom(l, l.base, blocks);
    SerializeAppend(l, blocks, CueFor(l, blocks, cueId, first));
    RunReadable(l, packets, n);
    if first < n {
      CuesAtMostPackets(l.interval, n);
      PendingAtMost(l.interval, n);
      CueReadable(l, blocks, cueId, first);
    }
  }

  lemma PendingAtMost(interval: nat, n: nat)
    ensures n - PendingStart(interval, n) <= LargestCue(interval, n)
  {
    if interval > 0 {
      assert n % interval < interval;
      assert n / interval * interval >= 0 by {
        Arithmetic.ScaledLe(0, n / interval, interval);
      }
    }
  }

  lemma FinishedReadable(l: Layout, packets: seq<Packet>)
    requires Numbered(packets) && WithinReadLimits(l.interval, packets)
    requires l.base + |Serialize(l, FinishedBlocks(l, packets))| < U64_LIMIT
    ensures AllReadable(FinishedBlocks(l, packets))
  {
    hide Serialize, PacketsFrom, ClosedBlocks, IndexFor, Readable, ReadableEntries, Layout.BytesOf;
    var closed := ClosedBlocks(l, packets);
    SerializeAppend(l, closed, IndexOf(IndexFor(l, closed)));
    ClosedReadable(l, packets);
    ClosedHoldsPackets(l, packets);
    IndexLength(l, closed);
    IndexReadable(l, closed);
    IndexBlockReadable(IndexFor(l, closed));
  }

  lemma IndexLength(l: Layout, blocks: seq<Block>)
    ensures |IndexFor(l, blocks)| == |PacketsFrom(l, l.base, blocks)|
  {
  }

  lemma IndexBlockReadable(es: seq<IndexEntry>)
    requires ReadableEntries(es) && 4 + ENTRY_LEN * |es| <= MAX_BLOCK_BODY_BYTES
    ensures Readable(IndexOf(es))
  {
  }

  lemma EndOfFileEnds(f: File, pos: nat)
    requires pos >= |f.data|
    ensures Ends(f, pos)
  {
  }

  /** Where the parts of a finished file lie. */
  lemma FinishedParts(cs: Checksums, header: FileHeader, tracks: seq<TrackDescriptor>, packets: seq<Packet>)
    requires EncodeFileHeader(header).Success?
    ensures var data, l := FinishedFile(cs, header, tracks, packets), LayoutOf(cs, header, tracks);
            && HasAt(data, 0, EncodeFileHeader(header).value)
            && HasAt(data, |EncodeFileHeader(header).value|, TracksBytes(tracks))
            && HasAt(data, l.base, Serialize(l, FinishedBlocks(l, packets)))
            && |data| == l.base + |Serialize(l, FinishedBlocks(l, packets))|
            && l.base == |EncodeFileHeader(header).value| + |TracksBytes(tracks)|
  {
    hide Serialize, FinishedBlocks, EncodeFileHeader, TracksBytes;
    var data, l := FinishedFile(cs, header, tracks, packets), LayoutOf(cs, header, tracks);
    assert HasAt(data, 0, data);
    HasParts(data, 0, Preamble(header, tracks), Serialize(l, FinishedBlocks(l, packets)));
    HasParts(data, 0, EncodeFileHeader(header).value, TracksBytes(tracks));
  }

  lemma Encodables(cs: Checksums, header: FileHeader, tracks: seq<TrackDescriptor>, packets: seq<Packet>)
    requires RoundTrips(cs, header, tracks, packets)
    ensures EncodeFileHeader(header).Success?
    ensures forall i :: 0 <= i < |tracks| ==> EncodeTrack(tracks[i]).Success?
  {
  }

  lemma HeadersReadBack(cs: Checksums, header: FileHeader, tracks: seq<TrackDescriptor>, packets: seq<Packet>)
    requires RoundTrips(cs, header, tracks, packets)
    ensures var data, base := FinishedFile(cs, header, tracks, packets), LayoutOf(cs, header, tracks).base;
            && FileHeaderAt(data, 0) == (Success(header), |EncodeFileHeader(header).value|)
            && TracksAt(data, |EncodeFileHeader(header).value|, |tracks|) == (Success(tracks), base)
  {
    hide *;
    Encodables(cs, header, tracks, packets);
    var data := FinishedFile(cs, header, tracks, packets);
    FinishedParts(cs, header, tracks, packets);
    FileHeaderRoundTrip(header, data, 0);
    TracksRoundTrip(tracks, data, |EncodeFileHeader(header).value|);
  }

  lemma FinishedReadBack(cs: Checksums, header: FileHeader, tracks: seq<TrackDescriptor>, packets: seq<Packet>)
    requires RoundTrips(cs, header, tracks, packets)
    ensures var data, l := FinishedFile(cs, header, tracks, packets), LayoutOf(cs, header, tracks);
            && ReadPackets(FileOf(cs, header, data), l.base)
               == Success(PacketsFrom(l, l.base, ClosedBlocks(l, packets)))
            && Packets(PacketsFrom(l, l.base, ClosedBlocks(l, packets))) == packets
  {
    hide Serialize, PacketsFrom, FinishedBlocks, ClosedBlocks, EncodeFileHeader, TracksBytes, ReadPackets,
         WithinReadLimits, Packets;
    var data, l := FinishedFile(cs, header, tracks, packets), LayoutOf(cs, header, tracks);
    FinishedParts(cs, header, tracks, packets);
    FinishedReadable(l, packets);
    EndOfFileEnds(FileOf(cs, header, data), |data|);
    PacketsReadBack(FileOf(cs, header, data), l, l.base, FinishedBlocks(l, packets));
    ClosedHoldsPackets(l, packets);
  }

  /**
   Whole-file round trip: opening a finished file gives back its header and tracks, and reading to
   the end gives back its packets in order, each numbered by its position.
   */
  lemma WholeFileRoundTrip(cs: Checksums, header: FileHeader, tracks: seq<TrackDescriptor>, packets: seq<Packet>)
    requires RoundTrips(cs, header, tracks, packets)
    ensures var data, base := FinishedFile(cs, header, tracks, packets), LayoutOf(cs, header, tracks).base;
            && FileHeaderAt(data, 0) == (Success(header), |EncodeFileHeader(header).value|)
            && TracksAt(data, |EncodeFileHeader(header).value|, |tracks|) == (Success(tracks), base)
            && ReadPackets(FileOf(cs, header, data), base).Success?
            && Packets(ReadPackets(FileOf(cs, header, data), base).value) == packets
  {
    hide *;
    HeadersReadBack(cs, header, tracks, packets);
    FinishedReadBack(cs, header, tracks, packets);
  }

  /** `rebuild_index` on a finished file gives exactly the writer's entries. */
  lemma RebuiltIndex(cs: Checksums, header: FileHeader, tracks: seq<TrackDescriptor>, packets: seq<Packet>)
    requires RoundTrips(cs, header, tracks, packets)
    ensures var data, l := FinishedFile(cs, header, tracks, packets), LayoutOf(cs, header, tracks);
            ScanIndex(FileOf(cs, header, data), l.base, []) == Success(IndexFor(l, ClosedBlocks(l, packets)))
  {
    hide Serialize, PacketsFrom, ClosedBlocks, EncodeFileHeader, TracksBytes, WithinReadLimits, IndexFor,
         Layout.BytesOf, NextBlockAt, Readable;
    var data, l := FinishedFile(cs, header, tracks, packets), LayoutOf(cs, header, tracks);
    var closed := ClosedBlocks(l, packets);
    var index := IndexOf(IndexFor(l, closed));
    var f := FileOf(cs, header, data);
    FinishedParts(cs, header, tracks, packets);
    FinishedReadable(l, packets);
    SerializeAppend(l, closed, index);
    HasParts(data, l.base, Serialize(l, closed), l.BytesOf(index));
    ClosedCuesCopy(l, packets);
    CuesCopyPrefix(l, closed, |closed|);
    assert closed[..|closed|] == closed;
    assert AllReadable(closed) && Readable(index) by {
      var all := FinishedBlocks(l, packets);
      assert forall i :: 0 <= i < |closed| ==> closed[i] == all[i];
      assert all[|closed|] == index;
    }
    ScanGathers(f, l, l.base, closed, []);
    BlockIsRead(f, l, index, l.base + |Serialize(l, closed)|);
  }

  /**
   Each entry of that index stands where its packet's block does, and reading from there gives
   that packet and all later ones.
   */
  lemma EntryPointsAtPacket(cs: Checksums, header: FileHeader, tracks: seq<TrackDescriptor>, packets: seq<Packet>,
                            i: nat)
    requires RoundTrips(cs, header, tracks, packets) && i < |packets|
    ensures var data, l := FinishedFile(cs, header, tracks, packets), LayoutOf(cs, header, tracks);
            var index := IndexFor(l, ClosedBlocks(l, packets));
            && |index| == |packets|
            && index[i] == EntryOf(index[i].fileOffset, packets[i])
            && ReadPackets(FileOf(cs, header, data), index[i].fileOffset).Success?
            && Packets(ReadPackets(FileOf(cs, header, data), index[i].fileOffset).value) == packets[i..]
  {
    hide Serialize, PacketsFrom, FinishedBlocks, ClosedBlocks, EncodeFileHeader, TracksBytes, ReadPackets,
         WithinReadLimits;
    var data, l := FinishedFile(cs, header, tracks, packets), LayoutOf(cs, header, tracks);
    FinishedParts(cs, header, tracks, packets);
    FinishedReadable(l, packets);
    EndOfFileEnds(FileOf(cs, header, data), |data|);
    ClosedHoldsPackets(l, packets);
    var ps := PacketsFrom(l, l.base, ClosedBlocks(l, packets));
    ReadFromEntry(FileOf(cs, header, data), l, l.base, FinishedBlocks(l, packets), i);
    assert Packets(ps)[i] == packets[i] && Packets(ps[i..]) == packets[i..];
  }

  /** Cut `stub` bytes behind the blocks `present`, `data` rebuilds to an index with exactly their entries. */
  ghost predicate CutScans(cs: Checksums, header: FileHeader, l: Layout, data: seq<byte>, present: seq<Block>,
                           stub: nat)
  {
    var cut := l.base + |Serialize(l, present)| + stub;
    && cut <= |data|
    && var r := ScanIndex(FileOf(cs, header, data[..cut]), l.base, []);
       r.Success? && SameEntries(r.value, IndexFor(l, present))
  }

  /**
   A finished file cut `stub` bytes behind its first `k` blocks: the scan reads those blocks and
   stands before what is left of the next one.
   */
  lemma CutPresent(cs: Checksums, header: FileHeader, tracks: seq<TrackDescriptor>, packets: seq<Packet>,
                   k: nat, stub: nat)
    requires WrittenRun(cs, header, tracks, packets) && PayloadsFit(packets) && CuesFit(header.cueInterval, |packets|)
    requires var l := LayoutOf(cs, header, tracks);
      k <= |ClosedBlocks(l, packets)| && stub <= |l.BytesOf(FinishedBlocks(l, packets)[k])|
    ensures var l := LayoutOf(cs, header, tracks);
      var data, present := FinishedFile(cs, header, tracks, packets), ClosedBlocks(l, packets)[..k];
      var pos := l.base + |Serialize(l, present)|;
      var f := FileOf(cs, header, if pos + stub <= |data| then data[..pos + stub] else data);
      && |f.data| == pos + stub <= |data|
      && HasAt(f.data, pos, l.BytesOf(FinishedBlocks(l, packets)[k])[..stub])
      && ScanIndex(f, l.base, []) == ScanIndex(f, pos, Gathered(l, l.base, present))
  {
    hide Serialize, PacketsFrom, ClosedBlocks, EncodeFileHeader, TracksBytes, PayloadsFit, CuesFit, IndexFor,
         Layout.BytesOf, NextBlockAt, Readable, Gathered;
    var data, l := FinishedFile(cs, header, tracks, packets), LayoutOf(cs, header, tracks);
    var all := FinishedBlocks(l, packets);
    var present := all[..k];
    assert present == ClosedBlocks(l, packets)[..k];
    FinishedParts(cs, header, tracks, packets);
    SerializeAppend(l, ClosedBlocks(l, packets), IndexOf(IndexFor(l, ClosedBlocks(l, packets))));
    ClosedReadable(l, packets);
    SplitBlocks(l, all, k);
    HasParts(data, l.base, Serialize(l, present), Serialize(l, all[k..]));
    var cut := l.base + |Serialize(l, present)|;
    StartsWithBlock(l, all[k..], stub);
    CutKeeps(data, l.base, Serialize(l, present), cut + stub);
    StubKeeps(data, cut, Serialize(l, all[k..]), stub);
    ClosedCuesCopy(l, packets);
    ScanGathers(FileOf(cs, header, data[..cut + stub]), l, l.base, present, []);
    assert [] + Gathered(l, l.base, present) == Gathered(l, l.base, present);
  }

  /**
   A file cut before its index, at a block boundary or inside a block's header: the rebuilt index
   has, as a set, exactly the entries of the packets that are still there.
   */
  lemma CutFileIndex(cs: Checksums, header: FileHeader, tracks: seq<TrackDescriptor>, packets: seq<Packet>,
                     k: nat, stub: nat)
    requires WrittenRun(cs, header, tracks, packets) && PayloadsFit(packets) && CuesFit(header.cueInterval, |packets|)
    requires k <= |ClosedBlocks(LayoutOf(cs, header, tracks), packets)| && stub < BLOCK_HEADER_LEN
    ensures var l := LayoutOf(cs, header, tracks);
            CutScans(cs, header, l, FinishedFile(cs, header, tracks, packets), ClosedBlocks(l, packets)[..k], stub)
  {
    hide Serialize, PacketsFrom, ClosedBlocks, FinishedFile, EncodeFileHeader, TracksBytes, PayloadsFit, CuesFit,
         IndexFor, Layout.BytesOf, NextBlockAt, Readable, SameEntries, Gathered, Ends, ScanIndex, HasAt;
    var data, l := FinishedFile(cs, header, tracks, packets), LayoutOf(cs, header, tracks);
    var b := FinishedBlocks(l, packets)[k];
    BytesOfBlock(l, b);
    CutPresent(cs, header, tracks, packets, k, stub);
    var present := ClosedBlocks(l, packets)[..k];
    var pos := l.base + |Serialize(l, present)|;
    var f := FileOf(cs, header, data[..pos + stub]);
    CutInHeaderEnds(f, l, b, pos, stub);
    ClosedCuesCopy(l, packets);
    CuesCopyPrefix(l, ClosedBlocks(l, packets), k);
    GatheredIsIndex(l, present);
    EndsScan(f, pos, Gathered(l, l.base, present));
  }

  lemma EndsScan(f: File, pos: nat, acc: seq<IndexEntry>)
    requires Ends(f, pos)
    ensures ScanIndex(f, pos, acc) == Success(acc)
  {
    hide NextBlockAt;
  }

  lemma CutKeeps(data: seq<byte>, pos: nat, bytes: seq<byte>, cut: nat)
    requires HasAt(data, pos, bytes) && pos + |bytes| <= cut <= |data|
    ensures HasAt(data[..cut], pos, bytes)
  {
    assert data[..cut][pos..pos + |bytes|] == data[pos..pos + |bytes|];
  }

  lemma StubKeeps(data: seq<byte>, pos: nat, bytes: seq<byte>, stub: nat)
    requires HasAt(data, pos, bytes) && stub <= |bytes|
    ensures HasAt(data[..pos + stub], pos, bytes[..stub])
  {
    assert data[..pos + stub][pos..pos + stub] == data[pos..pos + |bytes|][..stub];
  }

  lemma {:induction false} SplitBlocks(l: Layout, blocks: seq<Block>, k: nat)
    requires k <= |blocks|
    ensures Serialize(l, blocks) == Serialize(l, blocks[..k]) + Serialize(l, blocks[k..])
    decreases k
  {
    hide Layout.BytesOf;
    if k == 0 {
      assert blocks[0..] == blocks;
    } else {
      SplitBlocks(l, blocks[1..], k - 1);
      assert blocks[..k][1..] == blocks[1..][..k - 1] && blocks[1..][k - 1..] == blocks[k..];
    }
  }

  lemma StartsWithBlock(l: Layout, blocks: seq<Block>, stub: nat)
    requires blocks != [] && stub <= |l.BytesOf(blocks[0])|
    ensures |l.BytesOf(blocks[0])| <= |Serialize(l, blocks)|
    ensures Serialize(l, blocks)[..stub] == l.BytesOf(blocks[0])[..stub]
  {
  }

  // ----- the reader's limits are real limits -----

  /** No packet that is ever read has a body over the reader's limit. */
  lemma {:induction false} NextBlockBounded(f: File, pos: nat)
    requires NextBlockAt(f, pos).0.Success? && NextBlockAt(f, pos).0.value.Some?
    requires NextBlockAt(f, pos).0.value.value.block.PacketOf?
    ensures 32 + |NextBlockAt(f, pos).0.value.value.block.packet.payload| <= MAX_BLOCK_BODY_BYTES
    decreases if pos < |f.data| then |f.data| - pos else 0
  {
    hide DecodeCue, DecodeIndex, BlockHeaderAt, Probe, U16At, U64At, FindNextBlockMagic, HasAt;
    var r := BlockHeaderAt(f.cs, f.useCrc32c, f.data, pos);
    if r.0.Failure? {
      var i := FindNextBlockMagic(Probe(f, pos), 1).value;
      assert NextBlockAt(f, pos) == NextBlockAt(f, pos + i);
      NextBlockBounded(f, pos + i);
    }
  }

  lemma {:induction false} NextPacketBounded(f: File, pos: nat)
    requires NextPacketAt(f, pos).0.Success? && NextPacketAt(f, pos).0.value.Some?
    ensures 32 + |NextPacketAt(f, pos).0.value.value.packet.payload| <= MAX_BLOCK_BODY_BYTES
    decreases if pos < |f.data| then |f.data| - pos else 0
  {
    hide NextBlockAt;
    var (r, next) := NextBlockAt(f, pos);
    if r.value.value.block.PacketOf? {
      NextBlockBounded(f, pos);
    } else {
      NextPacketBounded(f, next);
    }
  }

  lemma {:induction false} ReadPacketsBounded(f: File, pos: nat)
    requires ReadPackets(f, pos).Success?
    ensures forall i :: 0 <= i < |ReadPackets(f, pos).value| ==>
              32 + |ReadPackets(f, pos).value[i].packet.payload| <= MAX_BLOCK_BODY_BYTES
    decreases if pos < |f.data| then |f.data| - pos else 0
  {
    hide NextPacketAt;
    var (r, next) := NextPacketAt(f, pos);
    if r.value.Some? {
      NextPacketBounded(f, pos);
      NextPacketInFile(f, pos);
      ReadPacketsBounded(f, next);
    }
  }

  /**
   The writer accepts payloads up to four times what the reader admits. A packet with one of those
   never comes back, in whatever way its file is read.
   */
  lemma OversizePacketLost(f: File, pos: nat, p: Packet)
    requires MAX_BLOCK_BODY_BYTES - 32 < |p.payload| <= MAX_PACKET_PAYLOAD_BYTES
    ensures EncodeBlock(f.cs, f.useCrc32c, PacketOf(p)).Success?
    ensures ReadPackets(f, pos).Success? ==> p !in Packets(ReadPackets(f, pos).value)
  {
    hide ReadPackets;
    if ReadPackets(f, pos).Success? && p in Packets(ReadPackets(f, pos).value) {
      var ps := ReadPackets(f, pos).value;
      var i :| 0 <= i < |ps| && Packets(ps)[i] == p;
      ReadPacketsBounded(f, pos);
    }
  }

  /**
   Hence the reader's limit on payloads is exact: among the runs whose cues and index the reader
   admits, reading a finished file to its end gives back the run's packets if and only if each
   payload with its 32 bytes of fields fits the limit on a block's body.
   */
  lemma PayloadLimitIsExact(cs: Checksums, header: FileHeader, tracks: seq<TrackDescriptor>, packets: seq<Packet>)
    requires WrittenRun(cs, header, tracks, packets)
    requires CuesFit(header.cueInterval, |packets|) && IndexFits(|packets|)
    requires forall i :: 0 <= i < |packets| ==> |packets[i].payload| <= MAX_PACKET_PAYLOAD_BYTES
    ensures var f := FileOf(cs, header, FinishedFile(cs, header, tracks, packets));
            var read := ReadPackets(f, LayoutOf(cs, header, tracks).base);
            read.Success? && Packets(read.value) == packets <==> PayloadsFit(packets)
  {
    assert EncodeFileHeader(header).Success?;
    hide ReadPackets, WrittenRun, FinishedFile, LayoutOf, CuesFit, IndexFits, EncodeBlock;
    if PayloadsFit(packets) {
      WholeFileRoundTrip(cs, header, tracks, packets);
    } else {
      var i :| 0 <= i < |packets| && 32 + |packets[i].payload| > MAX_BLOCK_BODY_BYTES;
      var f := FileOf(cs, header, FinishedFile(cs, header, tracks, packets));
      OversizePacketLost(f, LayoutOf(cs, header, tracks).base, packets[i]);
    }
  }
}
