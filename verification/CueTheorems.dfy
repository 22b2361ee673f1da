/** Where a run's packets and cues stand among the blocks of its file, and what each cue repeats of the index. */
module CueTheorems {
  import opened ContainerFormat
  import opened MuxSpec
  import opened DemuxSpec

  ghost predicate PacketStands(blocks: seq<Block>, at: int, packet: Packet) {
    0 <= at < |blocks| && blocks[at] == PacketOf(packet)
  }

  /** At `at` stands cue `id`, which repeats the entries of the packets `from` to `to`. */
  ghost predicate CueStands(blocks: seq<Block>, es: seq<IndexEntry>, at: int, id: int, from: int, to: int) {
    && 0 <= id && 0 <= from <= to <= |es| && 0 <= at < |blocks|
    && blocks[at] == CueOf(CueBlock(id, from, es[from..to]))
  }

  /** Packet `k` comes behind `k / interval` cues, and cue `j` right behind packet `(j + 1) * interval - 1`. */
  function PacketPlace(interval: nat, k: int): int
    requires interval > 0
  {
    k + k / interval
  }

  function CuePlace(interval: nat, j: int): int {
    j * interval + j + interval
  }

  ghost predicate IntervalCue(interval: nat, blocks: seq<Block>, es: seq<IndexEntry>, j: int) {
    CueStands(blocks, es, CuePlace(interval, j), j, j * interval, j * interval + interval)
  }

  ghost predicate PacketsInOrder(interval: nat, packets: seq<Packet>, blocks: seq<Block>)
    requires interval > 0
  {
    forall k :: 0 <= k < |packets| ==> PacketStands(blocks, PacketPlace(interval, k), packets[k])
  }

  ghost predicate CuesInOrder(interval: nat, cues: nat, blocks: seq<Block>, es: seq<IndexEntry>) {
    forall j :: 0 <= j < cues ==> IntervalCue(interval, blocks, es, j)
  }

  ghost predicate InOrder(interval: nat, packets: seq<Packet>, blocks: seq<Block>, es: seq<IndexEntry>)
    requires interval > 0
  {
    && |es| == |packets| && |blocks| == PacketPlace(interval, |packets|)
    && PacketsInOrder(interval, packets, blocks)
    && CuesInOrder(interval, CuesWritten(interval, |packets|), blocks, es)
  }

  lemma CueStandsLonger(blocks: seq<Block>, es: seq<IndexEntry>, more: seq<Block>, es': seq<IndexEntry>,
                        at: int, id: int, from: int, to: int)
    requires blocks <= more && es <= es' && CueStands(blocks, es, at, id, from, to)
    ensures CueStands(more, es', at, id, from, to)
  {
    assert es[from..to] == es'[from..to];
  }

  lemma StayInOrder(interval: nat, packets: seq<Packet>, cues: nat, blocks: seq<Block>, es: seq<IndexEntry>,
                    more: seq<Block>, es': seq<IndexEntry>)
    requires interval > 0 && blocks <= more && es <= es'
    ensures PacketsInOrder(interval, packets, blocks) ==> PacketsInOrder(interval, packets, more)
    ensures CuesInOrder(interval, cues, blocks, es) ==> CuesInOrder(interval, cues, more, es')
  {
    hide PacketPlace, CuePlace, CueStands;
    if CuesInOrder(interval, cues, blocks, es) {
      forall j | 0 <= j < cues
        ensures IntervalCue(interval, more, es', j)
      {
        assert IntervalCue(interval, blocks, es, j);
        CueStandsLonger(blocks, es, more, es', CuePlace(interval, j), j, j * interval, j * interval + interval);
      }
    }
  }

  /** One more packet, without the cue it may complete. */
  lemma PacketAdded(interval: nat, packets: seq<Packet>, blocks: seq<Block>, packet: Packet)
    requires interval > 0 && PacketsInOrder(interval, packets, blocks) && |blocks| == PacketPlace(interval, |packets|)
    ensures PacketsInOrder(interval, packets + [packet], blocks + [PacketOf(packet)])
  {
    hide PacketPlace;
  }

  lemma CueCounted(interval: nat, cues: nat, blocks: seq<Block>, es: seq<IndexEntry>)
    requires CuesInOrder(interval, cues, blocks, es) && IntervalCue(interval, blocks, es, cues)
    ensures CuesInOrder(interval, cues + 1, blocks, es)
  {
    hide IntervalCue;
  }

  lemma PlaceStep(interval: nat, n: nat)
    requires interval > 0 && n > 0
    ensures PacketPlace(interval, n)
            == PacketPlace(interval, n - 1) + 1 + CuesWritten(interval, n) - CuesWritten(interval, n - 1)
  {
  }

  lemma {:induction false} RunInOrder(l: Layout, packets: seq<Packet>)
    requires l.interval > 0
    ensures InOrder(l.interval, packets, BlocksFor(l, packets), IndexFor(l, BlocksFor(l, packets)))
    decreases |packets|
  {
    hide PacketsInOrder, CuesInOrder, IntervalCue, PacketPlace, CuesWritten, PendingStart, CueFor, IndexFor;
    var i, n := l.interval, |packets|;
    if packets == [] {
      NothingInOrder(l);
    } else {
      var init, packet := packets[..n - 1], packets[n - 1];
      var before := BlocksFor(l, init);
      var blocks := before + [PacketOf(packet)];
      RunInOrder(l, init);
      var entry := PacketEntry(l, before, packet);
      PacketAdded(i, init, before, packet);
      StayInOrder(i, init, CuesWritten(i, n - 1), before, IndexFor(l, before), blocks, IndexFor(l, blocks));
      assert init + [packet] == packets;
      PendingStep(i, n);
      PlaceStep(i, n);
      if n % i == 0 {
        var cue := CueAdded(l, blocks, n);
        StayInOrder(i, packets, CuesWritten(i, n - 1), blocks, IndexFor(l, blocks), blocks + [cue],
                    IndexFor(l, blocks + [cue]));
        CueCounted(i, CuesWritten(i, n - 1), blocks + [cue], IndexFor(l, blocks + [cue]));
      }
    }
  }

  lemma NothingInOrder(l: Layout)
    requires l.interval > 0
    ensures InOrder(l.interval, [], [], IndexFor(l, []))
  {
  }

  lemma NoEntries(l: Layout)
    ensures IndexFor(l, []) == []
  {
  }

  lemma PacketEntry(l: Layout, before: seq<Block>, packet: Packet) returns (entry: IndexEntry)
    ensures IndexFor(l, before + [PacketOf(packet)]) == IndexFor(l, before) + [entry]
  {
    hide Serialize, PacketsFrom;
    IndexAppend(l, before, PacketOf(packet));
    entry := EntryOf(l.base + |Serialize(l, before)|, packet);
    assert Entries(PacketAt(l.base + |Serialize(l, before)|, PacketOf(packet))) == [entry];
  }

  /** The cue that a full interval writes. */
  lemma CueAdded(l: Layout, blocks: seq<Block>, n: nat) returns (cue: Block)
    requires l.interval > 0 && n > 0 && n % l.interval == 0 && |IndexFor(l, blocks)| == n
    requires |blocks| == PacketPlace(l.interval, n) - 1
    ensures cue == CueFor(l, blocks, CuesWritten(l.interval, n - 1), PendingStart(l.interval, n - 1))
    ensures IndexFor(l, blocks + [cue]) == IndexFor(l, blocks)
    ensures IntervalCue(l.interval, blocks + [cue], IndexFor(l, blocks + [cue]), CuesWritten(l.interval, n - 1))
  {
    hide Serialize, PacketsFrom;
    var i, q := l.interval, n / l.interval;
    PendingStep(i, n);
    assert n == i * q;
    assert (q - 1) * i + i == n;
    cue := CueFor(l, blocks, CuesWritten(i, n - 1), PendingStart(i, n - 1));
    IndexAppend(l, blocks, cue);
  }

  ghost predicate FinishedForm(interval: nat, packets: seq<Packet>, blocks: seq<Block>, es: seq<IndexEntry>)
    requires interval > 0
  {
    var n := |packets|;
    var cues, rest := CuesWritten(interval, n), n % interval;
    && |es| == n
    && |blocks| == PacketPlace(interval, n) + (if rest == 0 then 0 else 1) + 1
    && PacketsInOrder(interval, packets, blocks)
    && CuesInOrder(interval, cues, blocks, es)
    && (rest != 0 ==> CueStands(blocks, es, PacketPlace(interval, n), cues, n - rest, n))
    && blocks != [] && blocks[|blocks| - 1] == IndexOf(es)
  }

  /**
   The blocks of a finished run with intervals: packets and cues in order, then a cue for the packets of
   an interval that is not full, and the index.
   */
  lemma FinishedInOrder(l: Layout, packets: seq<Packet>)
    requires l.interval > 0
    ensures FinishedForm(l.interval, packets, FinishedBlocks(l, packets), IndexFor(l, FinishedBlocks(l, packets)))
  {
    hide Serialize, IndexFor, BlocksFor, CueStands, PacketsInOrder, CuesInOrder, PendingStart, ClosedBlocks;
    RunInOrder(l, packets);
    var i, n, blocks := l.interval, |packets|, BlocksFor(l, packets);
    var closed := ClosedBlocks(l, packets);
    Closes(l, packets);
    var all := IndexAdded(l, closed);
    StayInOrder(i, packets, n / i, blocks, IndexFor(l, blocks), all, IndexFor(l, all));
    if n % i != 0 {
      CueStandsLonger(closed, IndexFor(l, closed), all, IndexFor(l, all), n + n / i, n / i, n - n % i, n);
    }
  }

  lemma IndexAdded(l: Layout, closed: seq<Block>) returns (all: seq<Block>)
    ensures all == closed + [IndexOf(IndexFor(l, closed))]
    ensures IndexFor(l, all) == IndexFor(l, closed)
  {
    hide Serialize, PacketsFrom;
    all := closed + [IndexOf(IndexFor(l, closed))];
    IndexAppend(l, closed, IndexOf(IndexFor(l, closed)));
  }

  lemma Closes(l: Layout, packets: seq<Packet>)
    requires |IndexFor(l, BlocksFor(l, packets))| == |packets|
    ensures var i, n, blocks, closed := l.interval, |packets|, BlocksFor(l, packets), ClosedBlocks(l, packets);
      && IndexFor(l, closed) == IndexFor(l, blocks)
      && blocks <= closed
      && (i > 0 && n % i == 0 ==> closed == blocks)
      && (i > 0 && n % i != 0 ==>
            |closed| == |blocks| + 1 && CueStands(closed, IndexFor(l, closed), |blocks|, n / i, n - n % i, n))
      && (i == 0 && n > 0 ==> |closed| == |blocks| + 1 && CueStands(closed, IndexFor(l, closed), |blocks|, 0, 0, n))
      && (n == 0 ==> closed == blocks)
  {
    hide Serialize, PacketsFrom, BlocksFor;
    var n, blocks := |packets|, BlocksFor(l, packets);
    var pending := PendingStart(l.interval, n);
    if pending < n {
      var cue := CueFor(l, blocks, CuesWritten(l.interval, n), pending);
      IndexAppend(l, blocks, cue);
      assert IndexFor(l, blocks + [cue]) == IndexFor(l, blocks);
    }
  }

  /** Without an interval the only cue is the last one, for all packets. */
  lemma {:induction false} RunWithoutCues(l: Layout, packets: seq<Packet>)
    requires l.interval == 0
    ensures |BlocksFor(l, packets)| == |packets| == |IndexFor(l, BlocksFor(l, packets))|
    ensures forall k :: 0 <= k < |packets| ==> BlocksFor(l, packets)[k] == PacketOf(packets[k])
    decreases |packets|
  {
    hide PacketsFrom, IndexFor;
    if packets == [] {
      NoEntries(l);
    } else {
      var n := |packets| - 1;
      RunWithoutCues(l, packets[..n]);
      var entry := PacketEntry(l, BlocksFor(l, packets[..n]), packets[n]);
    }
  }

  lemma FinishedWithoutIntervals(l: Layout, packets: seq<Packet>)
    requires l.interval == 0
    ensures var n, blocks := |packets|, FinishedBlocks(l, packets);
      var es := IndexFor(l, blocks);
      && |es| == n && |blocks| == n + (if n == 0 then 0 else 1) + 1
      && (forall k :: 0 <= k < n ==> blocks[k] == PacketOf(packets[k]))
      && (n > 0 ==> CueStands(blocks, es, n, 0, 0, n))
      && blocks != [] && blocks[|blocks| - 1] == IndexOf(es)
  {
    hide Serialize, IndexFor, BlocksFor, CueStands, ClosedBlocks;
    RunWithoutCues(l, packets);
    Closes(l, packets);
    var closed := ClosedBlocks(l, packets);
    var all := IndexAdded(l, closed);
    if packets != [] {
      CueStandsLonger(closed, IndexFor(l, closed), all, IndexFor(l, all), |packets|, 0, 0, |packets|);
    }
  }
}
