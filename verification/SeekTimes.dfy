/** Where a seek lands in milliseconds, in terms of the packets' own fields. */
module SeekTimes {
  import opened Bytes
  import opened ContainerFormat
  import opened MuxSpec
  import opened DemuxTheorems
  import opened PlaybackSpec
  import opened SeekTheorems

  /** Ticks in a thousand seconds; a timescale of zero counts as one. */
  function Rate(timescale: u32): nat {
    if timescale == 0 then 1 else timescale
  }

  /** The target is the tick of the given time, rounded down; products beyond 64 bits count as the greatest there is. */
  lemma TargetMeans(ms: u64, timescale: u32)
    ensures ms as int * Rate(timescale) < U64_LIMIT ==>
      var t: int := TargetPts(ms, timescale);
      1000 * t <= ms as int * Rate(timescale) < 1000 * (t + 1)
    ensures ms as int * Rate(timescale) >= U64_LIMIT ==> TargetPts(ms, timescale) == 18_446_744_073_709_551
  {
  }

  /** So a packet is in time exactly if its own time is. */
  lemma InTime(ms: u64, timescale: u32, pts: u64)
    requires ms as int * Rate(timescale) < U64_LIMIT
    ensures pts <= TargetPts(ms, timescale) <==> pts as int * 1000 <= ms as int * Rate(timescale)
  {
    TargetMeans(ms, timescale);
  }

  predicate NotAfter(p: Packet, time: int) {
    p.header.pts as int * 1000 <= time
  }

  predicate Keyframe(p: Packet, track: u16) {
    p.header.trackId == track && p.header.flags % 2 == 1
  }

  /** Packet `k` is the last in time among those that qualify, and in the file the last of its pts. */
  ghost predicate LastInTime(packets: seq<Packet>, k: nat, qualifies: Packet -> bool, time: int) {
    && k < |packets| && qualifies(packets[k]) && NotAfter(packets[k], time)
    && forall j :: 0 <= j < |packets| && qualifies(packets[j]) && NotAfter(packets[j], time) ==>
         packets[j].header.pts < packets[k].header.pts || (packets[j].header.pts == packets[k].header.pts && j <= k)
  }

  /**
   A successful seek to `ms` lands on the last keyframe of the video track whose time is not after
   `ms`; only without any such keyframe, and only for the intra codec, on the last packet in time. It
   then plays on from there if that packet has exactly the target tick, and otherwise up to a packet
   whose next tick is after `ms`.
   */
  lemma SeekLandsInTime<Ref(!new), Frame, Chunk>(
      env: Env<Ref, Frame, Chunk>, cs: Checksums, header: FileHeader, tracks: seq<TrackDescriptor>,
      packets: seq<Packet>, index: seq<IndexEntry>, s: State<Ref>, ms: u64) returns (k: nat, start: nat)
    requires SeekTheorems.Playing(env, cs, header, tracks, packets, index)
    requires SeekMs(env, s, index, ms).1.Success?
    requires ms as int * Rate(s.position.timescale) < U64_LIMIT
    ensures SeekOutcome(env, packets, index, TargetPts(ms, s.position.timescale), k, start)
    ensures var time := ms as int * Rate(s.position.timescale);
      var track := env.video.value.trackId;
      && (|| LastInTime(packets, k, p => Keyframe(p, track), time)
          || (&& env.video.value.codecId != 3
              && (forall j :: 0 <= j < |packets| ==> !(Keyframe(packets[j], track) && NotAfter(packets[j], time)))
              && LastInTime(packets, k, p => true, time)))
      && (start > k ==> packets[start - 1].header.pts as int * 1000 + 1000 > time)
      && (start == k ==> packets[k].header.pts as int * 1000 + 1000 > time)
  {
    hide SeekMs, RoundTrips, TargetPts, OnlyVideo, Outcomes, IndexFor, ClosedBlocks, ShownBefore, StopsAtShown,
         Ahead, StandsAlone, ReadPackets, FinishedFile, LayoutOf;
    k, start := SeekRecovers(env, cs, header, tracks, packets, index, s, ms);
    var target := TargetPts(ms, s.position.timescale);
    TargetMeans(ms, s.position.timescale);
    forall j: nat | j < |packets|
      ensures index[j].pts == packets[j].header.pts && index[j].flags == packets[j].header.flags
      ensures index[j].trackId == packets[j].header.trackId
      ensures packets[j].header.pts <= target <==> NotAfter(packets[j], ms as int * Rate(s.position.timescale))
    {
      IndexMatches(cs, header, tracks, packets, j);
      InTime(ms, s.position.timescale, packets[j].header.pts);
    }
  }
}
