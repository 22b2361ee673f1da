/**
 No packet of a primary track is lost or reordered between the file, the stashes and the
 decoders, over every mix of the two per-stream calls.
 */
module PlaybackTheorems {
  import opened Wrappers
  import opened Bytes
  import opened ContainerFormat
  import opened ContainerIo
  import opened DemuxSpec
  import opened DemuxTheorems
  import opened PlaybackSpec

  // ----- stash conservation -----

  /** The packets the demuxer still has to give, up to the end or the first error. */
  function Upcoming(f: File, pos: nat): seq<DemuxedPacket>
    decreases if pos < |f.data| then |f.data| - pos else 0
  {
    match NextPacketAt(f, pos)
    case (Success(Some(p)), next) =>
      NextPacketInFile(f, pos);
      [p] + Upcoming(f, next)
    case _ => []
  }

  function IfOn(p: DemuxedPacket, track: Option<TrackInfo>): seq<DemuxedPacket> {
    if OnTrack(p, track) then [p] else []
  }

  function OfTrack(ps: seq<DemuxedPacket>, track: Option<TrackInfo>): seq<DemuxedPacket> {
    if ps == [] then [] else IfOn(ps[0], track) + OfTrack(ps[1..], track)
  }

  lemma {:induction false} OfTrackAppend(a: seq<DemuxedPacket>, b: seq<DemuxedPacket>, track: Option<TrackInfo>)
    ensures OfTrack(a + b, track) == OfTrack(a, track) + OfTrack(b, track)
  {
    hide IfOn;
    if a == [] {
      assert a + b == b;
    } else {
      assert (a + b)[0] == a[0] && (a + b)[1..] == a[1..] + b;
      OfTrackAppend(a[1..], b, track);
      assert IfOn(a[0], track) + (OfTrack(a[1..], track) + OfTrack(b, track))
          == OfTrack(a, track) + OfTrack(b, track);
    }
  }

  lemma OfTrackOne(p: DemuxedPacket, track: Option<TrackInfo>)
    ensures OfTrack([p], track) == IfOn(p, track)
  {
    assert [p][1..] == [];
  }

  /** Taken, stashed and still unread: together the packets of the track since `origin`, in order. */
  ghost predicate Complete(f: File, track: Option<TrackInfo>, taken: seq<DemuxedPacket>, stash: seq<DemuxedPacket>,
                           pos: nat, origin: nat)
  {
    OfTrack(taken, track) + stash + OfTrack(Upcoming(f, pos), track) == OfTrack(Upcoming(f, origin), track)
  }

  lemma Advance(f: File, track: Option<TrackInfo>, pos: nat, p: DemuxedPacket, next: nat)
    requires NextPacketAt(f, pos) == (Success(Some(p)), next)
    ensures OfTrack(Upcoming(f, pos), track)
            == IfOn(p, track) + OfTrack(Upcoming(f, next), track)
  {
    hide NextPacketAt, IfOn;
    OfTrackAppend([p], Upcoming(f, next), track);
    OfTrackOne(p, track);
  }

  /** A packet read from the file and handed to a decoder. */
  lemma TakenFromFile(f: File, track: Option<TrackInfo>, taken: seq<DemuxedPacket>, stash: seq<DemuxedPacket>,
                      pos: nat, origin: nat, p: DemuxedPacket, next: nat)
    requires Complete(f, track, taken, stash, pos, origin)
    requires NextPacketAt(f, pos) == (Success(Some(p)), next)
    requires OnTrack(p, track) ==> stash == []
    ensures Complete(f, track, taken + [p], stash, next, origin)
  {
    hide NextPacketAt, OnTrack, Upcoming, OfTrack;
    Advance(f, track, pos, p, next);
    OfTrackAppend(taken, [p], track);
    OfTrackOne(p, track);
  }

  /** A packet read from the file and stashed, or passed over because it is on no primary track. */
  lemma StashedFromFile(f: File, track: Option<TrackInfo>, taken: seq<DemuxedPacket>, stash: seq<DemuxedPacket>,
                        pos: nat, origin: nat, p: DemuxedPacket, next: nat)
    requires Complete(f, track, taken, stash, pos, origin)
    requires NextPacketAt(f, pos) == (Success(Some(p)), next)
    ensures Complete(f, track, taken, if OnTrack(p, track) then stash + [p] else stash, next, origin)
  {
    hide NextPacketAt, OnTrack, Upcoming, OfTrack;
    Advance(f, track, pos, p, next);
  }

  /** A packet taken from the front of a stash, whosever it is. */
  lemma TakenFromStash(f: File, track: Option<TrackInfo>, taken: seq<DemuxedPacket>, stash: seq<DemuxedPacket>,
                       pos: nat, origin: nat, p: DemuxedPacket)
    requires Complete(f, track, taken, stash, pos, origin)
    requires OnTrack(p, track) ==> stash != [] && stash[0] == p
    ensures Complete(f, track, taken + [p], if OnTrack(p, track) then stash[1..] else stash, pos, origin)
  {
    hide OnTrack, Upcoming, OfTrack;
    OfTrackAppend(taken, [p], track);
    OfTrackOne(p, track);
    if OnTrack(p, track) {
      assert [p] + stash[1..] == stash;
    }
  }

  /** A stash holds packets of its own track only. */
  ghost predicate StashOf(stash: seq<DemuxedPacket>, own: Option<TrackInfo>, other: Option<TrackInfo>) {
    forall i :: 0 <= i < |stash| ==> OnTrack(stash[i], own) && !OnTrack(stash[i], other)
  }

  /** What holds between two calls: the stashes never both fill, stay bounded, and lose nothing. */
  ghost predicate Conserved<Ref, Frame, Chunk>(env: Env<Ref, Frame, Chunk>, s: State<Ref>) {
    && (s.videoStash == [] || s.audioStash == [])
    && StashTotal(s) <= MAX_STASH_PACKETS
    && StashOf(s.videoStash, env.video, env.audio)
    && StashOf(s.audioStash, env.audio, env.video)
    && Complete(env.file, env.video, s.taken, s.videoStash, s.pos, s.origin)
    && Complete(env.file, env.audio, s.taken, s.audioStash, s.pos, s.origin)
  }

  /** The errors after which packets may be missing: a failed read, and a full stash. */
  ghost predicate Lossless<T>(r: Result<T, PlaybackError>) {
    r.Failure? ==> !r.error.Io? && !r.error.DecodeBackpressure?
  }

  lemma {:induction false} NoneLeavesNothing(f: File, pos: nat)
    requires NextPacketAt(f, pos).0 == Success(None)
    ensures Upcoming(f, pos) == [] == Upcoming(f, NextPacketAt(f, pos).1)
    decreases if pos < |f.data| then |f.data| - pos else 0
  {
    hide NextBlockAt;
    var (r, next) := NextBlockAt(f, pos);
    NoneAtEnd(f, pos);
    if r.value.Some? {
      assert NextPacketAt(f, pos) == NextPacketAt(f, next);
      NoneLeavesNothing(f, next);
    } else {
      EndOfFileEnds(f, next);
    }
  }

  /** Having no further block means that the cursor is behind the last byte. */
  lemma {:induction false} NoneAtEnd(f: File, pos: nat)
    ensures NextBlockAt(f, pos).0 == Success(None) ==> NextBlockAt(f, pos).1 >= |f.data|
    decreases if pos < |f.data| then |f.data| - pos else 0
  {
    hide BlockAfterHeader, BlockHeaderAt, Probe, FindNextBlockMagic, HasAt;
    var r := BlockHeaderAt(f.cs, f.useCrc32c, f.data, pos).0;
    if r.Failure? && r.error != UnexpectedEof && |Probe(f, pos)| >= |BLOCK_MAGIC| {
      var next := FindNextBlockMagic(Probe(f, pos), 1);
      if next.Some? {
        NoneAtEnd(f, pos + next.value);
      }
    }
  }

  lemma {:induction false} ReadVideoConserves<Ref, Frame, Chunk>(env: Env<Ref, Frame, Chunk>, s: State<Ref>, n: nat)
    requires env.video.Some? && Conserved(env, s) && s.videoStash == []
    ensures var (s', r) := ReadVideo(env, s, n);
            Lossless(r) ==> Conserved(env, s')
    decreases n
  {
    hide NextPacketAt, OnTrack, Complete, DecodeVideo;
    if n > 0 {
      var (next, pos) := NextPacketAt(env.file, s.pos);
      if next.Success? && next.value.Some? {
        var p := next.value.value;
        var moved := s.(pos := pos);
        if OnTrack(p, env.video) {
          TakenFromFile(env.file, env.video, s.taken, s.videoStash, s.pos, s.origin, p, pos);
          if OnTrack(p, env.audio) {
            OnlyOneTrack(env, s, p);
          }
          TakenFromFile(env.file, env.audio, s.taken, s.audioStash, s.pos, s.origin, p, pos);
          DecodeVideoTakes(env, moved, p, env.video.value.timescale);
        } else {
          StashedFromFile(env.file, env.video, s.taken, s.videoStash, s.pos, s.origin, p, pos);
          StashedFromFile(env.file, env.audio, s.taken, s.audioStash, s.pos, s.origin, p, pos);
          if !OnTrack(p, env.audio) {
            ReadVideoConserves(env, moved, n - 1);
          } else if StashTotal(s) < MAX_STASH_PACKETS {
            ReadVideoConserves(env, moved.(audioStash := s.audioStash + [p]), n - 1);
          }
        }
      } else if next.Success? {
        NothingLeft(env, s);
      }
    }
  }

  /** With both primaries on one track id nothing is ever stashed. */
  lemma OnlyOneTrack<Ref, Frame, Chunk>(env: Env<Ref, Frame, Chunk>, s: State<Ref>, p: DemuxedPacket)
    requires Conserved(env, s)
    requires OnTrack(p, env.video) && OnTrack(p, env.audio)
    ensures s.videoStash == [] && s.audioStash == []
  {
    if s.videoStash != [] {
      StashHead(s.videoStash, env.video, env.audio);
    }
    if s.audioStash != [] {
      StashHead(s.audioStash, env.audio, env.video);
    }
  }

  lemma StashHead(stash: seq<DemuxedPacket>, own: Option<TrackInfo>, other: Option<TrackInfo>)
    requires StashOf(stash, own, other) && stash != []
    ensures OnTrack(stash[0], own) && !OnTrack(stash[0], other)
  {
  }

  lemma NothingLeft<Ref, Frame, Chunk>(env: Env<Ref, Frame, Chunk>, s: State<Ref>)
    requires Conserved(env, s) && NextPacketAt(env.file, s.pos).0 == Success(None)
    ensures Conserved(env, s.(pos := NextPacketAt(env.file, s.pos).1))
  {
    hide NextPacketAt, OnTrack, OfTrack, Upcoming;
    NoneLeavesNothing(env.file, s.pos);
  }

  lemma DecodeVideoTakes<Ref, Frame, Chunk>(env: Env<Ref, Frame, Chunk>, s: State<Ref>, p: DemuxedPacket,
                                            timescale: u32)
    ensures var s' := DecodeVideo(env, s, p, timescale).0;
            && s'.taken == s.taken + [p]
            && s'.pos == s.pos && s'.origin == s.origin
            && s'.videoStash == s.videoStash && s'.audioStash == s.audioStash
  {
  }

  lemma DecodeAudioTakes<Ref, Frame, Chunk>(env: Env<Ref, Frame, Chunk>, s: State<Ref>, p: DemuxedPacket,
                                            timescale: u32)
    ensures var s' := DecodeAudio(env, s, p, timescale).0;
            && s'.taken == s.taken + [p]
            && s'.pos == s.pos && s'.origin == s.origin
            && s'.videoStash == s.videoStash && s'.audioStash == s.audioStash
  {
  }

  lemma {:induction false} ReadAudioConserves<Ref, Frame, Chunk>(env: Env<Ref, Frame, Chunk>, s: State<Ref>, n: nat)
    requires env.audio.Some? && Conserved(env, s) && s.audioStash == []
    ensures var (s', r) := ReadAudio(env, s, n);
            Lossless(r) ==> Conserved(env, s')
    decreases n
  {
    hide NextPacketAt, OnTrack, Complete, DecodeAudio;
    if n > 0 {
      var (next, pos) := NextPacketAt(env.file, s.pos);
      if next.Success? && next.value.Some? {
        var p := next.value.value;
        var moved := s.(pos := pos);
        if OnTrack(p, env.audio) {
          TakenFromFile(env.file, env.audio, s.taken, s.audioStash, s.pos, s.origin, p, pos);
          if OnTrack(p, env.video) {
            OnlyOneTrack(env, s, p);
          }
          TakenFromFile(env.file, env.video, s.taken, s.videoStash, s.pos, s.origin, p, pos);
          DecodeAudioTakes(env, moved, p, env.audio.value.timescale);
        } else {
          StashedFromFile(env.file, env.video, s.taken, s.videoStash, s.pos, s.origin, p, pos);
          StashedFromFile(env.file, env.audio, s.taken, s.audioStash, s.pos, s.origin, p, pos);
          if !OnTrack(p, env.video) {
            ReadAudioConserves(env, moved, n - 1);
          } else if StashTotal(s) < MAX_STASH_PACKETS {
            ReadAudioConserves(env, moved.(videoStash := s.videoStash + [p]), n - 1);
          }
        }
      } else if next.Success? {
        NothingLeft(env, s);
      }
    }
  }

  /** `decode_next_video_frame` and `decode_next_audio_chunk` keep everything accounted for. */
  lemma CallConserves<Ref, Frame, Chunk>(env: Env<Ref, Frame, Chunk>, s: State<Ref>)
    requires Conserved(env, s)
    ensures Lossless(NextVideo(env, s).1) ==> Conserved(env, NextVideo(env, s).0)
    ensures Lossless(NextAudio(env, s).1) ==> Conserved(env, NextAudio(env, s).0)
  {
    hide OnTrack, Complete, DecodeVideo, DecodeAudio, ReadVideo, ReadAudio;
    if env.video.Some? {
      if s.videoStash != [] {
        var p := s.videoStash[0];
        TakenFromStash(env.file, env.video, s.taken, s.videoStash, s.pos, s.origin, p);
        TakenFromStash(env.file, env.audio, s.taken, s.audioStash, s.pos, s.origin, p);
        DecodeVideoTakes(env, s.(videoStash := s.videoStash[1..]), p, env.video.value.timescale);
      } else {
        ReadVideoConserves(env, s, MAX_SKIP);
      }
    }
    if env.audio.Some? {
      if s.audioStash != [] {
        var p := s.audioStash[0];
        TakenFromStash(env.file, env.video, s.taken, s.videoStash, s.pos, s.origin, p);
        TakenFromStash(env.file, env.audio, s.taken, s.audioStash, s.pos, s.origin, p);
        DecodeAudioTakes(env, s.(audioStash := s.audioStash[1..]), p, env.audio.value.timescale);
      } else {
        ReadAudioConserves(env, s, MAX_SKIP);
      }
    }
  }

  datatype Call = VideoCall | AudioCall

  ghost function AfterCall<Ref, Frame, Chunk>(env: Env<Ref, Frame, Chunk>, s: State<Ref>, call: Call): State<Ref> {
    match call
    case VideoCall => NextVideo(env, s).0
    case AudioCall => NextAudio(env, s).0
  }

  ghost predicate CallLossless<Ref, Frame, Chunk>(env: Env<Ref, Frame, Chunk>, s: State<Ref>, call: Call) {
    match call
    case VideoCall => Lossless(NextVideo(env, s).1)
    case AudioCall => Lossless(NextAudio(env, s).1)
  }

  ghost function AfterCalls<Ref, Frame, Chunk>(env: Env<Ref, Frame, Chunk>, s: State<Ref>, calls: seq<Call>): State<Ref>
    decreases |calls|
  {
    if calls == [] then s else AfterCalls(env, AfterCall(env, s, calls[0]), calls[1..])
  }

  ghost predicate CallsLossless<Ref, Frame, Chunk>(env: Env<Ref, Frame, Chunk>, s: State<Ref>, calls: seq<Call>)
    decreases |calls|
  {
    calls != [] ==> CallLossless(env, s, calls[0]) && CallsLossless(env, AfterCall(env, s, calls[0]), calls[1..])
  }

  /** A session just opened, stopped or repositioned has everything ahead of it. */
  lemma RestartConserved<Ref, Frame, Chunk>(env: Env<Ref, Frame, Chunk>, s: State<Ref>, pos: nat)
    ensures Conserved(env, Restarted(env, s, pos))
  {
    hide Upcoming;
  }

  /**
   Stash conservation over any mix of calls: at most one stash is non-empty, their total is at
   most 64, and for each primary track the packets taken, stashed and unread are, in order, the
   packets the file held when reading last started over.
   */
  lemma {:induction false} RunConserves<Ref, Frame, Chunk>(env: Env<Ref, Frame, Chunk>, s: State<Ref>, calls: seq<Call>)
    requires Conserved(env, s) && CallsLossless(env, s, calls)
    ensures Conserved(env, AfterCalls(env, s, calls))
    decreases |calls|
  {
    hide Conserved, NextVideo, NextAudio, Lossless;
    if calls != [] {
      CallConserves(env, s);
      RunConserves(env, AfterCall(env, s, calls[0]), calls[1..]);
    }
  }

  // ----- a full stash -----

  /**
   Reading for a packet of track `own` with `room` packets left in the stashes and `n` in the skip
   budget: the packet of track `other`, if any, that finds the stashes full before one of `own`.
   */
  function Overflow(ps: seq<DemuxedPacket>, own: Option<TrackInfo>, other: Option<TrackInfo>, room: nat, n: nat)
    : (j: Option<nat>)
    ensures j.Some? ==> j.value < |ps|
    decreases n
  {
    if n == 0 || ps == [] || OnTrack(ps[0], own) then None
    else if OnTrack(ps[0], other) && room == 0 then Some(0)
    else
      match Overflow(ps[1..], own, other, if OnTrack(ps[0], other) then room - 1 else room, n - 1)
      case None => None
      case Some(j) => Some(j + 1)
  }

  /** The packet behind exactly `room` others of its track, with none of `own` before it, and within the budget. */
  ghost predicate OverflowsAt(ps: seq<DemuxedPacket>, own: Option<TrackInfo>, other: Option<TrackInfo>, room: nat,
                              n: nat, j: nat)
  {
    && j < |ps| && j < n
    && (forall i :: 0 <= i <= j ==> !OnTrack(ps[i], own))
    && OnTrack(ps[j], other)
    && |OfTrack(ps[..j], other)| == room
  }

  lemma {:induction false} OverflowMeans(ps: seq<DemuxedPacket>, own: Option<TrackInfo>, other: Option<TrackInfo>,
                                         room: nat, n: nat, j: nat)
    ensures Overflow(ps, own, other, room, n) == Some(j) <==> OverflowsAt(ps, own, other, room, n, j)
    decreases n
  {
    hide OnTrack;
    if n > 0 && ps != [] && j < |ps| {
      if j == 0 {
        assert ps[..0] == [];
      } else {
        assert ps[..j][0] == ps[0] && ps[..j][1..] == ps[1..][..j - 1];
        if !(OnTrack(ps[0], other) && room == 0) {
          OverflowMeans(ps[1..], own, other, if OnTrack(ps[0], other) then room - 1 else room, n - 1, j - 1);
        }
        assert (forall i :: 0 <= i <= j ==> !OnTrack(ps[i], own)) <==>
          !OnTrack(ps[0], own) && forall i :: 0 <= i <= j - 1 ==> !OnTrack(ps[1..][i], own) by {
          assert forall i :: 0 <= i <= j - 1 ==> ps[1..][i] == ps[i + 1];
          assert forall i :: 0 < i <= j ==> ps[i] == ps[1..][i - 1];
        }
      }
    }
  }

  /** The packets of `track` before position `j` went to the stash, and the one at `j` is in no place any more. */
  ghost predicate Dropped(ahead: seq<DemuxedPacket>, track: Option<TrackInfo>, j: nat, stash: seq<DemuxedPacket>,
                          stash': seq<DemuxedPacket>, left: seq<DemuxedPacket>)
  {
    j < |ahead| && stash' == stash + OfTrack(ahead[..j], track) && left == ahead[j + 1..]
  }

  lemma DroppedHere(p: DemuxedPacket, rest: seq<DemuxedPacket>, track: Option<TrackInfo>, stash: seq<DemuxedPacket>)
    ensures Dropped([p] + rest, track, 0, stash, stash, rest)
  {
    assert ([p] + rest)[..0] == [] && ([p] + rest)[1..] == rest && stash + [] == stash;
  }

  lemma StashedOne(p: DemuxedPacket, track: Option<TrackInfo>, stash: seq<DemuxedPacket>)
    ensures stash + IfOn(p, track) == if OnTrack(p, track) then stash + [p] else stash
  {
  }

  lemma DroppedLater(p: DemuxedPacket, rest: seq<DemuxedPacket>, track: Option<TrackInfo>, j: nat,
                     stash: seq<DemuxedPacket>, stash': seq<DemuxedPacket>, left: seq<DemuxedPacket>)
    requires Dropped(rest, track, j, stash + IfOn(p, track), stash', left)
    ensures Dropped([p] + rest, track, j + 1, stash, stash', left)
  {
    hide IfOn;
    assert ([p] + rest)[..j + 1] == [p] + rest[..j];
    assert ([p] + rest)[j + 2..] == rest[j + 1..];
    OfTrackAppend([p], rest[..j], track);
    OfTrackOne(p, track);
  }

  lemma {:induction false} ReadVideoOverflows<Ref, Frame, Chunk>(env: Env<Ref, Frame, Chunk>, s: State<Ref>, n: nat)
    requires env.video.Some? && StashTotal(s) <= MAX_STASH_PACKETS
    ensures var ahead := Upcoming(env.file, s.pos);
            var j := Overflow(ahead, env.video, env.audio, MAX_STASH_PACKETS - StashTotal(s), n);
            var (s', r) := ReadVideo(env, s, n);
            && (r == Failure(DecodeBackpressure(MAX_STASH_PACKETS)) && s'.taken == s.taken <==> j.Some?)
            && (j.Some? ==>
                  && s' == s.(pos := s'.pos, audioStash := s'.audioStash)
                  && Dropped(ahead, env.audio, j.value, s.audioStash, s'.audioStash, Upcoming(env.file, s'.pos)))
    decreases n
  {
    hide NextPacketAt, OnTrack, Dropped, IfOn;
    var (next, pos) := NextPacketAt(env.file, s.pos);
    if n > 0 && next.Success? && next.value.Some? {
      var p := next.value.value;
      var moved := s.(pos := pos);
      var rest := Upcoming(env.file, pos);
      assert Upcoming(env.file, s.pos) == [p] + rest && ([p] + rest)[1..] == rest;
      if OnTrack(p, env.video) {
        DecodeVideoTakes(env, moved, p, env.video.value.timescale);
      } else if OnTrack(p, env.audio) && StashTotal(s) >= MAX_STASH_PACKETS {
        DroppedHere(p, rest, env.audio, s.audioStash);
      } else {
        StashedOne(p, env.audio, s.audioStash);
        var more := if OnTrack(p, env.audio) then moved.(audioStash := s.audioStash + [p]) else moved;
        ReadVideoOverflows(env, more, n - 1);
        var j := Overflow(rest, env.video, env.audio, MAX_STASH_PACKETS - StashTotal(more), n - 1);
        if j.Some? {
          var s' := ReadVideo(env, more, n - 1).0;
          DroppedLater(p, rest, env.audio, j.value, s.audioStash, s'.audioStash, Upcoming(env.file, s'.pos));
        }
      }
    }
  }

  lemma {:induction false} ReadAudioOverflows<Ref, Frame, Chunk>(env: Env<Ref, Frame, Chunk>, s: State<Ref>, n: nat)
    requires env.audio.Some? && StashTotal(s) <= MAX_STASH_PACKETS
    ensures var ahead := Upcoming(env.file, s.pos);
            var j := Overflow(ahead, env.audio, env.video, MAX_STASH_PACKETS - StashTotal(s), n);
            var (s', r) := ReadAudio(env, s, n);
            && (r == Failure(DecodeBackpressure(MAX_STASH_PACKETS)) && s'.taken == s.taken <==> j.Some?)
            && (j.Some? ==>
                  && s' == s.(pos := s'.pos, videoStash := s'.videoStash)
                  && Dropped(ahead, env.video, j.value, s.videoStash, s'.videoStash, Upcoming(env.file, s'.pos)))
    decreases n
  {
    hide NextPacketAt, OnTrack, Dropped, IfOn;
    var (next, pos) := NextPacketAt(env.file, s.pos);
    if n > 0 && next.Success? && next.value.Some? {
      var p := next.value.value;
      var moved := s.(pos := pos);
      var rest := Upcoming(env.file, pos);
      assert Upcoming(env.file, s.pos) == [p] + rest && ([p] + rest)[1..] == rest;
      if OnTrack(p, env.audio) {
        DecodeAudioTakes(env, moved, p, env.audio.value.timescale);
      } else if OnTrack(p, env.video) && StashTotal(s) >= MAX_STASH_PACKETS {
        DroppedHere(p, rest, env.video, s.videoStash);
      } else {
        StashedOne(p, env.video, s.videoStash);
        var more := if OnTrack(p, env.video) then moved.(videoStash := s.videoStash + [p]) else moved;
        ReadAudioOverflows(env, more, n - 1);
        var j := Overflow(rest, env.audio, env.video, MAX_STASH_PACKETS - StashTotal(more), n - 1);
        if j.Some? {
          var s' := ReadAudio(env, more, n - 1).0;
          DroppedLater(p, rest, env.video, j.value, s.videoStash, s'.videoStash, Upcoming(env.file, s'.pos));
        }
      }
    }
  }

  /** The packet at `j` finds full stashes, with `stashed` packets in them before and the whole skip budget. */
  ghost predicate FullAt(ps: seq<DemuxedPacket>, own: Option<TrackInfo>, other: Option<TrackInfo>, stashed: nat, j: nat)
  {
    stashed <= MAX_STASH_PACKETS && OverflowsAt(ps, own, other, MAX_STASH_PACKETS - stashed, MAX_SKIP, j)
  }

  /** Everything of the track is there, in order, but for `p` between the stash and what is unread. */
  ghost predicate MissingOne(f: File, track: Option<TrackInfo>, taken: seq<DemuxedPacket>, stash: seq<DemuxedPacket>,
                             p: DemuxedPacket, pos: nat, origin: nat)
  {
    OfTrack(taken, track) + stash + [p] + OfTrack(Upcoming(f, pos), track) == OfTrack(Upcoming(f, origin), track)
  }

  lemma {:induction false} NoneOfTrack(ps: seq<DemuxedPacket>, track: Option<TrackInfo>)
    requires forall i :: 0 <= i < |ps| ==> !OnTrack(ps[i], track)
    ensures OfTrack(ps, track) == []
  {
    hide OnTrack;
    if ps != [] {
      NoneOfTrack(ps[1..], track);
    }
  }

  lemma OnePacketMissing(f: File, own: Option<TrackInfo>, other: Option<TrackInfo>, taken: seq<DemuxedPacket>,
                         ownStash: seq<DemuxedPacket>, stash: seq<DemuxedPacket>, pos: nat, origin: nat,
                         stash': seq<DemuxedPacket>, pos': nat, room: nat, n: nat, j: nat)
    requires Complete(f, own, taken, ownStash, pos, origin) && Complete(f, other, taken, stash, pos, origin)
    requires OverflowsAt(Upcoming(f, pos), own, other, room, n, j)
    requires Dropped(Upcoming(f, pos), other, j, stash, stash', Upcoming(f, pos'))
    ensures |stash'| == |stash| + room
    ensures Complete(f, own, taken, ownStash, pos', origin)
    ensures MissingOne(f, other, taken, stash', Upcoming(f, pos)[j], pos', origin)
  {
    hide OnTrack, Upcoming, OfTrack;
    var ahead := Upcoming(f, pos);
    assert ahead == ahead[..j + 1] + ahead[j + 1..] && ahead[..j + 1] == ahead[..j] + [ahead[j]];
    NoneOfTrack(ahead[..j + 1], own);
    OfTrackAppend(ahead[..j + 1], ahead[j + 1..], own);
    OfTrackAppend(ahead[..j + 1], ahead[j + 1..], other);
    OfTrackAppend(ahead[..j], [ahead[j]], other);
    OfTrackOne(ahead[j], other);
    assert IfOn(ahead[j], other) == [ahead[j]];
  }

  /** `decode_next_video_frame`: when it meets full stashes, and what that costs. */
  lemma VideoCallOverflows<Ref, Frame, Chunk>(env: Env<Ref, Frame, Chunk>, s: State<Ref>)
    requires Conserved(env, s)
    ensures var (s', r) := NextVideo(env, s);
            var ahead := Upcoming(env.file, s.pos);
            var full := r == Failure(DecodeBackpressure(MAX_STASH_PACKETS)) && s'.taken == s.taken;
            && (full <==>
                  && env.video.Some? && s.videoStash == []
                  && exists j: nat :: FullAt(ahead, env.video, env.audio, StashTotal(s), j))
            && (full ==>
                  && s'.videoStash == [] && |s'.audioStash| == MAX_STASH_PACKETS
                  && Complete(env.file, env.video, s'.taken, s'.videoStash, s'.pos, s'.origin)
                  && exists j: nat ::
                       && FullAt(ahead, env.video, env.audio, StashTotal(s), j)
                       && MissingOne(env.file, env.audio, s'.taken, s'.audioStash, ahead[j], s'.pos, s'.origin))
  {
    hide OnTrack, Complete, Upcoming, Overflow, OverflowsAt, Dropped, MissingOne, StashOf, ReadVideo;
    var ahead, room := Upcoming(env.file, s.pos), MAX_STASH_PACKETS - StashTotal(s);
    if env.video.Some? && s.videoStash != [] {
      DecodeVideoTakes(env, s.(videoStash := s.videoStash[1..]), s.videoStash[0], env.video.value.timescale);
    } else if env.video.Some? {
      ReadVideoOverflows(env, s, MAX_SKIP);
      forall j: nat
        ensures Overflow(ahead, env.video, env.audio, room, MAX_SKIP) == Some(j)
          <==> FullAt(ahead, env.video, env.audio, StashTotal(s), j)
      {
        OverflowMeans(ahead, env.video, env.audio, room, MAX_SKIP, j);
      }
      var found := Overflow(ahead, env.video, env.audio, room, MAX_SKIP);
      if found.Some? {
        var s' := ReadVideo(env, s, MAX_SKIP).0;
        OnePacketMissing(env.file, env.video, env.audio, s.taken, s.videoStash, s.audioStash, s.pos, s.origin,
                         s'.audioStash, s'.pos, room, MAX_SKIP, found.value);
      }
    }
  }

  /** `decode_next_audio_chunk`: when it meets full stashes, and what that costs. */
  lemma AudioCallOverflows<Ref, Frame, Chunk>(env: Env<Ref, Frame, Chunk>, s: State<Ref>)
    requires Conserved(env, s)
    ensures var (s', r) := NextAudio(env, s);
            var ahead := Upcoming(env.file, s.pos);
            var full := r == Failure(DecodeBackpressure(MAX_STASH_PACKETS)) && s'.taken == s.taken;
            && (full <==>
                  && env.audio.Some? && s.audioStash == []
                  && exists j: nat :: FullAt(ahead, env.audio, env.video, StashTotal(s), j))
            && (full ==>
                  && s'.audioStash == [] && |s'.videoStash| == MAX_STASH_PACKETS
                  && Complete(env.file, env.audio, s'.taken, s'.audioStash, s'.pos, s'.origin)
                  && exists j: nat ::
                       && FullAt(ahead, env.audio, env.video, StashTotal(s), j)
                       && MissingOne(env.file, env.video, s'.taken, s'.videoStash, ahead[j], s'.pos, s'.origin))
  {
    hide OnTrack, Complete, Upcoming, Overflow, OverflowsAt, Dropped, MissingOne, StashOf, ReadAudio;
    var ahead, room := Upcoming(env.file, s.pos), MAX_STASH_PACKETS - StashTotal(s);
    if env.audio.Some? && s.audioStash != [] {
      DecodeAudioTakes(env, s.(audioStash := s.audioStash[1..]), s.audioStash[0], env.audio.value.timescale);
    } else if env.audio.Some? {
      ReadAudioOverflows(env, s, MAX_SKIP);
      forall j: nat
        ensures Overflow(ahead, env.audio, env.video, room, MAX_SKIP) == Some(j)
          <==> FullAt(ahead, env.audio, env.video, StashTotal(s), j)
      {
        OverflowMeans(ahead, env.audio, env.video, room, MAX_SKIP, j);
      }
      var found := Overflow(ahead, env.audio, env.video, room, MAX_SKIP);
      if found.Some? {
        var s' := ReadAudio(env, s, MAX_SKIP).0;
        OnePacketMissing(env.file, env.audio, env.video, s.taken, s.audioStash, s.videoStash, s.pos, s.origin,
                         s'.videoStash, s'.pos, room, MAX_SKIP, found.value);
      }
    }
  }
}
