/** What the calls of a playback session do to position, counters, mode and decoder. */
module PlaybackCalls {
  import opened Wrappers
  import opened Bytes
  import opened ContainerFormat
  import opened DemuxSpec
  import opened Demux
  import opened PlaybackSpec

  /** Configuration packets (bit 1 of the flags) are passed over, corrupt ones (bit 4) refused, both undecoded. */
  lemma VideoPacketDecoded<Ref, Frame, Chunk>(env: Env<Ref, Frame, Chunk>, s: State<Ref>, p: DemuxedPacket,
                                              timescale: u32)
    ensures var (s', r) := DecodeVideo(env, s, p, timescale);
            var flags, (ref', shown) := p.packet.header.flags, env.codec.video(s.ref, p.packet);
            if flags / 2 % 2 == 1 then r == Success(None) && s' == s.(taken := s.taken + [p])
            else if flags / 16 % 2 == 1 then
              r == Failure(Malformed("video packet flagged corrupt")) && s' == s.(taken := s.taken + [p])
            else
              && r == shown
              && s' == s.(taken := s.taken + [p], ref := ref', position := s'.position, videoCount := s'.videoCount)
              && s'.videoCount == s.videoCount + (if r.Success? && r.value.Some? then 1 else 0)
              && s'.position.ptsTicks == (if r.Success? then p.packet.header.pts else s.position.ptsTicks)
              && s'.position.timescale == if r.Success? && timescale > 0 then timescale else s.position.timescale
  {
  }

  lemma AudioPacketDecoded<Ref, Frame, Chunk>(env: Env<Ref, Frame, Chunk>, s: State<Ref>, p: DemuxedPacket,
                                              timescale: u32)
    ensures var (s', r) := DecodeAudio(env, s, p, timescale);
            var flags, chunk := p.packet.header.flags, env.codec.audio(p.packet);
            if flags / 2 % 2 == 1 then r == Success(None) && s' == s.(taken := s.taken + [p])
            else if flags / 16 % 2 == 1 then
              r == Failure(Malformed("audio packet flagged corrupt")) && s' == s.(taken := s.taken + [p])
            else if chunk.Failure? then r == Failure(chunk.error) && s' == s.(taken := s.taken + [p])
            else
              && r == Success(Some(chunk.value))
              && s' == s.(taken := s.taken + [p], position := s'.position, audioCount := s.audioCount + 1)
              && s'.position.ptsTicks == p.packet.header.pts
              && s'.position.timescale == if timescale > 0 then timescale else s.position.timescale
  {
  }

  // ----- mode and counters over whole calls -----

  /** Between the two states so many frames and chunks were counted; stashes and origin stayed. */
  predicate Counted<Ref>(s: State<Ref>, s': State<Ref>, frames: nat, chunks: nat) {
    && s'.videoCount == s.videoCount + frames && s'.audioCount == s.audioCount + chunks
    && s'.videoStash == s.videoStash && s'.audioStash == s.audioStash && s'.origin == s.origin
  }

  lemma VideoPacketCounted<Ref, Frame, Chunk>(env: Env<Ref, Frame, Chunk>, s: State<Ref>, p: DemuxedPacket,
                                              timescale: u32)
    ensures var (s', r) := DecodeVideo(env, s, p, timescale);
            Counted(s, s', if r.Success? && r.value.Some? then 1 else 0, 0) && s'.mode == s.mode
  {
  }

  lemma AudioPacketCounted<Ref, Frame, Chunk>(env: Env<Ref, Frame, Chunk>, s: State<Ref>, p: DemuxedPacket,
                                              timescale: u32)
    ensures var (s', r) := DecodeAudio(env, s, p, timescale);
            Counted(s, s', 0, if r.Success? && r.value.Some? then 1 else 0) && s'.mode == s.mode
  {
  }

  /** Only a step that finds the end of the file sets the mode, to "end of stream". */
  lemma {:induction false} StepCounts<Ref, Frame, Chunk>(env: Env<Ref, Frame, Chunk>, s: State<Ref>, n: nat)
    ensures var (s', r) := ReadStep(env, s, n);
            && s'.mode == (if r == Success(EndEvent) then EndOfStream else s.mode)
            && Counted(s, s', if r.Success? && r.value.VideoEvent? then 1 else 0,
                       if r.Success? && r.value.AudioEvent? then 1 else 0)
    decreases n
  {
    hide NextPacketAt, DecodeVideo, DecodeAudio;
    var (next, pos) := NextPacketAt(env.file, s.pos);
    if n > 0 && next.Success? && next.value.Some? {
      var p, moved := next.value.value, s.(pos := pos);
      if OnTrack(p, env.video) {
        VideoPacketCounted(env, moved, p, env.video.value.timescale);
        StepCounts(env, DecodeVideo(env, moved, p, env.video.value.timescale).0, n - 1);
      } else if OnTrack(p, env.audio) {
        AudioPacketCounted(env, moved, p, env.audio.value.timescale);
        StepCounts(env, DecodeAudio(env, moved, p, env.audio.value.timescale).0, n - 1);
      } else {
        StepCounts(env, moved, n - 1);
      }
    }
  }

  lemma {:induction false} ReadVideoCounts<Ref, Frame, Chunk>(env: Env<Ref, Frame, Chunk>, s: State<Ref>, n: nat)
    requires env.video.Some?
    ensures var (s', r) := ReadVideo(env, s, n);
            && s'.mode == s.mode && s'.audioCount == s.audioCount
            && s'.videoCount == s.videoCount + (if r.Success? && r.value.Some? then 1 else 0)
    decreases n
  {
    hide NextPacketAt, OnTrack, DecodeVideo;
    var (next, pos) := NextPacketAt(env.file, s.pos);
    if n > 0 && next.Success? && next.value.Some? {
      var p, moved := next.value.value, s.(pos := pos);
      if OnTrack(p, env.video) {
        VideoPacketDecoded(env, moved, p, env.video.value.timescale);
      } else if OnTrack(p, env.audio) {
        ReadVideoCounts(env, moved.(audioStash := s.audioStash + [p]), n - 1);
      } else {
        ReadVideoCounts(env, moved, n - 1);
      }
    }
  }

  lemma {:induction false} ReadAudioCounts<Ref, Frame, Chunk>(env: Env<Ref, Frame, Chunk>, s: State<Ref>, n: nat)
    requires env.audio.Some?
    ensures var (s', r) := ReadAudio(env, s, n);
            && s'.mode == s.mode && s'.videoCount == s.videoCount
            && s'.audioCount == s.audioCount + (if r.Success? && r.value.Some? then 1 else 0)
    decreases n
  {
    hide NextPacketAt, OnTrack, DecodeAudio;
    var (next, pos) := NextPacketAt(env.file, s.pos);
    if n > 0 && next.Success? && next.value.Some? {
      var p, moved := next.value.value, s.(pos := pos);
      if OnTrack(p, env.audio) {
        AudioPacketDecoded(env, moved, p, env.audio.value.timescale);
      } else if OnTrack(p, env.video) {
        ReadAudioCounts(env, moved.(videoStash := s.videoStash + [p]), n - 1);
      } else {
        ReadAudioCounts(env, moved, n - 1);
      }
    }
  }

  /** A frame call counts the frame it shows, and does not set the mode. */
  lemma VideoCallCounts<Ref, Frame, Chunk>(env: Env<Ref, Frame, Chunk>, s: State<Ref>)
    ensures var (s', r) := NextVideo(env, s);
            && s'.mode == s.mode && s'.audioCount == s.audioCount
            && s'.videoCount == s.videoCount + (if r.Success? && r.value.Some? then 1 else 0)
  {
    hide DecodeVideo, ReadVideo;
    if env.video.Some? {
      if s.videoStash != [] {
        VideoPacketDecoded(env, s.(videoStash := s.videoStash[1..]), s.videoStash[0], env.video.value.timescale);
      } else {
        ReadVideoCounts(env, s, MAX_SKIP);
      }
    }
  }

  /** An audio call counts the chunk it returns, and does not set the mode. */
  lemma AudioCallCounts<Ref, Frame, Chunk>(env: Env<Ref, Frame, Chunk>, s: State<Ref>)
    ensures var (s', r) := NextAudio(env, s);
            && s'.mode == s.mode && s'.videoCount == s.videoCount
            && s'.audioCount == s.audioCount + (if r.Success? && r.value.Some? then 1 else 0)
  {
    hide DecodeAudio, ReadAudio;
    if env.audio.Some? {
      if s.audioStash != [] {
        AudioPacketDecoded(env, s.(audioStash := s.audioStash[1..]), s.audioStash[0], env.audio.value.timescale);
      } else {
        ReadAudioCounts(env, s, MAX_SKIP);
      }
    }
  }

  /** A session without a track of the kind says so and does nothing. */
  lemma MissingTracks<Ref, Frame, Chunk>(env: Env<Ref, Frame, Chunk>, s: State<Ref>)
    ensures env.video.None? ==> NextVideo(env, s) == (s, Failure(Unsupported("no primary video track")))
    ensures env.audio.None? ==> NextAudio(env, s) == (s, Failure(Unsupported("no primary audio track")))
    ensures env.video.None? && env.audio.None? ==>
      NextStep(env, s) == (s, Failure(Unsupported("no decodable A/V tracks")))
  {
  }

  /** A call reads up to 65536 packets, unless the stash has one; a seek decodes up to 8192 steps. */
  lemma Budgets<Ref, Frame, Chunk>(env: Env<Ref, Frame, Chunk>, s: State<Ref>, index: seq<IndexEntry>, ms: u64)
    ensures env.video.Some? && s.videoStash == [] ==> NextVideo(env, s) == ReadVideo(env, s, 65_536)
    ensures env.audio.Some? && s.audioStash == [] ==> NextAudio(env, s) == ReadAudio(env, s, 65_536)
    ensures env.video.Some? || env.audio.Some? ==> NextStep(env, s) == ReadStep(env, s, 65_536)
    ensures SeekKeyframe(env, s, index, ms).1.Success? ==>
      var s' := SeekKeyframe(env, s, index, ms).0;
      SeekMs(env, s, index, ms) == Recover(env, s', TargetPts(ms, s'.position.timescale), 8192)
  {
    hide ReadVideo, ReadAudio, ReadStep, SeekKeyframe, Recover, TargetPts;
  }

  /** A call that fails for full stashes has found 64 packets in them. */
  lemma {:induction false} FullAt64<Ref, Frame, Chunk>(env: Env<Ref, Frame, Chunk>, s: State<Ref>, n: nat, cap: nat)
    requires forall r: Ref, p: Packet :: env.codec.video(r, p).1 != Failure(DecodeBackpressure(cap))
    requires env.video.Some? && ReadVideo(env, s, n).1 == Failure(DecodeBackpressure(cap))
    ensures cap == 64 && |ReadVideo(env, s, n).0.videoStash| + |ReadVideo(env, s, n).0.audioStash| >= 64
    ensures |s.videoStash| + |s.audioStash| <= 64 ==>
      |ReadVideo(env, s, n).0.videoStash| + |ReadVideo(env, s, n).0.audioStash| == 64
    decreases n
  {
    hide NextPacketAt, OnTrack;
    var (next, pos) := NextPacketAt(env.file, s.pos);
    if n > 0 && next.Success? && next.value.Some? {
      var p, moved := next.value.value, s.(pos := pos);
      if !OnTrack(p, env.video) && OnTrack(p, env.audio) && StashTotal(s) < 64 {
        FullAt64(env, moved.(audioStash := s.audioStash + [p]), n - 1, cap);
      } else if !OnTrack(p, env.video) && !OnTrack(p, env.audio) {
        FullAt64(env, moved, n - 1, cap);
      }
    }
  }

  // ----- starting over -----

  /** The timescale a session starts with. */
  lemma StartsWithTimescale(video: Option<TrackInfo>, audio: Option<TrackInfo>)
    ensures video.Some? && video.value.timescale > 0 ==> InitialTimescale(video, audio) == video.value.timescale
    ensures (video.None? || video.value.timescale == 0) && audio.Some? && audio.value.timescale > 0 ==>
      InitialTimescale(video, audio) == audio.value.timescale
    ensures (video.None? || video.value.timescale == 0) && audio.Some? && audio.value.timescale == 0 ==>
      InitialTimescale(video, audio) == 1
    ensures (video.None? || video.value.timescale == 0) && audio.None? ==> InitialTimescale(video, audio) == 90_000
  {
  }

  /** A stopped session is one just opened, but for the timescale that its position keeps. */
  lemma StoppedIsFresh<Ref, Frame, Chunk>(env: Env<Ref, Frame, Chunk>, s: State<Ref>, dataStart: nat)
    ensures Stop(env, s, dataStart) ==
      State(env.codec.cleared, Position(0, if s.position.timescale == 0 then 1 else s.position.timescale), dataStart,
            Stopped, 0, 0, [], [], dataStart, [])
  {
  }

  predicate LandsOn<Ref>(s: State<Ref>, entry: IndexEntry) {
    s.pos == entry.fileOffset && s.position.ptsTicks == entry.pts
  }

  predicate KeyframeBy(entry: IndexEntry, video: TrackInfo, target: u64) {
    entry.pts <= target && entry.trackId == video.trackId && entry.flags % 2 == 1
  }

  /**
   A keyframe seek: without an index it refuses and changes nothing; otherwise stashes and decoder are
   cleared, and on success cursor and position go to the entry, while mode and counters stay.
   */
  lemma KeyframeSeekCases<Ref, Frame, Chunk>(
      env: Env<Ref, Frame, Chunk>, s: State<Ref>, index: seq<IndexEntry>, ms: u64)
    ensures var (s', r) := SeekKeyframe(env, s, index, ms);
            && s'.mode == s.mode && s'.videoCount == s.videoCount && s'.audioCount == s.audioCount
            && (index == [] ==> s' == s && r == Failure(SeekUnsupported))
            && (index != [] ==> s'.ref == env.codec.cleared && s'.videoStash == [] && s'.audioStash == [])
            && (index != [] && r.Failure? ==> s'.pos == s.pos && s'.position == s.position)
            && (r.Success? ==>
                  && (exists j :: 0 <= j < |index| && LandsOn(s', index[j]))
                  && s'.position.timescale >= 1
                  && (s.position.timescale >= 1 ==> s'.position.timescale == s.position.timescale))
  {
    hide Latest, TargetPts;
  }

  /** Exactly when a keyframe seek in a file with an index fails, and how. */
  lemma KeyframeSeekFails<Ref, Frame, Chunk>(
      env: Env<Ref, Frame, Chunk>, s: State<Ref>, index: seq<IndexEntry>, ms: u64)
    requires index != []
    ensures var r := SeekKeyframe(env, s, index, ms).1;
            var target := TargetPts(ms, s.position.timescale);
            var keyframe :=
              env.video.Some? && exists j :: 0 <= j < |index| && KeyframeBy(index[j], env.video.value, target);
            var any := exists j :: 0 <= j < |index| && index[j].pts <= target;
            if keyframe then r.Success?
            else if env.video.Some? && env.video.value.codecId == 3 then
              r == Failure(Malformed("no indexed SRSV2 video keyframe at or before seek target"))
            else if any then r.Success?
            else r == Failure(SeekUnsupported)
  {
    hide Latest, TargetPts;
    var target := TargetPts(ms, s.position.timescale);
    LatestIsLatest(index, None, target);
    if env.video.Some? {
      LatestIsLatest(index, Some(env.video.value.trackId), target);
    }
  }

  lemma {:induction false} ForwardCounts<Ref, Frame, Chunk>(
      env: Env<Ref, Frame, Chunk>, s: State<Ref>, target: u64, n: nat)
    ensures var (s', r) := DecodeForward(env, s, target, n);
            s'.mode == s.mode || s'.mode == EndOfStream
    decreases n
  {
    hide ReadStep;
    if n > 0 {
      StepCounts(env, s, MAX_SKIP);
      ForwardCounts(env, NextStep(env, s).0, target, n - 1);
    }
  }

  /** After a successful seek the counters are what they were, and the target is reached. */
  lemma SeekKeepsCounters<Ref, Frame, Chunk>(env: Env<Ref, Frame, Chunk>, s: State<Ref>, index: seq<IndexEntry>,
                                             ms: u64)
    requires SeekMs(env, s, index, ms).1.Success?
    ensures var s' := SeekMs(env, s, index, ms).0;
            && s'.videoCount == s.videoCount && s'.audioCount == s.audioCount
            && (s'.mode == s.mode || s'.mode == EndOfStream)
            && (s'.position.ptsTicks >= TargetPts(ms, SeekKeyframe(env, s, index, ms).0.position.timescale))
  {
    hide DecodeForward, TargetPts;
    KeyframeSeekCases(env, s, index, ms);
    var s1 := SeekKeyframe(env, s, index, ms).0;
    ForwardCounts(env, s1, TargetPts(ms, s1.position.timescale), RECOVERY_STEP_BUDGET);
  }

  /** Exactly when a seek succeeds: the keyframe seek does, and so does decoding on, as far as the target. */
  lemma SeekSucceeds<Ref, Frame, Chunk>(env: Env<Ref, Frame, Chunk>, s: State<Ref>, index: seq<IndexEntry>, ms: u64)
    ensures var r, (s1, r1) := SeekMs(env, s, index, ms).1, SeekKeyframe(env, s, index, ms);
      var target := TargetPts(ms, s1.position.timescale);
      if r1.Failure? then SeekMs(env, s, index, ms) == (s1, r1)
      else if s1.position.ptsTicks >= target then SeekMs(env, s, index, ms) == (s1, Success(()))
      else
        var (s2, r2) := DecodeForward(env, s1, target, 8192);
        && (r.Success? <==> r2.Success? && s2.position.ptsTicks >= target)
        && (r2.Failure? ==> r == Failure(r2.error))
        && (r2.Success? && s2.position.ptsTicks < target ==>
              r == Failure(Malformed("seek recovery exceeded step budget")))
  {
    hide SeekKeyframe, DecodeForward, TargetPts;
  }
}
