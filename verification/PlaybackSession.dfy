/**
 The playback session: one demuxer cursor, two stashes, a decoder with reference state.
 */
module Playback {
  import opened Wrappers
  import opened Bytes
  import opened ContainerFormat
  import opened DemuxSpec
  import opened Demux
  import opened PlaybackSpec

  /** `filter(..).min_by_key(track_id)`: the smallest id, and among equals the first descriptor. */
  function PrimaryTrack(tracks: seq<TrackDescriptor>, kind: TrackKind, codecs: set<u16>): Option<TrackInfo> {
    if tracks == [] then None
    else
      var t := tracks[|tracks| - 1];
      var before := PrimaryTrack(tracks[..|tracks| - 1], kind, codecs);
      if t.kind == kind && t.codecId in codecs && (before.None? || t.trackId < before.value.trackId)
      then Some(TrackInfo(t.trackId, t.codecId, t.timescale))
      else before
  }

  lemma {:induction false} PrimaryIsSmallest(tracks: seq<TrackDescriptor>, kind: TrackKind, codecs: set<u16>)
    ensures var r := PrimaryTrack(tracks, kind, codecs);
            && (r.None? <==> forall i :: 0 <= i < |tracks| ==> !(tracks[i].kind == kind && tracks[i].codecId in codecs))
            && (forall i :: 0 <= i < |tracks| && tracks[i].kind == kind && tracks[i].codecId in codecs ==>
                  r.value.trackId <= tracks[i].trackId)
            && (r.Some? ==> exists i :: 0 <= i < |tracks| && TakenFrom(r.value, tracks, i, kind, codecs))
  {
    if tracks != [] {
      var n := |tracks| - 1;
      var before := PrimaryTrack(tracks[..n], kind, codecs);
      PrimaryIsSmallest(tracks[..n], kind, codecs);
      if before.Some? {
        var i :| 0 <= i < n && TakenFrom(before.value, tracks[..n], i, kind, codecs);
        assert before == PrimaryTrack(tracks, kind, codecs) ==> TakenFrom(before.value, tracks, i, kind, codecs);
      }
      assert before != PrimaryTrack(tracks, kind, codecs) ==>
        TakenFrom(PrimaryTrack(tracks, kind, codecs).value, tracks, n, kind, codecs);
    }
  }

  /** `t` describes track `i`, which is of the kind and one of the codecs, and the first one with its id. */
  predicate TakenFrom(t: TrackInfo, tracks: seq<TrackDescriptor>, i: nat, kind: TrackKind, codecs: set<u16>) {
    && i < |tracks| && tracks[i].kind == kind && tracks[i].codecId in codecs
    && t == TrackInfo(tracks[i].trackId, tracks[i].codecId, tracks[i].timescale)
    && forall j :: 0 <= j < i && tracks[j].kind == kind && tracks[j].codecId in codecs ==>
         tracks[j].trackId != t.trackId
  }

  class PlaybackSession<Ref, Frame, Chunk> {
    const codec: Codec<Ref, Frame, Chunk>
    const demux: DemuxReader
    const video: Option<TrackInfo>
    const audio: Option<TrackInfo>
    const seekSupported: bool
    var ref: Ref
    var position: Position
    var mode: PlaybackState
    var decodedVideoFrames: nat
    var decodedAudioChunks: nat
    var videoStash: seq<DemuxedPacket>
    var audioStash: seq<DemuxedPacket>
    ghost var origin: nat
    ghost var taken: seq<DemuxedPacket>

    ghost function E(): Env<Ref, Frame, Chunk> {
      Env(codec, demux.F(), video, audio)
    }

    ghost function S(): State<Ref>
      reads this, demux.reader
    {
      State(ref, position, demux.reader.pos, mode, decodedVideoFrames, decodedAudioChunks,
            videoStash, audioStash, origin, taken)
    }

    ghost predicate Valid()
      reads this, demux
    {
      seekSupported <==> demux.index != []
    }

    /** `PlaybackSession::open` after the demuxer is open: index, primary tracks, initial state. */
    constructor Open(codec: Codec<Ref, Frame, Chunk>, demux: DemuxReader)
      requires ScanIndex(demux.F(), demux.dataStart, []) == Success(demux.index)
      requires demux.Pos() == demux.dataStart
      ensures Valid()
      ensures this.codec == codec && this.demux == demux
      ensures video == PrimaryTrack(demux.tracks, TrackKind.Video, {1, 3})
      ensures audio == PrimaryTrack(demux.tracks, TrackKind.Audio, {2})
      ensures S() == State(codec.cleared, Position(0, InitialTimescale(video, audio)), demux.dataStart, Stopped, 0, 0,
                           [], [], demux.dataStart, [])
    {
      this.codec, this.demux := codec, demux;
      var v := PrimaryTrack(demux.tracks, TrackKind.Video, {1, 3});
      var a := PrimaryTrack(demux.tracks, TrackKind.Audio, {2});
      video, audio := v, a;
      seekSupported := |demux.index| != 0;
      var timescale: u32 := 90_000;
      if v.Some? && v.value.timescale > 0 {
        timescale := v.value.timescale;
      } else if a.Some? {
        timescale := a.value.timescale;
      }
      ref, position, mode := codec.cleared, Position(0, if timescale > 0 then timescale else 1), Stopped;
      decodedVideoFrames, decodedAudioChunks, videoStash, audioStash := 0, 0, [], [];
      origin, taken := demux.dataStart, [];
    }

    /** `decode_video_packet`. */
    method DecodeVideoPacket(p: DemuxedPacket, timescale: u32) returns (r: Result<Option<Frame>, PlaybackError>)
      modifies this
      ensures (S(), r) == DecodeVideo(E(), old(S()), p, timescale)
    {
      taken := taken + [p];
      if HasFlag(p.packet.header.flags, CONFIG) {
        return Success(None);
      }
      if HasFlag(p.packet.header.flags, CORRUPT) {
        return Failure(Malformed("video packet flagged corrupt"));
      }
      var step := codec.video(ref, p.packet);
      ref := step.0;
      r := step.1;
      if r.Success? {
        UpdatePosition(p.packet.header.pts, timescale);
        if r.value.Some? {
          decodedVideoFrames := decodedVideoFrames + 1;
        }
      }
    }

    /** `update_position_from_pts`: a zero timescale leaves the old one. */
    method UpdatePosition(pts: u64, timescale: u32)
      modifies this`position
      ensures position == Position(pts, if timescale > 0 then timescale else old(position).timescale)
    {
      position := Position(pts, if timescale > 0 then timescale else position.timescale);
    }

    /** `decode_audio_packet`. */
    method DecodeAudioPacket(p: DemuxedPacket, timescale: u32) returns (r: Result<Option<Chunk>, PlaybackError>)
      modifies this
      ensures (S(), r) == DecodeAudio(E(), old(S()), p, timescale)
    {
      taken := taken + [p];
      if HasFlag(p.packet.header.flags, CONFIG) {
        return Success(None);
      }
      if HasFlag(p.packet.header.flags, CORRUPT) {
        return Failure(Malformed("audio packet flagged corrupt"));
      }
      var chunk := codec.audio(p.packet);
      if chunk.Failure? {
        return Failure(chunk.error);
      }
      UpdatePosition(p.packet.header.pts, timescale);
      decodedAudioChunks := decodedAudioChunks + 1;
      r := Success(Some(chunk.value));
    }

    /** `push_stash_video` and `push_stash_audio`: one cap for both stashes together. */
    method PushStash(p: DemuxedPacket, onVideo: bool) returns (ok: bool)
      modifies this`videoStash, this`audioStash
      ensures ok <==> |old(videoStash)| + |old(audioStash)| < MAX_STASH_PACKETS
      ensures videoStash == if ok && onVideo then old(videoStash) + [p] else old(videoStash)
      ensures audioStash == if ok && !onVideo then old(audioStash) + [p] else old(audioStash)
    {
      ok := |videoStash| + |audioStash| < MAX_STASH_PACKETS;
      if ok {
        if onVideo {
          videoStash := videoStash + [p];
        } else {
          audioStash := audioStash + [p];
        }
      }
    }

    /** `decode_next_video_frame`. */
    method DecodeNextVideoFrame() returns (r: Result<Option<Frame>, PlaybackError>)
      requires Valid()
      modifies this, demux, demux.reader
      ensures Valid() && demux.index == old(demux.index)
      ensures (S(), r) == NextVideo(E(), old(S()))
    {
      hide NextPacketAt, DecodeVideo, OnTrack;
      if video.None? {
        return Failure(Unsupported("no primary video track"));
      }
      if |videoStash| != 0 {
        var p := videoStash[0];
        videoStash := videoStash[1..];
        r := DecodeVideoPacket(p, video.value.timescale);
        return;
      }
      for i := 0 to MAX_SKIP
        invariant Valid() && demux.index == old(demux.index)
        invariant ReadVideo(E(), old(S()), MAX_SKIP) == ReadVideo(E(), S(), MAX_SKIP - i)
      {
        var next := demux.NextPacket();
        if next.Failure? {
          return Failure(Io(next.error));
        }
        if next.value.None? {
          return Success(None);
        }
        var p := next.value.value;
        if OnTrack(p, video) {
          r := DecodeVideoPacket(p, video.value.timescale);
          return;
        }
        if OnTrack(p, audio) {
          var ok := PushStash(p, false);
          if !ok {
            return Failure(DecodeBackpressure(MAX_STASH_PACKETS));
          }
        }
      }
      r := Failure(Malformed("video decode exceeded skip budget"));
    }

    /** `decode_next_audio_chunk`. */
    method DecodeNextAudioChunk() returns (r: Result<Option<Chunk>, PlaybackError>)
      requires Valid()
      modifies this, demux, demux.reader
      ensures Valid() && demux.index == old(demux.index)
      ensures (S(), r) == NextAudio(E(), old(S()))
    {
      hide NextPacketAt, DecodeAudio, OnTrack;
      if audio.None? {
        return Failure(Unsupported("no primary audio track"));
      }
      if |audioStash| != 0 {
        var p := audioStash[0];
        audioStash := audioStash[1..];
        r := DecodeAudioPacket(p, audio.value.timescale);
        return;
      }
      for i := 0 to MAX_SKIP
        invariant Valid() && demux.index == old(demux.index)
        invariant ReadAudio(E(), old(S()), MAX_SKIP) == ReadAudio(E(), S(), MAX_SKIP - i)
      {
        var next := demux.NextPacket();
        if next.Failure? {
          return Failure(Io(next.error));
        }
        if next.value.None? {
          return Success(None);
        }
        var p := next.value.value;
        if OnTrack(p, audio) {
          r := DecodeAudioPacket(p, audio.value.timescale);
          return;
        }
        if OnTrack(p, video) {
          var ok := PushStash(p, true);
          if !ok {
            return Failure(DecodeBackpressure(MAX_STASH_PACKETS));
          }
        }
      }
      r := Failure(Malformed("audio decode exceeded skip budget"));
    }

    /** `decode_next_step`. */
    method DecodeNextStep() returns (r: Result<Event<Frame, Chunk>, PlaybackError>)
      requires Valid()
      modifies this, demux, demux.reader
      ensures Valid() && demux.index == old(demux.index)
      ensures (S(), r) == NextStep(E(), old(S()))
    {
      hide NextPacketAt, DecodeVideo, DecodeAudio;
      if video.None? && audio.None? {
        return Failure(Unsupported("no decodable A/V tracks"));
      }
      for i := 0 to MAX_SKIP
        invariant Valid() && demux.index == old(demux.index)
        invariant ReadStep(E(), old(S()), MAX_SKIP) == ReadStep(E(), S(), MAX_SKIP - i)
      {
        var next := demux.NextPacket();
        if next.Failure? {
          return Failure(Io(next.error));
        }
        if next.value.None? {
          mode := EndOfStream;
          return Success(EndEvent);
        }
        var p := next.value.value;
        if OnTrack(p, video) {
          var frame := DecodeVideoPacket(p, video.value.timescale);
          if frame.Failure? {
            return Failure(frame.error);
          }
          if frame.value.Some? {
            return Success(VideoEvent(frame.value.value));
          }
        } else if OnTrack(p, audio) {
          var chunk := DecodeAudioPacket(p, audio.value.timescale);
          if chunk.Failure? {
            return Failure(chunk.error);
          }
          if chunk.value.Some? {
            return Success(AudioEvent(chunk.value.value));
          }
        }
      }
      r := Failure(Malformed("excessive consecutive packets with no decodable primary A/V payload"));
    }

    /** `play` and `pause`. */
    method Play()
      modifies this`mode
      ensures mode == if old(mode) in {EndOfStream, PlaybackState.Error} then old(mode) else Playing
    {
      if mode != EndOfStream && mode != PlaybackState.Error {
        mode := Playing;
      }
    }

    method Pause()
      modifies this`mode
      ensures mode == if old(mode) == Playing then Paused else old(mode)
    {
      if mode == Playing {
        mode := Paused;
      }
    }

    /** `stop`. */
    method StopPlayback()
      requires Valid()
      modifies this, demux`packetCursor, demux.reader
      ensures Valid()
      ensures S() == Stop(E(), old(S()), demux.dataStart)
    {
      demux.ResetToDataStart();
      videoStash, audioStash := [], [];
      mode := Stopped;
      position := Position(0, AtLeastOne(position.timescale));
      decodedVideoFrames, decodedAudioChunks := 0, 0;
      ref := codec.cleared;
      origin, taken := demux.reader.pos, [];
    }

    /** Find the entry to go to and move the demuxer there; a non-empty index needs no scan. */
    method SeekDemuxer(target: u64) returns (r: Result<IndexEntry, PlaybackError>)
      requires demux.index != []
      modifies demux, demux.reader
      ensures demux.index == old(demux.index)
      ensures r == SeekEntry(video, demux.index, target)
      ensures demux.reader.pos == if r.Success? then r.value.fileOffset else old(demux.reader.pos)
    {
      hide Latest, ScanIndex;
      if video.Some? {
        var keyframe := demux.Seek(Some(video.value.trackId), target);
        if keyframe.value.Some? {
          return Success(keyframe.value.value);
        }
        if video.value.codecId == 3 {
          return Failure(Malformed("no indexed SRSV2 video keyframe at or before seek target"));
        }
      }
      var nearest := demux.Seek(None, target);
      r := if nearest.value.None? then Failure(SeekUnsupported) else Success(nearest.value.value);
    }

    /** `seek_video_keyframe_before_or_at_ms`. */
    method SeekVideoKeyframe(ms: u64) returns (r: Result<(), PlaybackError>)
      requires Valid()
      modifies this, demux, demux.reader
      ensures Valid() && demux.index == old(demux.index)
      ensures (S(), r) == SeekKeyframe(E(), old(S()), old(demux.index), ms)
    {
      hide SeekEntry, TargetPts;
      if !seekSupported {
        return Failure(SeekUnsupported);
      }
      var target := TargetPts(ms, position.timescale);
      videoStash, audioStash := [], [];
      ref := codec.cleared;
      var entry := SeekDemuxer(target);
      origin, taken := demux.reader.pos, [];
      if entry.Failure? {
        return Failure(entry.error);
      }
      position := Position(entry.value.pts, AtLeastOne(position.timescale));
      r := Success(());
    }

    /** `recover_decode_to_pts`. */
    method RecoverDecodeToPts(target: u64, steps: nat) returns (r: Result<(), PlaybackError>)
      requires Valid()
      modifies this, demux, demux.reader
      ensures Valid() && demux.index == old(demux.index)
      ensures (S(), r) == Recover(E(), old(S()), target, steps)
    {
      hide NextStep;
      if steps == 0 || position.ptsTicks >= target {
        return Success(());
      }
      var savedVideo, savedAudio := decodedVideoFrames, decodedAudioChunks;
      var i := 0;
      var done := false;
      while i < steps && !done
        invariant 0 <= i <= steps
        invariant Valid() && demux.index == old(demux.index)
        invariant DecodeForward(E(), old(S()), target, steps)
               == if done then (S(), Success(())) else DecodeForward(E(), S(), target, steps - i)
        decreases steps - i
      {
        var event := DecodeNextStep();
        if event.Failure? {
          return Failure(event.error);
        }
        done := event.value.EndEvent? || position.ptsTicks >= target;
        i := i + 1;
      }
      decodedVideoFrames, decodedAudioChunks := savedVideo, savedAudio;
      if position.ptsTicks < target {
        return Failure(Malformed("seek recovery exceeded step budget"));
      }
      r := Success(());
    }

    /** `seek_ms`. */
    method SeekToMs(ms: u64) returns (r: Result<(), PlaybackError>)
      requires Valid()
      modifies this, demux, demux.reader
      ensures Valid() && demux.index == old(demux.index)
      ensures (S(), r) == SeekMs(E(), old(S()), old(demux.index), ms)
    {
      hide TargetPts, Recover;
      r := SeekVideoKeyframe(ms);
      if r.Success? {
        r := RecoverDecodeToPts(TargetPts(ms, position.timescale), RECOVERY_STEP_BUDGET);
      }
    }
  }
}
