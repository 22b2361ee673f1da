/**
 A playback session as a state machine over the demuxer's file. The frame decoders are
 arbitrary deterministic step functions; the video decoder carries a reference state.
 */
module PlaybackSpec {
  import opened Wrappers
  import opened Bytes
  import opened ContainerFormat
  import opened DemuxSpec
  import opened Demux

  const MAX_STASH_PACKETS: nat := 64
  const MAX_SKIP: nat := 65_536
  const RECOVERY_STEP_BUDGET: nat := 8192

  datatype PlaybackState = Stopped | Paused | Playing | EndOfStream | Error

  datatype Position = Position(ptsTicks: u64, timescale: u32)

  datatype TrackInfo = TrackInfo(trackId: u16, codecId: u16, timescale: u32)

  datatype PlaybackError =
    | Io(error: IoError)
    | Unsupported(what: string)
    | Malformed(what: string)
    | Decode(what: string)
    | SeekUnsupported
    | DecodeBackpressure(cap: nat)

  datatype Event<+Frame, +Chunk> = VideoEvent(frame: Frame) | AudioEvent(chunk: Chunk) | EndEvent

  /** A video step may leave a changed reference state behind even when it fails or shows nothing. */
  datatype Codec<!Ref, !Frame, !Chunk> =
    Codec(cleared: Ref,
          video: (Ref, Packet) -> (Ref, Result<Option<Frame>, PlaybackError>),
          audio: Packet -> Result<Chunk, PlaybackError>)

  datatype Env<!Ref, !Frame, !Chunk> =
    Env(codec: Codec<Ref, Frame, Chunk>, file: File, video: Option<TrackInfo>, audio: Option<TrackInfo>)

  /**
   The session's fields; `pos` is the demuxer's cursor. `origin` and `taken` are history: where
   reading last started over, and the packets handed to a decoder since then.
   */
  datatype State<!Ref> =
    State(ref: Ref, position: Position, pos: nat, mode: PlaybackState, videoCount: nat, audioCount: nat,
          videoStash: seq<DemuxedPacket>, audioStash: seq<DemuxedPacket>, origin: nat, taken: seq<DemuxedPacket>)

  predicate HasFlag(flags: u16, bit: nat)
    requires bit > 0
  {
    flags / bit % 2 == 1
  }

  predicate OnTrack(p: DemuxedPacket, track: Option<TrackInfo>) {
    track.Some? && p.packet.header.trackId == track.value.trackId
  }

  function MovedTo<Ref>(s: State<Ref>, pts: u64, timescale: u32): State<Ref> {
    s.(position := Position(pts, if timescale > 0 then timescale else s.position.timescale))
  }

  /** `decode_video_packet`. */
  function DecodeVideo<Ref, Frame, Chunk>(env: Env<Ref, Frame, Chunk>, s: State<Ref>, p: DemuxedPacket, timescale: u32)
    : (State<Ref>, Result<Option<Frame>, PlaybackError>)
  {
    var s := s.(taken := s.taken + [p]);
    if HasFlag(p.packet.header.flags, CONFIG) then (s, Success(None))
    else if HasFlag(p.packet.header.flags, CORRUPT) then (s, Failure(Malformed("video packet flagged corrupt")))
    else
      var (ref', r) := env.codec.video(s.ref, p.packet);
      match r
      case Failure(e) => (s.(ref := ref'), Failure(e))
      case Success(shown) =>
        var s := MovedTo(s.(ref := ref'), p.packet.header.pts, timescale);
        (s.(videoCount := s.videoCount + if shown.Some? then 1 else 0), Success(shown))
  }

  /** `decode_audio_packet`. */
  function DecodeAudio<Ref, Frame, Chunk>(env: Env<Ref, Frame, Chunk>, s: State<Ref>, p: DemuxedPacket, timescale: u32)
    : (State<Ref>, Result<Option<Chunk>, PlaybackError>)
  {
    var s := s.(taken := s.taken + [p]);
    if HasFlag(p.packet.header.flags, CONFIG) then (s, Success(None))
    else if HasFlag(p.packet.header.flags, CORRUPT) then (s, Failure(Malformed("audio packet flagged corrupt")))
    else
      match env.codec.audio(p.packet)
      case Failure(e) => (s, Failure(e))
      case Success(chunk) =>
        var s := MovedTo(s, p.packet.header.pts, timescale);
        (s.(audioCount := s.audioCount + 1), Success(Some(chunk)))
  }

  function StashTotal<Ref>(s: State<Ref>): nat {
    |s.videoStash| + |s.audioStash|
  }

  /** The reading loop of `decode_next_video_frame`, with `n` packets of its skip budget left. */
  function ReadVideo<Ref, Frame, Chunk>(env: Env<Ref, Frame, Chunk>, s: State<Ref>, n: nat)
    : (State<Ref>, Result<Option<Frame>, PlaybackError>)
    requires env.video.Some?
    decreases n
  {
    if n == 0 then (s, Failure(Malformed("video decode exceeded skip budget")))
    else
      match NextPacketAt(env.file, s.pos)
      case (Failure(e), next) => (s.(pos := next), Failure(Io(e)))
      case (Success(None), next) => (s.(pos := next), Success(None))
      case (Success(Some(p)), next) =>
        var s := s.(pos := next);
        if OnTrack(p, env.video) then DecodeVideo(env, s, p, env.video.value.timescale)
        else if OnTrack(p, env.audio) then
          if StashTotal(s) >= MAX_STASH_PACKETS then (s, Failure(DecodeBackpressure(MAX_STASH_PACKETS)))
          else ReadVideo(env, s.(audioStash := s.audioStash + [p]), n - 1)
        else ReadVideo(env, s, n - 1)
  }

  function NextVideo<Ref, Frame, Chunk>(env: Env<Ref, Frame, Chunk>, s: State<Ref>)
    : (State<Ref>, Result<Option<Frame>, PlaybackError>)
  {
    if env.video.None? then (s, Failure(Unsupported("no primary video track")))
    else if s.videoStash != [] then
      DecodeVideo(env, s.(videoStash := s.videoStash[1..]), s.videoStash[0], env.video.value.timescale)
    else ReadVideo(env, s, MAX_SKIP)
  }

  /** The reading loop of `decode_next_audio_chunk`. */
  function ReadAudio<Ref, Frame, Chunk>(env: Env<Ref, Frame, Chunk>, s: State<Ref>, n: nat)
    : (State<Ref>, Result<Option<Chunk>, PlaybackError>)
    requires env.audio.Some?
    decreases n
  {
    if n == 0 then (s, Failure(Malformed("audio decode exceeded skip budget")))
    else
      match NextPacketAt(env.file, s.pos)
      case (Failure(e), next) => (s.(pos := next), Failure(Io(e)))
      case (Success(None), next) => (s.(pos := next), Success(None))
      case (Success(Some(p)), next) =>
        var s := s.(pos := next);
        if OnTrack(p, env.audio) then DecodeAudio(env, s, p, env.audio.value.timescale)
        else if OnTrack(p, env.video) then
          if StashTotal(s) >= MAX_STASH_PACKETS then (s, Failure(DecodeBackpressure(MAX_STASH_PACKETS)))
          else ReadAudio(env, s.(videoStash := s.videoStash + [p]), n - 1)
        else ReadAudio(env, s, n - 1)
  }

  function NextAudio<Ref, Frame, Chunk>(env: Env<Ref, Frame, Chunk>, s: State<Ref>)
    : (State<Ref>, Result<Option<Chunk>, PlaybackError>)
  {
    if env.audio.None? then (s, Failure(Unsupported("no primary audio track")))
    else if s.audioStash != [] then
      DecodeAudio(env, s.(audioStash := s.audioStash[1..]), s.audioStash[0], env.audio.value.timescale)
    else ReadAudio(env, s, MAX_SKIP)
  }

  /** The loop of `decode_next_step`: file order, past everything that shows nothing. */
  function ReadStep<Ref, Frame, Chunk>(env: Env<Ref, Frame, Chunk>, s: State<Ref>, n: nat)
    : (State<Ref>, Result<Event<Frame, Chunk>, PlaybackError>)
    decreases n
  {
    if n == 0 then (s, Failure(Malformed("excessive consecutive packets with no decodable primary A/V payload")))
    else
      match NextPacketAt(env.file, s.pos)
      case (Failure(e), next) => (s.(pos := next), Failure(Io(e)))
      case (Success(None), next) => (s.(pos := next, mode := EndOfStream), Success(EndEvent))
      case (Success(Some(p)), next) =>
        var s := s.(pos := next);
        if OnTrack(p, env.video) then
          match DecodeVideo(env, s, p, env.video.value.timescale)
          case (s', Failure(e)) => (s', Failure(e))
          case (s', Success(Some(frame))) => (s', Success(VideoEvent(frame)))
          case (s', Success(None)) => ReadStep(env, s', n - 1)
        else if OnTrack(p, env.audio) then
          match DecodeAudio(env, s, p, env.audio.value.timescale)
          case (s', Failure(e)) => (s', Failure(e))
          case (s', Success(Some(chunk))) => (s', Success(AudioEvent(chunk)))
          case (s', Success(None)) => ReadStep(env, s', n - 1)
        else ReadStep(env, s, n - 1)
  }

  function NextStep<Ref, Frame, Chunk>(env: Env<Ref, Frame, Chunk>, s: State<Ref>)
    : (State<Ref>, Result<Event<Frame, Chunk>, PlaybackError>)
  {
    if env.video.None? && env.audio.None? then (s, Failure(Unsupported("no decodable A/V tracks")))
    else ReadStep(env, s, MAX_SKIP)
  }

  // ----- stop and seek -----

  function AtLeastOne(timescale: u32): u32 {
    if timescale == 0 then 1 else timescale
  }

  /** The video's timescale unless it is zero, else the audio's, else 90 kHz, and never zero. */
  function InitialTimescale(video: Option<TrackInfo>, audio: Option<TrackInfo>): u32 {
    AtLeastOne(
      if video.Some? && video.value.timescale > 0 then video.value.timescale
      else if audio.Some? then audio.value.timescale
      else 90_000)
  }

  function Restarted<Ref, Frame, Chunk>(env: Env<Ref, Frame, Chunk>, s: State<Ref>, pos: nat): State<Ref> {
    s.(ref := env.codec.cleared, pos := pos, videoStash := [], audioStash := [], origin := pos, taken := [])
  }

  /** `stop`. */
  function Stop<Ref, Frame, Chunk>(env: Env<Ref, Frame, Chunk>, s: State<Ref>, dataStart: nat): State<Ref> {
    Restarted(env, s, dataStart).(mode := Stopped, videoCount := 0, audioCount := 0,
      position := Position(0, AtLeastOne(s.position.timescale)))
  }

  /** Wall-clock milliseconds in ticks of the position's timescale, saturating at 64 bits. */
  function TargetPts(ms: u64, timescale: u32): u64 {
    var ticks: int := ms as int * AtLeastOne(timescale);
    (if ticks >= U64_LIMIT then U64_LIMIT - 1 else ticks) / 1000
  }

  /** The entry `seek_video_keyframe_before_or_at_ms` goes to. */
  function SeekEntry(video: Option<TrackInfo>, index: seq<IndexEntry>, target: u64): Result<IndexEntry, PlaybackError> {
    match (if video.Some? then Latest(index, Some(video.value.trackId), target) else None)
    case Some(j) => Success(index[j])
    case None =>
      if video.Some? && video.value.codecId == 3 then
        Failure(Malformed("no indexed SRSV2 video keyframe at or before seek target"))
      else
        match Latest(index, None, target)
        case None => Failure(SeekUnsupported)
        case Some(j) => Success(index[j])
  }

  /** `seek_video_keyframe_before_or_at_ms`: everything but the cursor is cleared before the lookup. */
  function SeekKeyframe<Ref, Frame, Chunk>(
      env: Env<Ref, Frame, Chunk>, s: State<Ref>, index: seq<IndexEntry>, ms: u64)
    : (State<Ref>, Result<(), PlaybackError>)
  {
    if index == [] then (s, Failure(SeekUnsupported))
    else
      match SeekEntry(env.video, index, TargetPts(ms, s.position.timescale))
      case Failure(e) => (Restarted(env, s, s.pos), Failure(e))
      case Success(entry) =>
        (Restarted(env, s, entry.fileOffset).(position := Position(entry.pts, AtLeastOne(s.position.timescale))),
         Success(()))
  }

  /** Decode forward until the position reaches `target`, the file ends, or `n` steps are done. */
  function DecodeForward<Ref, Frame, Chunk>(env: Env<Ref, Frame, Chunk>, s: State<Ref>, target: u64, n: nat)
    : (State<Ref>, Result<(), PlaybackError>)
    decreases n
  {
    if n == 0 then (s, Success(()))
    else
      match NextStep(env, s)
      case (s', Failure(e)) => (s', Failure(e))
      case (s', Success(event)) =>
        if event.EndEvent? || s'.position.ptsTicks >= target then (s', Success(()))
        else DecodeForward(env, s', target, n - 1)
  }

  /** `recover_decode_to_pts`: the counters are put back unless a step failed. */
  function Recover<Ref, Frame, Chunk>(env: Env<Ref, Frame, Chunk>, s: State<Ref>, target: u64, steps: nat)
    : (State<Ref>, Result<(), PlaybackError>)
  {
    if steps == 0 || s.position.ptsTicks >= target then (s, Success(()))
    else
      match DecodeForward(env, s, target, steps)
      case (s', Failure(e)) => (s', Failure(e))
      case (s', Success(())) =>
        var s'' := s'.(videoCount := s.videoCount, audioCount := s.audioCount);
        (s'', if s''.position.ptsTicks < target then Failure(Malformed("seek recovery exceeded step budget"))
              else Success(()))
  }

  /** `seek_ms`. */
  function SeekMs<Ref, Frame, Chunk>(env: Env<Ref, Frame, Chunk>, s: State<Ref>, index: seq<IndexEntry>, ms: u64)
    : (State<Ref>, Result<(), PlaybackError>)
  {
    match SeekKeyframe(env, s, index, ms)
    case (s', Failure(e)) => (s', Failure(e))
    case (s', Success(())) => Recover(env, s', TargetPts(ms, s'.position.timescale), RECOVERY_STEP_BUDGET)
  }
}
