/**
 Random access equals sequential decode, on a file the muxer wrote with one video track.
 */
module SeekTheorems {
  import opened Wrappers
  import opened Bytes
  import opened ContainerFormat
  import opened ContainerIo
  import opened DemuxSpec
  import opened DemuxTheorems
  import opened MuxSpec
  import opened Demux
  import opened PlaybackSpec
  import PlaybackTheorems

  // ----- decoding a list of packets -----

  type Shown<Frame> = Result<Option<Frame>, PlaybackError>

  /** The reference state after decoding `ps`. */
  function RefAfter<Ref, Frame, Chunk>(codec: Codec<Ref, Frame, Chunk>, ref: Ref, ps: seq<Packet>): Ref
    decreases |ps|
  {
    if ps == [] then ref else RefAfter(codec, codec.video(ref, ps[0]).0, ps[1..])
  }

  /** What decoding each of `ps` shows. */
  function Outcomes<Ref, Frame, Chunk>(codec: Codec<Ref, Frame, Chunk>, ref: Ref, ps: seq<Packet>)
    : (r: seq<Shown<Frame>>)
    ensures |r| == |ps|
    decreases |ps|
  {
    if ps == [] then [] else [codec.video(ref, ps[0]).1] + Outcomes(codec, codec.video(ref, ps[0]).0, ps[1..])
  }

  lemma {:induction false} DecodeInTwoParts<Ref, Frame, Chunk>(
      codec: Codec<Ref, Frame, Chunk>, ref: Ref, ps: seq<Packet>, k: nat)
    requires k <= |ps|
    ensures RefAfter(codec, ref, ps) == RefAfter(codec, RefAfter(codec, ref, ps[..k]), ps[k..])
    ensures Outcomes(codec, ref, ps)[k..] == Outcomes(codec, RefAfter(codec, ref, ps[..k]), ps[k..])
    ensures Outcomes(codec, ref, ps)[..k] == Outcomes(codec, ref, ps[..k])
    decreases k
  {
    if k == 0 {
      assert ps[0..] == ps && ps[..0] == [];
    } else {
      assert ps[..k][1..] == ps[1..][..k - 1] && ps[1..][k - 1..] == ps[k..];
      DecodeInTwoParts(codec, codec.video(ref, ps[0]).0, ps[1..], k - 1);
    }
  }

  /** Decoding `p` does not look at the reference state. */
  ghost predicate StandsAlone<Ref(!new), Frame, Chunk>(codec: Codec<Ref, Frame, Chunk>, p: Packet) {
    forall r, r' :: codec.video(r, p) == codec.video(r', p)
  }

  lemma FromStandAlone<Ref(!new), Frame, Chunk>(codec: Codec<Ref, Frame, Chunk>, r: Ref, r': Ref, ps: seq<Packet>)
    requires ps != [] && StandsAlone(codec, ps[0])
    ensures Outcomes(codec, r, ps) == Outcomes(codec, r', ps)
    ensures RefAfter(codec, r, ps) == RefAfter(codec, r', ps)
  {
    assert codec.video(r, ps[0]) == codec.video(r', ps[0]);
  }

  /** From a stand-alone packet on, a cleared decoder shows what a decoder that saw everything shows. */
  lemma StartAtKeyframe<Ref(!new), Frame, Chunk>(codec: Codec<Ref, Frame, Chunk>, ps: seq<Packet>, k: nat, start: nat)
    requires k <= start <= |ps| && k < |ps| && StandsAlone(codec, ps[k])
    ensures Outcomes(codec, RefAfter(codec, codec.cleared, ps[k..start]), ps[start..])
            == Outcomes(codec, codec.cleared, ps)[start..]
  {
    hide StandsAlone;
    var seen := RefAfter(codec, codec.cleared, ps[..k]);
    DecodeInTwoParts(codec, codec.cleared, ps, start);
    if k == start {
      FromStandAlone(codec, codec.cleared, seen, ps[start..]);
      assert ps[k..start] == [];
    } else {
      DecodeInTwoParts(codec, codec.cleared, ps[..start], k);
      assert ps[..start][..k] == ps[..k] && ps[..start][k..] == ps[k..start];
      FromStandAlone(codec, codec.cleared, seen, ps[k..start]);
    }
  }

  // ----- the session along the file -----

  /** The stashes are empty and the demuxer has exactly `ps` ahead of it. */
  ghost predicate Ahead<Ref, Frame, Chunk>(env: Env<Ref, Frame, Chunk>, s: State<Ref>, ps: seq<Packet>) {
    && s.videoStash == [] && s.audioStash == []
    && ReadPackets(env.file, s.pos).Success?
    && Packets(ReadPackets(env.file, s.pos).value) == ps
  }

  /** Every packet is on the primary video track and carries no flag but the keyframe one. */
  ghost predicate OnlyVideo<Ref, Frame, Chunk>(env: Env<Ref, Frame, Chunk>, ps: seq<Packet>) {
    && env.video.Some?
    && forall i :: 0 <= i < |ps| ==>
         ps[i].header.trackId == env.video.value.trackId && ps[i].header.flags in {0, KEYFRAME}
  }

  lemma AheadStep<Ref, Frame, Chunk>(env: Env<Ref, Frame, Chunk>, s: State<Ref>, ps: seq<Packet>)
    requires Ahead(env, s, ps)
    ensures var (r, next) := NextPacketAt(env.file, s.pos);
            && r.Success?
            && (r.value.None? <==> ps == [])
            && (r.value.Some? ==> r.value.value.packet == ps[0] && Ahead(env, s.(pos := next), ps[1..]))
            && (r.value.None? ==> Ahead(env, s.(pos := next), []))
  {
    hide NextPacketAt;
    var (r, next) := NextPacketAt(env.file, s.pos);
    var read := ReadPackets(env.file, s.pos).value;
    if r.value.Some? {
      assert Packets(read)[0] == read[0].packet;
      assert Packets(read[1..]) == ps[1..];
    } else {
      NoneIsFinal(env.file, s.pos);
    }
  }

  lemma {:induction false} NoneIsFinal(f: File, pos: nat)
    requires NextPacketAt(f, pos).0 == Success(None)
    ensures ReadPackets(f, NextPacketAt(f, pos).1) == Success([])
    decreases if pos < |f.data| then |f.data| - pos else 0
  {
    hide NextBlockAt;
    var (r, next) := NextBlockAt(f, pos);
    PlaybackTheorems.NoneAtEnd(f, pos);
    if r.value.Some? {
      assert NextPacketAt(f, pos) == NextPacketAt(f, next);
      NoneIsFinal(f, next);
    } else {
      EndOfFileEnds(f, next);
    }
  }

  /** One packet of the video track: decoded with the state so far, and the position moves to it. */
  lemma DecodesOne<Ref, Frame, Chunk>(env: Env<Ref, Frame, Chunk>, s: State<Ref>, p: DemuxedPacket)
    requires OnlyVideo(env, [p.packet])
    ensures OnTrack(p, env.video)
    ensures var (s', r) := DecodeVideo(env, s, p, env.video.value.timescale);
            && r == env.codec.video(s.ref, p.packet).1
            && s' == s.(ref := env.codec.video(s.ref, p.packet).0, taken := s'.taken, position := s'.position,
                        videoCount := s'.videoCount)
            && (r.Success? ==> s'.position.ptsTicks == p.packet.header.pts)
  {
    assert [p.packet][0] == p.packet;
  }


  /** `s'` is `s` after decoding the first `k` of the packets ahead. */
  ghost predicate Decoded<Ref, Frame, Chunk>(
      env: Env<Ref, Frame, Chunk>, s: State<Ref>, ps: seq<Packet>, k: nat, s': State<Ref>)
  {
    && k <= |ps|
    && Ahead(env, s', ps[k..])
    && s'.ref == RefAfter(env.codec, s.ref, ps[..k])
    && (if k == 0 then s'.position == s.position else s'.position.ptsTicks == ps[k - 1].header.pts)
  }

  /** The same but for the position, which a packet that fails to decode does not move. */
  ghost predicate Reached<Ref, Frame, Chunk>(
      env: Env<Ref, Frame, Chunk>, s: State<Ref>, ps: seq<Packet>, k: nat, s': State<Ref>)
  {
    k <= |ps| && Ahead(env, s', ps[k..]) && s'.ref == RefAfter(env.codec, s.ref, ps[..k])
  }

  lemma ReachedHere<Ref, Frame, Chunk>(env: Env<Ref, Frame, Chunk>, s: State<Ref>, ps: seq<Packet>)
    requires Ahead(env, s, ps)
    ensures Reached(env, s, ps, 0, s)
  {
    assert ps[0..] == ps;
  }

  lemma ReachedOneMore<Ref, Frame, Chunk>(
      env: Env<Ref, Frame, Chunk>, s: State<Ref>, ps: seq<Packet>, s1: State<Ref>, k: nat, s': State<Ref>)
    requires ps != [] && s1.ref == env.codec.video(s.ref, ps[0]).0
    requires Reached(env, s1, ps[1..], k, s')
    ensures Reached(env, s, ps, k + 1, s')
  {
    hide Ahead;
    assert ps[1..][k..] == ps[k + 1..] && ps[..k + 1][1..] == ps[1..][..k];
  }

  lemma DecodedNothing<Ref, Frame, Chunk>(env: Env<Ref, Frame, Chunk>, s: State<Ref>, ps: seq<Packet>, s': State<Ref>)
    requires Ahead(env, s', ps) && s'.ref == s.ref && s'.position == s.position
    ensures Decoded(env, s, ps, 0, s')
  {
    assert ps[0..] == ps;
  }

  /** The first packet ahead, decoded, and then `k` more. */
  lemma DecodedOneMore<Ref, Frame, Chunk>(
      env: Env<Ref, Frame, Chunk>, s: State<Ref>, ps: seq<Packet>, s1: State<Ref>, k: nat, s': State<Ref>)
    requires ps != [] && s1.ref == env.codec.video(s.ref, ps[0]).0 && s1.position.ptsTicks == ps[0].header.pts
    requires Decoded(env, s1, ps[1..], k, s')
    ensures Decoded(env, s, ps, k + 1, s')
  {
    hide Ahead;
    assert ps[1..][k..] == ps[k + 1..] && ps[..k + 1][1..] == ps[1..][..k];
  }

  lemma DecodedInTwoParts<Ref, Frame, Chunk>(
      env: Env<Ref, Frame, Chunk>, s: State<Ref>, ps: seq<Packet>, k: nat, s1: State<Ref>, m: nat, s': State<Ref>)
    requires Decoded(env, s, ps, k, s1) && Decoded(env, s1, ps[k..], m, s')
    ensures Decoded(env, s, ps, k + m, s')
  {
    hide Ahead;
    assert ps[k..][m..] == ps[k + m..];
    assert ps[..k + m][..k] == ps[..k] && ps[..k + m][k..] == ps[k..][..m];
    DecodeInTwoParts(env.codec, s.ref, ps[..k + m], k);
  }

  lemma OnlyVideoSuffix<Ref, Frame, Chunk>(env: Env<Ref, Frame, Chunk>, ps: seq<Packet>, k: nat)
    requires OnlyVideo(env, ps) && k <= |ps|
    ensures OnlyVideo(env, ps[k..])
    ensures k < |ps| ==> OnlyVideo(env, [ps[k]])
  {
  }

  /** A call of `decode_next_video_frame` decodes the next packet, or reports the end. */
  lemma NextVideoDecodes<Ref, Frame, Chunk>(env: Env<Ref, Frame, Chunk>, s: State<Ref>, ps: seq<Packet>)
    requires Ahead(env, s, ps) && OnlyVideo(env, ps)
    ensures var (s', r) := NextVideo(env, s);
            if ps == [] then r == Success(None) && Ahead(env, s', []) && s'.ref == s.ref
            else
              && r == env.codec.video(s.ref, ps[0]).1
              && s'.ref == env.codec.video(s.ref, ps[0]).0
              && Ahead(env, s', ps[1..])
  {
    hide NextPacketAt, ReadPackets, DecodeVideo;
    AheadStep(env, s, ps);
    if ps != [] {
      OnlyVideoSuffix(env, ps, 0);
      var (r, next) := NextPacketAt(env.file, s.pos);
      DecodesOne(env, s.(pos := next), r.value.value);
    }
  }

  /** What `n` calls of `decode_next_video_frame` in a row return. */
  ghost function PlayOn<Ref, Frame, Chunk>(env: Env<Ref, Frame, Chunk>, s: State<Ref>, n: nat): (r: seq<Shown<Frame>>)
    ensures |r| == n
    decreases n
  {
    if n == 0 then [] else [NextVideo(env, s).1] + PlayOn(env, NextVideo(env, s).0, n - 1)
  }

  /** The first `n` outcomes, and "no frame" for every call behind the end of the file. */
  ghost function Padded<Frame>(outcomes: seq<Shown<Frame>>, n: nat): (r: seq<Shown<Frame>>)
    ensures |r| == n
  {
    if n <= |outcomes| then outcomes[..n] else outcomes + seq(n - |outcomes|, _ => Success(None))
  }

  lemma {:induction false} PlayOnDecodes<Ref, Frame, Chunk>(
      env: Env<Ref, Frame, Chunk>, s: State<Ref>, ps: seq<Packet>, n: nat)
    requires Ahead(env, s, ps) && OnlyVideo(env, ps)
    ensures PlayOn(env, s, n) == Padded(Outcomes(env.codec, s.ref, ps), n)
    decreases n
  {
    hide NextVideo, Ahead, OnlyVideo;
    if n > 0 {
      NextVideoDecodes(env, s, ps);
      if ps == [] {
        PlayOnDecodes(env, NextVideo(env, s).0, [], n - 1);
        assert Padded<Frame>([], n) == [Success(None)] + Padded<Frame>([], n - 1);
      } else {
        OnlyVideoSuffix(env, ps, 1);
        PlayOnDecodes(env, NextVideo(env, s).0, ps[1..], n - 1);
        var later := Outcomes(env.codec, NextVideo(env, s).0.ref, ps[1..]);
        PaddedCons(env.codec.video(s.ref, ps[0]).1, later, n - 1);
      }
    }
  }

  lemma PaddedCons<Frame>(first: Shown<Frame>, later: seq<Shown<Frame>>, n: nat)
    ensures Padded([first] + later, n + 1) == [first] + Padded(later, n)
  {
  }

  /** Nothing is shown by the first `k` of the outcomes. */
  ghost predicate ShowsNothing<Frame>(outcomes: seq<Shown<Frame>>, k: int) {
    forall j :: 0 <= j < k && j < |outcomes| ==> outcomes[j] == Success(None)
  }

  const SKIPPED_TOO_MANY: PlaybackError :=
    Malformed("excessive consecutive packets with no decodable primary A/V payload")

  /**
   What one step in file order returns, by the outcomes ahead and its skip budget, and how many
   packets it decodes.
   */
  function StepOf<Frame, Chunk>(outcomes: seq<Shown<Frame>>, n: nat)
    : (r: (Result<Event<Frame, Chunk>, PlaybackError>, nat))
    ensures r.1 <= |outcomes|
    decreases n
  {
    if n == 0 then (Failure(SKIPPED_TOO_MANY), 0)
    else if outcomes == [] then (Success(EndEvent), 0)
    else
      match outcomes[0]
      case Failure(e) => (Failure(e), 1)
      case Success(Some(frame)) => (Success(VideoEvent(frame)), 1)
      case Success(None) =>
        var (r, k) := StepOf(outcomes[1..], n - 1);
        (r, k + 1)
  }

  lemma {:induction false} StepShows<Frame, Chunk>(outcomes: seq<Shown<Frame>>, n: nat)
    requires StepOf<Frame, Chunk>(outcomes, n).0.Success?
    ensures var (r, k) := StepOf<Frame, Chunk>(outcomes, n);
            match r.value
            case VideoEvent(frame) => k > 0 && outcomes[k - 1] == Success(Some(frame)) && ShowsNothing(outcomes, k - 1)
            case AudioEvent(_) => false
            case EndEvent => k == |outcomes| && ShowsNothing(outcomes, k)
    decreases n
  {
    if outcomes != [] && outcomes[0] == Success(None) {
      StepShows<Frame, Chunk>(outcomes[1..], n - 1);
      var (r, k) := StepOf<Frame, Chunk>(outcomes, n);
      ShowsNothingCons(outcomes, if r.value.EndEvent? then k - 1 else k - 2);
    }
  }

  lemma ShowsNothingCons<Frame>(outcomes: seq<Shown<Frame>>, k: int)
    requires outcomes != [] && outcomes[0] == Success(None) && ShowsNothing(outcomes[1..], k)
    ensures ShowsNothing(outcomes, k + 1)
  {
    forall j | 0 <= j < k + 1 && j < |outcomes|
      ensures outcomes[j] == Success(None)
    {
      if j > 0 {
        assert outcomes[1..][j - 1] == outcomes[j];
      }
    }
  }

  /**
   One step in file order decodes up to the next packet that shows something, fails to decode, or
   comes behind more hidden packets than it may skip, or to the end.
   */
  lemma {:induction false} StepDecodes<Ref, Frame, Chunk>(
      env: Env<Ref, Frame, Chunk>, s: State<Ref>, ps: seq<Packet>, n: nat)
    requires Ahead(env, s, ps) && OnlyVideo(env, ps)
    ensures var (r, k) := StepOf(Outcomes(env.codec, s.ref, ps), n);
            && ReadStep(env, s, n).1 == r
            && Reached(env, s, ps, k, ReadStep(env, s, n).0)
            && (r.Success? ==> Decoded(env, s, ps, k, ReadStep(env, s, n).0))
    decreases n
  {
    hide NextPacketAt, ReadPackets, DecodeVideo, DecodeAudio, Ahead, OnTrack, Decoded, Reached, OnlyVideo;
    AheadStep(env, s, ps);
    var (r, next) := NextPacketAt(env.file, s.pos);
    if n == 0 {
      ReachedHere(env, s, ps);
    } else if r.value.None? {
      AheadSame(env, s.(pos := next), ReadStep(env, s, n).0, ps);
      DecodedNothing(env, s, ps, ReadStep(env, s, n).0);
      DecodedReaches(env, s, ps, 0, ReadStep(env, s, n).0);
    } else {
      var p := r.value.value;
      OnlyVideoSuffix(env, ps, 0);
      OnlyVideoSuffix(env, ps, 1);
      DecodesOne(env, s.(pos := next), p);
      VideoPrimary(env, ps);
      var (s1, shown) := DecodeVideo(env, s.(pos := next), p, env.video.value.timescale);
      AheadSame(env, s.(pos := next), s1, ps[1..]);
      var later := Outcomes(env.codec, s1.ref, ps[1..]);
      assert Outcomes(env.codec, s.ref, ps) == [shown] + later;
      if shown.Failure? || shown.value.Some? {
        ReachedHere(env, s1, ps[1..]);
        ReachedOneMore(env, s, ps, s1, 0, s1);
        if shown.Success? {
          DecodedNothing(env, s1, ps[1..], s1);
          DecodedOneMore(env, s, ps, s1, 0, s1);
        }
      } else {
        StepDecodes(env, s1, ps[1..], n - 1);
        hide Outcomes;
        assert ([shown] + later)[1..] == later;
        var (r', k) := StepOf<Frame, Chunk>(later, n - 1);
        ReachedOneMore(env, s, ps, s1, k, ReadStep(env, s, n).0);
        if r'.Success? {
          DecodedOneMore(env, s, ps, s1, k, ReadStep(env, s, n).0);
        }
      }
    }
  }

  lemma DecodedReaches<Ref, Frame, Chunk>(
      env: Env<Ref, Frame, Chunk>, s: State<Ref>, ps: seq<Packet>, k: nat, s': State<Ref>)
    requires Decoded(env, s, ps, k, s')
    ensures Reached(env, s, ps, k, s')
  {
  }

  lemma VideoPrimary<Ref, Frame, Chunk>(env: Env<Ref, Frame, Chunk>, ps: seq<Packet>)
    requires OnlyVideo(env, ps)
    ensures env.video.Some?
  {
  }

  lemma AheadSame<Ref, Frame, Chunk>(env: Env<Ref, Frame, Chunk>, s: State<Ref>, s': State<Ref>, ps: seq<Packet>)
    requires Ahead(env, s, ps)
    requires s'.pos == s.pos && s'.videoStash == s.videoStash && s'.audioStash == s.audioStash
    ensures Ahead(env, s', ps)
  {
  }

  /** Among the first `k` packets those that show a frame lie before `target`. */
  ghost predicate ShownBefore<Frame>(outcomes: seq<Shown<Frame>>, ps: seq<Packet>, k: int, target: u64) {
    forall j :: 0 <= j < k && j < |outcomes| && j < |ps| && outcomes[j].Success? && outcomes[j].value.Some? ==>
      ps[j].header.pts < target
  }

  lemma ShownBeforeJoins<Frame>(outcomes: seq<Shown<Frame>>, ps: seq<Packet>, k: nat, m: nat, target: u64)
    requires |outcomes| == |ps| && 0 < k <= |ps|
    requires ShowsNothing(outcomes, k - 1) && ps[k - 1].header.pts < target
    requires ShownBefore(outcomes[k..], ps[k..], m - 1, target)
    ensures ShownBefore(outcomes, ps, k + m - 1, target)
  {
    forall j | 0 <= j < k + m - 1 && j < |outcomes| && outcomes[j].Success? && outcomes[j].value.Some?
      ensures ps[j].header.pts < target
    {
      if j >= k {
        assert outcomes[k..][j - k] == outcomes[j] && ps[k..][j - k] == ps[j];
      }
    }
  }

  /** Unless the file has ended, the last of the first `k` packets is one that shows a frame. */
  ghost predicate StopsAtShown<Frame>(outcomes: seq<Shown<Frame>>, k: int) {
    0 < k < |outcomes| ==> outcomes[k - 1].Success? && outcomes[k - 1].value.Some?
  }

  lemma StopsAtShownJoins<Frame>(outcomes: seq<Shown<Frame>>, k: nat, m: nat)
    requires k <= |outcomes| && StopsAtShown(outcomes, k) && StopsAtShown(outcomes[k..], m)
    ensures StopsAtShown(outcomes, k + m)
  {
    if m > 0 && k + m < |outcomes| {
      assert outcomes[k..][m - 1] == outcomes[k + m - 1];
    }
  }

  lemma NothingShownBefore<Frame>(outcomes: seq<Shown<Frame>>, ps: seq<Packet>, k: int, target: u64)
    requires ShowsNothing(outcomes, k)
    ensures ShownBefore(outcomes, ps, k, target)
  {
  }

  lemma {:induction false} ForwardDecodes<Ref, Frame, Chunk>(
      env: Env<Ref, Frame, Chunk>, s: State<Ref>, ps: seq<Packet>, target: u64, n: nat) returns (k: nat)
    requires Ahead(env, s, ps) && OnlyVideo(env, ps)
    requires DecodeForward(env, s, target, n).1.Success?
    ensures Decoded(env, s, ps, k, DecodeForward(env, s, target, n).0)
    ensures ShownBefore(Outcomes(env.codec, s.ref, ps), ps, k - 1, target)
    ensures StopsAtShown(Outcomes(env.codec, s.ref, ps), k)
    decreases n
  {
    hide ReadStep, Ahead, Decoded, OnlyVideo, ShownBefore, ShowsNothing, StepOf;
    if n == 0 {
      k := 0;
      DecodedNothing(env, s, ps, s);
      NoneShown(Outcomes(env.codec, s.ref, ps), ps, target);
    } else {
      VideoPrimary(env, ps);
      var (s1, event) := NextStep(env, s);
      var outcomes := Outcomes(env.codec, s.ref, ps);
      StepDecodes(env, s, ps, MAX_SKIP);
      StepShows<Frame, Chunk>(outcomes, MAX_SKIP);
      k := StepOf<Frame, Chunk>(outcomes, MAX_SKIP).1;
      if event.value.EndEvent? || s1.position.ptsTicks >= target {
        FewerShowNothing(outcomes, k);
        NothingShownBefore(outcomes, ps, k - 1, target);
      } else {
        DecodedParts(env, s, ps, k, s1);
        OnlyVideoSuffix(env, ps, k);
        var m := ForwardDecodes(env, s1, ps[k..], target, n - 1);
        DecodedInTwoParts(env, s, ps, k, s1, m, DecodeForward(env, s, target, n).0);
        DecodeInTwoParts(env.codec, s.ref, ps, k);
        ShownBeforeJoins(outcomes, ps, k, m, target);
        StopsAtShownJoins(outcomes, k, m);
        k := k + m;
      }
    }
  }

  lemma NoneShown<Frame>(outcomes: seq<Shown<Frame>>, ps: seq<Packet>, target: u64)
    ensures ShownBefore(outcomes, ps, -1, target)
  {
  }

  lemma FewerShowNothing<Frame>(outcomes: seq<Shown<Frame>>, k: nat)
    ensures ShowsNothing(outcomes, k) ==> ShowsNothing(outcomes, k - 1)
  {
  }

  lemma DecodedParts<Ref, Frame, Chunk>(
      env: Env<Ref, Frame, Chunk>, s: State<Ref>, ps: seq<Packet>, k: nat, s': State<Ref>)
    requires Decoded(env, s, ps, k, s')
    ensures k <= |ps| && Ahead(env, s', ps[k..]) && s'.ref == RefAfter(env.codec, s.ref, ps[..k])
    ensures k == 0 ==> s'.position == s.position
    ensures k > 0 ==> s'.position.ptsTicks == ps[k - 1].header.pts
  {
  }

  lemma RecoverDecodes<Ref, Frame, Chunk>(
      env: Env<Ref, Frame, Chunk>, s: State<Ref>, ps: seq<Packet>, target: u64, n: nat) returns (k: nat)
    requires Ahead(env, s, ps) && OnlyVideo(env, ps) && n > 0
    requires Recover(env, s, target, n).1.Success?
    ensures Decoded(env, s, ps, k, Recover(env, s, target, n).0)
    ensures ShownBefore(Outcomes(env.codec, s.ref, ps), ps, k - 1, target)
    ensures StopsAtShown(Outcomes(env.codec, s.ref, ps), k)
    ensures s.position.ptsTicks >= target ==> k == 0
    ensures s.position.ptsTicks < target ==> k > 0 && ps[k - 1].header.pts >= target
  {
    hide Ahead, Decoded, OnlyVideo, ShownBefore, DecodeForward;
    var s' := Recover(env, s, target, n).0;
    if s.position.ptsTicks >= target {
      k := 0;
      DecodedNothing(env, s, ps, s);
      NoneShown(Outcomes(env.codec, s.ref, ps), ps, target);
    } else {
      var forward := DecodeForward(env, s, target, n).0;
      k := ForwardDecodes(env, s, ps, target, n);
      DecodedParts(env, s, ps, k, forward);
      DecodedCounters(env, s, ps, k, forward, s');
    }
  }

  lemma DecodedCounters<Ref, Frame, Chunk>(
      env: Env<Ref, Frame, Chunk>, s: State<Ref>, ps: seq<Packet>, k: nat, s1: State<Ref>, s2: State<Ref>)
    requires Decoded(env, s, ps, k, s1)
    requires s2 == s1.(videoCount := s2.videoCount, audioCount := s2.audioCount)
    ensures Decoded(env, s, ps, k, s2)
  {
  }

  // ----- seeking in a file the muxer wrote -----

  /** The packets of a finished file as a session on it sees them, with the index it was given. */
  ghost predicate Playing<Ref(!new), Frame, Chunk>(
      env: Env<Ref, Frame, Chunk>, cs: Checksums, header: FileHeader, tracks: seq<TrackDescriptor>,
      packets: seq<Packet>, index: seq<IndexEntry>)
  {
    && RoundTrips(cs, header, tracks, packets)
    && env.file == FileOf(cs, header, FinishedFile(cs, header, tracks, packets))
    && index == IndexFor(LayoutOf(cs, header, tracks), ClosedBlocks(LayoutOf(cs, header, tracks), packets))
    && OnlyVideo(env, packets)
    && (forall i :: 0 <= i < |packets| && packets[i].header.flags == KEYFRAME ==> StandsAlone(env.codec, packets[i]))
    && (env.video.value.codecId != 3 ==>
          forall i :: 0 <= i < |packets| ==> StandsAlone(env.codec, packets[i]))
  }

  /** Where a seek lands: the latest keyframe not after the target, or without one, for an intra codec, any packet. */
  ghost predicate LandsOn(index: seq<IndexEntry>, video: TrackInfo, target: u64, k: nat) {
    || IsLatest(index, k, Some(video.trackId), target)
    || (&& video.codecId != 3
        && (forall i :: 0 <= i < |index| ==> !Selectable(index[i], Some(video.trackId), target))
        && IsLatest(index, k, None, target))
  }

  lemma SeekLands<Ref(!new), Frame, Chunk>(
      env: Env<Ref, Frame, Chunk>, cs: Checksums, header: FileHeader, tracks: seq<TrackDescriptor>,
      packets: seq<Packet>, index: seq<IndexEntry>, s: State<Ref>, ms: u64) returns (k: nat)
    requires Playing(env, cs, header, tracks, packets, index)
    requires SeekKeyframe(env, s, index, ms).1.Success?
    ensures k < |packets| == |index|
    ensures LandsOn(index, env.video.value, TargetPts(ms, s.position.timescale), k)
    ensures StandsAlone(env.codec, packets[k])
    ensures var s' := SeekKeyframe(env, s, index, ms).0;
            && Ahead(env, s', packets[k..])
            && s'.ref == env.codec.cleared
            && s'.position.ptsTicks == packets[k].header.pts <= TargetPts(ms, s.position.timescale)
            && s'.position.timescale == AtLeastOne(s.position.timescale)
  {
    hide Latest, RoundTrips, IndexFor, ClosedBlocks, ReadPackets, FinishedFile, LayoutOf, StandsAlone, TargetPts;
    var target := TargetPts(ms, s.position.timescale);
    var track := Some(env.video.value.trackId);
    LatestIsLatest(index, track, target);
    LatestIsLatest(index, None, target);
    k := match Latest(index, track, target) case Some(j) => j case None => Latest(index, None, target).value;
    IndexMatches(cs, header, tracks, packets, k);
  }

  lemma IndexMatches(cs: Checksums, header: FileHeader, tracks: seq<TrackDescriptor>, packets: seq<Packet>, k: nat)
    requires RoundTrips(cs, header, tracks, packets)
    ensures var l := LayoutOf(cs, header, tracks);
            |IndexFor(l, ClosedBlocks(l, packets))| == |packets|
    ensures k < |packets| ==>
              var l := LayoutOf(cs, header, tracks);
              var e := IndexFor(l, ClosedBlocks(l, packets))[k];
              && e.pts == packets[k].header.pts && e.flags == packets[k].header.flags
              && e.trackId == packets[k].header.trackId
              && ReadPackets(FileOf(cs, header, FinishedFile(cs, header, tracks, packets)), e.fileOffset).Success?
              && Packets(ReadPackets(FileOf(cs, header, FinishedFile(cs, header, tracks, packets)), e.fileOffset).value)
                 == packets[k..]
  {
    hide PacketsFrom, ClosedBlocks, FinishedFile, ReadPackets, WithinReadLimits, Numbered;
    ClosedHoldsPackets(LayoutOf(cs, header, tracks), packets);
    if k < |packets| {
      EntryPointsAtPacket(cs, header, tracks, packets, k);
    }
  }

  /** Where a successful seek for `target` leaves a session on `packets`. */
  ghost predicate SeekOutcome<Ref(!new), Frame, Chunk>(
      env: Env<Ref, Frame, Chunk>, packets: seq<Packet>, index: seq<IndexEntry>, target: u64, k: nat, start: nat)
  {
    && env.video.Some?
    && k <= start <= |packets| && k < |packets| == |index|
    && LandsOn(index, env.video.value, target, k)
    && if packets[k].header.pts == target then start == k
       else
         && k < start
         && packets[k].header.pts < target <= packets[start - 1].header.pts
         && ShownBefore(Outcomes(env.codec, env.codec.cleared, packets)[k..], packets[k..], start - k - 1, target)
         && StopsAtShown(Outcomes(env.codec, env.codec.cleared, packets), start)
  }

  lemma SeekRecovers<Ref(!new), Frame, Chunk>(
      env: Env<Ref, Frame, Chunk>, cs: Checksums, header: FileHeader, tracks: seq<TrackDescriptor>,
      packets: seq<Packet>, index: seq<IndexEntry>, s: State<Ref>, ms: u64) returns (k: nat, start: nat)
    requires Playing(env, cs, header, tracks, packets, index)
    requires SeekMs(env, s, index, ms).1.Success?
    ensures SeekOutcome(env, packets, index, TargetPts(ms, s.position.timescale), k, start)
    ensures Ahead(env, SeekMs(env, s, index, ms).0, packets[start..])
    ensures Outcomes(env.codec, SeekMs(env, s, index, ms).0.ref, packets[start..])
            == Outcomes(env.codec, env.codec.cleared, packets)[start..]
  {
    hide SeekKeyframe, Recover, Ahead, RoundTrips, StandsAlone, ShownBefore, IsLatest, Selectable, TargetPts,
         OnlyVideo, RefAfter, LandsOn, Outcomes, IndexFor, ClosedBlocks, FinishedFile, Decoded;
    var target := TargetPts(ms, s.position.timescale);
    k := SeekLands(env, cs, header, tracks, packets, index, s, ms);
    var s1 := SeekKeyframe(env, s, index, ms).0;
    OnlyVideoSuffix(env, packets, k);
    SameTarget(ms, s.position.timescale);
    var m := RecoverDecodes(env, s1, packets[k..], target, RECOVERY_STEP_BUDGET);
    DecodedParts(env, s1, packets[k..], m, SeekMs(env, s, index, ms).0);
    start := k + m;
    Windows(packets, k, m);
    KeyframeOutcomes(env, packets, k);
    StopsAtShownFrom(Outcomes(env.codec, env.codec.cleared, packets), k, m);
    StartAtKeyframe(env.codec, packets, k, start);
  }

  lemma StopsAtShownFrom<Frame>(outcomes: seq<Shown<Frame>>, k: nat, m: nat)
    requires k <= |outcomes| && StopsAtShown(outcomes[k..], m)
    ensures 0 < m ==> StopsAtShown(outcomes, k + m)
  {
  }

  lemma Windows<T>(s: seq<T>, k: nat, m: nat)
    requires k + m <= |s|
    ensures s[k..][m..] == s[k + m..] && s[k..][..m] == s[k..k + m]
    ensures m > 0 ==> s[k..][m - 1] == s[k + m - 1]
  {
  }

  ghost function DataStart(cs: Checksums, header: FileHeader, tracks: seq<TrackDescriptor>): nat {
    if EncodeFileHeader(header).Success? then LayoutOf(cs, header, tracks).base else 0
  }

  /**
   Random access equals sequential decode. After `seek_ms` succeeds, playback is at `start`: at the
   keyframe itself when its pts is the target, and otherwise just behind the first packet whose
   frame is shown at or after the target, or at the end of the file if only hidden packets reach
   the target. Every later `decode_next_video_frame` then returns what the same call returns when
   the file is played from its start with a cleared decoder.
   */
  lemma SeekEqualsSequential<Ref(!new), Frame, Chunk>(
      env: Env<Ref, Frame, Chunk>, cs: Checksums, header: FileHeader, tracks: seq<TrackDescriptor>,
      packets: seq<Packet>, index: seq<IndexEntry>, s: State<Ref>, ms: u64, n: nat) returns (k: nat, start: nat)
    requires Playing(env, cs, header, tracks, packets, index)
    requires SeekMs(env, s, index, ms).1.Success?
    ensures SeekOutcome(env, packets, index, TargetPts(ms, s.position.timescale), k, start)
    ensures PlayOn(env, SeekMs(env, s, index, ms).0, n)
            == PlayOn(env, Restarted(env, s, DataStart(cs, header, tracks)), start + n)[start..]
  {
    hide SeekMs, Ahead, RoundTrips, StandsAlone, TargetPts, OnlyVideo, Outcomes, IndexFor, ClosedBlocks, FinishedFile,
         DataStart, LandsOn, ShownBefore, StopsAtShown, PlayOn;
    k, start := SeekRecovers(env, cs, header, tracks, packets, index, s, ms);
    OnlyVideoSuffix(env, packets, start);
    StartAhead(env, cs, header, tracks, packets, index, s);
    PlayOnDecodes(env, SeekMs(env, s, index, ms).0, packets[start..], n);
    PlayOnDecodes(env, Restarted(env, s, DataStart(cs, header, tracks)), packets, start + n);
    OutcomesWindow(Outcomes(env.codec, env.codec.cleared, packets), start, n);
  }

  lemma SameTarget(ms: u64, timescale: u32)
    ensures TargetPts(ms, AtLeastOne(timescale)) == TargetPts(ms, timescale)
  {
  }

  lemma OutcomesWindow<Frame>(outcomes: seq<Shown<Frame>>, start: nat, n: nat)
    requires start <= |outcomes|
    ensures Padded(outcomes[start..], n) == Padded(outcomes, start + n)[start..]
  {
  }

  lemma KeyframeOutcomes<Ref(!new), Frame, Chunk>(env: Env<Ref, Frame, Chunk>, packets: seq<Packet>, k: nat)
    requires k < |packets| && StandsAlone(env.codec, packets[k])
    ensures Outcomes(env.codec, env.codec.cleared, packets[k..]) == Outcomes(env.codec, env.codec.cleared, packets)[k..]
  {
    StartAtKeyframe(env.codec, packets, k, k);
    assert packets[k..k] == [];
  }

  lemma StartAhead<Ref(!new), Frame, Chunk>(
      env: Env<Ref, Frame, Chunk>, cs: Checksums, header: FileHeader, tracks: seq<TrackDescriptor>,
      packets: seq<Packet>, index: seq<IndexEntry>, s: State<Ref>)
    requires Playing(env, cs, header, tracks, packets, index)
    ensures Ahead(env, Restarted(env, s, DataStart(cs, header, tracks)), packets)
  {
    hide ReadPackets, FinishedFile, OnlyVideo, WithinReadLimits, PacketsFrom, ClosedBlocks;
    FinishedReadBack(cs, header, tracks, packets);
  }

  // ----- the same in file order -----

  type Stepped<Frame, Chunk> = Result<Event<Frame, Chunk>, PlaybackError>

  /** What `n` calls of `decode_next_step` in a row return. */
  ghost function StepOn<Ref, Frame, Chunk>(env: Env<Ref, Frame, Chunk>, s: State<Ref>, n: nat)
    : (r: seq<Stepped<Frame, Chunk>>)
    ensures |r| == n
    decreases n
  {
    if n == 0 then [] else [NextStep(env, s).1] + StepOn(env, NextStep(env, s).0, n - 1)
  }

  /** The same from the outcomes ahead alone. */
  function StepsOf<Frame, Chunk>(outcomes: seq<Shown<Frame>>, n: nat): (r: seq<Stepped<Frame, Chunk>>)
    ensures |r| == n
    decreases n
  {
    if n == 0 then []
    else
      var (r, k) := StepOf(outcomes, MAX_SKIP);
      [r] + StepsOf(outcomes[k..], n - 1)
  }

  lemma {:induction false} StepOnDecodes<Ref, Frame, Chunk>(
      env: Env<Ref, Frame, Chunk>, s: State<Ref>, ps: seq<Packet>, n: nat)
    requires Ahead(env, s, ps) && OnlyVideo(env, ps)
    ensures StepOn(env, s, n) == StepsOf(Outcomes(env.codec, s.ref, ps), n)
    decreases n
  {
    hide ReadStep, Ahead, OnlyVideo, StepOf, Decoded, Outcomes;
    if n > 0 {
      VideoPrimary(env, ps);
      StepDecodes(env, s, ps, MAX_SKIP);
      var k, next := StepOf<Frame, Chunk>(Outcomes(env.codec, s.ref, ps), MAX_SKIP).1, NextStep(env, s).0;
      OnlyVideoSuffix(env, ps, k);
      StepOnDecodes(env, next, ps[k..], n - 1);
      DecodeInTwoParts(env.codec, s.ref, ps, k);
    }
  }

  /** How many of the outcomes show a frame. */
  function CountShown<Frame>(outcomes: seq<Shown<Frame>>): nat {
    if outcomes == [] then 0
    else (if outcomes[0].Success? && outcomes[0].value.Some? then 1 else 0) + CountShown(outcomes[1..])
  }

  /** Hidden packets in front only cost skip budget. */
  lemma {:induction false} HiddenSkipped<Frame, Chunk>(outcomes: seq<Shown<Frame>>, start: nat, n: nat, m: nat)
    requires start <= |outcomes| && CountShown(outcomes[..start]) == 0 && n <= m
    requires StepOf<Frame, Chunk>(outcomes, n).0.Success?
    ensures var (r, k) := StepOf<Frame, Chunk>(outcomes, n);
            start <= k && StepOf<Frame, Chunk>(outcomes[start..], m) == (r, k - start)
    decreases n
  {
    if start > 0 {
      assert outcomes[..start][1..] == outcomes[1..][..start - 1] && outcomes[1..][start - 1..] == outcomes[start..];
      HiddenSkipped<Frame, Chunk>(outcomes[1..], start - 1, n - 1, m);
    } else {
      assert outcomes[0..] == outcomes;
      LargerBudget<Frame, Chunk>(outcomes, n, m);
    }
  }

  lemma {:induction false} LargerBudget<Frame, Chunk>(outcomes: seq<Shown<Frame>>, n: nat, m: nat)
    requires n <= m && StepOf<Frame, Chunk>(outcomes, n).0.Success?
    ensures StepOf<Frame, Chunk>(outcomes, m) == StepOf<Frame, Chunk>(outcomes, n)
    decreases n
  {
    if outcomes != [] && outcomes[0] == Success(None) {
      LargerBudget<Frame, Chunk>(outcomes[1..], n - 1, m - 1);
    }
  }

  /** A step that stops before `start` has shown the first of the frames before it. */
  lemma {:induction false} ShownFirst<Frame, Chunk>(outcomes: seq<Shown<Frame>>, start: nat, n: nat)
    requires start <= |outcomes| && CountShown(outcomes[..start]) > 0
    requires StepOf<Frame, Chunk>(outcomes, n).0.Success?
    ensures var k := StepOf<Frame, Chunk>(outcomes, n).1;
            k <= start && CountShown(outcomes[k..][..start - k]) == CountShown(outcomes[..start]) - 1
    decreases n
  {
    assert outcomes[..start][1..] == outcomes[1..][..start - 1];
    if outcomes[0] == Success(None) {
      ShownFirst<Frame, Chunk>(outcomes[1..], start - 1, n - 1);
      var k := StepOf<Frame, Chunk>(outcomes[1..], n - 1).1;
      assert outcomes[1..][k..] == outcomes[k + 1..];
    }
  }

  /** `start` is where a step begins that comes behind all frames before `start`. */
  ghost predicate BehindShown<Frame>(outcomes: seq<Shown<Frame>>, start: nat) {
    0 < start <= |outcomes| ==> outcomes[start - 1].Success? && outcomes[start - 1].value.Some?
  }

  /**
   Stepping gets to `start`: none of the steps fails that show the frames before it, nor, if hidden
   packets stand directly before it, the one that passes over them.
   */
  ghost predicate GetsTo<Frame, Chunk>(
      steps: seq<Stepped<Frame, Chunk>>, outcomes: seq<Shown<Frame>>, start: nat, before: nat)
  {
    forall i :: 0 <= i < |steps| && (i < before || (i == before && !BehindShown(outcomes, start))) ==> steps[i].Success?
  }

  lemma {:induction false} ShownIsCounted<Frame>(outcomes: seq<Shown<Frame>>, start: nat)
    requires 0 < start <= |outcomes| && BehindShown(outcomes, start)
    ensures CountShown(outcomes[..start]) > 0
    decreases start
  {
    if start > 1 {
      assert outcomes[..start][1..] == outcomes[1..][..start - 1] && outcomes[1..][start - 2] == outcomes[start - 1];
      ShownIsCounted(outcomes[1..], start - 1);
    }
  }

  lemma GetsToLater<Frame, Chunk>(first: Stepped<Frame, Chunk>, later: seq<Stepped<Frame, Chunk>>,
                                  outcomes: seq<Shown<Frame>>, start: nat, k: nat, before: nat)
    requires k <= start <= |outcomes| && before > 0 && GetsTo([first] + later, outcomes, start, before)
    ensures GetsTo(later, outcomes[k..], start - k, before - 1)
  {
    forall i | 0 <= i < |later|
        && (i < before - 1 || (i == before - 1 && !BehindShown(outcomes[k..], start - k)))
      ensures later[i].Success?
    {
      assert ([first] + later)[i + 1] == later[i];
    }
  }

  lemma {:induction false} StepsFrom<Frame, Chunk>(outcomes: seq<Shown<Frame>>, start: nat, n: nat)
    requires start <= |outcomes|
    requires var before := CountShown(outcomes[..start]);
      GetsTo(StepsOf<Frame, Chunk>(outcomes, before + n), outcomes, start, before)
    ensures var before := CountShown(outcomes[..start]);
      StepsOf<Frame, Chunk>(outcomes[start..], n) == StepsOf<Frame, Chunk>(outcomes, before + n)[before..]
    decreases CountShown(outcomes[..start])
  {
    hide StepOf, CountShown;
    var c := CountShown(outcomes[..start]);
    var all := StepsOf<Frame, Chunk>(outcomes, c + n);
    if c == 0 {
      assert all[0..] == all;
      if start == 0 {
        assert outcomes[0..] == outcomes;
      } else if n > 0 {
        if BehindShown(outcomes, start) {
          ShownIsCounted(outcomes, start);
        }
        assert all[0].Success?;
        HiddenSkipped<Frame, Chunk>(outcomes, start, MAX_SKIP, MAX_SKIP);
        var k := StepOf<Frame, Chunk>(outcomes, MAX_SKIP).1;
        assert outcomes[start..][k - start..] == outcomes[k..];
      }
    } else {
      assert all[0].Success?;
      ShownFirst<Frame, Chunk>(outcomes, start, MAX_SKIP);
      var (r, k) := StepOf<Frame, Chunk>(outcomes, MAX_SKIP);
      var later := StepsOf<Frame, Chunk>(outcomes[k..], c + n - 1);
      assert outcomes[k..][start - k..] == outcomes[start..];
      assert CountShown(outcomes[k..][..start - k]) == c - 1 && (c - 1) + n == c + n - 1;
      assert all == [r] + later;
      GetsToLater(r, later, outcomes, start, k, c);
      StepsFrom<Frame, Chunk>(outcomes[k..], start - k, n);
      assert all[c..] == later[c - 1..];
    }
  }

  /**
   Random access equals sequential decode for `decode_next_step`: if stepping from the start of the
   file gets to where the seek landed, then after the seek every step returns what the sequential run
   returns after as many steps more as there are frames before `start`, failed steps included.
   */
  lemma SeekStepsEqualSequential<Ref(!new), Frame, Chunk>(
      env: Env<Ref, Frame, Chunk>, cs: Checksums, header: FileHeader, tracks: seq<TrackDescriptor>,
      packets: seq<Packet>, index: seq<IndexEntry>, s: State<Ref>, ms: u64, n: nat) returns (k: nat, start: nat)
    requires Playing(env, cs, header, tracks, packets, index)
    requires SeekMs(env, s, index, ms).1.Success?
    ensures SeekOutcome(env, packets, index, TargetPts(ms, s.position.timescale), k, start)
    ensures var outcomes := Outcomes(env.codec, env.codec.cleared, packets);
            var before := CountShown(outcomes[..start]);
            var sequential := StepOn(env, Restarted(env, s, DataStart(cs, header, tracks)), before + n);
            GetsTo(sequential, outcomes, start, before) ==>
              StepOn(env, SeekMs(env, s, index, ms).0, n) == sequential[before..]
  {
    hide SeekMs, Ahead, RoundTrips, StandsAlone, TargetPts, OnlyVideo, Outcomes, IndexFor, ClosedBlocks, FinishedFile,
         DataStart, LandsOn, ShownBefore, StopsAtShown, StepOn, StepsOf, CountShown, GetsTo;
    k, start := SeekRecovers(env, cs, header, tracks, packets, index, s, ms);
    OnlyVideoSuffix(env, packets, start);
    StartAhead(env, cs, header, tracks, packets, index, s);
    var outcomes := Outcomes(env.codec, env.codec.cleared, packets);
    var before := CountShown(outcomes[..start]);
    StepOnDecodes(env, SeekMs(env, s, index, ms).0, packets[start..], n);
    StepOnDecodes(env, Restarted(env, s, DataStart(cs, header, tracks)), packets, before + n);
    if GetsTo(StepsOf<Frame, Chunk>(outcomes, before + n), outcomes, start, before) {
      StepsFrom<Frame, Chunk>(outcomes, start, n);
    }
  }
}
