/** The bytes of an encoded audio frame: its header, its channels, and both forms of a channel. */
module AudioLayout {
  import opened Wrappers
  import opened Bytes
  import opened LittleEndian
  import opened RansModel
  import opened RansSpec
  import opened RansCoder
  import opened AudioSpec
  import opened PredictionTheorems

  /** A signed sample in two's complement. */
  predicate IsI16(s: seq<byte>, i: nat, v: int) {
    -0x8000 <= v < 0x8000 && Is16(s, i, if v >= 0 then v else v + 0x1_0000)
  }

  /** Samples one after the other from `from` on. */
  predicate AreI16s(s: seq<byte>, from: nat, samples: seq<i16>) {
    from + 2 * |samples| <= |s| && forall i :: 0 <= i < |samples| ==> IsI16(s, from + 2 * i, samples[i])
  }

  lemma SampleBytes(v: i16)
    ensures IsI16(I16Bytes(v), 0, v)
  {
    U16Layout(v % 0x1_0000);
  }

  lemma SamplesAt(s: seq<byte>, from: nat, samples: seq<i16>)
    requires from + 2 * |samples| <= |s| && s[from..from + 2 * |samples|] == I16s(samples)
    ensures AreI16s(s, from, samples)
  {
    var part := s[from..from + 2 * |samples|];
    forall i | 0 <= i < |samples|
      ensures IsI16(s, from + 2 * i, samples[i])
    {
      SampleBytes(samples[i]);
      assert part[2 * i] == I16Bytes(samples[i])[0] && part[2 * i + 1] == I16Bytes(samples[i])[1];
    }
  }

  lemma SizeAt(s: seq<byte>, i: nat, v: u32)
    requires i + 4 <= |s| && s[i..i + 4] == LeBytes(v, 4)
    ensures Is32(s, i, v)
  {
    U32Layout(v);
  }

  /** A raw channel: mode 0, its size, its samples. */
  lemma RawLayout(samples: seq<i16>)
    requires 2 * |samples| < U32_LIMIT
    ensures var s := RawPayload(samples);
      |s| == 5 + 2 * |samples| && s[0] == 0 && Is32(s, 1, 2 * |samples|) && AreI16s(s, 5, samples)
  {
    hide LeBytes, I16s;
    SizeAt(RawPayload(samples), 1, 2 * |samples|);
    SamplesAt(RawPayload(samples), 5, samples);
  }

  /** A residual is a sample less its prediction; the first `|coef|` samples have none. */
  lemma ResidualAt(samples: seq<i16>, coef: seq<i16>, n: nat)
    requires |coef| <= n < |samples| && ResidualsFit(samples, coef)
    ensures |Residuals(samples, coef)| == |samples| - |coef|
    ensures Residuals(samples, coef)[n - |coef|] == samples[n] as int - Predict(samples, n, coef)
  {
    hide Predict;
  }

  /**
   A predicted channel: mode 1, order, taps, first samples, and the size and bytes of a rANS stream that
   codes the bytes of the residuals with 256 equally likely symbols.
   */
  lemma PredictedLayout(samples: seq<i16>, coef: seq<i16>) returns (bytes: seq<byte>, stream: seq<byte>)
    requires 0 < |coef| <= |samples| && |coef| < 256 && ResidualsFit(samples, coef)
    requires |Blob(I16s(Residuals(samples, coef)))| < U32_LIMIT
    ensures var s, p := LpcPayload(samples, coef), |coef|;
      && |s| >= 6 + 4 * p && s[0] == 1 && s[1] == p
      && AreI16s(s, 2, coef) && AreI16s(s, 2 + 2 * p, samples[..p])
      && Is32(s, 2 + 4 * p, |stream|) && s[6 + 4 * p..] == stream
    ensures |bytes| == 2 * (|samples| - |coef|) && AreI16s(bytes, 0, Residuals(samples, coef))
    ensures IsUniform(ByteModel(), 256) && Codable(Repeat(ByteModel(), |bytes|), bytes)
    ensures stream == Encoded(Repeat(ByteModel(), |bytes|), bytes)
  {
    hide LeBytes, I16s, Encoded, Residuals, ResidualsFit, AreI16s;
    ByteModelValid();
    bytes := I16s(Residuals(samples, coef));
    stream := Blob(bytes);
    SamplesAt(bytes, 0, Residuals(samples, coef));
    var s, p := LpcPayload(samples, coef), |coef|;
    SamplesAt(s, 2, coef);
    SamplesAt(s, 2 + 2 * p, samples[..p]);
    SizeAt(s, 2 + 4 * p, |stream|);
  }

  /** A channel is coded by prediction exactly if a usable order was found. */
  lemma ChannelForm(lpc: Lpc, samples: seq<i16>)
    requires EncodeChannel(lpc, samples).Success?
    ensures var p := Order(lpc, samples);
      && p <= 8
      && EncodeChannel(lpc, samples).value
         == if p > 0 then LpcPayload(samples, lpc.Taps(samples, p)) else RawPayload(samples)
  {
  }

  /** A channel at its place in a frame, behind its size. */
  ghost predicate ChannelAt(s: seq<byte>, i: nat, payload: seq<byte>) {
    Is32(s, i, |payload|) && i + 4 + |payload| <= |s| && s[i + 4..i + 4 + |payload|] == payload
  }

  /** A frame: its instants, its channels, the two characters "R2", and every channel in turn. */
  lemma FrameLayout(lpc: Lpc, frame: AudioFrame) returns (left: seq<byte>, right: seq<byte>)
    requires EncodeFrame(lpc, frame).Success?
    ensures var s := EncodeFrame(lpc, frame).value;
      && |s| >= 11
      && Is32(s, 0, |frame.samples| / frame.channels % U32_LIMIT)
      && s[4] == frame.channels && s[5] == 0x52 && s[6] == 0x32
      && EncodeChannel(lpc, ChannelOf(frame, 0)) == Success(left) && ChannelAt(s, 7, left)
      && (if frame.channels == 1 then |s| == 11 + |left|
          else
            && frame.channels == 2
            && EncodeChannel(lpc, ChannelOf(frame, 1)) == Success(right) && ChannelAt(s, 11 + |left|, right)
            && |s| == 15 + |left| + |right|)
  {
    hide EncodeFrame, EncodeChannel, EncodeChannels, LeBytes, Is32, ChannelOf;
    var s := EncodeFrame(lpc, frame).value;
    FrameParts(lpc, frame);
    SizeAt(s, 0, |frame.samples| / frame.channels % U32_LIMIT);
    right := [];
    if frame.channels == 2 {
      right := ChannelAppended(lpc, frame, 1);
    }
    left := ChannelAppended(lpc, frame, 0);
    NoChannels(lpc, frame);
    var one := LeBytes(|left|, 4) + left;
    assert [] + LeBytes(|left|, 4) + left == one;
    if frame.channels == 1 {
      assert s[7..] == one;
    } else {
      assert s[7..] == one + LeBytes(|right|, 4) + right;
      SizeAt(s, 11 + |left|, |right|);
    }
    SizeAt(s, 7, |left|);
  }

  lemma FrameParts(lpc: Lpc, frame: AudioFrame)
    requires EncodeFrame(lpc, frame).Success?
    ensures ValidChannels(frame.channels) && EncodeChannels(lpc, frame, frame.channels).Success?
    ensures var s := EncodeFrame(lpc, frame).value;
      && |s| >= 7 && s[0..4] == LeBytes(|frame.samples| / frame.channels % U32_LIMIT, 4)
      && s[4] == frame.channels && s[5] == 0x52 && s[6] == 0x32
      && s[7..] == EncodeChannels(lpc, frame, frame.channels).value
  {
    hide EncodeChannels, LeBytes;
  }

  lemma NoChannels(lpc: Lpc, frame: AudioFrame)
    requires ValidChannels(frame.channels)
    ensures EncodeChannels(lpc, frame, 0) == Success([])
  {
  }

  lemma ChannelAppended(lpc: Lpc, frame: AudioFrame, k: nat) returns (body: seq<byte>)
    requires ValidChannels(frame.channels) && k < frame.channels && EncodeChannels(lpc, frame, k + 1).Success?
    ensures EncodeChannels(lpc, frame, k).Success? && EncodeChannel(lpc, ChannelOf(frame, k)) == Success(body)
    ensures |body| < U32_LIMIT
    ensures EncodeChannels(lpc, frame, k + 1).value == EncodeChannels(lpc, frame, k).value + LeBytes(|body|, 4) + body
  {
    hide EncodeChannel, LeBytes, ChannelOf;
    body := EncodeChannel(lpc, ChannelOf(frame, k)).value;
  }

  // ----- decoding -----

  /** The step budget is 32 times the stream's size or 4 times the number of symbols, within 64 bits. */
  lemma BudgetIs(blobLen: nat, symbols: nat)
    ensures var r := DecodeBudget64(blobLen, symbols);
      && r <= 0xffff_ffff_ffff_ffff
      && (r == 0xffff_ffff_ffff_ffff || (r >= 32 * blobLen && r >= 4 * symbols))
      && (r == 32 * blobLen || r == 4 * symbols || 32 * blobLen > r || 4 * symbols > r)
  {
  }

  /** What decides between the two formats: version 1 is always legacy, version 2 never. */
  lemma Versions(rate: u32, index: u32, payload: seq<byte>, version: Option<byte>, legacy: Legacy)
    requires |payload| >= 5 && (payload[4] == 1 || payload[4] == 2)
    ensures var marked := |payload| >= 7 && payload[5] == 0x52 && payload[6] == 0x32;
      var count := U32At(payload, 0);
      DecodeFrame(rate, index, payload, version, legacy)
        == (match version
            case Some(1) => legacy(rate, index, payload[4], count, payload[5..])
            case Some(2) =>
              if marked then DecodePayloadV2(rate, index, payload[4], count, payload[7..])
              else Failure(InvalidData("v2 audio payload missing R2 magic"))
            case _ =>
              if marked then DecodePayloadV2(rate, index, payload[4], count, payload[7..])
              else legacy(rate, index, payload[4], count, payload[5..]))
  {
    hide DecodePayloadV2, FromLe;
    if |payload| >= 7 {
      assert payload[5..7] == [payload[5], payload[6]];
    }
  }

  /** The shortest payloads and the channel counts that are refused. */
  lemma FrameRefused(rate: u32, index: u32, payload: seq<byte>, version: Option<byte>, legacy: Legacy)
    ensures |payload| < 5 ==>
      DecodeFrame(rate, index, payload, version, legacy) == Failure(InvalidData("audio payload too small"))
    ensures |payload| >= 5 && payload[4] != 1 && payload[4] != 2 ==>
      DecodeFrame(rate, index, payload, version, legacy) == Failure(UnsupportedChannels(payload[4]))
  {
    hide DecodePayloadV2;
  }

  lemma SamplesRead(s: seq<byte>, from: nat, n: nat)
    requires from + 2 * n <= |s|
    ensures AreI16s(s, from, FromI16s(s[from..from + 2 * n]))
  {
    var part := s[from..from + 2 * n];
    forall i | 0 <= i < n
      ensures IsI16(s, from + 2 * i, FromI16s(part)[i])
    {
      assert part[2 * i] == s[from + 2 * i] && part[2 * i + 1] == s[from + 2 * i + 1];
    }
  }

  /** A raw channel that is accepted has exactly this many samples, and nothing behind them. */
  lemma RawAccepted(payload: seq<byte>, count: u32)
    requires payload != [] && payload[0] == 0 && DecodeChannel(payload, count).Success?
    ensures var samples := DecodeChannel(payload, count).value;
      && |samples| == count && |payload| == 5 + 2 * count
      && Is32(payload, 1, 2 * count) && AreI16s(payload, 5, samples)
  {
    Four(payload[1..5]);
    SamplesRead(payload, 5, count);
    assert payload[5..5 + 2 * count] == payload[5..];
  }

  /** Order, taps, first samples and stream of a predicted channel, the stream with the symbols it decodes to. */
  ghost predicate PredictedForm(payload: seq<byte>, p: nat, coef: seq<i16>, warm: seq<i16>, syms: seq<nat>) {
    && 1 <= p <= 8 && |payload| >= 6 + 4 * p && payload[0] == 1 && payload[1] == p
    && |coef| == |warm| == p && AreI16s(payload, 2, coef) && AreI16s(payload, 2 + 2 * p, warm)
    && var size := U32At(payload, 2 + 4 * p);
    && Is32(payload, 2 + 4 * p, size) && |payload| >= 6 + 4 * p + size
    && IsUniform(ByteModel(), 256)
    && DecodeStream(Repeat(ByteModel(), |syms|), payload[6 + 4 * p..6 + 4 * p + size], DecodeBudget64(size, |syms|))
       == Success(syms)
  }

  /** The first samples, and then each one its prediction from those before it plus its residual. */
  ghost predicate Predicted(out: seq<i16>, warm: seq<i16>, coef: seq<i16>, residuals: seq<i16>) {
    && |coef| == |warm| && |out| == |warm| + |residuals| && out[..|warm|] == warm
    && forall i :: 0 <= i < |residuals| ==> out[|warm| + i] == Predict(out, |warm| + i, coef) + residuals[i]
  }

  /** A predicted channel that is accepted: the symbols of its stream are the bytes of the residuals. */
  lemma PredictedAccepted(payload: seq<byte>, count: u32)
    returns (p: nat, coef: seq<i16>, warm: seq<i16>, syms: seq<nat>, residuals: seq<i16>)
    requires payload != [] && payload[0] == 1 && count > 0 && DecodeChannel(payload, count).Success?
    ensures PredictedForm(payload, p, coef, warm, syms)
    ensures |syms| == 2 * |residuals| && AreI16s(AsBytes(syms), 0, residuals)
    ensures |DecodeChannel(payload, count).value| == count
    ensures Predicted(DecodeChannel(payload, count).value, warm, coef, residuals)
  {
    hide Predict, DecodeStream, DecodeBudget64, FromI16s, AreI16s, Rebuild, AsBytes, Predicted, FromLe;
    ByteModelValid();
    p := payload[1];
    coef := FromI16s(payload[2..2 + 2 * p]);
    SamplesRead(payload, 2, p);
    warm := FromI16s(payload[2 + 2 * p..2 + 4 * p]);
    assert payload[2 + 2 * p..2 + 2 * p + 2 * p] == payload[2 + 2 * p..2 + 4 * p];
    SamplesRead(payload, 2 + 2 * p, p);
    Four(payload[2 + 4 * p..2 + 4 * p + 4]);
    var stream := payload[6 + 4 * p..6 + 4 * p + U32At(payload, 2 + 4 * p)];
    var ms := Repeat(ByteModel(), 2 * (count - p));
    syms := DecodeStream(ms, stream, DecodeBudget64(|stream|, 2 * (count - p))).value;
    StreamLength(ms, stream, DecodeBudget64(|stream|, 2 * (count - p)));
    residuals := FromI16s(AsBytes(syms));
    assert AsBytes(syms)[0..0 + 2 * (count - p)] == AsBytes(syms);
    SamplesRead(AsBytes(syms), 0, count - p);
    PredictedRebuild(warm, residuals, coef);
  }

  lemma PredictedRebuild(warm: seq<i16>, residuals: seq<i16>, coef: seq<i16>)
    requires |coef| == |warm| && Rebuild(warm, residuals, coef).Success?
    ensures Predicted(Rebuild(warm, residuals, coef).value, warm, coef, residuals)
  {
    hide Predict, Rebuild;
    RebuildKeeps(warm, residuals, coef);
    var out := Rebuild(warm, residuals, coef).value;
    forall i | 0 <= i < |residuals|
      ensures out[|warm| + i] == Predict(out, |warm| + i, coef) + residuals[i]
    {
      RebuiltSamples(warm, residuals, coef, i);
    }
  }

  // ----- what the channel and frame decoders refuse -----

  lemma ModeRefused(payload: seq<byte>, count: u32)
    ensures payload == [] ==>
      DecodeChannel(payload, count) == if count == 0 then Success([]) else Failure(InvalidData("empty v2 channel"))
    ensures payload != [] && payload[0] > 1 ==>
      DecodeChannel(payload, count) == Failure(InvalidData("v2 unknown channel mode"))
  {
  }

  lemma RawRefused(payload: seq<byte>, count: u32)
    requires payload != [] && payload[0] == 0
    ensures var r := DecodeChannel(payload, count);
      if |payload| < 5 then r == Failure(InvalidData("v2 raw len"))
      else if U32At(payload, 1) != 2 * count then r == Failure(InvalidData("v2 raw size mismatch"))
      else if |payload| < 5 + 2 * count then r == Failure(InvalidData("v2 raw truncated"))
      else if |payload| > 5 + 2 * count then r == Failure(InvalidData("v2 raw trailing"))
      else r.Success?
  {
    hide FromLe;
  }

  /** Everything of a predicted channel that is checked before its stream is decoded. */
  lemma PredictedRefused(payload: seq<byte>, count: u32)
    requires payload != [] && payload[0] == 1
    ensures var r := DecodeChannel(payload, count);
      if count == 0 then r == Success([])
      else if |payload| < 2 then r == Failure(InvalidData("v2 lpc order byte"))
      else
        var p := payload[1] as int;
        if p < 1 || p > 8 then r == Failure(InvalidData("v2 bad lpc order"))
        else if |payload| < 6 + 4 * p then r == Failure(InvalidData("v2 lpc header"))
        else if count < p then r == Failure(InvalidData("v2 sample count vs order"))
        else if |payload| < 6 + 4 * p + U32At(payload, 2 + 4 * p) then r == Failure(InvalidData("v2 rans truncated"))
        else r.Success? || r.error.Entropy? || r == Failure(InvalidData("v2 reconstruct range"))
  {
    hide FromLe, DecodeStream, FromI16s, DecodeBudget64;
  }

  /** A truncated size, a truncated channel, and the first error of a channel. */
  lemma ChannelsRefused(body: seq<byte>, k: nat, count: u32)
    requires k > 0
    ensures |body| < 4 ==> DecodeChannels(body, k, count) == Failure(InvalidData("truncated channel length"))
    ensures |body| >= 4 && |body| - 4 < U32At(body, 0) ==>
      DecodeChannels(body, k, count) == Failure(InvalidData("truncated channel payload"))
    ensures |body| >= 4 && |body| - 4 >= U32At(body, 0)
            && DecodeChannel(body[4..4 + U32At(body, 0)], count).Failure? ==>
      DecodeChannels(body, k, count) == Failure(DecodeChannel(body[4..4 + U32At(body, 0)], count).error)
  {
    hide FromLe, DecodeChannel;
  }

  /** Nothing may follow the last channel. */
  lemma TrailingRefused(rate: u32, index: u32, channels: byte, count: u32, body: seq<byte>)
    requires channels == 1 || channels == 2
    requires DecodeChannels(body, channels, count).Success? && DecodeChannels(body, channels, count).value.1 != []
    ensures DecodePayloadV2(rate, index, channels, count, body)
            == Failure(InvalidData("unexpected bytes in audio v2 payload"))
  {
    hide DecodeChannels;
  }

  /** Channels are interleaved only if there are as many as announced and all are of the same length. */
  lemma InterleaveRefused(chans: seq<seq<i16>>, channels: nat)
    ensures |chans| != channels ==>
      Interleave(chans, channels) == Failure(InvalidData("channel metadata does not match payload channels"))
    ensures |chans| == channels && (exists k :: 0 <= k < channels && |chans[k]| != |chans[0]|) ==>
      Interleave(chans, channels) == Failure(InvalidData("channels are not equal sample length"))
    ensures |chans| == channels && (forall k :: 0 <= k < channels ==> |chans[k]| == |chans[0]|) ==>
      Interleave(chans, channels).Success?
  {
  }

  lemma EncodingRefused(lpc: Lpc, frame: AudioFrame)
    ensures frame.channels != 1 && frame.channels != 2 ==>
      EncodeFrame(lpc, frame) == Failure(UnsupportedChannels(frame.channels))
    ensures frame.channels == 2 && |frame.samples| % 2 == 1 ==>
      EncodeFrame(lpc, frame) == Failure(InvalidData("interleaved sample length does not match channels"))
    ensures EncodeChannel(lpc, frame.samples).Failure? ==>
      EncodeChannel(lpc, frame.samples).error
      == InvalidData(if Order(lpc, frame.samples) > 0 then "rans blob length" else "raw len")
  {
    hide Blob, I16s;
  }
}
