/**
 The audio encoder and decoder as the loops of the source, each proved against `AudioSpec`.
 */
module AudioCodec {
  import opened Wrappers
  import opened Bytes
  import opened RansModel
  import opened RansSpec
  import opened RansCoder
  import opened AudioSpec
  import AudioTheorems

  /** `predict_i16`: a saturating dot product of the taps and the samples before `n`. */
  method PredictI16(x: seq<i16>, n: nat, coef: seq<i16>) returns (pred: int)
    requires |coef| <= n <= |x|
    ensures pred == Predict(x, n, coef)
  {
    var acc: int := 0;
    for k := 0 to |coef|
      invariant acc == Accumulate(x, n, k, coef)
    {
      acc := Saturate32(acc + Saturate32(coef[k] as int * x[n - 1 - k]));
    }
    pred := acc / 4096;
  }

  /** The residuals of every sample after the first ones, unless one does not fit 16 bits. */
  method ComputeResiduals(samples: seq<i16>, coef: seq<i16>) returns (ok: bool, residuals: seq<i16>)
    requires |coef| <= |samples|
    ensures ok <==> ResidualsFit(samples, coef)
    ensures ok ==> residuals == Residuals(samples, coef)
  {
    hide Predict;
    residuals := [];
    for i := |coef| to |samples|
      invariant |residuals| == i - |coef|
      invariant forall k :: |coef| <= k < i ==> FitsI16(Residual(samples, k, coef))
      invariant forall k :: 0 <= k < |residuals| ==> residuals[k] == Residual(samples, |coef| + k, coef)
    {
      var pred := PredictI16(samples, i, coef);
      var res: int := Saturate32(samples[i] - pred);
      assert res == Residual(samples, i, coef);
      if !FitsI16(res) {
        assert !FitsI16(Residual(samples, i, coef));
        return false, residuals;
      }
      residuals := residuals + [res];
    }
    ok := true;
  }

  /** Append samples as little-endian pairs. */
  method AppendI16s(out: seq<byte>, s: seq<i16>) returns (r: seq<byte>)
    ensures r == out + I16s(s)
  {
    r := out;
    for i := 0 to |s|
      invariant r == out + I16s(s[..i])
    {
      AppendOneI16(s, i);
      r := r + I16Bytes(s[i]);
    }
    assert s[..|s|] == s;
  }

  lemma AppendOneI16(s: seq<i16>, i: nat)
    requires i < |s|
    ensures I16s(s[..i]) + I16Bytes(s[i]) == I16s(s[..i + 1])
  {
    hide I16Bytes;
    var longer := I16s(s[..i + 1]);
    forall j | 0 <= j < 2 * i
      ensures longer[j] == I16s(s[..i])[j]
    {
      assert j / 2 < i;
      assert s[..i + 1][j / 2] == s[..i][j / 2];
    }
    AudioTheorems.I16sAt(s[..i + 1], i);
  }

  method SharedRansModel() returns (model: Model)
    ensures model == ByteModel() && model.Valid()
  {
    var r := Uniform(256);
    model := r.value;
    ByteModelValid();
    assert model.freqs == ByteModel().freqs;
    ModelsAgree(model, ByteModel());
  }

  /** The payload of a channel whose residuals all fit. */
  method WriteLpcChannel(samples: seq<i16>, coef: seq<i16>, residuals: seq<i16>)
    returns (r: Result<seq<byte>, AudioError>)
    requires 0 < |coef| <= MAX_LPC_ORDER && |coef| <= |samples|
    requires ResidualsFit(samples, coef) && residuals == Residuals(samples, coef)
    ensures r == if |Blob(I16s(residuals))| < U32_LIMIT then Success(LpcPayload(samples, coef))
                 else Failure(InvalidData("rans blob length"))
  {
    hide Residuals, ResidualsFit, I16s, ByteModel;
    var body: seq<byte> := [1] + [|coef|];
    body := AppendI16s(body, coef);
    body := AppendI16s(body, samples[..|coef|]);
    var resBytes := AppendI16s([], residuals);
    assert resBytes == I16s(residuals);
    var model := SharedRansModel();
    AudioTheorems.BytesAreCodable(resBytes);
    var blob := RansEncode(model, resBytes);
    AllSymbolsKnown(resBytes);
    if |blob.value| >= U32_LIMIT {
      return Failure(InvalidData("rans blob length"));
    }
    r := Success(body + LeBytes(|blob.value|, 4) + blob.value);
  }

  lemma AllSymbolsKnown(bytes: seq<byte>)
    ensures forall i :: 0 <= i < |bytes| ==> bytes[i] < |ByteModel().freqs|
  {
  }

  /** `encode_channel_v2`: the highest usable order wins; without one the samples go out raw. */
  method EncodeChannelV2(lpc: Lpc, samples: seq<i16>) returns (r: Result<seq<byte>, AudioError>)
    ensures r == EncodeChannel(lpc, samples)
  {
    hide Residuals, ResidualsFit, I16s, Blob;
    var n := |samples|;
    if n == 0 {
      assert I16s(samples) == [];
      assert [0] + LeBytes(0, 4) + I16s(samples) == [0] + LeBytes(0, 4);
      return Success([0] + LeBytes(0, 4));
    }
    if n > MAX_LPC_ORDER {
      var p := if MAX_LPC_ORDER < n - 1 then MAX_LPC_ORDER else n - 1;
      while p >= 1
        invariant 0 <= p <= MAX_LPC_ORDER
        invariant ChosenOrder(lpc, samples, p) == Order(lpc, samples)
      {
        if lpc.found(samples, p) {
          var coef := lpc.Taps(samples, p);
          var ok, residuals := ComputeResiduals(samples, coef);
          if ok {
            r := WriteLpcChannel(samples, coef, residuals);
            return;
          }
        }
        p := p - 1;
      }
    }
    if n * 2 >= U32_LIMIT {
      return Failure(InvalidData("raw len"));
    }
    var body := AppendI16s([0] + LeBytes(n * 2, 4), samples);
    r := Success(body);
  }

  /** Read pairs of bytes as samples. */
  method ReadI16s(b: seq<byte>) returns (s: seq<i16>)
    ensures s == FromI16s(b)
  {
    s := [];
    for i := 0 to |b| / 2
      invariant |s| == i
      invariant forall k :: 0 <= k < i ==> s[k] == I16Of(b[2 * k], b[2 * k + 1])
    {
      s := s + [I16Of(b[2 * i], b[2 * i + 1])];
    }
  }

  /** `decode_channel_v2`. */
  method DecodeChannelV2(payload: seq<byte>, count: u32) returns (r: Result<seq<i16>, AudioError>)
    ensures r == DecodeChannel(payload, count)
  {
    hide DecodeResiduals, FromI16s;
    if |payload| == 0 {
      if count == 0 {
        return Success([]);
      }
      return Failure(InvalidData("empty v2 channel"));
    }
    var mode := payload[0];
    var c := 1;
    if mode == 0 {
      if |payload| - c < 4 {
        return Failure(InvalidData("v2 raw len"));
      }
      var len := U32At(payload, c);
      c := c + 4;
      if len != count * 2 {
        return Failure(InvalidData("v2 raw size mismatch"));
      }
      if |payload| - c < len {
        return Failure(InvalidData("v2 raw truncated"));
      }
      var out := ReadI16s(payload[c..c + len]);
      if c + len != |payload| {
        return Failure(InvalidData("v2 raw trailing"));
      }
      assert payload[c..c + len] == payload[5..];
      return Success(out);
    } else if mode == 1 {
      if count == 0 {
        return Success([]);
      }
      if |payload| < 2 {
        return Failure(InvalidData("v2 lpc order byte"));
      }
      var p := payload[c];
      c := c + 1;
      if p == 0 || p > MAX_LPC_ORDER {
        return Failure(InvalidData("v2 bad lpc order"));
      }
      if |payload| - c < 2 * p + 2 * p + 4 {
        return Failure(InvalidData("v2 lpc header"));
      }
      var coef := ReadI16s(payload[c..c + 2 * p]);
      c := c + 2 * p;
      if count < p {
        return Failure(InvalidData("v2 sample count vs order"));
      }
      var warm := ReadI16s(payload[c..c + 2 * p]);
      c := c + 2 * p;
      var rlen := U32At(payload, c);
      c := c + 4;
      if |payload| - c < rlen {
        return Failure(InvalidData("v2 rans truncated"));
      }
      r := ReadLpcChannel(coef, warm, payload[c..c + rlen], count);
    } else {
      r := Failure(InvalidData("v2 unknown channel mode"));
    }
  }

  /** Decode the residuals and fill in the samples after the first ones in place. */
  method ReadLpcChannel(coef: seq<i16>, warm: seq<i16>, blob: seq<byte>, count: u32)
    returns (r: Result<seq<i16>, AudioError>)
    requires |coef| == |warm| <= count
    ensures r == DecodeResiduals(coef, warm, blob, count)
  {
    hide DecodeBudget64, FromI16s, ByteModel;
    var p := |coef|;
    var numSyms := 2 * (count - p);
    var budget := DecodeBudget64(|blob|, numSyms);
    var model := SharedRansModel();
    var syms := RansDecode(model, blob, numSyms, budget);
    if syms.Failure? {
      return Failure(Entropy(syms.error));
    }
    DecodedLength(Repeat(model, numSyms), blob, budget);
    var residuals := ReadI16s(AsBytes(syms.value));
    r := Reconstruct(coef, warm, residuals);
  }

  lemma DecodedLength(ms: seq<Model>, data: seq<byte>, budget: nat)
    requires forall i :: 0 <= i < |ms| ==> ms[i].Valid()
    requires DecodeStream(ms, data, budget).Success?
    ensures |DecodeStream(ms, data, budget).value| == |ms|
  {
    RansTheorems.DecodeAllCounts(ms, StartOf(data), budget, []);
  }

  method Reconstruct(coef: seq<i16>, warm: seq<i16>, residuals: seq<i16>) returns (r: Result<seq<i16>, AudioError>)
    requires |coef| == |warm|
    ensures r == Rebuild(warm, residuals, coef)
  {
    hide Predict;
    var p := |coef|;
    var x := new i16[p + |residuals|];
    for i := 0 to p
      invariant x[..i] == warm[..i]
    {
      x[i] := warm[i];
    }
    assert x[..p] == warm && residuals[0..] == residuals;
    for i := p to x.Length
      invariant Rebuild(warm, residuals, coef) == Rebuild(x[..i], residuals[i - p..], coef)
    {
      ghost var known := x[..i];
      AudioTheorems.PredictLocal(x[..], i, coef);
      assert x[..][..i] == known;
      var pred := PredictI16(x[..], i, coef);
      var v: int := pred + residuals[i - p];
      if !FitsI16(v) {
        return Failure(InvalidData("v2 reconstruct range"));
      }
      x[i] := v;
      assert x[..i + 1] == known + [v];
      assert residuals[i - p..][1..] == residuals[i + 1 - p..];
    }
    r := Success(x[..]);
    assert x[..x.Length] == x[..];
  }

  /** `deinterleave_channel`. */
  method DeinterleaveChannel(samples: seq<i16>, channels: nat, ch: nat) returns (r: seq<i16>)
    requires channels > 0
    ensures r == Deinterleave(samples, channels, ch)
  {
    r := [];
    var i := ch;
    while i < |samples|
      invariant r + Deinterleave(samples, channels, i) == Deinterleave(samples, channels, ch)
    {
      assert Deinterleave(samples, channels, i) == [samples[i]] + Deinterleave(samples, channels, i + channels);
      r := r + [samples[i]];
      i := i + channels;
    }
  }

  /** `interleave_channels`: the output is built one instant at a time. */
  method InterleaveChannels(chans: seq<seq<i16>>, channels: nat) returns (r: Result<seq<i16>, AudioError>)
    ensures r == Interleave(chans, channels)
  {
    if |chans| != channels {
      return Failure(InvalidData("channel metadata does not match payload channels"));
    }
    if channels == 0 {
      return Success([]);
    }
    var count := |chans[0]|;
    for i := 0 to |chans|
      invariant SameLengths(chans[..i], count)
    {
      if |chans[i]| != count {
        return Failure(InvalidData("channels are not equal sample length"));
      }
      assert chans[..i + 1] == chans[..i] + [chans[i]];
    }
    assert chans[..|chans|] == chans;
    var out: seq<i16> := [];
    for i := 0 to count
      invariant out == Instants(chans, i)
    {
      for k := 0 to |chans|
        invariant out == Instants(chans, i) + Instant(chans, i)[..k]
      {
        assert Instant(chans, i)[..k + 1] == Instant(chans, i)[..k] + [chans[k][i]];
        out := out + [chans[k][i]];
      }
      assert Instant(chans, i)[..|chans|] == Instant(chans, i);
    }
    r := Success(out);
  }

  /** `encode_frame`. */
  method EncodeAudioFrame(lpc: Lpc, frame: AudioFrame) returns (r: Result<seq<byte>, AudioError>)
    ensures r == EncodeFrame(lpc, frame)
  {
    hide EncodeChannel, Deinterleave, LeBytes;
    if !ValidChannels(frame.channels) {
      return Failure(UnsupportedChannels(frame.channels));
    }
    if |frame.samples| != 0 && |frame.samples| % frame.channels != 0 {
      return Failure(InvalidData("interleaved sample length does not match channels"));
    }
    var sampleCount: u32 := |frame.samples| / frame.channels % U32_LIMIT;
    var header := LeBytes(sampleCount, 4) + [frame.channels] + PAYLOAD_V2_MAGIC;
    var payload := header;
    ghost var body: seq<byte> := [];
    for ch := 0 to frame.channels
      invariant payload == header + body
      invariant EncodeChannels(lpc, frame, ch) == Success(body)
      invariant EncodeChannels(lpc, frame, ch).Success?
    {
      var chan := DeinterleaveChannel(frame.samples, frame.channels, ch);
      var encoded := EncodeChannelV2(lpc, chan);
      if encoded.Failure? {
        assert EncodeChannels(lpc, frame, ch + 1) == Failure(encoded.error);
        LaterChannelsFail(lpc, frame, ch + 1, frame.channels);
        return Failure(encoded.error);
      }
      if |encoded.value| >= U32_LIMIT {
        assert EncodeChannels(lpc, frame, ch + 1) == Failure(InvalidData("channel payload too large"));
        LaterChannelsFail(lpc, frame, ch + 1, frame.channels);
        return Failure(InvalidData("channel payload too large"));
      }
      assert EncodeChannels(lpc, frame, ch + 1)
          == Success(body + LeBytes(|encoded.value|, 4) + encoded.value);
      body := body + LeBytes(|encoded.value|, 4) + encoded.value;
      payload := payload + LeBytes(|encoded.value|, 4) + encoded.value;
    }
    r := Success(payload);
  }

  lemma {:induction false} LaterChannelsFail(lpc: Lpc, frame: AudioFrame, k: nat, n: nat)
    requires ValidChannels(frame.channels) && k <= n <= frame.channels
    requires EncodeChannels(lpc, frame, k).Failure?
    ensures EncodeChannels(lpc, frame, n) == EncodeChannels(lpc, frame, k)
    decreases n - k
  {
    if k < n {
      LaterChannelsFail(lpc, frame, k + 1, n);
    }
  }

  /** `decode_payload_v2`: a cursor over the length-prefixed channels. */
  method DecodeAudioPayloadV2(rate: u32, index: u32, channels: byte, count: u32, body: seq<byte>)
    returns (r: Result<AudioFrame, AudioError>)
    requires ValidChannels(channels)
    ensures r == DecodePayloadV2(rate, index, channels, count, body)
  {
    hide DecodeChannel, DecodeChannels, Interleave, Deinterleave, Instants, FromLe;
    var cursor := 0;
    var chans: seq<seq<i16>> := [];
    assert body[0..] == body;
    PrependNothing(DecodeChannels(body, channels, count));
    for ch := 0 to channels
      invariant 0 <= cursor <= |body|
      invariant |chans| == ch
      invariant DecodeChannels(body, channels, count)
             == Prepend(chans, DecodeChannels(body[cursor..], channels - ch, count))
    {
      ghost var rest := body[cursor..];
      ChannelsStep(rest, channels - ch, count);
      if |body| - cursor < 4 {
        return Failure(InvalidData("truncated channel length"));
      }
      assert body[cursor..cursor + 4] == rest[0..4];
      var len := U32At(body, cursor);
      cursor := cursor + 4;
      if |body| - cursor < len {
        return Failure(InvalidData("truncated channel payload"));
      }
      assert body[cursor..cursor + len] == rest[4..4 + len];
      var chan := DecodeChannelV2(body[cursor..cursor + len], count);
      if chan.Failure? {
        return Failure(chan.error);
      }
      cursor := cursor + len;
      assert body[cursor..] == rest[4 + len..];
      PrependOne(chans, chan.value, DecodeChannels(body[cursor..], channels - ch - 1, count));
      chans := chans + [chan.value];
    }
    ChannelsDone(body[cursor..], count);
    if cursor != |body| {
      return Failure(InvalidData("unexpected bytes in audio v2 payload"));
    }
    assert chans + [] == chans && body[cursor..] == [];
    var samples := InterleaveChannels(chans, channels);
    if samples.Failure? {
      return Failure(samples.error);
    }
    r := Success(AudioFrame(rate, channels, index, samples.value));
  }

  lemma ChannelsDone(body: seq<byte>, count: u32)
    ensures DecodeChannels(body, 0, count) == Success(([], body))
  {
  }

  /** The first of `k` channels, and then the others behind it. */
  lemma ChannelsStep(body: seq<byte>, k: nat, count: u32)
    requires k > 0
    ensures DecodeChannels(body, k, count) ==
      if |body| < 4 then Failure(InvalidData("truncated channel length"))
      else if |body| - 4 < U32At(body, 0) then Failure(InvalidData("truncated channel payload"))
      else
        match DecodeChannel(body[4..4 + U32At(body, 0)], count)
        case Failure(e) => Failure(e)
        case Success(chan) => Prepend([chan], DecodeChannels(body[4 + U32At(body, 0)..], k - 1, count))
  {
    hide DecodeChannel, FromLe;
  }

  ghost function Prepend(chans: seq<seq<i16>>, r: Result<(seq<seq<i16>>, seq<byte>), AudioError>)
    : Result<(seq<seq<i16>>, seq<byte>), AudioError>
  {
    match r
    case Failure(e) => Failure(e)
    case Success((more, rest)) => Success((chans + more, rest))
  }

  lemma PrependNothing(r: Result<(seq<seq<i16>>, seq<byte>), AudioError>)
    ensures Prepend([], r) == r
  {
    if r.Success? {
      assert [] + r.value.0 == r.value.0;
    }
  }

  lemma PrependOne(chans: seq<seq<i16>>, chan: seq<i16>, r: Result<(seq<seq<i16>>, seq<byte>), AudioError>)
    ensures Prepend(chans + [chan], r) == Prepend(chans, Prepend([chan], r))
  {
    if r.Success? {
      assert chans + [chan] + r.value.0 == chans + ([chan] + r.value.0);
    }
  }

  /** `decode_frame` and `decode_frame_with_stream_version`, after their common inner function. */
  method DecodeFrameInner(rate: u32, index: u32, payload: seq<byte>, version: Option<byte>, legacy: Legacy)
    returns (r: Result<AudioFrame, AudioError>)
    ensures r == DecodeFrame(rate, index, payload, version, legacy)
  {
    if |payload| < 5 {
      return Failure(InvalidData("audio payload too small"));
    }
    var count := U32At(payload, 0);
    var channels := payload[4];
    if !ValidChannels(channels) {
      return Failure(UnsupportedChannels(channels));
    }
    if version == Some(STREAM_VERSION_V1) {
      r := legacy(rate, index, channels, count, payload[5..]);
    } else if |payload| >= 7 && payload[5..7] == PAYLOAD_V2_MAGIC {
      r := DecodeAudioPayloadV2(rate, index, channels, count, payload[7..]);
    } else if version == Some(STREAM_VERSION_V2) {
      r := Failure(InvalidData("v2 audio payload missing R2 magic"));
    } else {
      r := legacy(rate, index, channels, count, payload[5..]);
    }
  }
}
