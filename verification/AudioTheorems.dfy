/**
 The audio payload is lossless whatever the LPC analysis chooses: the decoder predicts from
 samples it has already rebuilt, so it predicts what the encoder predicted.
 */
module AudioTheorems {
  import opened Wrappers
  import opened Bytes
  import opened RansModel
  import opened RansSpec
  import opened RansCoder
  import opened RansTheorems
  import opened AudioSpec
  import opened Arithmetic

  lemma {:induction false} AccumulateLocal(x: seq<i16>, y: seq<i16>, n: nat, k: nat, coef: seq<i16>)
    requires k <= n <= |x| && n <= |y| && k <= |coef|
    requires x[..n] == y[..n]
    ensures Accumulate(x, n, k, coef) == Accumulate(y, n, k, coef)
  {
    if k > 0 {
      AccumulateLocal(x, y, n, k - 1, coef);
      assert x[..n][n - k] == y[..n][n - k];
    }
  }

  /** The samples come back from their first ones and the residuals, for any taps whatever. */
  lemma {:induction false} RebuildUndoesResiduals(samples: seq<i16>, coef: seq<i16>, i: nat)
    requires |coef| <= i <= |samples| && ResidualsFit(samples, coef)
    ensures Rebuild(samples[..i], Residuals(samples, coef)[i - |coef|..], coef) == Success(samples)
    decreases |samples| - i
  {
    hide Predict;
    var rest := Residuals(samples, coef)[i - |coef|..];
    if i == |samples| {
      assert samples[..i] == samples;
    } else {
      PredictLocal(samples, i, coef);
      assert rest[0] == samples[i] - Predict(samples, i, coef);
      assert samples[..i] + [samples[i]] == samples[..i + 1];
      assert rest[1..] == Residuals(samples, coef)[i + 1 - |coef|..];
      RebuildUndoesResiduals(samples, coef, i + 1);
    }
  }

  lemma PredictLocal(samples: seq<i16>, i: nat, coef: seq<i16>)
    requires |coef| <= i <= |samples|
    ensures Predict(samples[..i], i, coef) == Predict(samples, i, coef)
  {
    AccumulateLocal(samples[..i], samples, i, |coef|, coef);
  }

  lemma I16sAt(s: seq<i16>, i: nat)
    requires i < |s|
    ensures I16s(s)[2 * i] == I16Bytes(s[i])[0]
    ensures I16s(s)[2 * i + 1] == I16Bytes(s[i])[1]
  {
    hide I16Bytes;
    assert 2 * i / 2 == i && 2 * i % 2 == 0;
    assert (2 * i + 1) / 2 == i && (2 * i + 1) % 2 == 1;
  }

  lemma FromI16sUndoes(s: seq<i16>)
    ensures FromI16s(I16s(s)) == s
  {
    hide I16s, I16Bytes, I16Of;
    var b := I16s(s);
    forall i | 0 <= i < |s|
      ensures FromI16s(b)[i] == s[i]
    {
      I16sAt(s, i);
      I16RoundTrip(s[i]);
    }
  }

  lemma BytesAreCodable(bytes: seq<byte>)
    ensures Codable(Repeat(ByteModel(), |bytes|), bytes)
    ensures |Blob(bytes)| == 4 + |bytes|
    ensures AsBytes(bytes) == bytes
  {
    hide Encoded, ByteModel;
    ByteModelValid();
    EncodedLength(Repeat(ByteModel(), |bytes|), bytes);
  }

  /** The budget the decoder computes for a blob of this length covers all its bytes, whatever they are. */
  lemma BudgetCovers(len: nat, symbols: nat)
    requires len < U32_LIMIT
    ensures len - 4 <= DecodeBudget64(len, symbols)
  {
  }

  lemma ResidualsInBudget(coef: seq<i16>, warm: seq<i16>, blob: seq<byte>, count: u32)
    requires |coef| == |warm| <= count && |blob| < U32_LIMIT
    ensures DecodeResiduals(coef, warm, blob, count) != Failure(Entropy(DecodeBudget))
  {
    hide DecodeBudget64, DecodeStream, Rebuild;
    ByteModelValid();
    var symbols := 2 * (count - |coef|);
    BudgetCovers(|blob|, symbols);
    LargeBudget(Repeat(ByteModel(), symbols), blob, DecodeBudget64(|blob|, symbols));
  }

  /** So decoding a channel never ends for want of budget, from any payload and for any sample count. */
  lemma BudgetIsEnough(payload: seq<byte>, count: u32)
    ensures DecodeChannel(payload, count) != Failure(Entropy(DecodeBudget))
  {
    hide DecodeResiduals, FromLe;
    if |payload| >= 2 {
      var p: nat := payload[1];
      if 0 < p <= MAX_LPC_ORDER && |payload| >= 6 + 4 * p && p <= count {
        var blobLen := U32At(payload, 2 + 4 * p);
        if |payload| - (6 + 4 * p) >= blobLen {
          ResidualsInBudget(FromI16s(payload[2..2 + 2 * p]), FromI16s(payload[2 + 2 * p..2 + 4 * p]),
                            payload[6 + 4 * p..6 + 4 * p + blobLen], count);
        }
      }
    }
  }

  lemma BlobRoundTrip(bytes: seq<byte>)
    requires |Blob(bytes)| < U32_LIMIT
    ensures ByteModel().Valid()
    ensures DecodeStream(Repeat(ByteModel(), |bytes|), Blob(bytes), DecodeBudget64(|Blob(bytes)|, |bytes|))
            == Success(bytes)
  {
    ByteModelValid();
    BytesAreCodable(bytes);
    BudgetCovers(|Blob(bytes)|, |bytes|);
    RoundTrip(Repeat(ByteModel(), |bytes|), bytes, DecodeBudget64(|Blob(bytes)|, |bytes|));
  }

  lemma RawRoundTrip(samples: seq<i16>)
    requires 2 * |samples| < U32_LIMIT
    ensures DecodeChannel(RawPayload(samples), |samples|) == Success(samples)
  {
    var payload := RawPayload(samples);
    assert payload[1..5] == LeBytes(2 * |samples|, 4);
    assert payload[5..] == I16s(samples);
    U32RoundTrip(2 * |samples|);
    FromI16sUndoes(samples);
  }

  /** The fields of an LPC payload are where the decoder looks for them. */
  lemma LpcPayloadFields(samples: seq<i16>, coef: seq<i16>)
    requires |coef| <= |samples| && |coef| < 256 && ResidualsFit(samples, coef)
    ensures var payload, p := LpcPayload(samples, coef), |coef|;
            var blob := Blob(I16s(Residuals(samples, coef)));
            && |payload| == 6 + 4 * p + |blob|
            && payload[0] == 1 && payload[1] == p
            && payload[2..2 + 2 * p] == I16s(coef)
            && payload[2 + 2 * p..2 + 4 * p] == I16s(samples[..p])
            && payload[2 + 4 * p..6 + 4 * p] == LeBytes(|blob|, 4)
            && payload[6 + 4 * p..] == blob
  {
    hide Blob, I16s, ResidualsFit;
  }

  lemma ResidualsRoundTrip(samples: seq<i16>, coef: seq<i16>)
    requires |coef| <= |samples| < U32_LIMIT && ResidualsFit(samples, coef)
    requires |Blob(I16s(Residuals(samples, coef)))| < U32_LIMIT
    ensures DecodeResiduals(coef, samples[..|coef|], Blob(I16s(Residuals(samples, coef))), |samples|)
            == Success(samples)
  {
    hide Blob, I16s, ResidualsFit, FromI16s, AsBytes, DecodeBudget64, DecodeStream, ByteModel, Rebuild;
    var residuals := Residuals(samples, coef);
    var bytes := I16s(residuals);
    FromI16sUndoes(residuals);
    BlobRoundTrip(bytes);
    BytesAreCodable(bytes);
    RebuildUndoesResiduals(samples, coef, |coef|);
    assert residuals[0..] == residuals;
  }

  lemma LpcRoundTrip(samples: seq<i16>, coef: seq<i16>)
    requires 0 < |coef| <= MAX_LPC_ORDER && |coef| <= |samples| < U32_LIMIT && ResidualsFit(samples, coef)
    requires |Blob(I16s(Residuals(samples, coef)))| < U32_LIMIT
    ensures DecodeChannel(LpcPayload(samples, coef), |samples|) == Success(samples)
  {
    hide Blob, I16s, ResidualsFit, Residuals, FromI16s, LpcPayload, DecodeResiduals;
    var blob := Blob(I16s(Residuals(samples, coef)));
    var payload, p := LpcPayload(samples, coef), |coef|;
    LpcPayloadFields(samples, coef);
    U32RoundTrip(|blob|);
    FromI16sUndoes(coef);
    FromI16sUndoes(samples[..p]);
    assert payload[6 + 4 * p..6 + 4 * p + |blob|] == blob;
    ResidualsRoundTrip(samples, coef);
  }

  /** A channel decodes to the samples it was made from, and its payload has exactly this length. */
  lemma ChannelRoundTrip(lpc: Lpc, samples: seq<i16>)
    requires EncodeChannel(lpc, samples).Success?
    ensures |EncodeChannel(lpc, samples).value| == ChannelCost(lpc, samples)
    ensures |samples| < U32_LIMIT
    ensures DecodeChannel(EncodeChannel(lpc, samples).value, |samples|) == Success(samples)
  {
    hide Blob, I16s, ResidualsFit, Residuals, LpcPayload, DecodeChannel;
    var p := Order(lpc, samples);
    if p > 0 {
      var coef := lpc.Taps(samples, p);
      BytesAreCodable(I16s(Residuals(samples, coef)));
      LpcPayloadFields(samples, coef);
      LpcRoundTrip(samples, coef);
    } else {
      RawRoundTrip(samples);
    }
  }

  /** Exact size: 2n + 2p + 10 bytes with prediction of order p, 2n + 5 without. */
  ghost function ChannelCost(lpc: Lpc, samples: seq<i16>): nat {
    var p := Order(lpc, samples);
    if p > 0 then 2 * |samples| + 2 * p + 10 else 2 * |samples| + 5
  }

  /** A channel is refused by the encoder, or by the u32 length before it, exactly when it is too long. */
  lemma ChannelRefused(lpc: Lpc, samples: seq<i16>)
    ensures (EncodeChannel(lpc, samples).Success? && |EncodeChannel(lpc, samples).value| < U32_LIMIT)
            <==> ChannelCost(lpc, samples) < U32_LIMIT
  {
    hide Blob, I16s, ResidualsFit, LpcPayload;
    var p := Order(lpc, samples);
    if p > 0 {
      BytesAreCodable(I16s(Residuals(samples, lpc.Taps(samples, p))));
    }
    if EncodeChannel(lpc, samples).Success? {
      ChannelRoundTrip(lpc, samples);
    }
  }

  // ----- frames -----

  ghost function AllChannels(samples: seq<i16>, channels: nat): (chans: seq<seq<i16>>)
    requires channels > 0
    ensures |chans| == channels
  {
    seq(channels, ch requires 0 <= ch < channels => Deinterleave(samples, channels, ch))
  }

  lemma {:induction false} DeinterleaveAt(samples: seq<i16>, channels: nat, from: nat, i: nat)
    requires channels > 0 && from + i * channels < |samples|
    ensures i < |Deinterleave(samples, channels, from)|
    ensures Deinterleave(samples, channels, from)[i] == samples[from + i * channels]
    decreases i
  {
    ScaledLe(0, i, channels);
    var later := Deinterleave(samples, channels, from + channels);
    assert Deinterleave(samples, channels, from) == [samples[from]] + later;
    hide Deinterleave;
    if i > 0 {
      var behind := (i - 1) * channels;
      assert i * channels == behind + channels;
      DeinterleaveAt(samples, channels, from + channels, i - 1);
      assert later[i - 1] == samples[from + channels + behind];
    }
  }

  lemma {:induction false} DeinterleaveCount(samples: seq<i16>, channels: nat, from: nat, n: nat)
    requires channels > 0 && |samples| <= from + n * channels
    requires n > 0 ==> from + (n - 1) * channels < |samples|
    ensures |Deinterleave(samples, channels, from)| == n
    decreases n
  {
    if n > 0 {
      assert n * channels == (n - 1) * channels + channels;
      if n > 1 {
        assert (n - 1) * channels == (n - 2) * channels + channels;
      }
      ScaledLe(0, n - 1, channels);
      DeinterleaveCount(samples, channels, from + channels, n - 1);
    }
  }

  lemma DeinterleaveLength(samples: seq<i16>, channels: nat, ch: nat)
    requires channels > 0 && |samples| % channels == 0 && ch < channels
    ensures |Deinterleave(samples, channels, ch)| == |samples| / channels
  {
    var n := |samples| / channels;
    assert |samples| == n * channels;
    if n > 0 {
      assert n * channels == (n - 1) * channels + channels;
    }
    DeinterleaveCount(samples, channels, ch, n);
  }

  /** Instant `m` of the deinterleaved channels holds the samples that stand together in the whole. */
  lemma InstantIsSlice(samples: seq<i16>, channels: nat, m: nat)
    requires channels > 0 && m * channels + channels <= |samples|
    requires forall k :: 0 <= k < channels ==> m < |AllChannels(samples, channels)[k]|
    ensures Instant(AllChannels(samples, channels), m) == samples[m * channels..m * channels + channels]
  {
    var now := Instant(AllChannels(samples, channels), m);
    forall k | 0 <= k < channels
      ensures now[k] == samples[m * channels..m * channels + channels][k]
    {
      DeinterleaveAt(samples, channels, k, m);
    }
  }

  lemma {:induction false} FirstInstants(samples: seq<i16>, channels: nat, n: nat, m: nat)
    requires channels > 0 && |samples| == n * channels && m <= n
    requires SameLengths(AllChannels(samples, channels), n)
    ensures m * channels <= |samples| && Instants(AllChannels(samples, channels), m) == samples[..m * channels]
    decreases m
  {
    hide AllChannels, Instant;
    ScaledLe(m, n, channels);
    if m > 0 {
      assert m * channels == (m - 1) * channels + channels;
      FirstInstants(samples, channels, n, m - 1);
      InstantIsSlice(samples, channels, m - 1);
      assert samples[..m * channels]
          == samples[..(m - 1) * channels] + samples[(m - 1) * channels..(m - 1) * channels + channels];
    }
  }

  /** Interleaving the channels of whole audio gives it back, however many channels there are. */
  lemma InterleaveUndoes(samples: seq<i16>, channels: nat)
    requires channels > 0 && |samples| % channels == 0
    ensures Interleave(AllChannels(samples, channels), channels) == Success(samples)
  {
    var all, n := AllChannels(samples, channels), |samples| / channels;
    assert |samples| == n * channels;
    forall ch | 0 <= ch < channels
      ensures |all[ch]| == n
    {
      DeinterleaveLength(samples, channels, ch);
    }
    hide AllChannels, Instants;
    FirstInstants(samples, channels, n, n);
    assert samples[..n * channels] == samples;
  }

  /** Channels decode from the front of what the encoder wrote, leaving whatever follows. */
  lemma {:induction false} ChannelsRoundTrip(lpc: Lpc, frame: AudioFrame, count: u32, k: nat, bytes: seq<byte>,
                                             rest: seq<byte>, n: nat, chans: seq<seq<i16>>, rest': seq<byte>)
    requires ValidChannels(frame.channels) && k <= frame.channels
    requires EncodeChannels(lpc, frame, k) == Success(bytes)
    requires forall ch :: 0 <= ch < frame.channels ==> |ChannelOf(frame, ch)| == count
    requires DecodeChannels(rest, n, count) == Success((chans, rest'))
    ensures DecodeChannels(bytes + rest, k + n, count)
            == Success((AllChannels(frame.samples, frame.channels)[..k] + chans, rest'))
    decreases k
  {
    hide EncodeChannel, DecodeChannel, DecodeChannels, Deinterleave;
    var all := AllChannels(frame.samples, frame.channels);
    if k == 0 {
      assert bytes + rest == rest;
      assert all[..0] + chans == chans;
    } else {
      var chan := ChannelOf(frame, k - 1);
      var body := EncodeChannel(lpc, chan).value;
      var before := EncodeChannels(lpc, frame, k - 1).value;
      ChannelRoundTrip(lpc, chan);
      OneChannel(body, rest, n, chan, count, chans, rest');
      var framed := LeBytes(|body|, 4) + body + rest;
      ChannelsRoundTrip(lpc, frame, count, k - 1, before, framed, n + 1, [chan] + chans, rest');
      assert bytes + rest == before + framed;
      assert all[..k - 1] + ([chan] + chans) == all[..k] + chans;
    }
  }

  lemma OneChannel(body: seq<byte>, rest: seq<byte>, n: nat, chan: seq<i16>, count: u32,
                   chans: seq<seq<i16>>, rest': seq<byte>)
    requires |body| < U32_LIMIT
    requires DecodeChannel(body, count) == Success(chan)
    requires DecodeChannels(rest, n, count) == Success((chans, rest'))
    ensures DecodeChannels(LeBytes(|body|, 4) + body + rest, n + 1, count) == Success(([chan] + chans, rest'))
  {
    hide DecodeChannel;
    var framed := LeBytes(|body|, 4) + body + rest;
    assert framed[0..4] == LeBytes(|body|, 4) && framed[4..4 + |body|] == body && framed[4 + |body|..] == rest;
    U32RoundTrip(|body|);
  }

  /** An accepted frame is short enough for its sample count not to be truncated. */
  lemma AcceptedCount(lpc: Lpc, frame: AudioFrame)
    requires ValidChannels(frame.channels) && |frame.samples| % frame.channels == 0
    requires EncodeChannels(lpc, frame, frame.channels).Success?
    ensures |frame.samples| / frame.channels < U32_LIMIT
  {
    hide EncodeChannel;
    var chan := ChannelOf(frame, frame.channels - 1);
    DeinterleaveLength(frame.samples, frame.channels, frame.channels - 1);
    ChannelRoundTrip(lpc, chan);
  }

  lemma BodyRoundTrip(lpc: Lpc, frame: AudioFrame)
    requires ValidChannels(frame.channels) && |frame.samples| % frame.channels == 0
    requires EncodeChannels(lpc, frame, frame.channels).Success?
    ensures |frame.samples| / frame.channels < U32_LIMIT
    ensures DecodePayloadV2(frame.sampleRate, frame.frameIndex, frame.channels, |frame.samples| / frame.channels,
                            EncodeChannels(lpc, frame, frame.channels).value)
            == Success(frame)
  {
    hide EncodeChannel, DecodeChannel, Deinterleave, Interleave, EncodeChannels;
    AcceptedCount(lpc, frame);
    var count: u32 := |frame.samples| / frame.channels;
    var body := EncodeChannels(lpc, frame, frame.channels).value;
    var all := AllChannels(frame.samples, frame.channels);
    forall ch | 0 <= ch < frame.channels
      ensures |ChannelOf(frame, ch)| == count
    {
      DeinterleaveLength(frame.samples, frame.channels, ch);
    }
    assert DecodeChannels([], 0, count) == Success(([], []));
    ChannelsRoundTrip(lpc, frame, count, frame.channels, body, [], 0, [], []);
    assert body + [] == body && all[..frame.channels] + [] == all;
    InterleaveUndoes(frame.samples, frame.channels);
  }

  /**
   Lossless: whatever the analysis finds, a frame the encoder accepts comes back identical, with
   the stream version given as 2, given as any value but 1, or not given at all.
   */
  lemma FrameRoundTrip(lpc: Lpc, frame: AudioFrame, version: Option<byte>, legacy: Legacy)
    requires EncodeFrame(lpc, frame).Success?
    requires version != Some(STREAM_VERSION_V1)
    ensures DecodeFrame(frame.sampleRate, frame.frameIndex, EncodeFrame(lpc, frame).value, version, legacy)
            == Success(frame)
  {
    hide EncodeChannels, DecodePayloadV2, LeBytes, FromLe, ChannelOf;
    var body := EncodeChannels(lpc, frame, frame.channels).value;
    BodyRoundTrip(lpc, frame);
    PayloadParts(|frame.samples| / frame.channels, frame.channels, body);
  }

  lemma PayloadParts(count: u32, channels: byte, body: seq<byte>)
    ensures var payload := LeBytes(count, 4) + [channels] + PAYLOAD_V2_MAGIC + body;
      && U32At(payload, 0) == count && payload[4] == channels
      && payload[5..7] == PAYLOAD_V2_MAGIC && payload[7..] == body
  {
    var payload := LeBytes(count, 4) + [channels] + PAYLOAD_V2_MAGIC + body;
    U32RoundTrip(count);
    assert payload[0..4] == LeBytes(count, 4);
  }

  /** Which frames are accepted: one or two channels of whole length, each within the u32 cost. */
  lemma FrameAccepted(lpc: Lpc, frame: AudioFrame)
    ensures EncodeFrame(lpc, frame).Success? <==>
            && ValidChannels(frame.channels)
            && |frame.samples| % frame.channels == 0
            && forall ch :: 0 <= ch < frame.channels ==>
                 ChannelCost(lpc, ChannelOf(frame, ch)) < U32_LIMIT
  {
    if ValidChannels(frame.channels) && |frame.samples| % frame.channels == 0 {
      ChannelsAccepted(lpc, frame, frame.channels);
    }
  }

  lemma {:induction false} ChannelsAccepted(lpc: Lpc, frame: AudioFrame, k: nat)
    requires ValidChannels(frame.channels) && k <= frame.channels
    ensures EncodeChannels(lpc, frame, k).Success? <==>
            forall ch :: 0 <= ch < k ==> ChannelCost(lpc, ChannelOf(frame, ch)) < U32_LIMIT
    decreases k
  {
    hide EncodeChannel, ChannelOf, ChannelCost;
    if k > 0 {
      ChannelsAccepted(lpc, frame, k - 1);
      ChannelRefused(lpc, ChannelOf(frame, k - 1));
    }
  }
}
