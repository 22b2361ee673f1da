/**
 The lossless audio payload ("R2") as functions: LPC prediction, one channel's payload, and
 the frame payload. The floating-point LPC analysis is an arbitrary oracle.
 */
module AudioSpec {
  import opened Wrappers
  import opened Bytes
  import opened RansModel
  import opened RansSpec
  import opened RansCoder

  const MAX_LPC_ORDER: nat := 8
  const USIZE_MAX: nat := U64_LIMIT - 1
  const PAYLOAD_V2_MAGIC: seq<byte> := [0x52, 0x32]
  const STREAM_VERSION_V1: byte := 1
  const STREAM_VERSION_V2: byte := 2

  datatype AudioError =
    | InvalidData(what: string)
    | UnsupportedChannels(channels: byte)
    | Entropy(error: RansError)

  datatype AudioFrame = AudioFrame(sampleRate: u32, channels: byte, frameIndex: u32, samples: seq<i16>)

  /** Outcome of the float analysis for one order: nothing, or one quantized tap per lag. */
  datatype Lpc = Lpc(found: (seq<i16>, nat) -> bool, tap: (seq<i16>, nat, nat) -> i16) {
    function Taps(samples: seq<i16>, p: nat): (coef: seq<i16>)
      ensures |coef| == p
    {
      seq<i16>(p, k requires 0 <= k < p => tap(samples, p, k))
    }
  }

  // ----- prediction -----

  function Saturate32(v: int): int {
    if v < -0x8000_0000 then -0x8000_0000 else if v > 0x7fff_ffff then 0x7fff_ffff else v
  }

  function Accumulate(x: seq<i16>, n: nat, k: nat, coef: seq<i16>): (acc: int)
    requires k <= n <= |x| && k <= |coef|
    ensures -0x8000_0000 <= acc <= 0x7fff_ffff
  {
    if k == 0 then 0
    else Saturate32(Accumulate(x, n, k - 1, coef) + Saturate32(coef[k - 1] as int * x[n - k]))
  }

  /** The arithmetic shift right by 12 rounds towards minus infinity. */
  function Predict(x: seq<i16>, n: nat, coef: seq<i16>): (pred: int)
    requires |coef| <= n <= |x|
    ensures -0x8_0000 <= pred < 0x8_0000
  {
    Accumulate(x, n, |coef|, coef) / 4096
  }

  function Residual(x: seq<i16>, n: nat, coef: seq<i16>): int
    requires |coef| <= n < |x|
  {
    x[n] - Predict(x, n, coef)
  }

  predicate FitsI16(v: int) {
    -0x8000 <= v < 0x8000
  }

  ghost predicate ResidualsFit(x: seq<i16>, coef: seq<i16>) {
    forall n :: |coef| <= n < |x| ==> FitsI16(Residual(x, n, coef))
  }

  ghost function Residuals(x: seq<i16>, coef: seq<i16>): (r: seq<i16>)
    requires |coef| <= |x| && ResidualsFit(x, coef)
    ensures |r| == |x| - |coef|
  {
    seq(|x| - |coef|, i requires 0 <= i < |x| - |coef| => Residual(x, |coef| + i, coef))
  }

  /** Undo the prediction sample by sample on top of the samples already known. */
  function Rebuild(x: seq<i16>, residuals: seq<i16>, coef: seq<i16>): (r: Result<seq<i16>, AudioError>)
    requires |coef| <= |x|
    ensures r.Success? ==> |r.value| == |x| + |residuals|
    ensures r.Failure? ==> r.error == InvalidData("v2 reconstruct range")
    decreases |residuals|
  {
    if residuals == [] then Success(x)
    else
      var v: int := Predict(x, |x|, coef) + residuals[0];
      if FitsI16(v) then Rebuild(x + [v], residuals[1..], coef)
      else Failure(InvalidData("v2 reconstruct range"))
  }

  // ----- samples as bytes -----

  function I16s(s: seq<i16>): (b: seq<byte>)
    ensures |b| == 2 * |s|
  {
    seq(2 * |s|, j requires 0 <= j < 2 * |s| => I16Bytes(s[j / 2])[j % 2])
  }

  function FromI16s(b: seq<byte>): (s: seq<i16>)
    ensures |s| == |b| / 2
  {
    seq(|b| / 2, i requires 0 <= i < |b| / 2 => I16Of(b[2 * i], b[2 * i + 1]))
  }

  // ----- one channel -----

  /** The model every channel is coded with: 256 equally likely byte values. */
  function ByteModel(): Model {
    Model(seq(256, _ => 16), seq(257, i => 16 * i))
  }

  /** The largest order, from `p` down, that the analysis offers and whose residuals fit; 0 if none. */
  ghost function ChosenOrder(lpc: Lpc, samples: seq<i16>, p: nat): (r: nat)
    ensures r <= p
    ensures r > 0 ==> lpc.found(samples, r) && ResidualsFit(samples, lpc.Taps(samples, r))
  {
    if p == 0 then 0
    else if lpc.found(samples, p) && ResidualsFit(samples, lpc.Taps(samples, p)) then p
    else ChosenOrder(lpc, samples, p - 1)
  }

  ghost function Order(lpc: Lpc, samples: seq<i16>): (p: nat)
    ensures p <= MAX_LPC_ORDER
    ensures p > 0 ==> |samples| > MAX_LPC_ORDER && ResidualsFit(samples, lpc.Taps(samples, p))
  {
    if |samples| > MAX_LPC_ORDER then ChosenOrder(lpc, samples, MAX_LPC_ORDER) else 0
  }

  ghost function Blob(bytes: seq<byte>): seq<byte> {
    ByteModelValid();
    Encoded(Repeat(ByteModel(), |bytes|), bytes)
  }

  ghost function RawPayload(samples: seq<i16>): seq<byte>
    requires 2 * |samples| < U32_LIMIT
  {
    [0] + LeBytes(2 * |samples|, 4) + I16s(samples)
  }

  ghost function LpcPayload(samples: seq<i16>, coef: seq<i16>): seq<byte>
    requires |coef| <= |samples| && |coef| < 256 && ResidualsFit(samples, coef)
  {
    var blob := Blob(I16s(Residuals(samples, coef)));
    [1] + [|coef|] + I16s(coef) + I16s(samples[..|coef|]) + LeBytes(|blob|, 4) + blob
  }

  ghost function EncodeChannel(lpc: Lpc, samples: seq<i16>): Result<seq<byte>, AudioError> {
    var p := Order(lpc, samples);
    if p > 0 then
      var coef := lpc.Taps(samples, p);
      if |Blob(I16s(Residuals(samples, coef)))| < U32_LIMIT then Success(LpcPayload(samples, coef))
      else Failure(InvalidData("rans blob length"))
    else if 2 * |samples| < U32_LIMIT then Success(RawPayload(samples))
    else Failure(InvalidData("raw len"))
  }

  ghost function DecodeRaw(payload: seq<byte>, count: u32): Result<seq<i16>, AudioError>
    requires |payload| >= 1
  {
    if |payload| < 5 then Failure(InvalidData("v2 raw len"))
    else if U32At(payload, 1) != 2 * count then Failure(InvalidData("v2 raw size mismatch"))
    else if |payload| < 5 + 2 * count then Failure(InvalidData("v2 raw truncated"))
    else if |payload| > 5 + 2 * count then Failure(InvalidData("v2 raw trailing"))
    else Success(FromI16s(payload[5..]))
  }

  /** The step budget the audio decoder computes, in saturating 64-bit arithmetic. */
  function DecodeBudget64(blobLen: nat, symbols: nat): nat {
    var a := if blobLen * 32 > USIZE_MAX then USIZE_MAX else blobLen * 32;
    var b := if symbols * 4 > USIZE_MAX then USIZE_MAX else symbols * 4;
    if a > b then a else b
  }

  ghost function DecodeLpc(payload: seq<byte>, count: u32): Result<seq<i16>, AudioError>
    requires |payload| >= 1
  {
    if count == 0 then Success([])
    else if |payload| < 2 then Failure(InvalidData("v2 lpc order byte"))
    else
      var p := payload[1];
      if p == 0 || p > MAX_LPC_ORDER then Failure(InvalidData("v2 bad lpc order"))
      else if |payload| < 2 + 4 * p + 4 then Failure(InvalidData("v2 lpc header"))
      else if count < p then Failure(InvalidData("v2 sample count vs order"))
      else
        var coef := FromI16s(payload[2..2 + 2 * p]);
        var warm := FromI16s(payload[2 + 2 * p..2 + 4 * p]);
        var blobLen := U32At(payload, 2 + 4 * p);
        if |payload| - (6 + 4 * p) < blobLen then Failure(InvalidData("v2 rans truncated"))
        else
          DecodeResiduals(coef, warm, payload[6 + 4 * p..6 + 4 * p + blobLen], count)
  }

  ghost function DecodeResiduals(coef: seq<i16>, warm: seq<i16>, blob: seq<byte>, count: u32)
    : Result<seq<i16>, AudioError>
    requires |coef| == |warm| <= count
  {
    ByteModelValid();
    var symbols := 2 * (count - |coef|);
    match DecodeStream(Repeat(ByteModel(), symbols), blob, DecodeBudget64(|blob|, symbols))
    case Failure(e) => Failure(Entropy(e))
    case Success(syms) => Rebuild(warm, FromI16s(AsBytes(syms)), coef)
  }

  function AsBytes(syms: seq<nat>): (b: seq<byte>)
    ensures |b| == |syms|
  {
    seq(|syms|, i requires 0 <= i < |syms| => syms[i] % 256)
  }

  ghost function DecodeChannel(payload: seq<byte>, count: u32): Result<seq<i16>, AudioError> {
    if payload == [] then
      if count == 0 then Success([]) else Failure(InvalidData("empty v2 channel"))
    else if payload[0] == 0 then DecodeRaw(payload, count)
    else if payload[0] == 1 then DecodeLpc(payload, count)
    else Failure(InvalidData("v2 unknown channel mode"))
  }

  lemma ByteModelValid()
    ensures IsUniform(ByteModel(), 256)
  {
    var m := ByteModel();
    forall i | 0 <= i <= 256
      ensures m.cumulative[i] == Sum(m.freqs[..i])
    {
      assert m.freqs[..i] == seq(i, _ => 16);
      UniformSum(16, i);
    }
    assert m.freqs[..256] == m.freqs;
  }

  // ----- a frame -----

  predicate ValidChannels(channels: int) {
    channels == 1 || channels == 2
  }

  /** Every `channels`-th sample, starting with the one at `from`. */
  function Deinterleave(samples: seq<i16>, channels: nat, from: nat): seq<i16>
    requires channels > 0
    decreases if from < |samples| then |samples| - from else 0
  {
    if from >= |samples| then []
    else [samples[from]] + Deinterleave(samples, channels, from + channels)
  }

  function ChannelOf(frame: AudioFrame, ch: nat): seq<i16>
    requires ValidChannels(frame.channels)
  {
    Deinterleave(frame.samples, frame.channels, ch)
  }

  /** The samples of instant `i`, one of every channel. */
  function Instant(chans: seq<seq<i16>>, i: nat): (r: seq<i16>)
    requires forall k :: 0 <= k < |chans| ==> i < |chans[k]|
    ensures |r| == |chans|
  {
    seq(|chans|, k requires 0 <= k < |chans| => chans[k][i])
  }

  function Instants(chans: seq<seq<i16>>, n: nat): seq<i16>
    requires forall k :: 0 <= k < |chans| ==> n <= |chans[k]|
  {
    if n == 0 then [] else Instants(chans, n - 1) + Instant(chans, n - 1)
  }

  predicate SameLengths(chans: seq<seq<i16>>, n: nat) {
    forall k :: 0 <= k < |chans| ==> |chans[k]| == n
  }

  /** One sample of every channel in turn. */
  function Interleave(chans: seq<seq<i16>>, channels: nat): Result<seq<i16>, AudioError> {
    if |chans| != channels then Failure(InvalidData("channel metadata does not match payload channels"))
    else if channels == 0 then Success([])
    else if !SameLengths(chans, |chans[0]|) then Failure(InvalidData("channels are not equal sample length"))
    else Success(Instants(chans, |chans[0]|))
  }

  /** The length-prefixed payloads of the first `k` channels. */
  ghost function EncodeChannels(lpc: Lpc, frame: AudioFrame, k: nat): Result<seq<byte>, AudioError>
    requires ValidChannels(frame.channels) && k <= frame.channels
  {
    if k == 0 then Success([])
    else
      match EncodeChannels(lpc, frame, k - 1)
      case Failure(e) => Failure(e)
      case Success(before) =>
        match EncodeChannel(lpc, ChannelOf(frame, k - 1))
        case Failure(e) => Failure(e)
        case Success(body) =>
          if |body| >= U32_LIMIT then Failure(InvalidData("channel payload too large"))
          else Success(before + LeBytes(|body|, 4) + body)
  }

  ghost function EncodeFrame(lpc: Lpc, frame: AudioFrame): Result<seq<byte>, AudioError> {
    if !ValidChannels(frame.channels) then Failure(UnsupportedChannels(frame.channels))
    else if |frame.samples| % frame.channels != 0 then
      Failure(InvalidData("interleaved sample length does not match channels"))
    else
      match EncodeChannels(lpc, frame, frame.channels)
      case Failure(e) => Failure(e)
      case Success(body) =>
        Success(LeBytes(|frame.samples| / frame.channels % U32_LIMIT, 4) + [frame.channels] + PAYLOAD_V2_MAGIC + body)
  }

  /** Read `k` length-prefixed channels from the front of `body`; what is left comes with them. */
  ghost function DecodeChannels(body: seq<byte>, k: nat, count: u32)
    : (r: Result<(seq<seq<i16>>, seq<byte>), AudioError>)
    ensures r.Success? ==> |r.value.0| == k
  {
    if k == 0 then Success(([], body))
    else if |body| < 4 then Failure(InvalidData("truncated channel length"))
    else
      var len := U32At(body, 0);
      if |body| - 4 < len then Failure(InvalidData("truncated channel payload"))
      else
        match DecodeChannel(body[4..4 + len], count)
        case Failure(e) => Failure(e)
        case Success(chan) =>
          match DecodeChannels(body[4 + len..], k - 1, count)
          case Failure(e) => Failure(e)
          case Success((chans, rest)) => Success(([chan] + chans, rest))
  }

  ghost function DecodePayloadV2(rate: u32, index: u32, channels: byte, count: u32, body: seq<byte>)
    : Result<AudioFrame, AudioError>
    requires ValidChannels(channels)
  {
    match DecodeChannels(body, channels, count)
    case Failure(e) => Failure(e)
    case Success((chans, rest)) =>
      if rest != [] then Failure(InvalidData("unexpected bytes in audio v2 payload"))
      else
        match Interleave(chans, channels)
        case Failure(e) => Failure(e)
        case Success(samples) => Success(AudioFrame(rate, channels, index, samples))
  }

  /** The legacy v1 parser, which has no encoder: any function of what it is given. */
  type Legacy = (u32, u32, byte, u32, seq<byte>) -> Result<AudioFrame, AudioError>

  ghost function DecodeFrame(rate: u32, index: u32, payload: seq<byte>, version: Option<byte>, legacy: Legacy)
    : Result<AudioFrame, AudioError>
  {
    if |payload| < 5 then Failure(InvalidData("audio payload too small"))
    else
      var count := U32At(payload, 0);
      var channels := payload[4];
      var marked := |payload| >= 7 && payload[5..7] == PAYLOAD_V2_MAGIC;
      if !ValidChannels(channels) then Failure(UnsupportedChannels(channels))
      else if version == Some(STREAM_VERSION_V2) && !marked then
        Failure(InvalidData("v2 audio payload missing R2 magic"))
      else if version != Some(STREAM_VERSION_V1) && marked then
        DecodePayloadV2(rate, index, channels, count, payload[7..])
      else legacy(rate, index, channels, count, payload[5..])
  }
}
