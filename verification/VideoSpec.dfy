/** The version 1 intra codec: 8x8 blocks in raster order, each predicted sample by sample and run-length coded. */
module VideoSpec {
  import opened Wrappers
  import opened Bytes

  const BLOCK_SIZE: nat := 8

  datatype FrameType = I | PReserved
  datatype VideoFrame = VideoFrame(width: u32, height: u32, frameIndex: u32, frameType: FrameType, data: seq<byte>)
  datatype VideoError =
    | BufferLength | EncoderOnlyIntra | DecoderOnlyIntra | FrameTooLarge | PayloadTooSmall | UnsupportedBlockSize
    | LengthMetadata | TrailingBytes | Truncated | TruncatedLiteral | RunOverflow | SampleOutOfRange

  // ---------------------------------------------------------------- the walk over a frame

  function Min(a: nat, b: nat): nat {
    if a < b then a else b
  }

  function Area(width: nat, height: nat): nat {
    width * height
  }

  /** Row-major index of the pixel in column `x` of row `y`. */
  function PixelIndex(width: nat, x: nat, y: nat): nat {
    y * width + x
  }

  /** Pixel indices of the block at `(left, top)` from row `y`, column `x` on, clipped at the frame's edges. */
  function Positions(width: nat, height: nat, left: nat, top: nat, y: nat, x: nat): (p: seq<nat>)
    requires top <= y && left <= x
    ensures forall i :: 0 <= i < |p| ==> p[i] < Area(width, height)
    decreases top + BLOCK_SIZE - y, left + BLOCK_SIZE - x
  {
    if y >= Min(top + BLOCK_SIZE, height) then []
    else if x >= Min(left + BLOCK_SIZE, width) then Positions(width, height, left, top, y + 1, left)
    else
      PixelInFrame(width, height, x, y);
      [PixelIndex(width, x, y)] + Positions(width, height, left, top, y, x + 1)
  }

  lemma PixelInFrame(width: nat, height: nat, x: nat, y: nat)
    requires x < width && y < height
    ensures PixelIndex(width, x, y) < Area(width, height)
  {
    assert y * width + width == (y + 1) * width <= height * width;
  }

  function Gather(pixels: seq<byte>, positions: seq<nat>): (s: seq<byte>)
    requires forall i :: 0 <= i < |positions| ==> positions[i] < |pixels|
    ensures |s| == |positions|
  {
    seq(|positions|, i requires 0 <= i < |positions| => pixels[positions[i]])
  }

  function Scatter(pixels: seq<byte>, positions: seq<nat>, samples: seq<byte>): (s: seq<byte>)
    requires |positions| == |samples| && forall i :: 0 <= i < |positions| ==> positions[i] < |pixels|
    ensures |s| == |pixels|
    decreases |positions|
  {
    if positions == [] then pixels else Scatter(pixels[positions[0] := samples[0]], positions[1..], samples[1..])
  }

  // ---------------------------------------------------------------- tokens

  /** Run bytes for `run` samples equal to the predictor. */
  function FlushRun(run: nat): (s: seq<byte>) {
    if run == 0 then []
    else
      var chunk := Min(run, 128);
      [chunk - 1] + FlushRun(run - chunk)
  }

  function DeltaToken(delta: i16): (s: seq<byte>) {
    if -63 <= delta <= 63 && delta != 0 then [delta + 192] else [128] + I16Bytes(delta)
  }

  /** The tokens of `samples` when the predictor is `predictor` and `run` equal samples are pending. */
  function BlockTokens(samples: seq<byte>, predictor: byte, run: nat): (s: seq<byte>)
    decreases |samples|
  {
    if samples == [] then FlushRun(run)
    else if samples[0] == predictor then
      if run == 255 then FlushRun(run) + BlockTokens(samples[1..], predictor, 1)
      else BlockTokens(samples[1..], predictor, run + 1)
    else FlushRun(run) + DeltaToken(samples[0] as int - predictor) + BlockTokens(samples[1..], samples[0], 0)
  }

  datatype Token = Run(length: nat) | Delta(delta: i16)

  function ReadToken(data: seq<byte>): (r: Result<(Token, seq<byte>), VideoError>)
    ensures r.Success? ==> |r.value.1| < |data| && (r.value.0.Run? ==> 1 <= r.value.0.length <= 128)
  {
    if data == [] then Failure(Truncated)
    else if data[0] <= 127 then Success((Run(data[0] + 1), data[1..]))
    else if data[0] == 128 then
      if |data| < 3 then Failure(TruncatedLiteral) else Success((Delta(I16Of(data[1], data[2])), data[3..]))
    else Success((Delta(data[0] as int - 192), data[1..]))
  }

  /** 16-bit addition as a release build performs it. */
  function WrapI16(v: int): i16 {
    (v + 0x8000) % 0x1_0000 - 0x8000
  }

  function Repeat(v: byte, n: nat): (s: seq<byte>)
    ensures |s| == n
  {
    seq<byte>(n, i => v)
  }

  /** Decode `n` samples: the samples and what is left of `data`. */
  function DecodeBlock(data: seq<byte>, predictor: byte, n: nat): (r: Result<(seq<byte>, seq<byte>), VideoError>)
    ensures r.Success? ==> |r.value.0| == n && |r.value.1| <= |data|
    decreases n
  {
    if n == 0 then Success(([], data))
    else
      match ReadToken(data)
      case Failure(e) => Failure(e)
      case Success((Run(run), rest)) =>
        if run > n then Failure(RunOverflow)
        else Prefixed(Repeat(predictor, run), DecodeBlock(rest, predictor, n - run))
      case Success((Delta(delta), rest)) =>
        var value := WrapI16(predictor + delta);
        if 0 <= value <= 255 then Prefixed([value], DecodeBlock(rest, value, n - 1)) else Failure(SampleOutOfRange)
  }

  function Prefixed(done: seq<byte>, r: Result<(seq<byte>, seq<byte>), VideoError>)
    : Result<(seq<byte>, seq<byte>), VideoError>
  {
    if r.Success? then Success((done + r.value.0, r.value.1)) else Failure(r.error)
  }

  // ---------------------------------------------------------------- frames

  /** The tokens of every block from the one at `(left, top)` on, in raster order. */
  function TokensFrom(width: nat, height: nat, pixels: seq<byte>, top: nat, left: nat): (s: seq<byte>)
    requires |pixels| == Area(width, height)
    decreases if top < height then height - top else 0, if left < width then width - left else 0
  {
    if top >= height then []
    else if left >= width then TokensFrom(width, height, pixels, top + BLOCK_SIZE, 0)
    else
      BlockTokens(Gather(pixels, Positions(width, height, left, top, top, left)), 128, 0)
      + TokensFrom(width, height, pixels, top, left + BLOCK_SIZE)
  }

  /** The pixel indices of every block from the one at `(left, top)` on, in coding order. */
  function PendingFrom(width: nat, height: nat, top: nat, left: nat): (p: seq<nat>)
    ensures forall i :: 0 <= i < |p| ==> p[i] < Area(width, height)
    decreases if top < height then height - top else 0, if left < width then width - left else 0
  {
    if top >= height then []
    else if left >= width then PendingFrom(width, height, top + BLOCK_SIZE, 0)
    else Positions(width, height, left, top, top, left) + PendingFrom(width, height, top, left + BLOCK_SIZE)
  }

  function DecodeFrom(width: nat, height: nat, data: seq<byte>, pixels: seq<byte>, top: nat, left: nat)
    : (r: Result<(seq<byte>, seq<byte>), VideoError>)
    requires |pixels| == Area(width, height)
    ensures r.Success? ==> |r.value.0| == Area(width, height)
    decreases if top < height then height - top else 0, if left < width then width - left else 0
  {
    if top >= height then Success((pixels, data))
    else if left >= width then DecodeFrom(width, height, data, pixels, top + BLOCK_SIZE, 0)
    else
      var positions := Positions(width, height, left, top, top, left);
      match DecodeBlock(data, 128, |positions|)
      case Failure(e) => Failure(e)
      case Success((samples, rest)) =>
        DecodeFrom(width, height, rest, Scatter(pixels, positions, samples), top, left + BLOCK_SIZE)
  }

  function EncodeFrame(frame: VideoFrame): (r: Result<seq<byte>, VideoError>) {
    if Area(frame.width, frame.height) != |frame.data| then Failure(BufferLength)
    else if frame.frameType != I then Failure(EncoderOnlyIntra)
    else if |frame.data| >= U32_LIMIT then Failure(FrameTooLarge)
    else Success([BLOCK_SIZE] + LeBytes(|frame.data|, 4) + TokensFrom(frame.width, frame.height, frame.data, 0, 0))
  }

  function DecodeFrame(width: u32, height: u32, frameIndex: u32, frameType: FrameType, payload: seq<byte>)
    : (r: Result<VideoFrame, VideoError>)
  {
    if frameType != I then Failure(DecoderOnlyIntra)
    else if |payload| < 5 then Failure(PayloadTooSmall)
    else if payload[0] != BLOCK_SIZE then Failure(UnsupportedBlockSize)
    else if U32At(payload, 1) != Area(width, height) then Failure(LengthMetadata)
    else
      match DecodeFrom(width, height, payload[5..], Repeat(0, U32At(payload, 1)), 0, 0)
      case Failure(e) => Failure(e)
      case Success((pixels, rest)) =>
        if rest != [] then Failure(TrailingBytes) else Success(VideoFrame(width, height, frameIndex, frameType, pixels))
  }
}
