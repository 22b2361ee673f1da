/**
 What the bytes of a version 1 payload mean, without the decoder: tokens, the differences they stand
 for, samples as running sums of differences, and blocks in raster order.
 */
module VideoWire {
  import opened Wrappers
  import opened Bytes
  import opened LittleEndian
  import opened VideoSpec
  import opened VideoTheorems

  // ---------------------------------------------------------------- tokens

  /** A byte up to 127 is a run of one more; 128 announces a 16-bit difference; any other is 192 and a difference. */
  ghost predicate IsToken(bytes: seq<byte>, t: Token) {
    match t
    case Run(n) => |bytes| == 1 && bytes[0] <= 127 && n == bytes[0] as int + 1
    case Delta(d) =>
      || (|bytes| == 1 && bytes[0] >= 129 && d == bytes[0] as int - 192)
      || (|bytes| == 3 && bytes[0] == 128 && Is16(bytes, 1, if d >= 0 then d else d + 0x1_0000))
  }

  /** `data` starts with the bytes of the tokens, and `rest` is what follows. */
  ghost predicate Reads(data: seq<byte>, tokens: seq<Token>, rest: seq<byte>)
    decreases |tokens|
  {
    if tokens == [] then data == rest
    else
      || (|data| >= 1 && IsToken(data[..1], tokens[0]) && Reads(data[1..], tokens[1..], rest))
      || (|data| >= 3 && IsToken(data[..3], tokens[0]) && Reads(data[3..], tokens[1..], rest))
  }

  /** The difference of every sample to the one before it: none throughout a run. */
  function Differences(tokens: seq<Token>): seq<int> {
    if tokens == [] then []
    else
      (match tokens[0] case Run(n) => seq(n, _ => 0) case Delta(d) => [d as int]) + Differences(tokens[1..])
  }

  /** Each sample is the one before it, at first `before`, plus its difference. */
  ghost predicate Sums(before: byte, differences: seq<int>, samples: seq<byte>) {
    |differences| == |samples| && forall i :: 0 <= i < |samples| ==> SumAt(before, differences, samples, i)
  }

  predicate SumAt(before: byte, differences: seq<int>, samples: seq<byte>, i: nat)
    requires i < |samples| == |differences|
  {
    samples[i] as int == differences[i] + Previous(before, samples, i)
  }

  function Previous(before: byte, samples: seq<byte>, i: nat): int
    requires i < |samples|
  {
    if i == 0 then before else samples[i - 1]
  }

  lemma TokenMeans(data: seq<byte>)
    requires ReadToken(data).Success?
    ensures var (t, rest) := ReadToken(data).value;
      || (|data| >= 1 && IsToken(data[..1], t) && rest == data[1..])
      || (|data| >= 3 && IsToken(data[..3], t) && rest == data[3..])
  {
  }

  lemma TokenIsRead(data: seq<byte>, t: Token)
    ensures |data| >= 1 && IsToken(data[..1], t) ==> ReadToken(data) == Success((t, data[1..]))
    ensures |data| >= 3 && IsToken(data[..3], t) ==> ReadToken(data) == Success((t, data[3..]))
  {
  }

  lemma SumsOfRun(before: byte, n: nat, differences: seq<int>, samples: seq<byte>)
    requires Sums(before, differences, samples)
    ensures Sums(before, seq(n, _ => 0) + differences, Repeat(before, n) + samples)
  {
    var d, s := seq(n, _ => 0) + differences, Repeat(before, n) + samples;
    forall i | 0 <= i < |s|
      ensures SumAt(before, d, s, i)
    {
      if i >= n {
        assert SumAt(before, differences, samples, i - n);
        assert s[i] == samples[i - n] && d[i] == differences[i - n];
        assert i > n ==> s[i - 1] == samples[i - n - 1];
      }
    }
  }

  lemma SumsOfDelta(before: byte, value: byte, differences: seq<int>, samples: seq<byte>)
    requires Sums(value, differences, samples)
    ensures Sums(before, [value as int - before] + differences, [value] + samples)
  {
    var d, s := [value as int - before] + differences, [value] + samples;
    forall i | 0 <= i < |s|
      ensures SumAt(before, d, s, i)
    {
      if i > 0 {
        assert SumAt(value, differences, samples, i - 1);
        assert s[i] == samples[i - 1] && d[i] == differences[i - 1];
        assert i > 1 ==> s[i - 1] == samples[i - 2];
      }
    }
  }

  /** The converse: what the sums say at the front. */
  lemma {:induction false} RunOfSums(before: byte, n: nat, differences: seq<int>, samples: seq<byte>)
    requires Sums(before, seq(n, _ => 0) + differences, samples)
    ensures n <= |samples| && samples[..n] == Repeat(before, n) && Sums(before, differences, samples[n..])
    decreases n
  {
    var d := seq(n, _ => 0) + differences;
    if n == 0 {
      assert d == differences && samples[n..] == samples;
    } else {
      var m := n - 1;
      assert seq(m, _ => 0) + ([0] + differences) == d;
      RunOfSums(before, m, [0] + differences, samples);
      var tail := samples[m..];
      assert Sums(before, [0] + differences, tail);
      assert SumAt(before, [0] + differences, tail, 0);
      DeltaOfSums(before, 0, differences, tail);
      assert tail[1..] == samples[n..];
    }
  }

  lemma DeltaOfSums(before: byte, delta: int, differences: seq<int>, samples: seq<byte>)
    requires Sums(before, [delta] + differences, samples)
    ensures samples != [] && samples[0] as int == before as int + delta && Sums(samples[0], differences, samples[1..])
  {
    var d, s := [delta] + differences, samples[1..];
    assert SumAt(before, d, samples, 0);
    forall i | 0 <= i < |s|
      ensures SumAt(samples[0], differences, s, i)
    {
      assert SumAt(before, d, samples, i + 1);
    }
  }

  /** A sum that leaves a byte wraps to no byte. */
  lemma NoByteWraps(before: byte, d: i16)
    ensures 0 <= WrapI16(before + d) <= 255 <==> 0 <= before as int + d <= 255
    ensures 0 <= before as int + d <= 255 ==> WrapI16(before + d) == before as int + d
  {
  }

  /** Whatever a block is decoded from are tokens, and its samples are the running sums of their differences. */
  lemma {:induction false} DecodedTokens(data: seq<byte>, before: byte, n: nat) returns (tokens: seq<Token>)
    requires DecodeBlock(data, before, n).Success?
    ensures var (samples, rest) := DecodeBlock(data, before, n).value;
      Reads(data, tokens, rest) && Sums(before, Differences(tokens), samples)
    decreases n
  {
    hide ReadToken, WrapI16, IsToken, Sums;
    if n == 0 {
      tokens := [];
      NoSums(before);
    } else {
      var (t, rest) := ReadToken(data).value;
      TokenMeans(data);
      var more;
      match t {
        case Run(run) =>
          more := DecodedTokens(rest, before, n - run);
          SumsOfRun(before, run, Differences(more), DecodeBlock(rest, before, n - run).value.0);
        case Delta(d) =>
          NoByteWraps(before, d);
          var value: byte := WrapI16(before + d);
          more := DecodedTokens(rest, value, n - 1);
          SumsOfDelta(before, value, Differences(more), DecodeBlock(rest, value, n - 1).value.0);
      }
      tokens := [t] + more;
      assert tokens[1..] == more;
    }
  }

  lemma NoSums(before: byte)
    ensures Sums(before, [], [])
  {
  }

  /** And every list of tokens is decoded to the running sums of its differences, if these are bytes. */
  lemma {:induction false} TokensDecode(data: seq<byte>, tokens: seq<Token>, rest: seq<byte>, before: byte,
                                        samples: seq<byte>)
    requires Reads(data, tokens, rest) && Sums(before, Differences(tokens), samples)
    ensures DecodeBlock(data, before, |samples|) == Success((samples, rest))
    decreases |tokens|
  {
    hide ReadToken, WrapI16, Sums;
    if tokens == [] {
      NothingSummed(before, samples);
    } else {
      TokenIsRead(data, tokens[0]);
      var short := IsToken(data[..1], tokens[0]) && Reads(data[1..], tokens[1..], rest);
      var after := if short then data[1..] else data[3..];
      match tokens[0] {
        case Run(n) =>
          RunOfSums(before, n, Differences(tokens[1..]), samples);
          TokensDecode(after, tokens[1..], rest, before, samples[n..]);
          assert samples == Repeat(before, n) + samples[n..];
        case Delta(d) =>
          DeltaOfSums(before, d, Differences(tokens[1..]), samples);
          NoByteWraps(before, d);
          TokensDecode(after, tokens[1..], rest, samples[0], samples[1..]);
          assert samples == [samples[0]] + samples[1..];
      }
    }
  }

  lemma NothingSummed(before: byte, samples: seq<byte>)
    requires Sums(before, [], samples)
    ensures samples == []
  {
  }

  // ---------------------------------------------------------------- blocks

  /** The samples of block `b` of a frame, `columns` blocks to a row, row by row and left to right. */
  function BlockOf(width: nat, height: nat, pixels: seq<byte>, row: nat, column: nat): seq<byte>
    requires |pixels| == Area(width, height)
  {
    Gather(pixels, Positions(width, height, 8 * column, 8 * row, 8 * row, 8 * column))
  }

  /** The number of blocks that it takes to cover `n` pixels. */
  function Blocks(n: nat): nat {
    (n + 7) / 8
  }

  /** From `data` on stand the tokens of a block, summed up from 128, and then `rest`. */
  ghost predicate Codes(data: seq<byte>, samples: seq<byte>, rest: seq<byte>) {
    exists tokens :: Reads(data, tokens, rest) && Sums(128, Differences(tokens), samples)
  }

  /** The blocks from the given one on, in raster order, each in front of the next part. */
  ghost predicate Cuts(width: nat, height: nat, pixels: seq<byte>, row: nat, column: nat, parts: seq<seq<byte>>)
    requires |pixels| == Area(width, height)
    decreases if row < Blocks(height) then Blocks(height) - row else 0,
              if column < Blocks(width) then Blocks(width) - column else 0
  {
    if row >= Blocks(height) then |parts| == 1
    else if column >= Blocks(width) then Cuts(width, height, pixels, row + 1, 0, parts)
    else
      && |parts| >= 2
      && Codes(parts[0], BlockOf(width, height, pixels, row, column), parts[1])
      && Cuts(width, height, pixels, row, column + 1, parts[1..])
  }

  lemma BlockCodes(data: seq<byte>, n: nat)
    requires DecodeBlock(data, 128, n).Success?
    ensures Codes(data, DecodeBlock(data, 128, n).value.0, DecodeBlock(data, 128, n).value.1)
  {
    hide DecodeBlock, Reads, Sums, Differences;
    var tokens := DecodedTokens(data, 128, n);
  }

  lemma {:induction false} DecodedCuts(width: nat, height: nat, data: seq<byte>, buffer: seq<byte>, row: nat,
                                       column: nat) returns (parts: seq<seq<byte>>)
    requires |buffer| == Area(width, height) && DecodeFrom(width, height, data, buffer, 8 * row, 8 * column).Success?
    ensures var (out, rest) := DecodeFrom(width, height, data, buffer, 8 * row, 8 * column).value;
      && Cuts(width, height, out, row, column, parts)
      && |parts| > 0 && parts[0] == data && parts[|parts| - 1] == rest
    decreases if row < Blocks(height) then Blocks(height) - row else 0,
              if column < Blocks(width) then Blocks(width) - column else 0
  {
    hide Positions, DecodeBlock, Gather, Scatter, Area, Codes;
    var top, left := 8 * row, 8 * column;
    if row >= Blocks(height) {
      parts := [data];
    } else if column >= Blocks(width) {
      parts := DecodedCuts(width, height, data, buffer, row + 1, 0);
    } else {
      var positions := Positions(width, height, left, top, top, left);
      var (samples, rest) := DecodeBlock(data, 128, |positions|).value;
      BlockCodes(data, |positions|);
      DecodedBlockStays(width, height, rest, buffer, top, left, samples);
      var more := DecodedCuts(width, height, rest, Scatter(buffer, positions, samples), row, column + 1);
      parts := [data] + more;
      assert parts[1..] == more;
    }
  }

  /**
   A payload that decodes to a frame is the byte 8, the frame's size in 32 bits, and the blocks of the frame in
   raster order, with nothing behind the last.
   */
  lemma PayloadMeans(width: u32, height: u32, frameIndex: u32, payload: seq<byte>) returns (parts: seq<seq<byte>>)
    requires DecodeFrame(width, height, frameIndex, I, payload).Success?
    ensures var frame := DecodeFrame(width, height, frameIndex, I, payload).value;
      && |payload| >= 5 && payload[0] == 8 && Is32(payload, 1, width * height)
      && frame.width == width && frame.height == height && frame.frameIndex == frameIndex && frame.frameType == I
      && |frame.data| == Area(width, height)
      && Cuts(width, height, frame.data, 0, 0, parts)
      && |parts| > 0 && parts[0] == payload[5..] && parts[|parts| - 1] == []
  {
    hide DecodeFrom, Cuts;
    Four(payload[1..5]);
    parts := DecodedCuts(width, height, payload[5..], Repeat(0, U32At(payload, 1)), 0, 0);
  }

  lemma CodesBlock(data: seq<byte>, samples: seq<byte>, rest: seq<byte>)
    requires Codes(data, samples, rest)
    ensures DecodeBlock(data, 128, |samples|) == Success((samples, rest))
  {
    hide DecodeBlock, Reads, Sums, Differences;
    var tokens :| Reads(data, tokens, rest) && Sums(128, Differences(tokens), samples);
    TokensDecode(data, tokens, rest, 128, samples);
  }

  lemma NothingToRestore(buffer: seq<byte>, pixels: seq<byte>)
    requires |buffer| == |pixels|
    ensures Restores(buffer, buffer, pixels, [])
  {
  }

  lemma {:induction false} CutsDecode(width: nat, height: nat, pixels: seq<byte>, buffer: seq<byte>, row: nat,
                                      column: nat, parts: seq<seq<byte>>)
    requires |buffer| == |pixels| == Area(width, height) && parts != []
    requires Cuts(width, height, pixels, row, column, parts)
    ensures var r := DecodeFrom(width, height, parts[0], buffer, 8 * row, 8 * column);
      && r.Success? && r.value.1 == parts[|parts| - 1]
      && Restores(r.value.0, buffer, pixels, PendingFrom(width, height, 8 * row, 8 * column))
    decreases if row < Blocks(height) then Blocks(height) - row else 0,
              if column < Blocks(width) then Blocks(width) - column else 0
  {
    hide Positions, DecodeBlock, Gather, Scatter, Area, Codes, Restores;
    if row >= Blocks(height) {
      NothingToRestore(buffer, pixels);
    } else {
      if column >= Blocks(width) {
        CutsDecode(width, height, pixels, buffer, row + 1, 0, parts);
      } else {
        var samples := BlockOf(width, height, pixels, row, column);
        CodesBlock(parts[0], samples, parts[1]);
        var positions := Positions(width, height, 8 * column, 8 * row, 8 * row, 8 * column);
        var next := Scatter(buffer, positions, samples);
        CutsDecode(width, height, pixels, next, row, column + 1, parts[1..]);
        var out := DecodeFrom(width, height, parts[1], next, 8 * row, 8 * column + 8).value.0;
        BlockRestores(out, buffer, pixels, positions, PendingFrom(width, height, 8 * row, 8 * column + 8));
      }
    }
  }

  /** Conversely every such payload is decoded to that frame. */
  lemma MeansPayload(width: u32, height: u32, frameIndex: u32, pixels: seq<byte>, payload: seq<byte>,
                     parts: seq<seq<byte>>)
    requires |payload| >= 5 && payload[0] == 8 && Is32(payload, 1, width * height) && |pixels| == Area(width, height)
    requires Cuts(width, height, pixels, 0, 0, parts)
    requires |parts| > 0 && parts[0] == payload[5..] && parts[|parts| - 1] == []
    ensures DecodeFrame(width, height, frameIndex, I, payload)
            == Success(VideoFrame(width, height, frameIndex, I, pixels))
  {
    hide DecodeFrom, Cuts, PendingFrom;
    Four(payload[1..5]);
    var buffer := Repeat(0, U32At(payload, 1));
    CutsDecode(width, height, pixels, buffer, 0, 0, parts);
    forall i: nat | i < |pixels|
      ensures i in PendingFrom(width, height, 0, 0)
    {
      WalkIsComplete(width, height, i);
    }
    assert DecodeFrom(width, height, payload[5..], buffer, 0, 0).value.0 == pixels;
  }

  // ---------------------------------------------------------------- refusals

  lemma EncodingRefused(frame: VideoFrame)
    ensures var r, n := EncodeFrame(frame), frame.width * frame.height;
      && (r == Failure(BufferLength) <==> n != |frame.data|)
      && (r == Failure(EncoderOnlyIntra) <==> n == |frame.data| && frame.frameType != I)
      && (r == Failure(FrameTooLarge) <==> n == |frame.data| && frame.frameType == I && n >= 0x1_0000_0000)
  {
    hide TokensFrom, LeBytes;
  }

  /** What is refused before any block is decoded, and when bytes are left over. */
  lemma PayloadRefused(width: u32, height: u32, frameIndex: u32, frameType: FrameType, payload: seq<byte>)
    ensures var r := DecodeFrame(width, height, frameIndex, frameType, payload);
      if frameType != I then r == Failure(DecoderOnlyIntra)
      else if |payload| < 5 then r == Failure(PayloadTooSmall)
      else if payload[0] != 8 then r == Failure(UnsupportedBlockSize)
      else if U32At(payload, 1) != width * height then r == Failure(LengthMetadata)
      else
        var blocks := DecodeFrom(width, height, payload[5..], Repeat(0, U32At(payload, 1)), 0, 0);
        && (blocks.Failure? ==> r == Failure(blocks.error))
        && (blocks.Success? && blocks.value.1 != [] ==> r == Failure(TrailingBytes))
  {
    hide DecodeFrom, FromLe;
  }

  /** Where a block is refused: too few bytes, a run past its end, a sum that is no byte. */
  lemma TokenRefused(data: seq<byte>, before: byte, n: nat)
    requires n > 0
    ensures data == [] ==> DecodeBlock(data, before, n) == Failure(Truncated)
    ensures 1 <= |data| < 3 && data[0] == 128 ==> DecodeBlock(data, before, n) == Failure(TruncatedLiteral)
    ensures data != [] && data[0] <= 127 && data[0] as int + 1 > n ==>
      DecodeBlock(data, before, n) == Failure(RunOverflow)
    ensures data != [] && data[0] >= 129 && !(0 <= before as int + data[0] - 192 <= 255) ==>
      DecodeBlock(data, before, n) == Failure(SampleOutOfRange)
    ensures |data| >= 3 && data[0] == 128 && !(0 <= before as int + I16Of(data[1], data[2]) <= 255) ==>
      DecodeBlock(data, before, n) == Failure(SampleOutOfRange)
  {
  }
}
