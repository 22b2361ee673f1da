/** Decoding undoes encoding for every intra frame, and no payload of a frame is shorter than the encoder's. */
module VideoTheorems {
  import opened Wrappers
  import opened Bytes
  import opened VideoSpec

  // ---------------------------------------------------------------- tokens

  lemma TokenRead(delta: i16, rest: seq<byte>)
    ensures ReadToken(DeltaToken(delta) + rest) == Success((Delta(delta), rest))
  {
    var s := DeltaToken(delta) + rest;
    if -63 <= delta <= 63 && delta != 0 {
      assert s[1..] == rest;
    } else {
      var b := I16Bytes(delta);
      assert s == [128] + b + rest;
      assert s[1] == b[0] && s[2] == b[1] && s[3..] == rest;
      I16RoundTrip(delta);
    }
  }

  lemma RepeatSplits(v: byte, a: nat, b: nat)
    ensures Repeat(v, a) + Repeat(v, b) == Repeat(v, a + b)
  {
  }

  lemma PrefixedTwice(a: seq<byte>, b: seq<byte>, r: Result<(seq<byte>, seq<byte>), VideoError>)
    ensures Prefixed(a, Prefixed(b, r)) == Prefixed(a + b, r)
    ensures Prefixed([], r) == r
  {
    if r.Success? {
      assert a + (b + r.value.0) == a + b + r.value.0;
      assert [] + r.value.0 == r.value.0;
    }
  }

  lemma RunByte(run: nat, predictor: byte, tail: seq<byte>, n: nat)
    requires 1 <= run <= 128 && run <= n
    ensures DecodeBlock([run - 1] + tail, predictor, n)
      == Prefixed(Repeat(predictor, run), DecodeBlock(tail, predictor, n - run))
  {
    assert ([run - 1] + tail)[1..] == tail;
  }

  /** The run bytes decode to that many copies of the predictor, whatever follows. */
  lemma {:induction false} RunDecodes(run: nat, predictor: byte, rest: seq<byte>, n: nat)
    requires run <= n
    ensures DecodeBlock(FlushRun(run) + rest, predictor, n)
      == Prefixed(Repeat(predictor, run), DecodeBlock(rest, predictor, n - run))
    decreases run
  {
    hide DecodeBlock, Prefixed, Repeat;
    var r := DecodeBlock(rest, predictor, n - run);
    if run == 0 {
      assert FlushRun(run) + rest == rest;
      assert Repeat(predictor, 0) == [];
      PrefixedTwice([], [], r);
    } else {
      var chunk := Min(run, 128);
      var tail := FlushRun(run - chunk) + rest;
      assert FlushRun(run) + rest == [chunk - 1] + tail;
      RunByte(chunk, predictor, tail, n);
      RunDecodes(run - chunk, predictor, rest, n - chunk);
      RepeatSplits(predictor, chunk, run - chunk);
      PrefixedTwice(Repeat(predictor, chunk), Repeat(predictor, run - chunk), r);
    }
  }

  lemma DeltaByte(delta: i16, predictor: byte, value: byte, after: seq<byte>, n: nat)
    requires predictor + delta == value && 0 < n
    ensures DecodeBlock(DeltaToken(delta) + after, predictor, n) == Prefixed([value], DecodeBlock(after, value, n - 1))
  {
    TokenRead(delta, after);
    hide DeltaToken, ReadToken, Prefixed;
    assert WrapI16(predictor + delta) == value;
  }

  /** A changed sample: the pending run, then its difference, then the rest. */
  lemma DeltaDecodes(delta: i16, predictor: byte, value: byte, run: nat, after: seq<byte>, n: nat)
    requires predictor + delta == value && 0 < n
    ensures DecodeBlock(FlushRun(run) + DeltaToken(delta) + after, predictor, run + n)
         == Prefixed(Repeat(predictor, run) + [value], DecodeBlock(after, value, n - 1))
  {
    assert FlushRun(run) + DeltaToken(delta) + after == FlushRun(run) + (DeltaToken(delta) + after);
    RunDecodes(run, predictor, DeltaToken(delta) + after, run + n);
    DeltaByte(delta, predictor, value, after, n);
    hide *;
    PrefixedTwice(Repeat(predictor, run), [value], DecodeBlock(after, value, n - 1));
  }

  /** A block's tokens decode to its samples and leave the rest of the payload alone. */
  lemma {:induction false} BlockRoundTrip(samples: seq<byte>, predictor: byte, run: nat, rest: seq<byte>)
    ensures DecodeBlock(BlockTokens(samples, predictor, run) + rest, predictor, run + |samples|)
         == Success((Repeat(predictor, run) + samples, rest))
    decreases |samples|
  {
    hide DecodeBlock, FlushRun, DeltaToken;
    if samples == [] {
      RunDecodes(run, predictor, rest, run);
      NothingToDecode(rest, predictor);
      assert Repeat(predictor, run) + [] == Repeat(predictor, run) + samples;
    } else {
      var s, tail := samples[0], samples[1..];
      if s == predictor {
        if run == 255 {
          var after := BlockTokens(tail, predictor, 1) + rest;
          RunDecodes(run, predictor, after, run + |samples|);
          BlockRoundTrip(tail, predictor, 1, rest);
          assert BlockTokens(samples, predictor, run) + rest == FlushRun(run) + after;
          assert Repeat(predictor, run) + (Repeat(predictor, 1) + tail) == Repeat(predictor, run) + samples;
        } else {
          BlockRoundTrip(tail, predictor, run + 1, rest);
          assert Repeat(predictor, run + 1) + tail == Repeat(predictor, run) + samples;
        }
      } else {
        var delta: i16 := s as int - predictor;
        var after := BlockTokens(tail, s, 0) + rest;
        assert BlockTokens(samples, predictor, run) + rest == FlushRun(run) + DeltaToken(delta) + after;
        DeltaDecodes(delta, predictor, s, run, after, |samples|);
        BlockRoundTrip(tail, s, 0, rest);
        assert Repeat(predictor, run) + [s] + (Repeat(s, 0) + tail) == Repeat(predictor, run) + samples;
      }
    }
  }

  lemma NothingToDecode(data: seq<byte>, predictor: byte)
    ensures DecodeBlock(data, predictor, 0) == Success(([], data))
  {
  }

  lemma {:induction false} RunBytes(run: nat)
    ensures |FlushRun(run)| == (run + 127) / 128
  {
    if run > 0 {
      RunBytes(run - Min(run, 128));
    }
  }

  /** At most three bytes a sample; a pending run costs no more than its samples. */
  lemma {:induction false} BlockTokensBound(samples: seq<byte>, predictor: byte, run: nat)
    ensures |BlockTokens(samples, predictor, run)| <= 3 * |samples| + run
    decreases |samples|
  {
    RunBytes(run);
    if samples != [] {
      if samples[0] == predictor {
        BlockTokensBound(samples[1..], predictor, if run == 255 then 1 else run + 1);
      } else {
        BlockTokensBound(samples[1..], samples[0], 0);
      }
    }
  }

  // ---------------------------------------------------------------- which pixels a block holds

  /** Pixel `(x, y)` belongs to the block at `(left, top)`. */
  predicate InBlock(left: nat, top: nat, x: nat, y: nat) {
    left <= x < left + BLOCK_SIZE && top <= y < top + BLOCK_SIZE
  }

  lemma {:induction false} PositionListed(width: nat, height: nat, left: nat, top: nat, y0: nat, x0: nat, x: nat,
                                          y: nat)
    requires x < width && y < height && InBlock(left, top, x, y) && top <= y0 && left <= x0
    requires y > y0 || (y == y0 && x >= x0)
    ensures PixelIndex(width, x, y) in Positions(width, height, left, top, y0, x0)
    decreases top + BLOCK_SIZE - y0, left + BLOCK_SIZE - x0
  {
    if x0 >= Min(left + BLOCK_SIZE, width) {
      PositionListed(width, height, left, top, y0 + 1, left, x, y);
    } else if y > y0 || x > x0 {
      PositionListed(width, height, left, top, y0, x0 + 1, x, y);
    }
  }

  /** Every listed index is a pixel of the block, at or after the starting point. */
  lemma {:induction false} PositionIsPixel(width: nat, height: nat, left: nat, top: nat, y0: nat, x0: nat, i: nat)
    returns (x: nat, y: nat)
    requires top <= y0 && left <= x0 && i < |Positions(width, height, left, top, y0, x0)|
    ensures Positions(width, height, left, top, y0, x0)[i] == PixelIndex(width, x, y)
    ensures x < width && y < height && InBlock(left, top, x, y) && (y > y0 || (y == y0 && x >= x0))
    decreases top + BLOCK_SIZE - y0, left + BLOCK_SIZE - x0
  {
    if x0 >= Min(left + BLOCK_SIZE, width) {
      x, y := PositionIsPixel(width, height, left, top, y0 + 1, left, i);
    } else if i == 0 {
      x, y := x0, y0;
    } else {
      x, y := PositionIsPixel(width, height, left, top, y0, x0 + 1, i - 1);
    }
  }

  /** The order of pixels is the order of their indices. */
  lemma PixelOrder(width: nat, x: nat, y: nat, x': nat, y': nat)
    requires x < width && x' < width
    ensures (y < y' || (y == y' && x < x')) ==> y * width + x < y' * width + x'
    ensures y * width + x == y' * width + x' ==> x == x' && y == y'
  {
    if y < y' {
      assert (y + 1) * width <= y' * width;
    } else if y' < y {
      assert (y' + 1) * width <= y * width;
    }
  }

  predicate Increasing(s: seq<nat>) {
    forall i, j :: 0 <= i < j < |s| ==> s[i] < s[j]
  }

  /** A block lists its indices in increasing order, so none twice. */
  lemma {:induction false} PositionsIncrease(width: nat, height: nat, left: nat, top: nat, y0: nat, x0: nat)
    requires top <= y0 && left <= x0
    ensures Increasing(Positions(width, height, left, top, y0, x0))
    decreases top + BLOCK_SIZE - y0, left + BLOCK_SIZE - x0
  {
    if y0 < Min(top + BLOCK_SIZE, height) {
      if x0 >= Min(left + BLOCK_SIZE, width) {
        PositionsIncrease(width, height, left, top, y0 + 1, left);
      } else {
        var rest := Positions(width, height, left, top, y0, x0 + 1);
        PositionsIncrease(width, height, left, top, y0, x0 + 1);
        forall i | 0 <= i < |rest|
          ensures PixelIndex(width, x0, y0) < rest[i]
        {
          var x, y := PositionIsPixel(width, height, left, top, y0, x0 + 1, i);
          PixelOrder(width, x0, y0, x, y);
        }
      }
    }
  }

  lemma NoPixelsWithoutColumns(width: nat, height: nat)
    ensures width == 0 ==> width * height == 0
  {
  }

  lemma RowsBelow(width: nat, height: nat, y: nat)
    ensures height <= y ==> height * width <= y * width
  {
  }

  lemma CoordinatesOf(width: nat, height: nat, i: nat) returns (x: nat, y: nat)
    requires i < Area(width, height)
    ensures 0 < width && x == i % width && y == i / width && i == PixelIndex(width, x, y) && x < width && y < height
  {
    NoPixelsWithoutColumns(width, height);
    x, y := i % width, i / width;
    RowsBelow(width, height, y);
  }

  lemma RoundedDown(left: nat, x: nat)
    requires left % BLOCK_SIZE == 0
    ensures left <= x < left + BLOCK_SIZE <==> left == x / BLOCK_SIZE * BLOCK_SIZE
  {
  }

  /**
   * The clipped 8x8 blocks partition the frame: pixel index `i` is listed by the block that its coordinates round
   * down to, and by no other block of the grid.
   */
  lemma BlocksPartition(width: nat, height: nat, i: nat, left: nat, top: nat)
    requires i < Area(width, height) && left % BLOCK_SIZE == 0 && top % BLOCK_SIZE == 0
    ensures width > 0
    ensures i in Positions(width, height, left, top, top, left) <==>
      left == i % width / BLOCK_SIZE * BLOCK_SIZE && top == i / width / BLOCK_SIZE * BLOCK_SIZE
    ensures Increasing(Positions(width, height, left, top, top, left))
  {
    hide Positions, Increasing;
    var x, y := CoordinatesOf(width, height, i);
    PositionsIncrease(width, height, left, top, top, left);
    RoundedDown(left, x);
    RoundedDown(top, y);
    var positions := Positions(width, height, left, top, top, left);
    if InBlock(left, top, x, y) {
      PositionListed(width, height, left, top, top, left, x, y);
    } else if i in positions {
      var k :| 0 <= k < |positions| && positions[k] == i;
      var x', y' := PositionIsPixel(width, height, left, top, top, left, k);
      PixelOrder(width, x, y, x', y');
    }
  }

  // ---------------------------------------------------------------- the walk reaches every pixel once

  lemma {:induction false} PendingHas(width: nat, height: nat, top: nat, left: nat, x: nat, y: nat)
    requires x < width && y < height && top <= y && (y < top + BLOCK_SIZE ==> left <= x)
    ensures PixelIndex(width, x, y) in PendingFrom(width, height, top, left)
    decreases height - top, if left < width then width - left else 0
  {
    if left < width && InBlock(left, top, x, y) {
      PositionListed(width, height, left, top, top, left, x, y);
    } else if left < width {
      PendingHas(width, height, top, left + BLOCK_SIZE, x, y);
    } else {
      PendingHas(width, height, top + BLOCK_SIZE, 0, x, y);
    }
  }

  lemma {:induction false} PendingIsAhead(width: nat, height: nat, top: nat, left: nat, i: nat) returns (x: nat, y: nat)
    requires i in PendingFrom(width, height, top, left)
    ensures x < width && y < height && i == PixelIndex(width, x, y)
    ensures top <= y && (y < top + BLOCK_SIZE ==> left <= x)
    decreases if top < height then height - top else 0, if left < width then width - left else 0
  {
    if left >= width {
      x, y := PendingIsAhead(width, height, top + BLOCK_SIZE, 0, i);
    } else {
      var positions := Positions(width, height, left, top, top, left);
      if i in positions {
        var k :| 0 <= k < |positions| && positions[k] == i;
        x, y := PositionIsPixel(width, height, left, top, top, left, k);
      } else {
        x, y := PendingIsAhead(width, height, top, left + BLOCK_SIZE, i);
      }
    }
  }

  /** A block's pixels do not come up again in the rest of the walk. */
  lemma BlockNotPending(width: nat, height: nat, top: nat, left: nat, i: nat)
    requires i in Positions(width, height, left, top, top, left)
    ensures i !in PendingFrom(width, height, top, left + BLOCK_SIZE)
  {
    var positions := Positions(width, height, left, top, top, left);
    var k :| 0 <= k < |positions| && positions[k] == i;
    var x, y := PositionIsPixel(width, height, left, top, top, left, k);
    if i in PendingFrom(width, height, top, left + BLOCK_SIZE) {
      hide Positions, PendingFrom;
      var x', y' := PendingIsAhead(width, height, top, left + BLOCK_SIZE, i);
      PixelOrder(width, x, y, x', y');
    }
  }

  /** The walk lists each pixel index of the frame exactly once. */
  lemma {:induction false} WalkIsComplete(width: nat, height: nat, i: nat)
    requires i < Area(width, height)
    ensures i in PendingFrom(width, height, 0, 0)
  {
    hide *;
    var x, y := CoordinatesOf(width, height, i);
    PendingHas(width, height, 0, 0, x, y);
  }

  predicate NoRepeats(s: seq<nat>) {
    forall i, j :: 0 <= i < j < |s| ==> s[i] != s[j]
  }

  lemma NoRepeatsEmpty()
    ensures NoRepeats([])
  {
  }

  lemma NoRepeatsConcat(a: seq<nat>, b: seq<nat>)
    requires Increasing(a) && NoRepeats(b) && forall i: nat :: i in a ==> i !in b
    ensures NoRepeats(a + b)
  {
    forall i, j | 0 <= i < j < |a + b|
      ensures (a + b)[i] != (a + b)[j]
    {
      if i < |a| <= j {
        assert a[i] in a && b[j - |a|] in b;
      }
    }
  }

  lemma {:induction false} WalkHasNoRepeats(width: nat, height: nat, top: nat, left: nat)
    ensures NoRepeats(PendingFrom(width, height, top, left))
    decreases if top < height then height - top else 0, if left < width then width - left else 0
  {
    hide Positions, NoRepeats, Increasing;
    if top >= height {
      assert NoRepeats([]) by {
        NoRepeatsEmpty();
      }
    } else {
      if left >= width {
        WalkHasNoRepeats(width, height, top + BLOCK_SIZE, 0);
      } else {
        var positions := Positions(width, height, left, top, top, left);
        WalkHasNoRepeats(width, height, top, left + BLOCK_SIZE);
        PositionsIncrease(width, height, left, top, top, left);
        forall i | i in positions
          ensures i !in PendingFrom(width, height, top, left + BLOCK_SIZE)
        {
          BlockNotPending(width, height, top, left, i);
        }
        NoRepeatsConcat(positions, PendingFrom(width, height, top, left + BLOCK_SIZE));
      }
    }
  }

  lemma {:induction false} NoRepeatsSize(s: seq<nat>, limit: nat)
    requires NoRepeats(s) && forall i :: 0 <= i < |s| ==> s[i] < limit
    ensures |s| <= limit
    decreases limit
  {
    if s != [] {
      assert s[0] < limit;
      if k: int :| 0 <= k < |s| && s[k] == limit - 1 {
        NoRepeatsSize(s[..k] + s[k + 1..], limit - 1);
      } else {
        NoRepeatsSize(s, limit - 1);
      }
    }
  }

  // ---------------------------------------------------------------- round trip

  lemma {:induction false} ScatterGather(buffer: seq<byte>, pixels: seq<byte>, positions: seq<nat>, i: nat)
    requires |buffer| == |pixels| && (forall k :: 0 <= k < |positions| ==> positions[k] < |pixels|) && i < |pixels|
    ensures i in positions || buffer[i] == pixels[i] ==>
      Scatter(buffer, positions, Gather(pixels, positions))[i] == pixels[i]
    decreases |positions|
  {
    if positions != [] {
      assert Gather(pixels, positions)[1..] == Gather(pixels, positions[1..]);
      ScatterGather(buffer[positions[0] := pixels[positions[0]]], pixels, positions[1..], i);
    }
  }

  /** `out` agrees with `pixels` wherever the walk still has to go and wherever `buffer` already agreed. */
  predicate Restores(out: seq<byte>, buffer: seq<byte>, pixels: seq<byte>, pending: seq<nat>)
    requires |out| == |buffer| == |pixels|
  {
    forall i: nat :: i < |pixels| && (i in pending || buffer[i] == pixels[i]) ==> out[i] == pixels[i]
  }

  /** One block written back: what the blocks behind it restore, and its own positions. */
  lemma BlockRestores(out: seq<byte>, buffer: seq<byte>, pixels: seq<byte>, positions: seq<nat>, pending: seq<nat>)
    requires |out| == |buffer| == |pixels| && forall k :: 0 <= k < |positions| ==> positions[k] < |pixels|
    requires Restores(out, Scatter(buffer, positions, Gather(pixels, positions)), pixels, pending)
    ensures Restores(out, buffer, pixels, positions + pending)
  {
    hide Scatter, Gather;
    forall i: nat | i < |pixels| && (i in positions || buffer[i] == pixels[i])
      ensures Scatter(buffer, positions, Gather(pixels, positions))[i] == pixels[i]
    {
      ScatterGather(buffer, pixels, positions, i);
    }
  }

  /** The first block of a walk: its tokens are decoded to its samples, and the walk goes on behind them. */
  lemma FirstBlockDecodes(width: nat, height: nat, pixels: seq<byte>, buffer: seq<byte>, rest: seq<byte>,
                          top: nat, left: nat)
    requires |pixels| == |buffer| == Area(width, height) && top < height && left < width
    ensures var positions := Positions(width, height, left, top, top, left);
      DecodeFrom(width, height, TokensFrom(width, height, pixels, top, left) + rest, buffer, top, left)
        == DecodeFrom(width, height, TokensFrom(width, height, pixels, top, left + BLOCK_SIZE) + rest,
                      Scatter(buffer, positions, Gather(pixels, positions)), top, left + BLOCK_SIZE)
  {
    hide Positions, BlockTokens, DecodeBlock, Gather, Scatter;
    var samples := Gather(pixels, Positions(width, height, left, top, top, left));
    var after := TokensFrom(width, height, pixels, top, left + BLOCK_SIZE) + rest;
    assert TokensFrom(width, height, pixels, top, left) + rest == BlockTokens(samples, 128, 0) + after;
    BlockRoundTrip(samples, 128, 0, after);
    assert Repeat(128, 0) + samples == samples;
  }

  lemma {:induction false} BlocksRoundTrip(width: nat, height: nat, pixels: seq<byte>, buffer: seq<byte>,
                                           rest: seq<byte>, top: nat, left: nat)
    requires |pixels| == |buffer| == Area(width, height)
    ensures var r := DecodeFrom(width, height, TokensFrom(width, height, pixels, top, left) + rest, buffer, top, left);
      r.Success? && r.value.1 == rest && Restores(r.value.0, buffer, pixels, PendingFrom(width, height, top, left))
    decreases if top < height then height - top else 0, if left < width then width - left else 0
  {
    if top >= height {
      assert [] + rest == rest;
    } else if left >= width {
      BlocksRoundTrip(width, height, pixels, buffer, rest, top + BLOCK_SIZE, 0);
    } else {
      hide Positions, BlockTokens, DecodeBlock, Gather, Scatter, DecodeFrom, TokensFrom, Restores;
      var positions := Positions(width, height, left, top, top, left);
      var next := Scatter(buffer, positions, Gather(pixels, positions));
      FirstBlockDecodes(width, height, pixels, buffer, rest, top, left);
      BlocksRoundTrip(width, height, pixels, next, rest, top, left + BLOCK_SIZE);
      var tokens := TokensFrom(width, height, pixels, top, left + BLOCK_SIZE);
      var out := DecodeFrom(width, height, tokens + rest, next, top, left + BLOCK_SIZE).value.0;
      BlockRestores(out, buffer, pixels, positions, PendingFrom(width, height, top, left + BLOCK_SIZE));
    }
  }

  lemma {:induction false} TokensBound(width: nat, height: nat, pixels: seq<byte>, top: nat, left: nat)
    requires |pixels| == Area(width, height)
    ensures |TokensFrom(width, height, pixels, top, left)| <= 3 * |PendingFrom(width, height, top, left)|
    decreases if top < height then height - top else 0, if left < width then width - left else 0
  {
    hide BlockTokens, Positions, Area, Gather;
    if top < height {
      if left >= width {
        TokensBound(width, height, pixels, top + BLOCK_SIZE, 0);
      } else {
        BlockTokensBound(Gather(pixels, Positions(width, height, left, top, top, left)), 128, 0);
        TokensBound(width, height, pixels, top, left + BLOCK_SIZE);
      }
    }
  }

  lemma TokensRestore(width: nat, height: nat, pixels: seq<byte>, buffer: seq<byte>)
    requires |pixels| == |buffer| == Area(width, height)
    ensures DecodeFrom(width, height, TokensFrom(width, height, pixels, 0, 0), buffer, 0, 0) == Success((pixels, []))
    ensures |TokensFrom(width, height, pixels, 0, 0)| <= 3 * |pixels|
  {
    hide TokensFrom, DecodeFrom, PendingFrom, NoRepeats;
    var tokens := TokensFrom(width, height, pixels, 0, 0);
    assert tokens + [] == tokens;
    BlocksRoundTrip(width, height, pixels, buffer, [], 0, 0);
    TokensBound(width, height, pixels, 0, 0);
    WalkHasNoRepeats(width, height, 0, 0);
    NoRepeatsSize(PendingFrom(width, height, 0, 0), |pixels|);
    forall i: nat | i < |pixels|
      ensures i in PendingFrom(width, height, 0, 0)
    {
      WalkIsComplete(width, height, i);
    }
    var out := DecodeFrom(width, height, tokens, buffer, 0, 0).value.0;
    assert out == pixels;
  }

  lemma HeaderRead(n: u32, tokens: seq<byte>)
    ensures var payload := [BLOCK_SIZE] + LeBytes(n, 4) + tokens;
      payload[0] == BLOCK_SIZE && U32At(payload, 1) == n && payload[5..] == tokens
  {
    var payload := [BLOCK_SIZE] + LeBytes(n, 4) + tokens;
    assert payload[1..5] == LeBytes(n, 4);
    U32RoundTrip(n);
  }

  /**
   * Every intra frame whose buffer matches its dimensions and fits 32 bits is encoded, in at most 5 + 3 x width x
   * height bytes, and decoding gives back the identical frame. Every other frame is refused.
   */
  lemma VideoRoundTrip(frame: VideoFrame)
    ensures EncodeFrame(frame).Success? <==>
      Area(frame.width, frame.height) == |frame.data| && frame.frameType == I && |frame.data| < U32_LIMIT
    ensures EncodeFrame(frame).Success? ==>
      && |EncodeFrame(frame).value| <= 5 + 3 * |frame.data|
      && DecodeFrame(frame.width, frame.height, frame.frameIndex, I, EncodeFrame(frame).value) == Success(frame)
  {
    if EncodeFrame(frame).Success? {
      var n := |frame.data|;
      TokensRestore(frame.width, frame.height, frame.data, Repeat(0, n));
      HeaderRead(n, TokensFrom(frame.width, frame.height, frame.data, 0, 0));
      hide TokensFrom, DecodeFrom, LeBytes, U32At;
    }
  }

  // ---------------------------------------------------------------- no shorter payload

  /** Inside a block no run is long enough to be flushed early, so a pending run costs one byte however long. */
  lemma {:induction false} PendingCost(samples: seq<byte>, predictor: byte, a: nat, b: nat)
    requires a + |samples| <= 128 && b + |samples| <= 128
    ensures |BlockTokens(samples, predictor, a)| <= (if b > 0 then 0 else 1) + |BlockTokens(samples, predictor, b)|
    decreases |samples|
  {
    RunBytes(a);
    RunBytes(b);
    if samples != [] && samples[0] == predictor {
      PendingCost(samples[1..], predictor, a + 1, b + 1);
    }
  }

  lemma {:induction false} RunPending(samples: seq<byte>, predictor: byte, a: nat, run: nat)
    requires a + run + |samples| <= 128
    ensures BlockTokens(Repeat(predictor, run) + samples, predictor, a) == BlockTokens(samples, predictor, a + run)
    decreases run
  {
    if run == 0 {
      assert Repeat(predictor, 0) + samples == samples;
    } else {
      assert (Repeat(predictor, run) + samples)[1..] == Repeat(predictor, run - 1) + samples;
      RunPending(samples, predictor, a + 1, run - 1);
    }
  }

  /** A difference token never takes fewer bytes than the encoder's. */
  lemma DeltaCost(data: seq<byte>, predictor: byte)
    requires ReadToken(data).Success? && ReadToken(data).value.0.Delta?
    ensures var value := WrapI16(predictor + ReadToken(data).value.0.delta);
      && 1 <= |data| - |ReadToken(data).value.1|
      && (0 <= value <= 255 && value != predictor ==>
        |DeltaToken(value - predictor)| <= |data| - |ReadToken(data).value.1|)
  {
  }

  lemma RunCost(tail: seq<byte>, predictor: byte, run: nat)
    requires run + |tail| <= 128
    ensures |BlockTokens(Repeat(predictor, run) + tail, predictor, 0)| <= 1 + |BlockTokens(tail, predictor, 0)|
  {
    RunPending(tail, predictor, 0, run);
    PendingCost(tail, predictor, run, 0);
  }

  lemma SampleCost(tail: seq<byte>, predictor: byte, value: byte)
    requires 1 + |tail| <= 128
    ensures |BlockTokens([value] + tail, predictor, 0)|
         <= |BlockTokens(tail, value, 0)| + if value == predictor then 1 else |DeltaToken(value as int - predictor)|
  {
    assert ([value] + tail)[1..] == tail;
    PendingCost(tail, predictor, 1, 0);
  }

  /** Whatever tokens a block is decoded from, the encoder would have spent no more bytes on its samples. */
  lemma {:induction false} ShortestBlock(data: seq<byte>, predictor: byte, n: nat)
    requires n <= 128 && DecodeBlock(data, predictor, n).Success?
    ensures var (samples, rest) := DecodeBlock(data, predictor, n).value;
      |BlockTokens(samples, predictor, 0)| <= |data| - |rest|
    decreases n
  {
    hide BlockTokens, ReadToken, DeltaToken;
    if n == 0 {
      assert |BlockTokens([], predictor, 0)| <= 3 * 0 + 0 by {
        BlockTokensBound([], predictor, 0);
      }
    } else {
      var (token, after) := ReadToken(data).value;
      match token
      case Run(run) =>
        ShortestBlock(after, predictor, n - run);
        RunCost(DecodeBlock(after, predictor, n - run).value.0, predictor, run);
      case Delta(delta) =>
        DeltaCost(data, predictor);
        var value: byte := WrapI16(predictor + delta);
        ShortestBlock(after, value, n - 1);
        SampleCost(DecodeBlock(after, value, n - 1).value.0, predictor, value);
    }
  }

  lemma {:induction false} BlockFits(width: nat, height: nat, left: nat, top: nat, y: nat, x: nat)
    requires top <= y <= top + BLOCK_SIZE && left <= x <= left + BLOCK_SIZE
    ensures |Positions(width, height, left, top, y, x)| <= (top + BLOCK_SIZE - y) * BLOCK_SIZE + (left - x)
         || |Positions(width, height, left, top, y, x)| == 0
    decreases top + BLOCK_SIZE - y, left + BLOCK_SIZE - x
  {
    if y < Min(top + BLOCK_SIZE, height) {
      if x >= Min(left + BLOCK_SIZE, width) {
        BlockFits(width, height, left, top, y + 1, left);
      } else {
        BlockFits(width, height, left, top, y, x + 1);
      }
    }
  }

  lemma {:induction false} GatherScatter(pixels: seq<byte>, positions: seq<nat>, samples: seq<byte>, i: nat)
    requires |positions| == |samples| && forall k :: 0 <= k < |positions| ==> positions[k] < |pixels|
    requires Increasing(positions)
    ensures forall k :: 0 <= k < |positions| ==> Scatter(pixels, positions, samples)[positions[k]] == samples[k]
    ensures i < |pixels| && i !in positions ==> Scatter(pixels, positions, samples)[i] == pixels[i]
    decreases |positions|
  {
    if positions != [] {
      var next := pixels[positions[0] := samples[0]];
      GatherScatter(next, positions[1..], samples[1..], i);
      GatherScatter(next, positions[1..], samples[1..], positions[0]);
    }
  }

  /** Decoding the blocks from `(left, top)` on writes the pixels still ahead and no others. */
  lemma {:induction false} OnlyPendingWritten(width: nat, height: nat, data: seq<byte>, buffer: seq<byte>, top: nat,
                                              left: nat, i: nat)
    requires |buffer| == Area(width, height) && i < |buffer| && i !in PendingFrom(width, height, top, left)
    requires DecodeFrom(width, height, data, buffer, top, left).Success?
    ensures DecodeFrom(width, height, data, buffer, top, left).value.0[i] == buffer[i]
    decreases if top < height then height - top else 0, if left < width then width - left else 0
  {
    hide Positions, DecodeBlock, Increasing, Scatter, Area;
    if top < height {
      if left >= width {
        OnlyPendingWritten(width, height, data, buffer, top + BLOCK_SIZE, 0, i);
      } else {
        var positions := Positions(width, height, left, top, top, left);
        var (samples, rest) := DecodeBlock(data, 128, |positions|).value;
        PositionsIncrease(width, height, left, top, top, left);
        GatherScatter(buffer, positions, samples, i);
        OnlyPendingWritten(width, height, rest, Scatter(buffer, positions, samples), top, left + BLOCK_SIZE, i);
      }
    }
  }

  /** The block just decoded keeps its samples to the end, since no later block writes its pixels. */
  lemma DecodedBlockStays(width: nat, height: nat, data: seq<byte>, buffer: seq<byte>, top: nat, left: nat,
                          samples: seq<byte>)
    requires |buffer| == Area(width, height) && |samples| == |Positions(width, height, left, top, top, left)|
    requires var next := Scatter(buffer, Positions(width, height, left, top, top, left), samples);
      DecodeFrom(width, height, data, next, top, left + BLOCK_SIZE).Success?
    ensures var positions := Positions(width, height, left, top, top, left);
      var frame := DecodeFrom(width, height, data, Scatter(buffer, positions, samples), top, left + BLOCK_SIZE).value.0;
      Gather(frame, positions) == samples
  {
    hide Positions, DecodeFrom, PendingFrom, Scatter, Increasing;
    var positions := Positions(width, height, left, top, top, left);
    var next := Scatter(buffer, positions, samples);
    PositionsIncrease(width, height, left, top, top, left);
    GatherScatter(buffer, positions, samples, 0);
    forall k | 0 <= k < |positions|
      ensures DecodeFrom(width, height, data, next, top, left + BLOCK_SIZE).value.0[positions[k]] == samples[k]
    {
      BlockNotPending(width, height, top, left, positions[k]);
      OnlyPendingWritten(width, height, data, next, top, left + BLOCK_SIZE, positions[k]);
    }
  }

  lemma {:induction false} ShortestTokens(width: nat, height: nat, data: seq<byte>, buffer: seq<byte>, top: nat,
                                          left: nat)
    requires |buffer| == Area(width, height) && DecodeFrom(width, height, data, buffer, top, left).Success?
    ensures var (out, rest) := DecodeFrom(width, height, data, buffer, top, left).value;
      |TokensFrom(width, height, out, top, left)| <= |data| - |rest|
    decreases if top < height then height - top else 0, if left < width then width - left else 0
  {
    hide Positions, DecodeBlock, BlockTokens, Gather, Scatter, Area;
    if top < height {
      if left >= width {
        ShortestTokens(width, height, data, buffer, top + BLOCK_SIZE, 0);
      } else {
        var positions := Positions(width, height, left, top, top, left);
        var (samples, after) := DecodeBlock(data, 128, |positions|).value;
        BlockFits(width, height, left, top, top, left);
        ShortestBlock(data, 128, |positions|);
        DecodedBlockStays(width, height, after, buffer, top, left, samples);
        ShortestTokens(width, height, after, Scatter(buffer, positions, samples), top, left + BLOCK_SIZE);
      }
    }
  }

  /**
   * The encoder's payload is a shortest one: whatever bytes the decoder accepts as a frame, encoding that frame takes
   * no more of them. Accepted payloads need not be equal, since a run may be split and a small difference escaped.
   */
  lemma ShortestPayload(width: u32, height: u32, frameIndex: u32, payload: seq<byte>)
    requires DecodeFrame(width, height, frameIndex, I, payload).Success?
    ensures var frame := DecodeFrame(width, height, frameIndex, I, payload).value;
      EncodeFrame(frame).Success? && |EncodeFrame(frame).value| <= |payload|
  {
    hide TokensFrom, DecodeFrom, LeBytes, U32At;
    var n := U32At(payload, 1);
    ShortestTokens(width, height, payload[5..], Repeat(0, n), 0, 0);
  }
}
