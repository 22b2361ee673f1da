/** The version 1 video coder's loops, each proved to compute the specification functions. */
module VideoCodec {
  import opened Wrappers
  import opened Bytes
  import opened VideoSpec
  import opened VideoTheorems

  /** `flush_zero_run` */
  method FlushZeroRun(out: seq<byte>, run: byte) returns (s: seq<byte>)
    ensures s == out + FlushRun(run)
  {
    s := out;
    var left: byte := run;
    while left > 0
      invariant s + FlushRun(left) == out + FlushRun(run)
    {
      var chunk := if left < 128 then left else 128;
      s := s + [chunk - 1];
      left := left - chunk;
    }
  }

  /** `write_delta_token` */
  method WriteDeltaToken(out: seq<byte>, delta: i16) returns (s: seq<byte>)
    ensures s == out + DeltaToken(delta)
  {
    if -63 <= delta <= 63 && delta != 0 {
      s := out + [delta + 192];
    } else {
      s := out + [128];
      s := s + I16Bytes(delta);
    }
  }

  /** The samples of a block that are still to be coded. */
  function Ahead(width: nat, height: nat, pixels: seq<byte>, left: nat, top: nat, y: nat, x: nat): seq<byte>
    requires |pixels| == Area(width, height) && top <= y && left <= x
  {
    Gather(pixels, Positions(width, height, left, top, y, x))
  }

  lemma AheadSteps(width: nat, height: nat, pixels: seq<byte>, left: nat, top: nat, y: nat, x: nat)
    requires |pixels| == Area(width, height) && top <= y && left <= x
    ensures y >= Min(top + BLOCK_SIZE, height) ==> Ahead(width, height, pixels, left, top, y, x) == []
    ensures y < Min(top + BLOCK_SIZE, height) && x >= Min(left + BLOCK_SIZE, width) ==>
      Ahead(width, height, pixels, left, top, y, x) == Ahead(width, height, pixels, left, top, y + 1, left)
    ensures y < Min(top + BLOCK_SIZE, height) && x < Min(left + BLOCK_SIZE, width) ==>
      && PixelIndex(width, x, y) < |pixels|
      && Ahead(width, height, pixels, left, top, y, x)
         == [pixels[PixelIndex(width, x, y)]] + Ahead(width, height, pixels, left, top, y, x + 1)
  {
    var here := Positions(width, height, left, top, y, x);
    if y < Min(top + BLOCK_SIZE, height) && x < Min(left + BLOCK_SIZE, width) {
      assert here[0] == PixelIndex(width, x, y);
    }
  }

  /** One step of the scan: the pending tokens are those written now and those still pending. */
  lemma SampleStep(sample: byte, rest: seq<byte>, predictor: byte, run: byte)
    ensures BlockTokens([sample] + rest, predictor, run) ==
      if sample != predictor then FlushRun(run) + DeltaToken(sample as int - predictor) + BlockTokens(rest, sample, 0)
      else if run == 255 then FlushRun(run) + BlockTokens(rest, sample, 1)
      else BlockTokens(rest, sample, run + 1)
  {
    assert ([sample] + rest)[1..] == rest;
  }

  /** One turn of the innermost loop of `encode_residual_blocks`. */
  method CodeSample(out: seq<byte>, sample: byte, predictor: byte, zeroRun: byte, ghost rest: seq<byte>)
    returns (s: seq<byte>, run: byte)
    ensures s + BlockTokens(rest, sample, run) == out + BlockTokens([sample] + rest, predictor, zeroRun)
  {
    SampleStep(sample, rest, predictor, zeroRun);
    hide BlockTokens, FlushRun, DeltaToken;
    var delta: i16 := sample as int - predictor;
    if delta == 0 {
      s, run := out, zeroRun;
      if run == 255 {
        s := FlushZeroRun(s, run);
        run := 0;
      }
      run := run + 1;
    } else {
      s := FlushZeroRun(out, zeroRun);
      run := 0;
      s := WriteDeltaToken(s, delta);
    }
  }

  /** The innermost loop of `encode_residual_blocks`: one row of a block. */
  method EncodeRow(width: nat, height: nat, pixels: seq<byte>, left: nat, top: nat, y: nat,
                   out: seq<byte>, before: byte, pending: byte)
    returns (s: seq<byte>, predictor: byte, zeroRun: byte)
    requires |pixels| == Area(width, height) && top <= y < Min(top + BLOCK_SIZE, height)
    ensures s + BlockTokens(Ahead(width, height, pixels, left, top, y + 1, left), predictor, zeroRun)
         == out + BlockTokens(Ahead(width, height, pixels, left, top, y, left), before, pending)
  {
    hide BlockTokens, Positions, FlushRun, Ahead;
    s, predictor, zeroRun := out, before, pending;
    var x := left;
    while x < Min(left + BLOCK_SIZE, width)
      invariant left <= x
      invariant s + BlockTokens(Ahead(width, height, pixels, left, top, y, x), predictor, zeroRun)
             == out + BlockTokens(Ahead(width, height, pixels, left, top, y, left), before, pending)
    {
      AheadSteps(width, height, pixels, left, top, y, x);
      var sample := pixels[PixelIndex(width, x, y)];
      s, zeroRun := CodeSample(s, sample, predictor, zeroRun, Ahead(width, height, pixels, left, top, y, x + 1));
      predictor := sample;
      x := x + 1;
    }
    AheadSteps(width, height, pixels, left, top, y, x);
  }

  /** The row loop of `encode_residual_blocks`: one block. */
  method EncodeBlock(width: nat, height: nat, pixels: seq<byte>, left: nat, top: nat, out: seq<byte>)
    returns (s: seq<byte>)
    requires |pixels| == Area(width, height)
    ensures s == out + BlockTokens(Ahead(width, height, pixels, left, top, top, left), 128, 0)
  {
    hide BlockTokens, Positions, FlushRun, Ahead;
    s := out;
    var predictor: byte := 128;
    var zeroRun: byte := 0;
    var y := top;
    while y < Min(top + BLOCK_SIZE, height)
      invariant top <= y
      invariant s + BlockTokens(Ahead(width, height, pixels, left, top, y, left), predictor, zeroRun)
             == out + BlockTokens(Ahead(width, height, pixels, left, top, top, left), 128, 0)
    {
      s, predictor, zeroRun := EncodeRow(width, height, pixels, left, top, y, s, predictor, zeroRun);
      y := y + 1;
    }
    AheadSteps(width, height, pixels, left, top, y, left);
    NothingAhead(predictor, zeroRun);
    s := FlushZeroRun(s, zeroRun);
  }

  lemma NothingAhead(predictor: byte, run: nat)
    ensures BlockTokens([], predictor, run) == FlushRun(run)
  {
  }

  lemma TokensSteps(width: nat, height: nat, pixels: seq<byte>, top: nat, left: nat)
    requires |pixels| == Area(width, height)
    ensures top >= height ==> TokensFrom(width, height, pixels, top, left) == []
    ensures top < height && left >= width ==>
      TokensFrom(width, height, pixels, top, left) == TokensFrom(width, height, pixels, top + BLOCK_SIZE, 0)
    ensures top < height && left < width ==>
      TokensFrom(width, height, pixels, top, left)
      == BlockTokens(Ahead(width, height, pixels, left, top, top, left), 128, 0)
         + TokensFrom(width, height, pixels, top, left + BLOCK_SIZE)
  {
  }

  /** The column loop of `encode_residual_blocks`: one row of blocks. */
  method EncodeRowOfBlocks(width: nat, height: nat, pixels: seq<byte>, top: nat, out: seq<byte>) returns (s: seq<byte>)
    requires |pixels| == Area(width, height) && top < height
    ensures s + TokensFrom(width, height, pixels, top + BLOCK_SIZE, 0)
      == out + TokensFrom(width, height, pixels, top, 0)
  {
    hide TokensFrom, BlockTokens, Ahead;
    ghost var want := out + TokensFrom(width, height, pixels, top, 0);
    s := out;
    var left := 0;
    while left < width
      invariant s + TokensFrom(width, height, pixels, top, left) == want
      decreases if left < width then width - left else 0
    {
      TokensSteps(width, height, pixels, top, left);
      ghost var block := BlockTokens(Ahead(width, height, pixels, left, top, top, left), 128, 0);
      ghost var rest := TokensFrom(width, height, pixels, top, left + BLOCK_SIZE);
      assert s + (block + rest) == s + block + rest;
      s := EncodeBlock(width, height, pixels, left, top, s);
      left := left + BLOCK_SIZE;
    }
    TokensSteps(width, height, pixels, top, left);
  }

  /** `encode_residual_blocks` */
  method EncodeResidualBlocks(width: nat, height: nat, pixels: seq<byte>, out: seq<byte>)
    returns (r: Result<seq<byte>, VideoError>)
    ensures r == if |pixels| != Area(width, height) then Failure(BufferLength)
                 else Success(out + TokensFrom(width, height, pixels, 0, 0))
  {
    if |pixels| != Area(width, height) {
      return Failure(BufferLength);
    }
    hide TokensFrom;
    var s := out;
    var top := 0;
    while top < height
      invariant s + TokensFrom(width, height, pixels, top, 0) == out + TokensFrom(width, height, pixels, 0, 0)
      decreases if top < height then height - top else 0
    {
      s := EncodeRowOfBlocks(width, height, pixels, top, s);
      top := top + BLOCK_SIZE;
    }
    TokensSteps(width, height, pixels, top, 0);
    assert s + [] == s;
    return Success(s);
  }

  /** `encode_frame` */
  method EncodeVideoFrame(frame: VideoFrame) returns (r: Result<seq<byte>, VideoError>)
    ensures r == EncodeFrame(frame)
  {
    if Area(frame.width, frame.height) != |frame.data| {
      return Failure(BufferLength);
    }
    if frame.frameType != I {
      return Failure(EncoderOnlyIntra);
    }
    var payload := [BLOCK_SIZE];
    if |frame.data| >= U32_LIMIT {
      return Failure(FrameTooLarge);
    }
    payload := payload + LeBytes(|frame.data|, 4);
    r := EncodeResidualBlocks(frame.width, frame.height, frame.data, payload);
  }

  // ---------------------------------------------------------------- decoding

  lemma PositionSteps(width: nat, height: nat, left: nat, top: nat, y: nat, x: nat)
    requires top <= y && left <= x
    ensures y >= Min(top + BLOCK_SIZE, height) ==> Positions(width, height, left, top, y, x) == []
    ensures y < Min(top + BLOCK_SIZE, height) && x >= Min(left + BLOCK_SIZE, width) ==>
      Positions(width, height, left, top, y, x) == Positions(width, height, left, top, y + 1, left)
    ensures y < Min(top + BLOCK_SIZE, height) && x < Min(left + BLOCK_SIZE, width) ==>
      Positions(width, height, left, top, y, x)
        == [PixelIndex(width, x, y)] + Positions(width, height, left, top, y, x + 1)
  {
  }

  /** `block_positions` */
  method BlockPositions(width: nat, height: nat, left: nat, top: nat) returns (positions: seq<nat>)
    ensures positions == Positions(width, height, left, top, top, left)
  {
    ghost var want := Positions(width, height, left, top, top, left);
    positions := [];
    var y := top;
    hide Positions;
    while y < Min(top + BLOCK_SIZE, height)
      invariant top <= y
      invariant positions + Positions(width, height, left, top, y, left) == want
    {
      var x := left;
      while x < Min(left + BLOCK_SIZE, width)
        invariant left <= x
        invariant positions + Positions(width, height, left, top, y, x) == want
      {
        PositionSteps(width, height, left, top, y, x);
        positions := positions + [PixelIndex(width, x, y)];
        x := x + 1;
      }
      PositionSteps(width, height, left, top, y, x);
      y := y + 1;
    }
    PositionSteps(width, height, left, top, y, left);
  }

  /** `read_u8` */
  method ReadU8(data: seq<byte>, cursor: nat) returns (r: Result<byte, VideoError>, next: nat)
    requires cursor <= |data|
    ensures if cursor < |data| then r == Success(data[cursor]) && next == cursor + 1
            else r == Failure(Truncated) && next == cursor
  {
    next := cursor;
    if cursor >= |data| {
      return Failure(Truncated), next;
    }
    r := Success(data[cursor]);
    next := next + 1;
  }

  /** `read_i16` */
  method ReadI16(data: seq<byte>, cursor: nat) returns (r: Result<i16, VideoError>, next: nat)
    requires cursor <= |data|
    ensures if cursor + 2 <= |data| then r == Success(I16Of(data[cursor], data[cursor + 1])) && next == cursor + 2
            else r == Failure(TruncatedLiteral) && next == cursor
  {
    next := cursor;
    if |data| - cursor < 2 {
      return Failure(TruncatedLiteral), next;
    }
    r := Success(I16Of(data[cursor], data[cursor + 1]));
    next := next + 2;
  }

  /** The tag of `decode_residual_blocks` and, after the escape tag, its literal. */
  method ReadTokenAt(payload: seq<byte>, cursor: nat) returns (r: Result<Token, VideoError>, next: nat)
    requires cursor <= |payload|
    ensures cursor <= next <= |payload|
    ensures match ReadToken(payload[cursor..])
      case Failure(e) => r == Failure(e)
      case Success((token, rest)) => r == Success(token) && payload[next..] == rest
  {
    var tag: Result<byte, VideoError>;
    tag, next := ReadU8(payload, cursor);
    if tag.Failure? {
      return Failure(tag.error), next;
    }
    if tag.value <= 127 {
      return Success(Run(tag.value + 1)), next;
    }
    if tag.value == 128 {
      var literal: Result<i16, VideoError>;
      literal, next := ReadI16(payload, next);
      if literal.Failure? {
        return Failure(literal.error), next;
      }
      return Success(Delta(literal.value)), next;
    }
    return Success(Delta(tag.value as int - 192)), next;
  }

  lemma {:induction false} ScatterJoins(pixels: seq<byte>, p: seq<nat>, s: seq<byte>, q: seq<nat>, t: seq<byte>)
    requires |p| == |s| && |q| == |t|
    requires (forall i :: 0 <= i < |p| ==> p[i] < |pixels|) && forall i :: 0 <= i < |q| ==> q[i] < |pixels|
    ensures Scatter(Scatter(pixels, p, s), q, t) == Scatter(pixels, p + q, s + t)
    decreases |p|
  {
    if p == [] {
      assert p + q == q && s + t == t;
    } else {
      assert (p + q)[1..] == p[1..] + q && (s + t)[1..] == s[1..] + t;
      ScatterJoins(pixels[p[0] := s[0]], p[1..], s[1..], q, t);
    }
  }

  predicate Within(positions: seq<nat>, size: nat) {
    forall i :: 0 <= i < |positions| ==> positions[i] < size
  }

  /** The zero-run loop of `decode_residual_blocks`, which stops when the block is full. */
  method WriteRun(out: array<byte>, positions: seq<nat>, i: nat, run: nat, value: byte) returns (ok: bool)
    requires i <= |positions| && Within(positions, out.Length)
    modifies out
    ensures ok <==> i + run <= |positions|
    ensures ok ==> out[..] == Scatter(old(out[..]), positions[i..i + run], Repeat(value, run))
  {
    ghost var before := out[..];
    for k := 0 to run
      invariant i + k <= |positions|
      invariant out[..] == Scatter(before, positions[i..i + k], Repeat(value, k))
    {
      hide Scatter, Repeat;
      if i + k >= |positions| {
        return false;
      }
      ScatterOne(before, positions[i..i + k], Repeat(value, k), positions[i + k], value);
      assert positions[i..i + k] + [positions[i + k]] == positions[i..i + k + 1];
      RepeatOne(value, k);
      out[positions[i + k]] := value;
    }
    return true;
  }

  lemma RepeatOne(v: byte, k: nat)
    ensures Repeat(v, k + 1) == Repeat(v, k) + [v] && Repeat(v, 0) == []
  {
  }

  lemma ScatterOne(pixels: seq<byte>, p: seq<nat>, s: seq<byte>, at: nat, value: byte)
    requires |p| == |s| && (forall i :: 0 <= i < |p| ==> p[i] < |pixels|) && at < |pixels|
    ensures Scatter(pixels, p + [at], s + [value]) == Scatter(pixels, p, s)[at := value]
  {
    ScatterJoins(pixels, p, s, [at], [value]);
  }

  /** The samples that a token writes when `n` are missing. */
  function TokenSamples(token: Token, predictor: byte, n: nat): (r: Result<seq<byte>, VideoError>)
    requires 0 < n && (token.Run? ==> 1 <= token.length)
    ensures r.Success? ==> 1 <= |r.value| <= n
  {
    match token
    case Run(run) => if run > n then Failure(RunOverflow) else Success(Repeat(predictor, run))
    case Delta(delta) =>
      var value := WrapI16(predictor + delta);
      if 0 <= value <= 255 then Success([value]) else Failure(SampleOutOfRange)
  }

  /** The frame after the first `|done|` samples of a block have been written. */
  predicate Tracks(now: seq<byte>, before: seq<byte>, positions: seq<nat>, done: seq<byte>) {
    && Within(positions, |before|)
    && |done| <= |positions|
    && now == Scatter(before, positions[..|done|], done)
  }

  lemma TracksEnds(now: seq<byte>, before: seq<byte>, positions: seq<nat>, done: seq<byte>)
    requires Within(positions, |before|)
    ensures Tracks(before, before, positions, [])
    ensures Tracks(now, before, positions, done) && |done| == |positions| ==> now == Scatter(before, positions, done)
  {
    assert positions[..|positions|] == positions;
  }

  lemma TracksToken(now: seq<byte>, before: seq<byte>, positions: seq<nat>, done: seq<byte>, s: seq<byte>)
    requires Tracks(now, before, positions, done) && |done| + |s| <= |positions|
    ensures |now| == |before|
    ensures Tracks(Scatter(now, positions[|done|..|done| + |s|], s), before, positions, done + s)
  {
    hide Scatter;
    var i, j := |done|, |done| + |s|;
    ScatterJoins(before, positions[..i], done, positions[i..j], s);
    assert positions[..i] + positions[i..j] == positions[..j];
  }

  /** A block of which `done` is decoded and `n` samples are to come from `data`. */
  predicate Undecoded(whole: Result<(seq<byte>, seq<byte>), VideoError>, done: seq<byte>, data: seq<byte>,
                      predictor: byte, n: nat)
  {
    whole == Prefixed(done, DecodeBlock(data, predictor, n))
  }

  lemma BlockBounds(whole: Result<(seq<byte>, seq<byte>), VideoError>, done: seq<byte>, data: seq<byte>,
                    predictor: byte, n: nat)
    ensures Undecoded(DecodeBlock(data, predictor, n), [], data, predictor, n)
    ensures Undecoded(whole, done, data, predictor, 0) ==> whole == Success((done, data))
  {
    PrefixedTwice([], [], DecodeBlock(data, predictor, n));
    assert done + [] == done;
  }

  /** What the next token means for a block: its last sample is the new predictor. */
  lemma TokenMeans(whole: Result<(seq<byte>, seq<byte>), VideoError>, done: seq<byte>, data: seq<byte>,
                   predictor: byte, n: nat)
    requires 0 < n && Undecoded(whole, done, data, predictor, n)
    ensures ReadToken(data).Failure? ==> whole == Failure(ReadToken(data).error)
    ensures ReadToken(data).Success? ==>
      var (token, rest) := ReadToken(data).value;
      match TokenSamples(token, predictor, n)
      case Failure(e) => whole == Failure(e)
      case Success(s) => Undecoded(whole, done + s, rest, s[|s| - 1], n - |s|)
  {
    if ReadToken(data).Success? {
      var (token, rest) := ReadToken(data).value;
      hide ReadToken;
      if TokenSamples(token, predictor, n).Success? {
        var s := TokenSamples(token, predictor, n).value;
        PrefixedTwice(done, s, DecodeBlock(rest, s[|s| - 1], n - |s|));
      }
    }
  }

  /** The writes of one turn of the token loop. */
  method WriteToken(out: array<byte>, positions: seq<nat>, i: nat, token: Token, predictor: byte)
    returns (r: Result<(nat, byte), VideoError>)
    requires i < |positions| && Within(positions, out.Length) && (token.Run? ==> 1 <= token.length)
    modifies out
    ensures match TokenSamples(token, predictor, |positions| - i)
      case Failure(e) => r == Failure(e)
      case Success(s) =>
        r == Success((i + |s|, s[|s| - 1])) && out[..] == Scatter(old(out[..]), positions[i..i + |s|], s)
  {
    match token
    case Run(run) =>
      var ok := WriteRun(out, positions, i, run, predictor);
      return if ok then Success((i + run, predictor)) else Failure(RunOverflow);
    case Delta(delta) =>
      var reconstructed := WrapI16(predictor + delta);
      if !(0 <= reconstructed <= 255) {
        return Failure(SampleOutOfRange);
      }
      assert positions[i..i + 1] == [positions[i]];
      ScatterOne(out[..], [], [], positions[i], reconstructed);
      assert [] + [positions[i]] == [positions[i]] && [] + [reconstructed] == [reconstructed];
      out[positions[i]] := reconstructed;
      return Success((i + 1, reconstructed));
  }

  /** The token loop of `decode_residual_blocks`: one block. */
  method DecodeBlockInto(payload: seq<byte>, cursor: nat, positions: seq<nat>, out: array<byte>)
    returns (r: Result<nat, VideoError>)
    requires cursor <= |payload| && Within(positions, out.Length)
    modifies out
    ensures r.Success? ==> r.value <= |payload|
    ensures match r
      case Failure(e) => DecodeBlock(payload[cursor..], 128, |positions|) == Failure(e)
      case Success(at) =>
        var block := DecodeBlock(payload[cursor..], 128, |positions|);
        block.Success? && block.value.1 == payload[at..] && out[..] == Scatter(old(out[..]), positions, block.value.0)
  {
    ghost var before := out[..];
    ghost var whole := DecodeBlock(payload[cursor..], 128, |positions|);
    ghost var done: seq<byte> := [];
    var predictor: byte := 128;
    var at: nat := cursor;
    var i: nat := 0;
    BlockBounds(whole, [], payload[cursor..], predictor, |positions|);
    TracksEnds(before, before, positions, []);
    hide *;
    while i < |positions|
      invariant i == |done| <= |positions| && at <= |payload|
      invariant Undecoded(whole, done, payload[at..], predictor, |positions| - i)
      invariant Tracks(out[..], before, positions, done)
    {
      TokenMeans(whole, done, payload[at..], predictor, |positions| - i);
      var token: Result<Token, VideoError>;
      token, at := ReadTokenAt(payload, at);
      if token.Failure? {
        return Failure(token.error);
      }
      ghost var frame := out[..];
      var written := WriteToken(out, positions, i, token.value, predictor);
      if written.Failure? {
        return Failure(written.error);
      }
      ghost var s := TokenSamples(token.value, predictor, |positions| - i).value;
      TracksToken(frame, before, positions, done, s);
      done := done + s;
      i, predictor := written.value.0, written.value.1;
    }
    BlockBounds(whole, done, payload[at..], predictor, 0);
    TracksEnds(out[..], before, positions, done);
    return Success(at);
  }

  lemma DecodeSteps(width: nat, height: nat, data: seq<byte>, pixels: seq<byte>, top: nat, left: nat)
    requires |pixels| == Area(width, height)
    ensures top >= height ==> DecodeFrom(width, height, data, pixels, top, left) == Success((pixels, data))
    ensures top < height && left >= width ==>
      DecodeFrom(width, height, data, pixels, top, left) == DecodeFrom(width, height, data, pixels, top + BLOCK_SIZE, 0)
    ensures top < height && left < width ==>
      var positions := Positions(width, height, left, top, top, left);
      DecodeFrom(width, height, data, pixels, top, left) ==
        match DecodeBlock(data, 128, |positions|) {
          case Failure(e) => Failure(e)
          case Success((samples, rest)) =>
            DecodeFrom(width, height, rest, Scatter(pixels, positions, samples), top, left + BLOCK_SIZE)
        }
  {
  }

  /** The column loop of `decode_residual_blocks`: one row of blocks. */
  method DecodeRowOfBlocks(width: nat, height: nat, payload: seq<byte>, cursor: nat, out: array<byte>, top: nat)
    returns (r: Result<nat, VideoError>)
    requires cursor <= |payload| && out.Length == Area(width, height) && top < height
    modifies out
    ensures r.Success? ==> r.value <= |payload|
    ensures match r
      case Failure(e) => DecodeFrom(width, height, payload[cursor..], old(out[..]), top, 0) == Failure(e)
      case Success(at) =>
        DecodeFrom(width, height, payload[cursor..], old(out[..]), top, 0)
           == DecodeFrom(width, height, payload[at..], out[..], top + BLOCK_SIZE, 0)
  {
    ghost var whole := DecodeFrom(width, height, payload[cursor..], out[..], top, 0);
    var at: nat := cursor;
    var left := 0;
    hide DecodeFrom, DecodeBlock, Scatter, Positions;
    while left < width
      invariant at <= |payload|
      invariant whole == DecodeFrom(width, height, payload[at..], out[..], top, left)
      decreases if left < width then width - left else 0
    {
      DecodeSteps(width, height, payload[at..], out[..], top, left);
      var positions := BlockPositions(width, height, left, top);
      var block := DecodeBlockInto(payload, at, positions, out);
      if block.Failure? {
        return Failure(block.error);
      }
      at := block.value;
      left := left + BLOCK_SIZE;
    }
    DecodeSteps(width, height, payload[at..], out[..], top, left);
    return Success(at);
  }

  /** `decode_residual_blocks` */
  method DecodeResidualBlocks(width: nat, height: nat, payload: seq<byte>, cursor: nat, out: array<byte>)
    returns (r: Result<nat, VideoError>)
    requires cursor <= |payload| && out.Length == Area(width, height)
    modifies out
    ensures r.Success? ==> r.value <= |payload|
    ensures match r
      case Failure(e) => DecodeFrom(width, height, payload[cursor..], old(out[..]), 0, 0) == Failure(e)
      case Success(at) =>
        DecodeFrom(width, height, payload[cursor..], old(out[..]), 0, 0) == Success((out[..], payload[at..]))
  {
    ghost var whole := DecodeFrom(width, height, payload[cursor..], out[..], 0, 0);
    var at: nat := cursor;
    var top := 0;
    hide DecodeFrom;
    while top < height
      invariant at <= |payload|
      invariant whole == DecodeFrom(width, height, payload[at..], out[..], top, 0)
      decreases if top < height then height - top else 0
    {
      var row := DecodeRowOfBlocks(width, height, payload, at, out, top);
      if row.Failure? {
        return Failure(row.error);
      }
      at := row.value;
      top := top + BLOCK_SIZE;
    }
    DecodeSteps(width, height, payload[at..], out[..], top, 0);
    return Success(at);
  }

  /** `decode_frame` */
  method DecodeVideoFrame(width: u32, height: u32, frameIndex: u32, frameType: FrameType, payload: seq<byte>)
    returns (r: Result<VideoFrame, VideoError>)
    ensures r == DecodeFrame(width, height, frameIndex, frameType, payload)
  {
    if frameType != I {
      return Failure(DecoderOnlyIntra);
    }
    if |payload| < 5 {
      return Failure(PayloadTooSmall);
    }
    if payload[0] != BLOCK_SIZE {
      return Failure(UnsupportedBlockSize);
    }
    var expected := U32At(payload, 1);
    if expected != Area(width, height) {
      return Failure(LengthMetadata);
    }
    hide DecodeFrom, U32At;
    var pixels := new byte[expected](i => 0);
    assert pixels[..] == Repeat(0, expected);
    var decoded := DecodeResidualBlocks(width, height, payload, 5, pixels);
    if decoded.Failure? {
      return Failure(decoded.error);
    }
    assert decoded.value == |payload| <==> payload[decoded.value..] == [];
    if decoded.value != |payload| {
      return Failure(TrailingBytes);
    }
    return Success(VideoFrame(width, height, frameIndex, frameType, pixels[..]));
  }
}
