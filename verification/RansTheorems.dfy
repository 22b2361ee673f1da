/**
 Why the decoder undoes the encoder and the encoder undoes the decoder: between two symbols
 the state is in [RANS_L, RANS_TOP), and on that interval both sides move the same bytes.
 */
module RansTheorems {
  import opened Wrappers
  import opened Arithmetic
  import opened Bytes
  import opened RansModel
  import opened RansSpec

  // ----- one symbol: arithmetic of the state -----

  /** The range from which folding in a symbol of frequency `f` ends up in the normal range. */
  ghost predicate Foldable(x: int, f: int) {
    2048 * f <= x < 0x8_0000 * f
  }

  lemma QuotientBounds(x: nat, f: nat)
    requires 1 <= f && Foldable(x, f)
    ensures 2048 <= x / f < 0x8_0000
    ensures x == f * (x / f) + x % f && 0 <= x % f < f
  {
    var q := x / f;
    assert x == f * q + x % f;
    if q < 2048 {
      ScaledLe(q, 2047, f);
    } else if q >= 0x8_0000 {
      ScaledLe(0x8_0000, q, f);
    }
  }

  lemma PushThenPop(x: nat, f: nat, start: nat)
    requires 1 <= f && f + start <= RANS_SCALE && Foldable(x, f)
    ensures Normal(Push(x, f, start))
    ensures start <= Push(x, f, start) % RANS_SCALE < start + f
    ensures Pop(Push(x, f, start), f, start) == x
  {
    QuotientBounds(x, f);
    var q, r := x / f, x % f;
    assert Push(x, f, start) / RANS_SCALE == q;
    assert Push(x, f, start) % RANS_SCALE == r + start;
  }

  /** The unchecked shift of the encoder drops no bit and its checked additions do not overflow. */
  lemma ShiftLosesNothing(x: nat, f: nat, start: nat)
    requires 1 <= f && f + start <= RANS_SCALE && Foldable(x, f)
    ensures 0 <= x / f * RANS_SCALE && 0 <= x % f
    ensures x / f * RANS_SCALE % U32_LIMIT == x / f * RANS_SCALE
    ensures Push(x, f, start) == x / f * RANS_SCALE + x % f + start < RANS_TOP
  {
    QuotientBounds(x, f);
  }

  lemma PopThenPush(y: nat, f: nat, start: nat)
    requires 1 <= f && f + start <= RANS_SCALE && Normal(y)
    requires start <= y % RANS_SCALE < start + f
    ensures Foldable(Pop(y, f, start), f)
    ensures Push(Pop(y, f, start), f, start) == y
  {
    var q, r := y / RANS_SCALE, y % RANS_SCALE - start;
    assert 2048 <= q <= 0x7_ffff;
    ScaledLe(2048, q, f);
    ScaledLe(q, 0x7_ffff, f);
    assert Pop(y, f, start) == f * q + r;
    DivideExactly(q, r, f);
  }

  // ----- one symbol: renormalization bytes -----

  /**
   From a normal state the encoder sheds at most two bytes, keeps what was already in the
   stream, and lands in the range from which folding is safe.
   */
  lemma RenormOutShape(x: nat, f: nat, tail: seq<byte>)
    requires Normal(x) && 1 <= f <= RANS_SCALE
    ensures var c := RenormOut(x, RenormBound(f), tail);
            && Foldable(c.x, f)
            && |tail| <= |c.bytes| <= |tail| + 2
            && (f == 16 ==> |c.bytes| == |tail| + 1)
  {
    var max := RenormBound(f);
    if x >= max {
      var one := [x % 256] + tail;
      assert RenormOut(x, max, tail) == RenormOut(x / 256, max, one);
      if x / 256 >= max {
        assert x / 256 / 256 < max;
        assert RenormOut(x / 256, max, one) == Coder(x / 256 / 256, [x / 256 % 256] + one);
      }
    }
  }

  /** The decoder absorbs exactly the bytes the encoder shed and regains the state before. */
  lemma RenormInUndoesOut(x: nat, f: nat, tail: seq<byte>, steps: nat, budget: nat)
    requires Normal(x) && 1 <= f <= RANS_SCALE
    requires steps + |RenormOut(x, RenormBound(f), tail).bytes| - |tail| <= budget
    ensures var c := RenormOut(x, RenormBound(f), tail);
            && c.x < U32_LIMIT
            && |tail| <= |c.bytes|
            && RenormIn(Decoder(c.x, c.bytes, steps), budget)
               == Success(Decoder(x, tail, steps + |c.bytes| - |tail|))
  {
    var max := RenormBound(f);
    RenormOutShape(x, f, tail);
    if x < max {
    } else if x / 256 < max {
      var one := [x % 256] + tail;
      assert one[1..] == tail;
      assert RenormOut(x, max, tail) == Coder(x / 256, one);
      assert RenormIn(Decoder(x / 256, one, steps), budget) == RenormIn(Decoder(x, tail, steps + 1), budget);
    } else {
      var one := [x % 256] + tail;
      var two := [x / 256 % 256] + one;
      assert one[1..] == tail && two[1..] == one;
      assert x / 256 / 256 < max;
      assert RenormOut(x, max, tail) == RenormOut(x / 256, max, one) == Coder(x / 256 / 256, two);
      assert RenormIn(Decoder(x / 256 / 256, two, steps), budget)
          == RenormIn(Decoder(x / 256, one, steps + 1), budget)
          == RenormIn(Decoder(x, tail, steps + 2), budget);
    }
  }

  /** Where absorbing ends: as reported on success, at the end of the data, or one step over the budget. */
  lemma {:induction false} RenormEnds(d: Decoder, budget: nat)
    ensures var end := RenormEnd(d, budget);
            match RenormIn(d, budget)
            case Success(d') => end == d'
            case Failure(e) =>
              && end.x < RANS_L
              && (e == TruncatedRenorm <==> end.rest == [])
              && (e == DecodeBudget <==> end.rest != [] && end.steps > budget)
              && (d.steps <= budget ==> end.steps <= budget + 1)
    decreases |d.rest|
  {
    if d.x < RANS_L && d.rest != [] {
      RenormEnds(Decoder(d.x * 256 + d.rest[0], d.rest[1..], d.steps + 1), budget);
    }
  }

  /** Every absorbed byte is counted, and the bytes left are a suffix of those given. */
  lemma {:induction false} RenormInCounts(d: Decoder, budget: nat)
    requires RenormIn(d, budget).Success?
    ensures var d' := RenormIn(d, budget).value;
            && d'.x >= RANS_L
            && |d'.rest| <= |d.rest|
            && d'.rest == d.rest[|d.rest| - |d'.rest|..]
            && d'.steps - d.steps == |d.rest| - |d'.rest|
            && (d.steps <= budget ==> d'.steps <= budget)
    decreases |d.rest|
  {
    if d.x < RANS_L {
      RenormInCounts(Decoder(d.x * 256 + d.rest[0], d.rest[1..], d.steps + 1), budget);
    }
  }

  lemma RenormOutByte(x: nat, b: byte, max: nat, tail: seq<byte>)
    requires 0 < max <= x * 256 + b
    ensures RenormOut(x * 256 + b, max, tail) == RenormOut(x, max, [b] + tail)
  {
  }

  /** The encoder sheds exactly the bytes the decoder absorbed and regains the state before. */
  lemma {:induction false} RenormOutUndoesIn(d: Decoder, f: nat, budget: nat)
    requires 1 <= f <= RANS_SCALE
    requires 2048 * f <= d.x < RANS_TOP
    requires RenormIn(d, budget).Success?
    ensures var d' := RenormIn(d, budget).value;
            && Normal(d'.x)
            && RenormOut(d'.x, RenormBound(f), d'.rest) == RenormOut(d.x, RenormBound(f), d.rest)
    decreases |d.rest|
  {
    hide RenormOut;
    if d.x < RANS_L {
      var next := Decoder(d.x * 256 + d.rest[0], d.rest[1..], d.steps + 1);
      RenormOutUndoesIn(next, f, budget);
      assert [d.rest[0]] + d.rest[1..] == d.rest;
      RenormOutByte(d.x, d.rest[0], RenormBound(f), d.rest[1..]);
    }
  }

  // ----- one symbol: the two steps -----

  lemma EncodeStepNormal(m: Model, sym: nat, c: Coder)
    requires m.Valid() && sym < |m.freqs| && Normal(c.x)
    ensures Normal(EncodeStep(m, sym, c).x)
    ensures |c.bytes| <= |EncodeStep(m, sym, c).bytes| <= |c.bytes| + 2
    ensures m.freqs[sym] == 16 ==> |EncodeStep(m, sym, c).bytes| == |c.bytes| + 1
  {
    IntervalInRange(m, sym);
    RenormOutShape(c.x, m.freqs[sym], c.bytes);
    var c' := RenormOut(c.x, RenormBound(m.freqs[sym]), c.bytes);
    PushThenPop(c'.x, m.freqs[sym], m.cumulative[sym]);
  }

  lemma DecodeUndoesEncodeStep(m: Model, sym: nat, c: Coder, steps: nat, budget: nat)
    requires m.Valid() && sym < |m.freqs| && Normal(c.x)
    requires steps + |EncodeStep(m, sym, c).bytes| - |c.bytes| <= budget
    ensures var e := EncodeStep(m, sym, c);
            && e.x < U32_LIMIT
            && |c.bytes| <= |e.bytes|
            && DecodeStep(m, Decoder(e.x, e.bytes, steps), budget)
               == Success((sym, Decoder(c.x, c.bytes, steps + |e.bytes| - |c.bytes|)))
  {
    IntervalInRange(m, sym);
    var f, start := m.freqs[sym], m.cumulative[sym];
    RenormOutShape(c.x, f, c.bytes);
    RenormInUndoesOut(c.x, f, c.bytes, steps, budget);
    var c' := RenormOut(c.x, RenormBound(f), c.bytes);
    PushThenPop(c'.x, f, start);
    var e := EncodeStep(m, sym, c);
    assert m.Owns(sym, e.x % RANS_SCALE);
    SlotOwner(m, sym, e.x % RANS_SCALE);
  }

  lemma EncodeUndoesDecodeStep(m: Model, d: Decoder, budget: nat)
    requires m.Valid() && Normal(d.x)
    requires DecodeStep(m, d, budget).Success?
    ensures var (sym, d') := DecodeStep(m, d, budget).value;
            && Normal(d'.x)
            && EncodeStep(m, sym, Coder(d'.x, d'.rest)) == Coder(d.x, d.rest)
  {
    var slot := d.x % RANS_SCALE;
    SlotFound(m, slot);
    var sym := m.SymbolForSlot(slot).value;
    IntervalInRange(m, sym);
    var f, start := m.freqs[sym], m.cumulative[sym];
    PopThenPush(d.x, f, start);
    PopNeverWraps(m, sym, d.x);
    var x := Pop(d.x, f, start);
    RenormOutUndoesIn(Decoder(x, d.rest, d.steps), f, budget);
    assert RenormOut(x, RenormBound(f), d.rest) == Coder(x, d.rest);
  }

  // ----- whole streams -----

  lemma {:induction false} EncodeAllNormal(ms: seq<Model>, syms: seq<nat>, tail: seq<byte>)
    requires Codable(ms, syms)
    ensures var c := EncodeAll(ms, syms, tail);
            && Normal(c.x)
            && |tail| <= |c.bytes| <= |tail| + 2 * |syms|
            && ((forall i :: 0 <= i < |ms| ==> IsUniform(ms[i], 256)) ==> |c.bytes| == |tail| + |syms|)
  {
    if syms != [] {
      EncodeAllNormal(ms[1..], syms[1..], tail);
      EncodeStepNormal(ms[0], syms[0], EncodeAll(ms[1..], syms[1..], tail));
    }
  }

  lemma RenormOutTail(x: nat, max: nat, bytes: seq<byte>, tail: seq<byte>)
    requires max > 0
    ensures RenormOut(x, max, bytes + tail)
            == Coder(RenormOut(x, max, bytes).x, RenormOut(x, max, bytes).bytes + tail)
    decreases x
  {
    if x >= max {
      RenormOutTail(x / 256, max, [x % 256] + bytes, tail);
      assert [x % 256] + (bytes + tail) == [x % 256] + bytes + tail;
    }
  }

  /** What follows a stream influences neither its state nor its bytes. */
  lemma {:induction false} EncodeAllTail(ms: seq<Model>, syms: seq<nat>, tail: seq<byte>)
    requires Codable(ms, syms)
    ensures EncodeAll(ms, syms, tail)
            == Coder(EncodeAll(ms, syms, []).x, EncodeAll(ms, syms, []).bytes + tail)
  {
    if syms != [] {
      EncodeAllTail(ms[1..], syms[1..], tail);
      IntervalInRange(ms[0], syms[0]);
      var c := EncodeAll(ms[1..], syms[1..], []);
      RenormOutTail(c.x, RenormBound(ms[0].freqs[syms[0]]), c.bytes, tail);
    }
  }

  lemma DecodeAllStep(ms: seq<Model>, d: Decoder, budget: nat, acc: seq<nat>, sym: nat, d': Decoder)
    requires forall i :: 0 <= i < |ms| ==> ms[i].Valid()
    requires ms != [] && DecodeStep(ms[0], d, budget) == Success((sym, d'))
    ensures DecodeAll(ms, d, budget, acc) == DecodeAll(ms[1..], d', budget, acc + [sym])
  {
  }

  lemma {:induction false} DecodeUndoesEncodeAll(
      ms: seq<Model>, syms: seq<nat>, tail: seq<byte>, steps: nat, budget: nat, acc: seq<nat>)
    requires Codable(ms, syms)
    requires steps + |EncodeAll(ms, syms, tail).bytes| - |tail| <= budget
    ensures Normal(EncodeAll(ms, syms, tail).x)
    ensures |tail| <= |EncodeAll(ms, syms, tail).bytes|
    ensures var c := EncodeAll(ms, syms, tail);
            DecodeAll(ms, Decoder(c.x, c.bytes, steps), budget, acc)
            == Success((acc + syms, Decoder(RANS_L, tail, steps + |c.bytes| - |tail|)))
    decreases |ms|
  {
    hide DecodeStep, EncodeStep;
    EncodeAllNormal(ms, syms, tail);
    if syms == [] {
      assert acc + syms == acc;
    } else {
      var inner := EncodeAll(ms[1..], syms[1..], tail);
      var c := EncodeStep(ms[0], syms[0], inner);
      EncodeAllNormal(ms[1..], syms[1..], tail);
      EncodeStepNormal(ms[0], syms[0], inner);
      DecodeUndoesEncodeStep(ms[0], syms[0], inner, steps, budget);
      var d := Decoder(inner.x, inner.bytes, steps + |c.bytes| - |inner.bytes|);
      DecodeUndoesEncodeAll(ms[1..], syms[1..], tail, d.steps, budget, acc + [syms[0]]);
      DecodeAllStep(ms, Decoder(c.x, c.bytes, steps), budget, acc, syms[0], d);
      assert acc + [syms[0]] + syms[1..] == acc + syms;
      assert DecodeAll(ms[1..], d, budget, acc + [syms[0]])
          == Success((acc + syms, Decoder(RANS_L, tail, steps + |c.bytes| - |tail|)));
      assert EncodeAll(ms, syms, tail) == c;
    }
  }

  lemma DecodeStepCounts(m: Model, d: Decoder, budget: nat)
    requires m.Valid() && DecodeStep(m, d, budget).Success?
    ensures var (_, d') := DecodeStep(m, d, budget).value;
            && |d'.rest| <= |d.rest|
            && d'.rest == d.rest[|d.rest| - |d'.rest|..]
            && d'.steps - d.steps == |d.rest| - |d'.rest|
            && (d.steps <= budget ==> d'.steps <= budget)
  {
    var slot := d.x % RANS_SCALE;
    SlotFound(m, slot);
    var sym := m.SymbolForSlot(slot).value;
    PopNeverWraps(m, sym, d.x);
    RenormInCounts(Decoder(Pop(d.x, m.freqs[sym], m.cumulative[sym]), d.rest, d.steps), budget);
  }

  lemma {:induction false} DecodeAllCounts(ms: seq<Model>, d: Decoder, budget: nat, acc: seq<nat>)
    requires forall i :: 0 <= i < |ms| ==> ms[i].Valid()
    requires DecodeAll(ms, d, budget, acc).Success?
    ensures var (out, d') := DecodeAll(ms, d, budget, acc).value;
            && |out| == |acc| + |ms|
            && |d'.rest| <= |d.rest|
            && d'.rest == d.rest[|d.rest| - |d'.rest|..]
            && d'.steps - d.steps == |d.rest| - |d'.rest|
            && (d.steps <= budget ==> d'.steps <= budget)
    decreases |ms|
  {
    hide DecodeStep;
    if ms != [] {
      DecodeStepCounts(ms[0], d, budget);
      var (sym, d1) := DecodeStep(ms[0], d, budget).value;
      DecodeAllCounts(ms[1..], d1, budget, acc + [sym]);
    }
  }

  lemma {:induction false} RenormInBudget(d: Decoder, low: nat, high: nat)
    requires low <= high
    ensures RenormIn(d, low) in {Failure(DecodeBudget), RenormIn(d, high)}
    decreases |d.rest|
  {
    if d.x < RANS_L && d.rest != [] {
      RenormInBudget(Decoder(d.x * 256 + d.rest[0], d.rest[1..], d.steps + 1), low, high);
    }
  }

  lemma DecodeStepBudget(m: Model, d: Decoder, low: nat, high: nat)
    requires m.Valid() && low <= high
    ensures DecodeStep(m, d, low) in {Failure(DecodeBudget), DecodeStep(m, d, high)}
  {
    var slot := d.x % RANS_SCALE;
    SlotFound(m, slot);
    var sym := m.SymbolForSlot(slot).value;
    PopNeverWraps(m, sym, d.x);
    RenormInBudget(Decoder(Pop(d.x, m.freqs[sym], m.cumulative[sym]), d.rest, d.steps), low, high);
  }

  /** A smaller budget can only turn an outcome into the budget error. */
  lemma {:induction false} DecodeAllBudget(ms: seq<Model>, d: Decoder, low: nat, high: nat, acc: seq<nat>)
    requires forall i :: 0 <= i < |ms| ==> ms[i].Valid()
    requires low <= high
    ensures DecodeAll(ms, d, low, acc) in {Failure(DecodeBudget), DecodeAll(ms, d, high, acc)}
    decreases |ms|
  {
    hide DecodeStep;
    if ms != [] {
      DecodeStepBudget(ms[0], d, low, high);
      if DecodeStep(ms[0], d, low).Success? {
        var (sym, d1) := DecodeStep(ms[0], d, low).value;
        DecodeAllBudget(ms[1..], d1, low, high, acc + [sym]);
      }
    }
  }

  lemma StartOfEncoded(ms: seq<Model>, syms: seq<nat>, tail: seq<byte>)
    requires Codable(ms, syms)
    ensures |Encoded(ms, syms)| == 4 + |EncodeAll(ms, syms, []).bytes|
    ensures EncodeAll(ms, syms, tail).x < U32_LIMIT
    ensures StartOf(Encoded(ms, syms) + tail)
            == Decoder(EncodeAll(ms, syms, tail).x, EncodeAll(ms, syms, tail).bytes, 0)
  {
    EncodeAllNormal(ms, syms, []);
    EncodeAllTail(ms, syms, tail);
    var c := EncodeAll(ms, syms, []);
    U32RoundTrip(c.x);
    PrefixAndRest(LeBytes(c.x, 4), c.bytes, tail);
  }

  lemma PrefixAndRest(head: seq<byte>, body: seq<byte>, tail: seq<byte>)
    ensures (head + body + tail)[..|head|] == head
    ensures (head + body + tail)[|head|..] == body + tail
  {
  }

  /**
   Round trip: a stream decodes to the symbols it was made from exactly when the budget covers
   its renormalization bytes; with less the decoder stops with the budget error.
   */
  lemma RoundTrip(ms: seq<Model>, syms: seq<nat>, budget: nat)
    requires Codable(ms, syms)
    ensures DecodeStream(ms, Encoded(ms, syms), budget)
            == if |Encoded(ms, syms)| - 4 <= budget then Success(syms) else Failure(DecodeBudget)
  {
    var data := Encoded(ms, syms);
    StartOfEncoded(ms, syms, []);
    assert data + [] == data;
    var d := StartOf(data);
    DecodeUndoesEncodeAll(ms, syms, [], 0, |data| - 4, []);
    assert [] + syms == syms;
    if budget < |data| - 4 {
      DecodeAllBudget(ms, d, budget, |data| - 4, []);
      if DecodeAll(ms, d, budget, []).Success? {
        DecodeAllCounts(ms, d, budget, []);
      }
    } else {
      DecodeAllBudget(ms, d, |data| - 4, budget, []);
    }
  }

  /** Bytes after the end of a stream are refused, whatever they are. */
  lemma TrailingGarbageRefused(ms: seq<Model>, syms: seq<nat>, garbage: seq<byte>, budget: nat)
    requires Codable(ms, syms)
    requires garbage != [] && |Encoded(ms, syms)| - 4 <= budget
    ensures DecodeStream(ms, Encoded(ms, syms) + garbage, budget) == Failure(TrailingBytes)
  {
    StartOfEncoded(ms, syms, garbage);
    EncodeAllTail(ms, syms, garbage);
    DecodeUndoesEncodeAll(ms, syms, garbage, 0, budget, []);
  }

  /** Decoding from a normal state and re-encoding on top of what is left gives back the input. */
  lemma {:induction false} EncodeUndoesDecodeAll(ms: seq<Model>, d: Decoder, budget: nat, acc: seq<nat>)
    requires forall i :: 0 <= i < |ms| ==> ms[i].Valid()
    requires Normal(d.x)
    requires DecodeAll(ms, d, budget, acc).Success?
    ensures var (out, d') := DecodeAll(ms, d, budget, acc).value;
            && acc <= out
            && Codable(ms, out[|acc|..])
            && Normal(d'.x)
            && (d'.x == RANS_L ==> EncodeAll(ms, out[|acc|..], d'.rest) == Coder(d.x, d.rest))
    decreases |ms|
  {
    hide DecodeStep, EncodeStep;
    if ms != [] {
      EncodeUndoesDecodeStep(ms[0], d, budget);
      var (sym, d1) := DecodeStep(ms[0], d, budget).value;
      EncodeUndoesDecodeAll(ms[1..], d1, budget, acc + [sym]);
      var (out, d') := DecodeAll(ms, d, budget, acc).value;
      assert out[|acc|] == sym;
      assert out[|acc|..][1..] == out[|acc + [sym]|..];
    }
  }

  lemma NormalStreamIsEncoding(ms: seq<Model>, data: seq<byte>, budget: nat)
    requires forall i :: 0 <= i < |ms| ==> ms[i].Valid()
    requires DecodeStream(ms, data, budget).Success?
    requires Normal(StartOf(data).x)
    requires DecodeAll(ms, StartOf(data), budget, []).value.1.x == RANS_L
    ensures var syms := DecodeStream(ms, data, budget).value;
            Codable(ms, syms) && Encoded(ms, syms) == data
  {
    var (out, d') := DecodeAll(ms, StartOf(data), budget, []).value;
    EncodeUndoesDecodeAll(ms, StartOf(data), budget, []);
    assert out[0..] == out;
    BytesRoundTrip(data[..4]);
    assert data == data[..4] + data[4..];
  }

  lemma EncodingIsNormalStream(ms: seq<Model>, syms: seq<nat>, budget: nat)
    requires Codable(ms, syms) && |Encoded(ms, syms)| - 4 <= budget
    ensures Normal(StartOf(Encoded(ms, syms)).x)
    ensures var r := DecodeAll(ms, StartOf(Encoded(ms, syms)), budget, []);
            r.Success? && r.value.1.x == RANS_L
  {
    StartOfEncoded(ms, syms, []);
    assert Encoded(ms, syms) + [] == Encoded(ms, syms);
    DecodeUndoesEncodeAll(ms, syms, [], 0, budget, []);
  }

  /**
   Converse: an accepted stream is, byte for byte, the encoding of the symbols read from it
   exactly when it starts in the normal range and leaves the decoder in the encoder's start
   state.
   */
  lemma AcceptedStreamIsEncoding(ms: seq<Model>, data: seq<byte>, budget: nat)
    requires forall i :: 0 <= i < |ms| ==> ms[i].Valid()
    requires DecodeStream(ms, data, budget).Success?
    ensures var syms := DecodeStream(ms, data, budget).value;
            Codable(ms, syms) && Encoded(ms, syms) == data <==>
            Normal(StartOf(data).x) && DecodeAll(ms, StartOf(data), budget, []).value.1.x == RANS_L
  {
    var syms := DecodeStream(ms, data, budget).value;
    if Normal(StartOf(data).x) && DecodeAll(ms, StartOf(data), budget, []).value.1.x == RANS_L {
      NormalStreamIsEncoding(ms, data, budget);
    } else if Codable(ms, syms) && Encoded(ms, syms) == data {
      RoundTrip(ms, syms, budget);
      EncodingIsNormalStream(ms, syms, budget);
    }
  }

  /** Decoding can be stopped after any symbol and resumed from the state it left. */
  lemma {:induction false} DecodeResumes(ms: seq<Model>, ns: seq<Model>, d: Decoder, budget: nat, acc: seq<nat>)
    requires forall i :: 0 <= i < |ms| ==> ms[i].Valid()
    requires forall i :: 0 <= i < |ns| ==> ns[i].Valid()
    ensures DecodeAll(ms + ns, d, budget, acc)
            == match DecodeAll(ms, d, budget, acc)
               case Failure(e) => Failure(e)
               case Success((out, d')) => DecodeAll(ns, d', budget, out)
    decreases |ms|
  {
    if ms == [] {
      assert ms + ns == ns;
    } else {
      assert (ms + ns)[1..] == ms[1..] + ns;
      if DecodeStep(ms[0], d, budget).Success? {
        var (sym, d1) := DecodeStep(ms[0], d, budget).value;
        DecodeResumes(ms[1..], ns, d1, budget, acc + [sym]);
      }
    }
  }

  /** At most two bytes a symbol, and exactly one with 256 equally likely symbols. */
  lemma EncodedLength(ms: seq<Model>, syms: seq<nat>)
    requires Codable(ms, syms)
    ensures 4 <= |Encoded(ms, syms)| <= 4 + 2 * |syms|
    ensures (forall i :: 0 <= i < |ms| ==> IsUniform(ms[i], 256)) ==> |Encoded(ms, syms)| == 4 + |syms|
  {
    EncodeAllNormal(ms, syms, []);
  }

  // ----- budgets that no stream can use up -----

  lemma {:induction false} RenormWithin(d: Decoder, budget: nat)
    requires d.steps + |d.rest| <= budget
    ensures RenormIn(d, budget) == RenormIn(d, d.steps + |d.rest|)
    ensures RenormIn(d, budget) != Failure(DecodeBudget)
    ensures RenormIn(d, budget).Success? ==>
      RenormIn(d, budget).value.steps + |RenormIn(d, budget).value.rest| == d.steps + |d.rest|
    decreases |d.rest|
  {
    if d.x < RANS_L && d.rest != [] {
      RenormWithin(Decoder(d.x * 256 + d.rest[0], d.rest[1..], d.steps + 1), budget);
      RenormWithin(Decoder(d.x * 256 + d.rest[0], d.rest[1..], d.steps + 1), d.steps + |d.rest|);
    }
  }

  lemma StepWithin(m: Model, d: Decoder, budget: nat)
    requires m.Valid() && d.steps + |d.rest| <= budget
    ensures DecodeStep(m, d, budget) == DecodeStep(m, d, d.steps + |d.rest|)
    ensures DecodeStep(m, d, budget) != Failure(DecodeBudget)
    ensures DecodeStep(m, d, budget).Success? ==>
      DecodeStep(m, d, budget).value.1.steps + |DecodeStep(m, d, budget).value.1.rest| == d.steps + |d.rest|
  {
    SlotFound(m, d.x % RANS_SCALE);
    var sym := m.SymbolForSlot(d.x % RANS_SCALE).value;
    PopNeverWraps(m, sym, d.x);
    RenormWithin(Decoder(Pop(d.x, m.freqs[sym], m.cumulative[sym]), d.rest, d.steps), budget);
    hide RenormIn;
  }

  lemma {:induction false} AllWithin(ms: seq<Model>, d: Decoder, budget: nat, acc: seq<nat>)
    requires (forall i :: 0 <= i < |ms| ==> ms[i].Valid()) && d.steps + |d.rest| <= budget
    ensures DecodeAll(ms, d, budget, acc) == DecodeAll(ms, d, d.steps + |d.rest|, acc)
    ensures DecodeAll(ms, d, budget, acc) != Failure(DecodeBudget)
    decreases |ms|
  {
    hide DecodeStep;
    if ms != [] {
      StepWithin(ms[0], d, budget);
      var r := DecodeStep(ms[0], d, budget);
      if r.Success? {
        AllWithin(ms[1..], r.value.1, budget, acc + [r.value.0]);
      }
    }
  }

  /** From a byte of budget for every byte behind the state on, no stream meets the budget, whatever is in it. */
  lemma LargeBudget(ms: seq<Model>, data: seq<byte>, budget: nat)
    requires (forall i :: 0 <= i < |ms| ==> ms[i].Valid()) && |data| - 4 <= budget
    ensures DecodeStream(ms, data, budget) != Failure(DecodeBudget)
    ensures |data| >= 4 ==> DecodeStream(ms, data, budget) == DecodeStream(ms, data, |data| - 4)
  {
    if |data| >= 4 {
      AllWithin(ms, StartOf(data), budget, []);
    }
  }
}
