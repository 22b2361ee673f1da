/** What a prediction is: the dot product of the taps and the samples before, scaled down by 4096 and rounded down. */
module PredictionTheorems {
  import opened Bytes
  import opened RansModel
  import opened RansSpec
  import opened RansCoder
  import opened AudioSpec
  import opened Arithmetic

  /** The first tap weighs the sample just before `n`, the second the one before that, and so on. */
  function Dot(x: seq<i16>, n: nat, coef: seq<i16>): int
    requires |coef| <= n <= |x|
  {
    if coef == [] then 0 else coef[0] as int * x[n - 1] + Dot(x, n - 1, coef[1..])
  }

  predicate Fits32(v: int) {
    -0x8000_0000 <= v < 0x8000_0000
  }

  /** No partial sum leaves 32 bits; the products of two samples of 16 bits never do. */
  ghost predicate NoSaturation(x: seq<i16>, n: nat, coef: seq<i16>)
    requires |coef| <= n <= |x|
  {
    forall k: nat :: k <= |coef| ==> Fits32(Dot(x, n, coef[..k]))
  }

  lemma ProductFits(a: i16, b: i16)
    ensures -0x4000_0000 <= a as int * b <= 0x4000_0000
  {
    var size: int := if a >= 0 then a else -(a as int);
    ScaledLe(b, 0x7fff, size);
    ScaledLe(-0x8000, b, size);
    assert a as int * b == if a >= 0 then size * b else -(size * b);
  }

  lemma {:induction false} DotAppend(x: seq<i16>, n: nat, coef: seq<i16>, c: i16)
    requires |coef| + 1 <= n <= |x|
    ensures Dot(x, n, coef + [c]) == Dot(x, n, coef) + c as int * x[n - 1 - |coef|]
    decreases |coef|
  {
    if coef == [] {
      assert [c][1..] == [] && coef + [c] == [c];
    } else {
      assert (coef + [c])[1..] == coef[1..] + [c];
      DotAppend(x, n - 1, coef[1..], c);
    }
  }

  lemma DotMore(x: seq<i16>, n: nat, k: nat, coef: seq<i16>)
    requires 0 < k <= |coef| <= n <= |x|
    ensures Dot(x, n, coef[..k]) == Dot(x, n, coef[..k - 1]) + coef[k - 1] as int * x[n - k]
  {
    assert coef[..k] == coef[..k - 1] + [coef[k - 1]];
    hide Dot;
    DotAppend(x, n, coef[..k - 1], coef[k - 1]);
  }

  lemma AccumulateMore(x: seq<i16>, n: nat, k: nat, coef: seq<i16>)
    requires 0 < k <= |coef| <= n <= |x|
    ensures Accumulate(x, n, k, coef) == Saturate32(Accumulate(x, n, k - 1, coef) + coef[k - 1] as int * x[n - k])
  {
    ProductFits(coef[k - 1], x[n - k]);
  }

  lemma {:induction false} AccumulateIsDot(x: seq<i16>, n: nat, k: nat, coef: seq<i16>)
    requires k <= |coef| <= n <= |x| && NoSaturation(x, n, coef)
    ensures Accumulate(x, n, k, coef) == Dot(x, n, coef[..k])
    decreases k
  {
    hide Dot, Accumulate;
    if k == 0 {
      NothingYet(x, n, coef);
    } else {
      AccumulateIsDot(x, n, k - 1, coef);
      DotMore(x, n, k, coef);
      AccumulateMore(x, n, k, coef);
      assert Fits32(Dot(x, n, coef[..k]));
    }
  }

  lemma NothingYet(x: seq<i16>, n: nat, coef: seq<i16>)
    requires n <= |x|
    ensures Dot(x, n, coef[..0]) == 0 == Accumulate(x, n, 0, coef)
  {
  }

  /** A prediction is the 4096th part of the dot product, rounded down, as long as no sum leaves 32 bits. */
  lemma PredictionMeans(x: seq<i16>, n: nat, coef: seq<i16>)
    requires |coef| <= n <= |x| && NoSaturation(x, n, coef)
    ensures 0 <= Dot(x, n, coef) - 4096 * Predict(x, n, coef) < 4096
  {
    AccumulateIsDot(x, n, |coef|, coef);
    assert coef[..|coef|] == coef;
  }

  /** Where every product is at least zero, a sum above 32 bits counts as the greatest number of 32 bits. */
  lemma {:induction false} SaturatesAbove(x: seq<i16>, n: nat, k: nat, coef: seq<i16>)
    requires k <= |coef| <= n <= |x|
    requires forall i :: 0 <= i < |coef| ==> coef[i] as int * x[n - 1 - i] >= 0
    ensures Dot(x, n, coef[..k]) >= 0
    ensures Accumulate(x, n, k, coef)
      == if Dot(x, n, coef[..k]) > 0x7fff_ffff then 0x7fff_ffff else Dot(x, n, coef[..k])
    decreases k
  {
    hide Dot, Accumulate;
    if k == 0 {
      NothingYet(x, n, coef);
    } else {
      SaturatesAbove(x, n, k - 1, coef);
      DotMore(x, n, k, coef);
      AccumulateMore(x, n, k, coef);
      assert coef[k - 1] as int * x[n - 1 - (k - 1)] >= 0;
    }
  }

  /** And where every product is at most zero, one below as the least. */
  lemma {:induction false} SaturatesBelow(x: seq<i16>, n: nat, k: nat, coef: seq<i16>)
    requires k <= |coef| <= n <= |x|
    requires forall i :: 0 <= i < |coef| ==> coef[i] as int * x[n - 1 - i] <= 0
    ensures Dot(x, n, coef[..k]) <= 0
    ensures Accumulate(x, n, k, coef)
      == if Dot(x, n, coef[..k]) < -0x8000_0000 then -0x8000_0000 else Dot(x, n, coef[..k])
    decreases k
  {
    hide Dot, Accumulate;
    if k == 0 {
      NothingYet(x, n, coef);
    } else {
      SaturatesBelow(x, n, k - 1, coef);
      DotMore(x, n, k, coef);
      AccumulateMore(x, n, k, coef);
      assert coef[k - 1] as int * x[n - 1 - (k - 1)] <= 0;
    }
  }

  /** A saturated prediction is the greatest or least there is: 2^19 - 1 or -2^19. */
  lemma SaturatedPrediction(x: seq<i16>, n: nat, coef: seq<i16>)
    requires |coef| <= n <= |x|
    ensures (forall i :: 0 <= i < |coef| ==> coef[i] as int * x[n - 1 - i] >= 0) && Dot(x, n, coef) > 0x7fff_ffff ==>
      Predict(x, n, coef) == 0x7_ffff
    ensures (forall i :: 0 <= i < |coef| ==> coef[i] as int * x[n - 1 - i] <= 0) && Dot(x, n, coef) < -0x8000_0000 ==>
      Predict(x, n, coef) == -0x8_0000
  {
    assert coef[..|coef|] == coef;
    if forall i :: 0 <= i < |coef| ==> coef[i] as int * x[n - 1 - i] >= 0 {
      SaturatesAbove(x, n, |coef|, coef);
    }
    if forall i :: 0 <= i < |coef| ==> coef[i] as int * x[n - 1 - i] <= 0 {
      SaturatesBelow(x, n, |coef|, coef);
    }
  }

  // ----- the decoder -----

  /** Rebuilding adds each residual to what is predicted from the samples rebuilt before it. */
  lemma {:induction false} RebuiltSamples(x: seq<i16>, residuals: seq<i16>, coef: seq<i16>, i: nat)
    requires |coef| <= |x| && i < |residuals| && Rebuild(x, residuals, coef).Success?
    ensures var out := Rebuild(x, residuals, coef).value;
      && |out| == |x| + |residuals| && out[..|x|] == x
      && out[|x| + i] == Predict(out, |x| + i, coef) + residuals[i]
    decreases |residuals|
  {
    hide Predict;
    var v: i16 := Predict(x, |x|, coef) + residuals[0];
    var out := Rebuild(x, residuals, coef).value;
    assert out == Rebuild(x + [v], residuals[1..], coef).value;
    RebuildKeeps(x + [v], residuals[1..], coef);
    assert out[..|x|] == (x + [v])[..|x|] == x && out[|x|] == (x + [v])[|x|];
    if i == 0 {
      PredictSame(x, out, |x|, coef);
    } else {
      RebuiltSamples(x + [v], residuals[1..], coef, i - 1);
    }
  }

  lemma {:induction false} RebuildKeeps(x: seq<i16>, residuals: seq<i16>, coef: seq<i16>)
    requires |coef| <= |x| && Rebuild(x, residuals, coef).Success?
    ensures |Rebuild(x, residuals, coef).value| == |x| + |residuals|
    ensures Rebuild(x, residuals, coef).value[..|x|] == x
    decreases |residuals|
  {
    hide Predict;
    if residuals != [] {
      var v: i16 := Predict(x, |x|, coef) + residuals[0];
      RebuildKeeps(x + [v], residuals[1..], coef);
      var out := Rebuild(x, residuals, coef).value;
      assert out[..|x|] == out[..|x| + 1][..|x|] == x;
    }
  }

  lemma {:induction false} AccumulateSame(x: seq<i16>, y: seq<i16>, n: nat, k: nat, coef: seq<i16>)
    requires k <= n <= |x| && n <= |y| && k <= |coef| && x[..n] == y[..n]
    ensures Accumulate(x, n, k, coef) == Accumulate(y, n, k, coef)
    decreases k
  {
    if k > 0 {
      AccumulateSame(x, y, n, k - 1, coef);
      assert x[..n][n - k] == y[..n][n - k];
    }
  }

  lemma PredictSame(x: seq<i16>, y: seq<i16>, n: nat, coef: seq<i16>)
    requires |coef| <= n <= |x| && n <= |y| && x[..n] == y[..n]
    ensures Predict(x, n, coef) == Predict(y, n, coef)
  {
    AccumulateSame(x, y, n, |coef|, coef);
  }

  /** With the single tap 4096 each sample is the one before it plus its residual. */
  lemma UnitTap(x: seq<i16>, n: nat)
    requires 0 < n <= |x|
    ensures Predict(x, n, [4096]) == x[n - 1]
  {
    AccumulateMore(x, n, 1, [4096]);
    assert Accumulate(x, n, 0, [4096]) == 0;
  }

  /** The residuals that a linear channel of one tap holds, none if its blob cannot be decoded. */
  ghost function ResidualsOf(payload: seq<byte>, count: u32): seq<i16>
    requires |payload| >= 10 && count > 0
  {
    ByteModelValid();
    var blob := if |payload| - 10 >= U32At(payload, 6) then payload[10..10 + U32At(payload, 6)] else [];
    var symbols := 2 * (count - 1);
    match DecodeStream(Repeat(ByteModel(), symbols), blob, DecodeBudget64(|blob|, symbols))
    case Failure(_) => []
    case Success(syms) => FromI16s(AsBytes(syms))
  }

  /** `first`, and then each sample the one before it plus its residual. */
  ghost predicate RunningSums(out: seq<i16>, first: i16, residuals: seq<i16>) {
    && |out| == |residuals| + 1
    && out[0] == first
    && forall i :: 0 <= i < |residuals| ==> out[i + 1] as int == out[i] as int + residuals[i]
  }

  lemma RunningRebuild(first: i16, residuals: seq<i16>)
    requires Rebuild([first], residuals, [4096]).Success?
    ensures RunningSums(Rebuild([first], residuals, [4096]).value, first, residuals)
  {
    hide Rebuild, Predict;
    var out := Rebuild([first], residuals, [4096]).value;
    RebuildKeeps([first], residuals, [4096]);
    assert out[0] == out[..1][0];
    forall i | 0 <= i < |residuals|
      ensures out[i + 1] as int == out[i] as int + residuals[i]
    {
      RebuiltSamples([first], residuals, [4096], i);
      UnitTap(out, i + 1);
    }
  }

  /**
   A channel in linear mode, of order one and with the tap 4096, decodes to its warm-up sample and
   the running sums behind it.
   */
  lemma UnitTapChannel(payload: seq<byte>, count: u32)
    requires |payload| >= 10 && payload[0] == 1 && payload[1] == 1 && count > 0
    requires I16Of(payload[2], payload[3]) == 4096
    requires DecodeChannel(payload, count).Success?
    ensures |DecodeChannel(payload, count).value| == count
    ensures RunningSums(DecodeChannel(payload, count).value, I16Of(payload[4], payload[5]), ResidualsOf(payload, count))
  {
    hide FromLe, DecodeBudget64, DecodeStream, I16Of, Rebuild, RunningSums;
    assert FromI16s(payload[2..4]) == [4096] && FromI16s(payload[4..6]) == [I16Of(payload[4], payload[5])];
    var blob := payload[10..10 + U32At(payload, 6)];
    ByteModelValid();
    StreamLength(Repeat(ByteModel(), 2 * (count - 1)), blob, DecodeBudget64(|blob|, 2 * (count - 1)));
    RunningRebuild(I16Of(payload[4], payload[5]), ResidualsOf(payload, count));
  }

  lemma StreamLength(ms: seq<Model>, data: seq<byte>, budget: nat)
    requires forall i :: 0 <= i < |ms| ==> ms[i].Valid()
    ensures DecodeStream(ms, data, budget).Success? ==> |DecodeStream(ms, data, budget).value| == |ms|
  {
    if |data| >= 4 {
      AllLength(ms, StartOf(data), budget, []);
    }
  }

  lemma {:induction false} AllLength(ms: seq<Model>, d: Decoder, budget: nat, acc: seq<nat>)
    requires forall i :: 0 <= i < |ms| ==> ms[i].Valid()
    ensures DecodeAll(ms, d, budget, acc).Success? ==> |DecodeAll(ms, d, budget, acc).value.0| == |acc| + |ms|
    decreases |ms|
  {
    hide DecodeStep;
    if ms != [] {
      var r := DecodeStep(ms[0], d, budget);
      if r.Success? {
        AllLength(ms[1..], r.value.1, budget, acc + [r.value.0]);
      }
    }
  }

  // ----- which order the encoder takes -----

  /** The order taken is usable, and no higher one is; without any the samples are stored raw. */
  lemma {:induction false} HighestOrder(lpc: Lpc, samples: seq<i16>, p: nat)
    ensures var r := ChosenOrder(lpc, samples, p);
      && r <= p
      && (r > 0 ==> lpc.found(samples, r) && ResidualsFit(samples, lpc.Taps(samples, r)))
      && forall q: nat :: r < q <= p ==> !(lpc.found(samples, q) && ResidualsFit(samples, lpc.Taps(samples, q)))
    decreases p
  {
    hide ResidualsFit, Lpc.Taps;
    if p > 0 {
      HighestOrder(lpc, samples, p - 1);
    }
  }
}
