/**
 Frequency tables of the rANS coder (`RansModel`): a table is accepted exactly when it
 partitions the 4096 slots, and then every slot belongs to exactly one symbol.
 */
module RansModel {
  import opened Wrappers
  import opened Bytes

  const RANS_L: nat := 0x80_0000
  const RANS_SCALE: nat := 4096
  const RANS_MAX_ALPHABET: nat := RANS_SCALE

  datatype RansError =
    | EmptyAlphabet
    | AlphabetTooLarge
    | ZeroFrequency
    | FreqSumOverflow
    | BadFreqSum(got: u32)
    | BadAlphabetSize
    | ScaleNotDivisible
    | SlotOutOfRange
    | InvalidCumulative
    | LookupFailed
    | SymbolOutOfRange
    | ContextOutOfRange
    | LengthMismatch
    | StateOverflow
    | TruncatedStream
    | TruncatedRenorm
    | DecodeBudget
    | TrailingBytes

  function Sum(freqs: seq<u32>): nat {
    if freqs == [] then 0 else Sum(freqs[..|freqs| - 1]) + freqs[|freqs| - 1]
  }

  ghost predicate Positive(freqs: seq<u32>) {
    forall i :: 0 <= i < |freqs| ==> freqs[i] > 0
  }

  /** What `try_from_freqs` promises its callers about an accepted table. */
  ghost predicate ValidFreqs(freqs: seq<u32>) {
    && 0 < |freqs| <= RANS_MAX_ALPHABET
    && Positive(freqs)
    && Sum(freqs) == RANS_SCALE
  }

  datatype Model = Model(freqs: seq<u32>, cumulative: seq<u32>) {
    ghost predicate Valid() {
      && ValidFreqs(freqs)
      && |cumulative| == |freqs| + 1
      && forall i :: 0 <= i <= |freqs| ==> cumulative[i] == Sum(freqs[..i])
    }

    /** The slots that belong to `sym`. */
    predicate Owns(sym: nat, slot: int) {
      && sym < |freqs| && sym < |cumulative|
      && 0 <= slot - cumulative[sym] < freqs[sym]
    }

    /** Index of the symbol whose interval of slots contains `slot`. */
    function SymbolForSlot(slot: u32): (r: Result<nat, RansError>)
      ensures r.Success? ==> r.value < |freqs|
      ensures slot >= RANS_SCALE ==> r == Failure(SlotOutOfRange)
    {
      if slot >= RANS_SCALE then Failure(SlotOutOfRange)
      else
        var k := PartitionPoint(cumulative, slot);
        if k == 0 then Failure(InvalidCumulative)
        else if k - 1 >= |freqs| then Failure(LookupFailed)
        else Success(k - 1)
    }
  }

  /** The length of the leading run of elements not above `slot` (`slice::partition_point`). */
  function PartitionPoint(c: seq<u32>, slot: u32): (k: nat)
    ensures k <= |c|
    ensures forall i :: 0 <= i < k ==> c[i] <= slot
    ensures k < |c| ==> slot < c[k]
  {
    if c == [] || slot < c[0] then 0 else 1 + PartitionPoint(c[1..], slot)
  }

  lemma SumStep(freqs: seq<u32>, i: nat)
    requires i < |freqs|
    ensures Sum(freqs[..i + 1]) == Sum(freqs[..i]) + freqs[i]
  {
    assert freqs[..i + 1][..i] == freqs[..i];
  }

  lemma {:induction false} SumMonotone(freqs: seq<u32>, i: nat, j: nat)
    requires i <= j <= |freqs|
    ensures Sum(freqs[..i]) <= Sum(freqs[..j])
    decreases j - i
  {
    if i < j {
      SumStep(freqs, i);
      SumMonotone(freqs, i + 1, j);
    }
  }

  lemma PositiveStep(freqs: seq<u32>, i: nat)
    requires i < |freqs|
    ensures Positive(freqs[..i + 1]) <==> Positive(freqs[..i]) && freqs[i] > 0
  {
    assert freqs[..i + 1] == freqs[..i] + [freqs[i]];
  }

  /** Once the sum of positive frequencies is too large, no zero is found before that. */
  lemma OverflowFirst(freqs: seq<u32>, i: nat)
    requires i < |freqs| && Positive(freqs[..i + 1]) && Sum(freqs[..i + 1]) >= U32_LIMIT
    ensures Sum(freqs) >= U32_LIMIT
    ensures forall k :: 0 <= k < |freqs| && freqs[k] == 0 ==> Sum(freqs[..k]) >= U32_LIMIT
  {
    SumMonotone(freqs, i + 1, |freqs|);
    assert freqs[..|freqs|] == freqs;
    assert forall k :: 0 <= k <= i ==> freqs[..i + 1][k] == freqs[k];
    forall k | 0 <= k < |freqs| && freqs[k] == 0
      ensures Sum(freqs[..k]) >= U32_LIMIT
    {
      SumMonotone(freqs, i + 1, k);
    }
  }

  /** One symbol's interval lies inside the slot range and its frequency is at most the scale. */
  lemma IntervalInRange(m: Model, sym: nat)
    requires m.Valid() && sym < |m.freqs|
    ensures 1 <= m.freqs[sym]
    ensures m.cumulative[sym + 1] == m.cumulative[sym] + m.freqs[sym] <= RANS_SCALE
  {
    SumStep(m.freqs, sym);
    SumMonotone(m.freqs, sym + 1, |m.freqs|);
    assert m.freqs[..|m.freqs|] == m.freqs;
  }

  /** Every slot is found, and it lies in the interval of the symbol that is returned. */
  lemma SlotFound(m: Model, slot: u32)
    requires m.Valid() && slot < RANS_SCALE
    ensures m.SymbolForSlot(slot).Success?
    ensures m.Owns(m.SymbolForSlot(slot).value, slot)
  {
    assert m.freqs[..|m.freqs|] == m.freqs;
    assert m.cumulative[|m.freqs|] == RANS_SCALE;
    var k := PartitionPoint(m.cumulative, slot);
    assert k > 0 by {
      assert m.cumulative[0] == Sum(m.freqs[..0]) == 0;
    }
    assert k <= |m.freqs|;
    IntervalInRange(m, k - 1);
  }

  /** Intervals are disjoint: a slot belongs to no other symbol than the one found. */
  lemma SlotOwner(m: Model, sym: nat, slot: u32)
    requires m.Valid() && m.Owns(sym, slot)
    ensures slot < RANS_SCALE
    ensures m.SymbolForSlot(slot) == Success(sym)
  {
    IntervalInRange(m, sym);
    SlotFound(m, slot);
    var found := m.SymbolForSlot(slot).value;
    if found < sym {
      IntervalInRange(m, found);
      SumMonotone(m.freqs, found + 1, sym);
    } else if sym < found {
      SumMonotone(m.freqs, sym + 1, found);
    }
  }

  lemma {:induction false} UniformSum(f: u32, n: nat)
    requires f * n < U32_LIMIT
    ensures Sum(seq(n, _ => f)) == f * n
  {
    if n > 0 {
      assert f * n == f * (n - 1) + f;
      UniformSum(f, n - 1);
      assert seq(n, _ => f)[..n - 1] == seq(n - 1, _ => f);
    }
  }

  /** The second loop of `RansModel::try_from_freqs`: where each symbol's interval begins. */
  method CumulativeOf(freqs: seq<u32>) returns (cumulative: seq<u32>)
    requires Sum(freqs) < U32_LIMIT
    ensures |cumulative| == |freqs| + 1
    ensures forall k :: 0 <= k <= |freqs| ==> cumulative[k] == Sum(freqs[..k])
  {
    cumulative := [0];
    var i := 0;
    assert Sum(freqs[..0]) == 0 && freqs[..|freqs|] == freqs;
    hide Sum;
    while i < |freqs|
      invariant 0 <= i <= |freqs|
      invariant |cumulative| == i + 1
      invariant forall k :: 0 <= k <= i ==> cumulative[k] == Sum(freqs[..k])
    {
      SumStep(freqs, i);
      SumMonotone(freqs, i + 1, |freqs|);
      cumulative := cumulative + [cumulative[i] + freqs[i]];
      i := i + 1;
    }
  }

  /**
   `RansModel::try_from_freqs`. Accepts exactly the valid tables; a refusal names the first
   rule that the scan from the left finds broken.
   */
  method TryFromFreqs(freqs: seq<u32>) returns (r: Result<Model, RansError>)
    ensures r.Success? <==> ValidFreqs(freqs)
    ensures r.Success? ==> r.value.Valid() && r.value.freqs == freqs
    ensures r == Failure(EmptyAlphabet) <==> freqs == []
    ensures r == Failure(AlphabetTooLarge) <==> |freqs| > RANS_MAX_ALPHABET
    ensures r == Failure(ZeroFrequency) <==>
            && 0 < |freqs| <= RANS_MAX_ALPHABET
            && exists k :: 0 <= k < |freqs| && freqs[k] == 0 && Positive(freqs[..k]) && Sum(freqs[..k]) < U32_LIMIT
    ensures r.Failure? && r.error.BadFreqSum? ==> Positive(freqs) && r.error.got == Sum(freqs)
    ensures r.Failure? && r.error.FreqSumOverflow? ==> Sum(freqs) >= U32_LIMIT
    ensures r.Failure? ==>
            r.error in {EmptyAlphabet, AlphabetTooLarge, ZeroFrequency, FreqSumOverflow} || r.error.BadFreqSum?
  {
    if |freqs| == 0 {
      return Failure(EmptyAlphabet);
    }
    if |freqs| > RANS_MAX_ALPHABET {
      return Failure(AlphabetTooLarge);
    }
    var sum: u32 := 0;
    var i := 0;
    assert Sum(freqs[..0]) == 0;
    hide Sum, Positive;
    while i < |freqs|
      invariant 0 <= i <= |freqs|
      invariant sum == Sum(freqs[..i])
      invariant Positive(freqs[..i])
    {
      var f := freqs[i];
      if f == 0 {
        return Failure(ZeroFrequency);
      }
      SumStep(freqs, i);
      PositiveStep(freqs, i);
      if sum + f >= U32_LIMIT {
        OverflowFirst(freqs, i);
        return Failure(FreqSumOverflow);
      }
      sum := sum + f;
      i := i + 1;
    }
    assert freqs[..|freqs|] == freqs;
    if sum != RANS_SCALE {
      return Failure(BadFreqSum(sum));
    }
    var cumulative := CumulativeOf(freqs);
    return Success(Model(freqs, cumulative));
  }

  /** `RansModel::uniform`: succeeds exactly for the divisors of the scale. */
  method Uniform(n: nat) returns (r: Result<Model, RansError>)
    ensures r.Success? <==> 0 < n <= RANS_MAX_ALPHABET && RANS_SCALE % n == 0
    ensures r.Success? ==> IsUniform(r.value, n)
    ensures r.Failure? ==>
            r.error == if n == 0 || n > RANS_MAX_ALPHABET then BadAlphabetSize else ScaleNotDivisible
  {
    if n == 0 || n > RANS_MAX_ALPHABET {
      return Failure(BadAlphabetSize);
    }
    if RANS_SCALE % n != 0 {
      return Failure(ScaleNotDivisible);
    }
    var f := RANS_SCALE / n;
    assert f * n == RANS_SCALE;
    var freqs: seq<u32> := seq(n, _ => f);
    UniformSum(f, n);
    assert f > 0;
    r := TryFromFreqs(freqs);
  }

  /** `m` gives each of `n` symbols the same share of the slots. */
  ghost predicate IsUniform(m: Model, n: nat) {
    && n > 0
    && m.Valid()
    && |m.freqs| == n
    && forall i :: 0 <= i < n ==> m.freqs[i] == RANS_SCALE / n
  }

  lemma {:induction false} ModelsAgree(a: Model, b: Model)
    requires a.Valid() && b.Valid() && a.freqs == b.freqs
    ensures a == b
  {
    assert a.cumulative == b.cumulative;
  }
}
