/** What coding one symbol does to the numbers of a rANS stream, and what the first bytes of a stream hold. */
module CodingTheorems {
  import opened Bytes
  import opened LittleEndian
  import opened RansModel
  import opened RansSpec
  import opened RansTheorems
  import opened RansCoder

  /** The bytes on their way out of state `x`, most significant first, until the state is `y`. */
  ghost predicate Sheds(x: nat, y: nat, bytes: seq<byte>) {
    || (bytes == [] && x == y)
    || (|bytes| == 1 && x == 256 * y + bytes[0] as int)
    || (|bytes| == 2 && x == 65_536 * y + 256 * (bytes[0] as int) + bytes[1])
  }

  lemma ShedsFewest(x: nat, f: nat, tail: seq<byte>) returns (y: nat, shed: seq<byte>)
    requires Normal(x) && 1 <= f <= RANS_SCALE
    ensures RenormOut(x, RenormBound(f), tail) == Coder(y, shed + tail)
    ensures Foldable(y, f) && Sheds(x, y, shed)
    ensures shed != [] ==> 256 * y + shed[0] >= 524_288 * f
  {
    var max := RenormBound(f);
    RenormOutShape(x, f, tail);
    if x < max {
      y, shed := x, [];
      assert shed + tail == tail;
    } else if x / 256 < max {
      y, shed := x / 256, [x % 256];
    } else {
      y, shed := x / 256 / 256, [x / 256 % 256, x % 256];
      var one := [x % 256] + tail;
      assert RenormOut(x, max, tail) == RenormOut(x / 256, max, one);
      assert x / 256 / 256 < max;
      assert RenormOut(x / 256, max, one) == Coder(y, [x / 256 % 256] + one);
      assert [x / 256 % 256] + one == shed + tail;
    }
  }

  /**
   Encoding a symbol of frequency `f` sheds the fewest low bytes that bring the state below 524288 * f.
   The state left then turns into one whose quotient by 4096 is its quotient by `f`, and whose
   remainder is a slot of the symbol: its first one and the remainder by `f`.
   */
  lemma StepMeans(m: Model, sym: nat, c: Coder) returns (y: nat, shed: seq<byte>)
    requires m.Valid() && sym < |m.freqs| && 0x80_0000 <= c.x < 0x8000_0000
    ensures var f: int, c' := m.freqs[sym], EncodeStep(m, sym, c);
      && c'.bytes == shed + c.bytes
      && Sheds(c.x, y, shed)
      && y < 524_288 * f && (shed != [] ==> 256 * y + shed[0] >= 524_288 * f)
      && c'.x / 4096 == y / f
      && c'.x % 4096 == Sum(m.freqs[..sym]) + y % f
      && 0x80_0000 <= c'.x < 0x8000_0000
  {
    var f := m.freqs[sym];
    IntervalInRange(m, sym);
    y, shed := ShedsFewest(c.x, f, c.bytes);
    Folded(y, f, m.cumulative[sym]);
  }

  lemma Folded(y: nat, f: nat, start: nat)
    requires 1 <= f && f + start <= RANS_SCALE && Foldable(y, f)
    ensures Push(y, f, start) / 4096 == y / f
    ensures Push(y, f, start) % 4096 == start + y % f
    ensures Normal(Push(y, f, start))
  {
    PushThenPop(y, f, start);
    QuotientBounds(y, f);
  }

  /** Decoding reads the slot, turns the state back, and takes bytes in until the state is at least 2^23. */
  lemma DecodeStepMeans(m: Model, d: Decoder, budget: nat)
    requires m.Valid() && DecodeStep(m, d, budget).Success?
    ensures var (sym, d') := DecodeStep(m, d, budget).value;
      var f: int, start: int := m.freqs[sym], Sum(m.freqs[..sym]);
      && start <= d.x % 4096 < start + f
      && d'.x >= 0x80_0000
      && d'.steps - d.steps == |d.rest| - |d'.rest| >= 0
      && d'.rest == d.rest[|d.rest| - |d'.rest|..]
      && (d'.rest == d.rest ==> d'.x == f * (d.x / 4096) + d.x % 4096 - start)
  {
    SlotFound(m, d.x % RANS_SCALE);
    var sym := m.SymbolForSlot(d.x % RANS_SCALE).value;
    PopNeverWraps(m, sym, d.x);
    RenormTakes(Decoder(Pop(d.x, m.freqs[sym], m.cumulative[sym]), d.rest, d.steps), budget);
  }

  lemma {:induction false} RenormTakes(d: Decoder, budget: nat)
    requires RenormIn(d, budget).Success?
    ensures var d' := RenormIn(d, budget).value;
      && d'.x >= 0x80_0000
      && d'.steps - d.steps == |d.rest| - |d'.rest| >= 0
      && d'.rest == d.rest[|d.rest| - |d'.rest|..]
      && (d'.rest == d.rest ==> d'.x == d.x)
    decreases |d.rest|
  {
    if d.x < RANS_L {
      RenormTakes(Decoder(d.x * 256 + d.rest[0], d.rest[1..], d.steps + 1), budget);
    }
  }

  /** A stream starts with the final state, least significant byte first, and coding starts from 2^23. */
  lemma StreamStarts(ms: seq<Model>, syms: seq<nat>)
    requires Codable(ms, syms)
    ensures var s, c := Encoded(ms, syms), EncodeAll(ms, syms, []);
      |s| >= 4 && s[4..] == c.bytes && Is32(s, 0, c.x)
    ensures EncodeAll([], [], []).x == 0x80_0000
  {
    EncodeAllNormal(ms, syms, []);
    hide EncodeAll, LeBytes;
    U32Layout(EncodeAll(ms, syms, []).x);
  }

  /** The slot that the first symbol of an accepted stream owns is its state modulo 4096: symbols come in order. */
  lemma FirstSymbol(ms: seq<Model>, data: seq<byte>, budget: nat)
    requires (forall i :: 0 <= i < |ms| ==> ms[i].Valid()) && ms != [] && DecodeStream(ms, data, budget).Success?
    ensures |data| >= 4 && DecodeStream(ms, data, budget).value != []
    ensures var sym, x := DecodeStream(ms, data, budget).value[0], U32At(data, 0);
      && sym < |ms[0].freqs|
      && Is32(data, 0, x)
      && Sum(ms[0].freqs[..sym]) <= x % 4096 < Sum(ms[0].freqs[..sym]) + ms[0].freqs[sym]
  {
    hide DecodeStep, DecodeAll, FromLe;
    var d := StartOf(data);
    Four(data[0..4]);
    assert data[0..4] == data[..4];
    FirstDecoded(ms, d, budget);
  }

  lemma FirstDecoded(ms: seq<Model>, d: Decoder, budget: nat)
    requires (forall i :: 0 <= i < |ms| ==> ms[i].Valid()) && ms != [] && DecodeAll(ms, d, budget, []).Success?
    ensures var syms := DecodeAll(ms, d, budget, []).value.0;
      && syms != [] && syms[0] < |ms[0].freqs|
      && Sum(ms[0].freqs[..syms[0]]) <= d.x % 4096 < Sum(ms[0].freqs[..syms[0]]) + ms[0].freqs[syms[0]]
  {
    hide DecodeStep;
    var (sym, d') := DecodeStep(ms[0], d, budget).value;
    DecodeStepMeans(ms[0], d, budget);
    DecodedKept(ms[1..], d', budget, [] + [sym]);
  }

  /** What has been decoded stays in front. */
  lemma {:induction false} DecodedKept(ms: seq<Model>, d: Decoder, budget: nat, acc: seq<nat>)
    requires (forall i :: 0 <= i < |ms| ==> ms[i].Valid()) && DecodeAll(ms, d, budget, acc).Success?
    ensures acc <= DecodeAll(ms, d, budget, acc).value.0
    decreases |ms|
  {
    hide DecodeStep;
    if ms != [] {
      var (sym, d') := DecodeStep(ms[0], d, budget).value;
      DecodedKept(ms[1..], d', budget, acc + [sym]);
    }
  }

  /** With contexts, position `i` is decoded with the model that its own context names. */
  lemma ContextsChoose(models: seq<Model>, data: seq<byte>, contexts: seq<byte>, budget: nat) returns (ms: seq<Model>)
    requires forall k :: 0 <= k < |models| ==> models[k].Valid()
    requires MultiContextOutcome(models, data, contexts, budget).Success?
    ensures |ms| == |contexts|
    ensures forall i :: 0 <= i < |contexts| ==> contexts[i] < |models| && ms[i] == models[contexts[i]]
    ensures MultiContextOutcome(models, data, contexts, budget) == DecodeStream(ms, data, budget)
  {
    hide DecodeAll, FromLe;
    assert contexts[..|contexts|] == contexts;
    ms := ModelsAt(models, contexts);
  }
}
