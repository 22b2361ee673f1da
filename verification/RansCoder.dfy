/**
 The four rANS entry points: loops over a 32-bit state, proved against `RansSpec`.
 */
module RansCoder {
  import opened Wrappers
  import opened Bytes
  import opened RansModel
  import opened RansSpec
  import opened RansTheorems

  function Reversed<T>(s: seq<T>): (r: seq<T>)
    ensures |r| == |s|
  {
    if s == [] then [] else [s[|s| - 1]] + Reversed(s[..|s| - 1])
  }

  function Repeat(m: Model, n: nat): seq<Model> {
    seq(n, _ => m)
  }

  ghost predicate Known(models: seq<Model>, contexts: seq<byte>) {
    forall i :: 0 <= i < |contexts| ==> contexts[i] < |models|
  }

  /** The model each position of a multi-context stream is coded with. */
  function ModelsAt(models: seq<Model>, contexts: seq<byte>): seq<Model>
    requires Known(models, contexts)
  {
    seq(|contexts|, i requires 0 <= i < |contexts| => models[contexts[i]])
  }

  /** The body of both encoder loops: renormalize, then fold one symbol into the state. */
  method EncodeSymbol(model: Model, sym: nat, state: u32, renorm: seq<byte>)
    returns (r: Result<u32, RansError>, renorm': seq<byte>)
    requires model.Valid() && Normal(state)
    ensures sym < |model.freqs| ==>
              r.Success? && Coder(r.value, Reversed(renorm')) == EncodeStep(model, sym, Coder(state, Reversed(renorm)))
    ensures sym >= |model.freqs| ==> r == Failure(SymbolOutOfRange)
  {
    hide Foldable, Push;
    renorm' := renorm;
    if sym >= |model.freqs| {
      return Failure(SymbolOutOfRange), renorm';
    }
    IntervalInRange(model, sym);
    var freq := model.freqs[sym];
    var start := model.cumulative[sym];
    var max: int := RANS_L / RANS_SCALE * 256 * freq;
    var x: u32 := state;
    RenormOutShape(state, freq, Reversed(renorm));
    while x >= max
      invariant RenormOut(x, max, Reversed(renorm')) == RenormOut(state, max, Reversed(renorm))
    {
      renorm' := renorm' + [x % 256];
      x := x / 256;
    }
    ShiftLosesNothing(x, freq, start);
    var rem: int := x % freq;
    var shifted: int := x / freq * RANS_SCALE % U32_LIMIT;
    if shifted + rem >= U32_LIMIT || shifted + rem + start >= U32_LIMIT {
      return Failure(StateOverflow), renorm';
    }
    r := Success(shifted + rem + start);
  }

  /**
   `rans_encode`: fails only for a symbol outside the alphabet; the checked operations on the
   state never fail and the unchecked shift never loses a bit.
   */
  method RansEncode(model: Model, symbols: seq<nat>) returns (r: Result<seq<byte>, RansError>)
    requires model.Valid()
    ensures r.Success? <==> forall i :: 0 <= i < |symbols| ==> symbols[i] < |model.freqs|
    ensures r.Success? ==> r.value == Encoded(Repeat(model, |symbols|), symbols)
    ensures r.Failure? ==> r.error == SymbolOutOfRange
  {
    var state: u32 := RANS_L;
    var renorm: seq<byte> := [];
    ghost var ms := Repeat(model, |symbols|);
    for i := |symbols| downto 0
      invariant Codable(ms[i..], symbols[i..])
      invariant Normal(state)
      invariant Coder(state, Reversed(renorm)) == EncodeAll(ms[i..], symbols[i..], [])
    {
      var next;
      next, renorm := EncodeSymbol(model, symbols[i], state, renorm);
      if next.Failure? {
        return Failure(next.error);
      }
      CodableCons(ms, symbols, i);
      EncodeStepNormal(model, symbols[i], EncodeAll(ms[i + 1..], symbols[i + 1..], []));
      state := next.value;
    }
    assert ms[0..] == ms && symbols[0..] == symbols;
    r := Success(LeBytes(state, 4) + Reversed(renorm));
  }

  lemma CodableCons(ms: seq<Model>, syms: seq<nat>, i: nat)
    requires i < |ms| == |syms|
    requires Codable(ms[i + 1..], syms[i + 1..])
    requires ms[i].Valid() && syms[i] < |ms[i].freqs|
    ensures Codable(ms[i..], syms[i..])
    ensures EncodeAll(ms[i..], syms[i..], []) == EncodeStep(ms[i], syms[i], EncodeAll(ms[i + 1..], syms[i + 1..], []))
  {
    assert ms[i..][1..] == ms[i + 1..] && syms[i..][1..] == syms[i + 1..];
    forall k | 0 <= k < |ms[i..]|
      ensures ms[i..][k].Valid() && syms[i..][k] < |ms[i..][k].freqs|
    {
      if k > 0 {
        assert ms[i..][k] == ms[i + 1..][k - 1] && syms[i..][k] == syms[i + 1..][k - 1];
      }
    }
  }

  ghost predicate ContextsCodable(models: seq<Model>, symbols: seq<nat>, contexts: seq<byte>) {
    && |symbols| == |contexts|
    && Known(models, contexts)
    && Codable(ModelsAt(models, contexts), symbols)
  }

  /** What stops the multi-context encoder: the last bad position, and what is wrong there. */
  ghost predicate StopsAt(models: seq<Model>, symbols: seq<nat>, contexts: seq<byte>, i: nat, e: RansError) {
    && i < |contexts| == |symbols|
    && ContextsCodable(models, symbols[i + 1..], contexts[i + 1..])
    && if contexts[i] >= |models| then e == ContextOutOfRange
       else symbols[i] >= |models[contexts[i]].freqs| && e == SymbolOutOfRange
  }

  lemma CodableAt(models: seq<Model>, symbols: seq<nat>, contexts: seq<byte>, i: nat)
    requires ContextsCodable(models, symbols, contexts) && i < |contexts|
    ensures contexts[i] < |models| && symbols[i] < |models[contexts[i]].freqs|
  {
    assert ModelsAt(models, contexts)[i] == models[contexts[i]];
  }

  lemma StoppedIsNotCodable(models: seq<Model>, symbols: seq<nat>, contexts: seq<byte>, i: nat, e: RansError)
    requires StopsAt(models, symbols, contexts, i, e)
    ensures !ContextsCodable(models, symbols, contexts)
  {
    if ContextsCodable(models, symbols, contexts) {
      CodableAt(models, symbols, contexts, i);
    }
  }

  lemma ContextsCodableCons(models: seq<Model>, symbols: seq<nat>, contexts: seq<byte>, i: nat)
    requires i < |contexts| == |symbols|
    requires ContextsCodable(models, symbols[i + 1..], contexts[i + 1..])
    requires contexts[i] < |models|
    requires models[contexts[i]].Valid() && symbols[i] < |models[contexts[i]].freqs|
    ensures ContextsCodable(models, symbols[i..], contexts[i..])
    ensures EncodeAll(ModelsAt(models, contexts[i..]), symbols[i..], [])
            == EncodeStep(models[contexts[i]], symbols[i],
                          EncodeAll(ModelsAt(models, contexts[i + 1..]), symbols[i + 1..], []))
  {
    hide EncodeStep;
    forall k | 0 <= k < |contexts[i..]|
      ensures contexts[i..][k] < |models|
    {
      if k > 0 {
        assert contexts[i..][k] == contexts[i + 1..][k - 1];
      }
    }
    var ms := ModelsAt(models, contexts[i..]);
    var rest := ModelsAt(models, contexts[i + 1..]);
    assert ms == [models[contexts[i]]] + rest;
    assert ms[0..] == ms && ms[1..] == rest;
    assert symbols[i..][1..] == symbols[i + 1..];
    CodableCons(ms, symbols[i..], 0);
    assert symbols[i..][0..] == symbols[i..];
  }

  /** `rans_encode_symbols_multi_context`. */
  method RansEncodeMultiContext(models: seq<Model>, symbols: seq<nat>, contexts: seq<byte>)
    returns (r: Result<seq<byte>, RansError>)
    requires forall k :: 0 <= k < |models| ==> models[k].Valid()
    ensures |symbols| != |contexts| ==> r == Failure(LengthMismatch)
    ensures r.Success? <==> ContextsCodable(models, symbols, contexts)
    ensures r.Success? ==> r.value == Encoded(ModelsAt(models, contexts), symbols)
    ensures |symbols| == |contexts| && r.Failure? ==> exists i :: StopsAt(models, symbols, contexts, i, r.error)
  {
    hide EncodeStep, Codable, EncodeAll;
    var n := |symbols|;
    if n != |contexts| {
      return Failure(LengthMismatch);
    }
    var state: u32 := RANS_L;
    var renorm: seq<byte> := [];
    EncodeNothing();
    assert symbols[n..] == [] && contexts[n..] == [] && ModelsAt(models, contexts[n..]) == [];
    for i := n downto 0
      invariant ContextsCodable(models, symbols[i..], contexts[i..])
      invariant Normal(state)
      invariant Coder(state, Reversed(renorm)) == EncodeAll(ModelsAt(models, contexts[i..]), symbols[i..], [])
    {
      var ctx := contexts[i];
      if ctx >= |models| {
        assert StopsAt(models, symbols, contexts, i, ContextOutOfRange);
        StoppedIsNotCodable(models, symbols, contexts, i, ContextOutOfRange);
        return Failure(ContextOutOfRange);
      }
      var model := models[ctx];
      var next;
      next, renorm := EncodeSymbol(model, symbols[i], state, renorm);
      if next.Failure? {
        assert StopsAt(models, symbols, contexts, i, next.error);
        StoppedIsNotCodable(models, symbols, contexts, i, next.error);
        return Failure(next.error);
      }
      EncodeStepNormal(model, symbols[i], EncodeAll(ModelsAt(models, contexts[i + 1..]), symbols[i + 1..], []));
      ContextsCodableCons(models, symbols, contexts, i);
      state := next.value;
    }
    assert contexts[0..] == contexts && symbols[0..] == symbols;
    r := Success(LeBytes(state, 4) + Reversed(renorm));
  }

  lemma EncodeNothing()
    ensures Codable([], []) && EncodeAll([], [], []) == Coder(RANS_L, [])
  {
  }

  /** The first half of decoding a symbol, with the wrapping operations the source uses. */
  method PopSymbol(model: Model, state: u32) returns (sym: nat, x: u32)
    requires model.Valid()
    ensures model.Owns(sym, state % RANS_SCALE)
    ensures x == Pop(state, model.freqs[sym], model.cumulative[sym])
  {
    var slot: u32 := state % RANS_SCALE;
    SlotFound(model, slot);
    sym := model.SymbolForSlot(slot).value;
    PopNeverWraps(model, sym, state);
    var scaled := WrapMul32(model.freqs[sym], state / RANS_SCALE);
    NoWrap32(model.freqs[sym], state / RANS_SCALE);
    var offset := WrapSub32(slot, model.cumulative[sym]);
    NoWrap32(slot, model.cumulative[sym]);
    x := WrapAdd32(scaled, offset);
    NoWrap32(scaled, offset);
  }

  lemma DecodeStepAfterPop(model: Model, d: Decoder, sym: nat, x: u32, budget: nat)
    requires model.Valid() && model.Owns(sym, d.x % RANS_SCALE)
    requires x == Pop(d.x, model.freqs[sym], model.cumulative[sym])
    ensures DecodeStep(model, d, budget) == Emit(sym, RenormIn(Decoder(x, d.rest, d.steps), budget))
    ensures DecodeStepEnd(model, d, budget) == RenormEnd(Decoder(x, d.rest, d.steps), budget)
  {
    SlotOwner(model, sym, d.x % RANS_SCALE);
  }

  /** The inner loop of every decoder: absorb bytes until the state is back in range. */
  method Renormalize(x: u32, data: seq<byte>, idx: nat, steps: nat, budget: nat)
    returns (r: Result<(), RansError>, x': u32, idx': nat, steps': nat)
    requires idx <= |data|
    ensures idx <= idx' <= |data|
    ensures Decoder(x', data[idx'..], steps') == RenormEnd(Decoder(x, data[idx..], steps), budget)
    ensures match RenormIn(Decoder(x, data[idx..], steps), budget)
            case Failure(e) => r == Failure(e)
            case Success(d) => r == Success(()) && d == Decoder(x', data[idx'..], steps')
  {
    x', idx', steps' := x, idx, steps;
    while x' < RANS_L
      invariant idx <= idx' <= |data|
      invariant RenormIn(Decoder(x, data[idx..], steps), budget)
             == RenormIn(Decoder(x', data[idx'..], steps'), budget)
      invariant RenormEnd(Decoder(x, data[idx..], steps), budget)
             == RenormEnd(Decoder(x', data[idx'..], steps'), budget)
      decreases |data| - idx'
    {
      if idx' >= |data| {
        r := Failure(TruncatedRenorm);
        return;
      }
      steps' := steps' + 1;
      if steps' > budget {
        r := Failure(DecodeBudget);
        return;
      }
      assert data[idx'..][1..] == data[idx' + 1..];
      x' := ShiftIn32(x', data[idx']);
      idx' := idx' + 1;
    }
    r := Success(());
  }

  /** `rans_decode`: the batch decoder. */
  method RansDecode(model: Model, data: seq<byte>, numSymbols: nat, budget: nat)
    returns (r: Result<seq<nat>, RansError>)
    requires model.Valid()
    ensures r == DecodeStream(Repeat(model, numSymbols), data, budget)
  {
    hide DecodeStep, DecodeStepEnd, RenormIn, RenormEnd;
    if |data| < 4 {
      return Failure(TruncatedStream);
    }
    PowValues();
    var state: u32 := FromLe(data[..4]);
    var idx := 4;
    var out: seq<nat> := [];
    var steps := 0;
    ghost var ms := Repeat(model, numSymbols);
    for i := 0 to numSymbols
      invariant 4 <= idx <= |data|
      invariant DecodeAll(ms, StartOf(data), budget, [])
             == DecodeAll(ms[i..], Decoder(state, data[idx..], steps), budget, out)
    {
      ghost var d := Decoder(state, data[idx..], steps);
      var sym, popped := PopSymbol(model, state);
      DecodeStepAfterPop(model, d, sym, popped, budget);
      var done;
      done, state, idx, steps := Renormalize(popped, data, idx, steps, budget);
      if done.Failure? {
        return Failure(done.error);
      }
      DecodeAllStep(ms[i..], d, budget, out, sym, Decoder(state, data[idx..], steps));
      assert ms[i..][1..] == ms[i + 1..];
      out := out + [sym];
    }
    if idx != |data| {
      return Failure(TrailingBytes);
    }
    r := Success(out);
  }

  /** `rans_decode_step_symbol`: one symbol; the caller's state, cursor and step count move even when it fails. */
  method RansDecodeStepSymbol(model: Model, state: u32, data: seq<byte>, idx: nat, steps: nat, budget: nat)
    returns (r: Result<nat, RansError>, state': u32, idx': nat, steps': nat)
    requires model.Valid() && idx <= |data|
    ensures idx <= idx' <= |data|
    ensures Decoder(state', data[idx'..], steps') == DecodeStepEnd(model, Decoder(state, data[idx..], steps), budget)
    ensures match DecodeStep(model, Decoder(state, data[idx..], steps), budget)
            case Failure(e) => r == Failure(e)
            case Success((sym, d)) => r == Success(sym) && d == Decoder(state', data[idx'..], steps')
  {
    hide DecodeStep, DecodeStepEnd, RenormIn, RenormEnd;
    var sym, popped := PopSymbol(model, state);
    DecodeStepAfterPop(model, Decoder(state, data[idx..], steps), sym, popped, budget);
    var done;
    done, state', idx', steps' := Renormalize(popped, data, idx, steps, budget);
    r := if done.Failure? then Failure(done.error) else Success(sym);
  }

  /** The decoder stops at the first context without a model, unless a symbol before it fails. */
  ghost function MultiContextOutcome(models: seq<Model>, data: seq<byte>, contexts: seq<byte>, budget: nat)
    : Result<seq<nat>, RansError>
    requires forall k :: 0 <= k < |models| ==> models[k].Valid()
  {
    if |data| < 4 then Failure(TruncatedStream)
    else
      var known := KnownPrefix(models, contexts);
      match DecodeAll(ModelsAt(models, contexts[..known]), StartOf(data), budget, [])
      case Failure(e) => Failure(e)
      case Success((syms, d)) =>
        if known < |contexts| then Failure(ContextOutOfRange)
        else if d.rest == [] then Success(syms) else Failure(TrailingBytes)
  }

  /** When every context has a model, decoding is that of the models the contexts select. */
  lemma MultiContextStream(models: seq<Model>, data: seq<byte>, contexts: seq<byte>, budget: nat)
    requires forall k :: 0 <= k < |models| ==> models[k].Valid()
    requires Known(models, contexts)
    ensures MultiContextOutcome(models, data, contexts, budget)
            == DecodeStream(ModelsAt(models, contexts), data, budget)
  {
    assert contexts[..|contexts|] == contexts;
  }

  /** Multi-context round trip, for any list of models and any contexts that have one. */
  lemma MultiContextRoundTrip(models: seq<Model>, symbols: seq<nat>, contexts: seq<byte>, budget: nat)
    requires forall k :: 0 <= k < |models| ==> models[k].Valid()
    requires ContextsCodable(models, symbols, contexts)
    ensures var data := Encoded(ModelsAt(models, contexts), symbols);
            MultiContextOutcome(models, data, contexts, budget)
            == if |data| - 4 <= budget then Success(symbols) else Failure(DecodeBudget)
  {
    hide DecodeStream, MultiContextOutcome, Encoded;
    MultiContextStream(models, Encoded(ModelsAt(models, contexts), symbols), contexts, budget);
    RoundTrip(ModelsAt(models, contexts), symbols, budget);
  }

  /**
   With one context throughout the multi-context coder is the single-model one: it accepts the
   same symbols, writes the same bytes, and decodes every stream to the same outcome.
   */
  lemma OneContextIsSingleModel(models: seq<Model>, context: byte, symbols: seq<nat>, data: seq<byte>, budget: nat)
    requires (forall k :: 0 <= k < |models| ==> models[k].Valid()) && context < |models|
    ensures var n, contexts, model := |symbols|, seq(|symbols|, _ => context), models[context];
            && (ContextsCodable(models, symbols, contexts) <==> forall i :: 0 <= i < n ==> symbols[i] < |model.freqs|)
            && (ContextsCodable(models, symbols, contexts) ==>
                  Encoded(ModelsAt(models, contexts), symbols) == Encoded(Repeat(model, n), symbols))
            && MultiContextOutcome(models, data, contexts, budget) == DecodeStream(Repeat(model, n), data, budget)
  {
    var contexts := seq(|symbols|, _ => context);
    assert ModelsAt(models, contexts) == Repeat(models[context], |symbols|);
    hide Encoded, MultiContextOutcome, DecodeStream;
    MultiContextStream(models, data, contexts, budget);
  }

  function KnownPrefix(models: seq<Model>, contexts: seq<byte>): (k: nat)
    ensures k <= |contexts|
    ensures forall i :: 0 <= i < k ==> contexts[i] < |models|
    ensures k < |contexts| ==> contexts[k] >= |models|
  {
    if contexts == [] || contexts[0] >= |models| then 0 else 1 + KnownPrefix(models, contexts[1..])
  }

  /** `rans_decode_symbols_multi_context`. */
  method RansDecodeMultiContext(
      models: seq<Model>, data: seq<byte>, numSymbols: nat, contexts: seq<byte>, budget: nat)
    returns (r: Result<seq<nat>, RansError>)
    requires forall k :: 0 <= k < |models| ==> models[k].Valid()
    ensures r == if numSymbols != |contexts| then Failure(LengthMismatch)
                 else MultiContextOutcome(models, data, contexts, budget)
  {
    if numSymbols != |contexts| {
      return Failure(LengthMismatch);
    }
    hide DecodeStep;
    if |data| < 4 {
      return Failure(TruncatedStream);
    }
    PowValues();
    var state: u32 := FromLe(data[..4]);
    var idx := 4;
    var out: seq<nat> := [];
    var steps := 0;
    ghost var known := KnownPrefix(models, contexts);
    ghost var ms := ModelsAt(models, contexts[..known]);
    for i := 0 to |contexts|
      invariant i <= known
      invariant 4 <= idx <= |data|
      invariant DecodeAll(ms, StartOf(data), budget, [])
             == DecodeAll(ms[i..], Decoder(state, data[idx..], steps), budget, out)
    {
      var ctx := contexts[i];
      if ctx >= |models| {
        assert ms[i..] == [];
        return Failure(ContextOutOfRange);
      }
      ghost var d := Decoder(state, data[idx..], steps);
      var sym;
      sym, state, idx, steps := RansDecodeStepSymbol(models[ctx], state, data, idx, steps, budget);
      if sym.Failure? {
        return Failure(sym.error);
      }
      DecodeAllStep(ms[i..], d, budget, out, sym.value, Decoder(state, data[idx..], steps));
      assert ms[i..][1..] == ms[i + 1..];
      out := out + [sym.value];
    }
    if idx != |data| {
      return Failure(TrailingBytes);
    }
    r := Success(out);
  }
}
