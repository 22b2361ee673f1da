/**
 What a rANS stream means: the encoder and the decoder as functions of the symbols still to
 code, with one model per position. The single-model coder repeats one model; the
 multi-context coder looks each position's model up.

 The bytes of a `Coder` or `Decoder` are always in the order in which the decoder reads them,
 so the encoder, which walks the symbols backwards, pushes on the front.
 */
module RansSpec {
  import opened Wrappers
  import opened Arithmetic
  import opened Bytes
  import opened RansModel

  const RANS_TOP: nat := 256 * RANS_L

  datatype Coder = Coder(x: nat, bytes: seq<byte>)

  datatype Decoder = Decoder(x: u32, rest: seq<byte>, steps: nat)

  /** The interval in which the coder's state stays between two symbols. */
  ghost predicate Normal(x: int) {
    RANS_L <= x < RANS_TOP
  }

  function RenormBound(f: nat): nat {
    RANS_L / RANS_SCALE * 256 * f
  }

  function RenormOut(x: nat, max: nat, tail: seq<byte>): Coder
    requires max > 0
    decreases x
  {
    if x >= max then RenormOut(x / 256, max, [x % 256] + tail) else Coder(x, tail)
  }

  function EncodeStep(m: Model, sym: nat, c: Coder): Coder
    requires m.Valid() && sym < |m.freqs|
  {
    IntervalInRange(m, sym);
    var f := m.freqs[sym];
    var c' := RenormOut(c.x, RenormBound(f), c.bytes);
    Coder(Push(c'.x, f, m.cumulative[sym]), c'.bytes)
  }

  /** Fold the symbol with frequency `f` and first slot `start` into state `x`. */
  function Push(x: nat, f: nat, start: nat): nat
    requires f > 0
  {
    x / f * RANS_SCALE + x % f + start
  }

  /** The decoder's recombination, on unbounded integers. */
  function Pop(x: nat, f: nat, start: nat): int {
    f * (x / RANS_SCALE) + (x % RANS_SCALE - start)
  }

  /** Every position has a valid model and a symbol of that model's alphabet. */
  ghost predicate Codable(ms: seq<Model>, syms: seq<nat>) {
    && |ms| == |syms|
    && forall i :: 0 <= i < |ms| ==> ms[i].Valid() && syms[i] < |ms[i].freqs|
  }

  /** Code `syms` in front of a stream whose remaining bytes are `tail`. */
  ghost function EncodeAll(ms: seq<Model>, syms: seq<nat>, tail: seq<byte>): Coder
    requires Codable(ms, syms)
  {
    if syms == [] then Coder(RANS_L, tail)
    else EncodeStep(ms[0], syms[0], EncodeAll(ms[1..], syms[1..], tail))
  }

  /** The stream on disk: the final state, then the renormalization bytes. */
  ghost function Encoded(ms: seq<Model>, syms: seq<nat>): seq<byte>
    requires Codable(ms, syms)
  {
    var c := EncodeAll(ms, syms, []);
    LeBytes(c.x, 4) + c.bytes
  }

  /** Absorb bytes until the state is back in range, each byte against the budget. */
  function RenormIn(d: Decoder, budget: nat): (r: Result<Decoder, RansError>)
    decreases |d.rest|
  {
    if d.x >= RANS_L then Success(d)
    else if d.rest == [] then Failure(TruncatedRenorm)
    else if d.steps + 1 > budget then Failure(DecodeBudget)
    else RenormIn(Decoder(d.x * 256 + d.rest[0], d.rest[1..], d.steps + 1), budget)
  }

  /** Where absorbing bytes stops, after success and after either failure. */
  function RenormEnd(d: Decoder, budget: nat): (r: Decoder)
    decreases |d.rest|
  {
    if d.x >= RANS_L || d.rest == [] then d
    else if d.steps + 1 > budget then d.(steps := d.steps + 1)
    else RenormEnd(Decoder(d.x * 256 + d.rest[0], d.rest[1..], d.steps + 1), budget)
  }

  function DecodeStep(m: Model, d: Decoder, budget: nat): (r: Result<(nat, Decoder), RansError>)
    requires m.Valid()
    ensures r.Success? ==> r.value.0 < |m.freqs|
  {
    SlotFound(m, d.x % RANS_SCALE);
    var sym := m.SymbolForSlot(d.x % RANS_SCALE).value;
    PopNeverWraps(m, sym, d.x);
    Emit(sym, RenormIn(Decoder(Pop(d.x, m.freqs[sym], m.cumulative[sym]), d.rest, d.steps), budget))
  }

  /** The state, bytes and step count that one decoding step leaves, also when it fails. */
  function DecodeStepEnd(m: Model, d: Decoder, budget: nat): Decoder
    requires m.Valid()
  {
    SlotFound(m, d.x % RANS_SCALE);
    var sym := m.SymbolForSlot(d.x % RANS_SCALE).value;
    PopNeverWraps(m, sym, d.x);
    RenormEnd(Decoder(Pop(d.x, m.freqs[sym], m.cumulative[sym]), d.rest, d.steps), budget)
  }

  function Emit(sym: nat, r: Result<Decoder, RansError>): Result<(nat, Decoder), RansError> {
    match r
    case Failure(e) => Failure(e)
    case Success(d) => Success((sym, d))
  }

  /** Decode one symbol for each model of `ms` in turn and append them to `acc`. */
  function DecodeAll(ms: seq<Model>, d: Decoder, budget: nat, acc: seq<nat>)
    : (r: Result<(seq<nat>, Decoder), RansError>)
    requires forall i :: 0 <= i < |ms| ==> ms[i].Valid()
    decreases |ms|
  {
    if ms == [] then Success((acc, d))
    else
      match DecodeStep(ms[0], d, budget)
      case Failure(e) => Failure(e)
      case Success((sym, d')) => DecodeAll(ms[1..], d', budget, acc + [sym])
  }

  function StartOf(data: seq<byte>): Decoder
    requires |data| >= 4
  {
    PowValues();
    Decoder(FromLe(data[..4]), data[4..], 0)
  }

  function DecodeStream(ms: seq<Model>, data: seq<byte>, budget: nat): Result<seq<nat>, RansError>
    requires forall i :: 0 <= i < |ms| ==> ms[i].Valid()
  {
    if |data| < 4 then Failure(TruncatedStream)
    else
      match DecodeAll(ms, StartOf(data), budget, [])
      case Failure(e) => Failure(e)
      case Success((syms, d)) => if d.rest == [] then Success(syms) else Failure(TrailingBytes)
  }

  /**
   For every 32-bit state, in range or not, the decoder's recombination fits in 32 bits and
   never exceeds the state it started from, so none of its wrapping operations wraps.
   */
  lemma PopNeverWraps(m: Model, sym: nat, x: u32)
    requires m.Valid() && m.Owns(sym, x % RANS_SCALE)
    ensures m.freqs[sym] * (x / RANS_SCALE) < U32_LIMIT
    ensures 0 <= x % RANS_SCALE - m.cumulative[sym]
    ensures 0 <= Pop(x, m.freqs[sym], m.cumulative[sym]) <= x
  {
    IntervalInRange(m, sym);
    ScaledLe(m.freqs[sym], RANS_SCALE, x / RANS_SCALE);
  }
}
