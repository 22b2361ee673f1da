/** LEB128 variable-length integers (section 7.6 of DWARF 5) of up to 64 bits, and the zigzag mapping of signed ones. */
module Varint {
  import opened Wrappers
  import opened Bytes
  import opened BitIo

  const MAX_BYTES: nat := 10
  const I64_LIMIT: int := 0x8000_0000_0000_0000

  type i64 = x: int | -I64_LIMIT <= x < I64_LIMIT

  // ---------------------------------------------------------------- specification

  /** Groups of seven bits, least significant first; all but the last carry the continuation bit. */
  function Encode(v: nat): (s: seq<byte>)
    ensures s != []
    ensures forall i :: 0 <= i < |s| - 1 ==> s[i] >= 128
    ensures s[|s| - 1] < 128
    decreases v
  {
    if v < 128 then [v] else [v % 128 + 128] + Encode(v / 128)
  }

  /** The number and the length of the encoding at the front of `bytes`, of which `done` groups have been read. */
  function DecodeAfter(bytes: seq<byte>, done: nat): (r: Result<(nat, nat), BitIoError>)
    ensures r.Success? ==> 1 <= r.value.1 <= |bytes|
    decreases |bytes|
  {
    if bytes == [] || done >= MAX_BYTES then Failure(InvalidVarint)
    else
      var digit := bytes[0] % 128;
      if done >= 9 && digit > 1 then Failure(InvalidVarint)
      else if bytes[0] < 128 then Success((digit, 1))
      else
        match DecodeAfter(bytes[1..], done + 1)
        case Failure(e) => Failure(e)
        case Success((v, n)) => Success((digit + 128 * v, n + 1))
  }

  function Decode(bytes: seq<byte>): Result<(nat, nat), BitIoError> {
    DecodeAfter(bytes, 0)
  }

  /** What is left of 64 bits after `done` groups of seven. */
  function Room(done: nat): (p: nat)
    requires done <= MAX_BYTES
    ensures p > 0
  {
    BitSpec.Pow2(if done <= 9 then 64 - 7 * done else 0)
  }

  lemma RoomSteps(done: nat)
    requires done <= MAX_BYTES
    ensures Room(0) == U64_LIMIT
    ensures done < 9 ==> Room(done) == 128 * Room(done + 1)
    ensures done == 9 ==> Room(done) == 2
    ensures done == 10 ==> Room(done) == 1
  {
    BitSpec.Pow64();
    BitSpec.SmallPowers();
    if done < 9 {
      BitSpec.PowSum(64 - 7 * done - 7, 7);
    }
  }

  // ---------------------------------------------------------------- round trips

  lemma GroupDecodes(b: byte, tail: seq<byte>, done: nat, v: nat, n: nat)
    requires b >= 128 && done < 9 && DecodeAfter(tail, done + 1) == Success((v, n))
    ensures DecodeAfter([b] + tail, done) == Success((b - 128 + 128 * v, n + 1))
  {
    assert ([b] + tail)[1..] == tail;
  }

  lemma LastGroupDecodes(v: nat, done: nat, rest: seq<byte>)
    requires v < 128 && done < MAX_BYTES && v < Room(done)
    ensures DecodeAfter([v] + rest, done) == Success((v, 1))
  {
    RoomSteps(done);
  }

  lemma RoomShrinks(v: nat, done: nat)
    requires v >= 128 && done < MAX_BYTES && v < Room(done)
    ensures done < 9 && v / 128 < Room(done + 1)
  {
    RoomSteps(done);
  }

  lemma {:induction false} DecodesAfter(v: nat, done: nat, rest: seq<byte>)
    requires done < MAX_BYTES && v < Room(done)
    ensures DecodeAfter(Encode(v) + rest, done) == Success((v, |Encode(v)|))
    ensures |Encode(v)| <= MAX_BYTES - done
    decreases v
  {
    hide Room, DecodeAfter;
    if v < 128 {
      LastGroupDecodes(v, done, rest);
    } else {
      var tail := Encode(v / 128) + rest;
      RoomShrinks(v, done);
      DecodesAfter(v / 128, done + 1, rest);
      GroupDecodes(v % 128 + 128, tail, done, v / 128, |Encode(v / 128)|);
      assert Encode(v) + rest == [v % 128 + 128] + tail;
    }
  }

  /** Decoding an encoding gives the number and its exact length, whatever bytes follow; ten bytes are enough. */
  lemma U64RoundTrip(v: u64, rest: seq<byte>)
    ensures Decode(Encode(v) + rest) == Success((v, |Encode(v)|))
    ensures |Encode(v)| <= MAX_BYTES
  {
    RoomSteps(0);
    DecodesAfter(v, 0, rest);
  }

  lemma {:induction false} AcceptedFits(bytes: seq<byte>, done: nat)
    requires done < MAX_BYTES && DecodeAfter(bytes, done).Success?
    ensures DecodeAfter(bytes, done).value.0 < Room(done)
    ensures |Encode(DecodeAfter(bytes, done).value.0)| <= DecodeAfter(bytes, done).value.1 <= MAX_BYTES - done
    decreases |bytes|
  {
    RoomSteps(done);
    if bytes[0] >= 128 {
      AcceptedFits(bytes[1..], done + 1);
      RoomSteps(done + 1);
      var v := DecodeAfter(bytes[1..], done + 1).value.0;
      var digit := bytes[0] % 128;
      if v > 0 {
        assert (digit + 128 * v) / 128 == v;
      }
    }
  }

  /** Every accepted encoding is of a 64-bit number and no shorter than the encoder's. */
  lemma AcceptedIsU64(bytes: seq<byte>)
    requires Decode(bytes).Success?
    ensures Decode(bytes).value.0 < U64_LIMIT
    ensures |Encode(Decode(bytes).value.0)| <= Decode(bytes).value.1 <= MAX_BYTES
  {
    RoomSteps(0);
    AcceptedFits(bytes, 0);
  }

  /** Encodings are prefix-free: a stream of them can be cut in one way only. */
  lemma PrefixFree(a: u64, b: u64, rest: seq<byte>, other: seq<byte>)
    requires Encode(a) + rest == Encode(b) + other
    ensures a == b && rest == other
  {
    U64RoundTrip(a, rest);
    U64RoundTrip(b, other);
    assert rest == (Encode(a) + rest)[|Encode(a)|..];
    assert other == (Encode(b) + other)[|Encode(b)|..];
  }

  lemma {:induction false} ShrSum(v: nat, a: nat, b: nat)
    ensures BitSpec.Shr(v, a + b) == BitSpec.Shr(BitSpec.Shr(v, a), b)
    decreases a
  {
    if a > 0 {
      ShrSum(v / 2, a - 1, b);
    }
  }

  lemma ShrSeven(v: nat)
    ensures BitSpec.Shr(v, 7) == v / 128
  {
    assert BitSpec.Shr(v, 7) == v / 2 / 2 / 2 / 2 / 2 / 2 / 2;
  }

  /** Group `i` holds bits 7i to 7i + 6 of the value, and nothing is left after the last. */
  lemma {:induction false} GroupsAreDigits(v: nat, i: nat)
    requires i < |Encode(v)|
    ensures Encode(v)[i] % 128 == BitSpec.Shr(v, 7 * i) % 128
    ensures BitSpec.Shr(v, 7 * |Encode(v)|) == 0
    decreases v
  {
    ShrSeven(v);
    hide BitSpec.Shr;
    if v < 128 {
      ShrZero(v);
    } else {
      GroupsAreDigits(v / 128, if i > 0 then i - 1 else 0);
      ShrSum(v, 7, 7 * |Encode(v / 128)|);
      if i > 0 {
        ShrSum(v, 7, 7 * (i - 1));
      } else {
        ShrZero(v);
      }
    }
  }

  lemma ShrZero(v: nat)
    ensures BitSpec.Shr(v, 7 * 0) == v
  {
  }

  /** The first `n` bytes are an encoding: the last one alone is below 128. */
  ghost predicate Terminated(bytes: seq<byte>, n: nat) {
    1 <= n <= |bytes| && bytes[n - 1] < 128 && forall i :: 0 <= i < n - 1 ==> bytes[i] >= 128
  }

  lemma TerminatedFirst(bytes: seq<byte>, n: nat)
    ensures Terminated(bytes, 1) <==> bytes != [] && bytes[0] < 128
    ensures Terminated(bytes, n) ==> 1 <= n <= |bytes| && (n > 1 ==> bytes[0] >= 128)
  {
  }

  lemma TerminatedStep(bytes: seq<byte>, n: nat)
    requires bytes != [] && bytes[0] >= 128
    ensures Terminated(bytes, n + 1) <==> Terminated(bytes[1..], n)
    ensures !Terminated(bytes, 1)
  {
    if Terminated(bytes[1..], n) {
      forall i | 0 <= i < n
        ensures bytes[i] >= 128
      {
        assert i > 0 ==> bytes[i] == bytes[1..][i - 1];
      }
    }
  }

  /** Behind `done` groups: whether the decoder accepts, how many bytes it takes, and the groups of its number. */
  lemma {:induction false} AcceptsAfter(bytes: seq<byte>, done: nat, n: nat)
    requires done < MAX_BYTES
    ensures var r := DecodeAfter(bytes, done);
      && (r.Failure? ==> r.error == InvalidVarint)
      && (r.Success? ==> Terminated(bytes, r.value.1) && done + r.value.1 <= 10)
      && (r.Success? && done + r.value.1 == 10 ==> bytes[r.value.1 - 1] <= 1)
      && (Terminated(bytes, n) && done + n <= 10 && (done + n == 10 ==> bytes[n - 1] <= 1) ==>
            r.Success? && r.value.1 == n)
    decreases |bytes|
  {
    hide Terminated;
    TerminatedFirst(bytes, n);
    if bytes != [] && bytes[0] >= 128 {
      var r := DecodeAfter(bytes[1..], done + 1);
      TerminatedStep(bytes, if r.Success? then r.value.1 else 0);
      TerminatedStep(bytes, if n > 0 then n - 1 else 0);
      if done < 9 {
        AcceptsAfter(bytes[1..], done + 1, if n > 0 then n - 1 else 0);
      }
    }
  }

  /** The numbers accepted end within ten bytes, and the tenth then adds at most the 64th bit. */
  lemma AcceptedExactly(bytes: seq<byte>, n: nat)
    ensures Decode(bytes).Success? && Decode(bytes).value.1 == n <==>
      Terminated(bytes, n) && n <= 10 && (n == 10 ==> bytes[9] <= 1)
    ensures Decode(bytes).Failure? ==> Decode(bytes).error == InvalidVarint
  {
    AcceptsAfter(bytes, 0, n);
  }

  /** An accepted number is its first group and, 128-fold, the number of the other groups. */
  lemma AcceptedStep(bytes: seq<byte>, done: nat)
    requires DecodeAfter(bytes, done).Success?
    ensures var (v, n) := DecodeAfter(bytes, done).value;
      && v % 128 == bytes[0] % 128
      && (n > 1 ==> DecodeAfter(bytes[1..], done + 1) == Success((v / 128, n - 1)))
  {
  }

  /** Group `i` of what is accepted is the low seven bits of byte `i`. */
  lemma {:induction false} AcceptedGroups(bytes: seq<byte>, done: nat, i: nat)
    requires DecodeAfter(bytes, done).Success? && i < DecodeAfter(bytes, done).value.1
    ensures BitSpec.Shr(DecodeAfter(bytes, done).value.0, 7 * i) % 128 == bytes[i] % 128
    decreases i
  {
    hide BitSpec.Shr, DecodeAfter;
    var v := DecodeAfter(bytes, done).value.0;
    AcceptedStep(bytes, done);
    if i == 0 {
      ShrZero(v);
    } else {
      AcceptedGroups(bytes[1..], done + 1, i - 1);
      ShrSeven(v);
      ShrSum(v, 7, 7 * (i - 1));
    }
  }

  // ---------------------------------------------------------------- zigzag

  /** `(n << 1) ^ (n >> 63)`: the shifted-out sign is all ones or all zeros, and exclusive-or with ones complements. */
  function Zigzag(n: i64): (u: u64) {
    var doubled: u64 := 2 * n % U64_LIMIT;
    if n < 0 then U64_LIMIT - 1 - doubled else doubled
  }

  /** `(u >> 1) ^ -(u & 1)` */
  function Unzigzag(u: u64): (n: i64) {
    var half: i64 := u / 2;
    if u % 2 == 1 then -1 - half else half
  }

  /** Zigzag interleaves the signs, so that small magnitudes stay small; it and its inverse undo each other. */
  lemma ZigzagBijection(n: i64, u: u64)
    ensures Zigzag(n) == if n >= 0 then 2 * n else -2 * n - 1
    ensures Unzigzag(Zigzag(n)) == n && Zigzag(Unzigzag(u)) == u
  {
    if n < 0 {
      assert 2 * n % U64_LIMIT == 2 * n + U64_LIMIT;
    }
    var m := Unzigzag(u);
    if m < 0 {
      assert 2 * m % U64_LIMIT == 2 * m + U64_LIMIT;
    }
  }

  function EncodeSigned(n: i64): seq<byte> {
    Encode(Zigzag(n))
  }

  function DecodeSigned(bytes: seq<byte>): (r: Result<(i64, nat), BitIoError>) {
    match Decode(bytes)
    case Failure(e) => Failure(e)
    case Success((u, n)) => AcceptedIsU64(bytes); Success((Unzigzag(u), n))
  }

  lemma I64RoundTrip(n: i64, rest: seq<byte>)
    ensures DecodeSigned(EncodeSigned(n) + rest) == Success((n, |EncodeSigned(n)|))
    ensures |EncodeSigned(n)| <= MAX_BYTES
  {
    U64RoundTrip(Zigzag(n), rest);
    ZigzagBijection(n, 0);
  }

  // ---------------------------------------------------------------- the loops

  /** `encode_u64_varint_into` */
  method EncodeU64Into(out: seq<byte>, value: u64) returns (r: Result<seq<byte>, BitIoError>)
    ensures r == Success(out + Encode(value))
  {
    U64RoundTrip(value, []);
    var s := out;
    var v: u64 := value;
    while true
      invariant s + Encode(v) == out + Encode(value)
      decreases v
    {
      hide Decode, DecodeAfter;
      var low: byte := v % 128;
      var more := v / 128 != 0;
      ghost var before := v;
      v := v / 128;
      s := s + [if more then low + 128 else low];
      if |s| - |out| > MAX_BYTES {
        return Failure(VarintTooLong);
      }
      if !more {
        break;
      }
      assert Encode(before) == [low + 128] + Encode(v);
    }
    return Success(s);
  }

  method EncodeI64Into(out: seq<byte>, value: i64) returns (r: Result<seq<byte>, BitIoError>)
    ensures r == Success(out + EncodeSigned(value))
  {
    r := EncodeU64Into(out, Zigzag(value));
  }

  /** The outcome of decoding, given what the first `done` groups contributed and what the rest decodes to. */
  function Continued(result: nat, done: nat, rest: Result<(nat, nat), BitIoError>): Result<(nat, nat), BitIoError> {
    match rest
    case Failure(e) => Failure(e)
    case Success((v, n)) => Success((Joined(v, 7 * done, result), done + n))
  }

  /** What a group with the continuation bit adds to the decoding of the rest. */
  function WithDigit(digit: nat, rest: Result<(nat, nat), BitIoError>): Result<(nat, nat), BitIoError> {
    match rest
    case Failure(e) => Failure(e)
    case Success((v, n)) => Success((digit + 128 * v, n + 1))
  }

  lemma DecodeAfterStep(bytes: seq<byte>, done: nat)
    requires bytes != [] && done < MAX_BYTES && (done < 9 || bytes[0] % 128 <= 1)
    ensures DecodeAfter(bytes, done) ==
      if bytes[0] < 128 then Success((bytes[0] % 128, 1))
      else WithDigit(bytes[0] % 128, DecodeAfter(bytes[1..], done + 1))
  {
  }

  lemma ContinuedStep(result: nat, i: nat, digit: nat, rest: Result<(nat, nat), BitIoError>)
    ensures Continued(result, i, WithDigit(digit, rest)) == Continued(Joined(digit, 7 * i, result), i + 1, rest)
  {
    if rest.Success? {
      hide Joined;
      Regrouped(rest.value.0, digit, i, result);
    }
  }

  /** One group: the digit lands above the bits read so far and stays inside 64 bits. */
  lemma GroupRead(bytes: seq<byte>, i: nat, result: nat)
    requires i < |bytes| && i < MAX_BYTES && result < BitSpec.Pow2(7 * i)
    requires i < 9 || bytes[i] % 128 <= 1
    ensures var digit := bytes[i] % 128;
      && Joined(digit, 7 * i, result) < U64_LIMIT
      && (i < 9 ==> Joined(digit, 7 * i, result) < BitSpec.Pow2(7 * (i + 1)))
      && Continued(result, i, DecodeAfter(bytes[i..], i)) ==
           if bytes[i] < 128 then Success((Joined(digit, 7 * i, result), i + 1))
           else Continued(Joined(digit, 7 * i, result), i + 1, DecodeAfter(bytes[i + 1..], i + 1))
  {
    hide Joined, DecodeAfter, WithDigit, BitSpec.Pow2;
    GroupFits(bytes[i] % 128, i, result);
    DecodeAfterStep(bytes[i..], i);
    assert bytes[i..][1..] == bytes[i + 1..];
    ContinuedStep(result, i, bytes[i] % 128, DecodeAfter(bytes[i + 1..], i + 1));
  }

  lemma GroupFits(digit: nat, i: nat, result: nat)
    requires i < MAX_BYTES && result < BitSpec.Pow2(7 * i) && digit < 128 && (i < 9 || digit <= 1)
    ensures Joined(digit, 7 * i, result) < U64_LIMIT
    ensures i < 9 ==> Joined(digit, 7 * i, result) < BitSpec.Pow2(7 * (i + 1))
  {
    BitSpec.SmallPowers();
    BitSpec.Pow64();
    var bits := if i < 9 then 7 else 1;
    assert digit < BitSpec.Pow2(bits);
    BitSpec.PowSum(bits, 7 * i);
    PowLess(bits + 7 * i, 64);
    hide BitSpec.Pow2;
    Scaled(digit, BitSpec.Pow2(bits), BitSpec.Pow2(7 * i), result);
  }

  /** Groups may be joined one at a time or all at once. */
  lemma Regrouped(v: nat, digit: nat, i: nat, result: nat)
    ensures Joined(v, 7 * (i + 1), Joined(digit, 7 * i, result)) == Joined(digit + 128 * v, 7 * i, result)
  {
    BitSpec.SmallPowers();
    BitSpec.PowSum(7, 7 * i);
    var p := BitSpec.Pow2(7 * i);
    assert v * (128 * p) + (digit * p + result) == (digit + 128 * v) * p + result;
  }

  /** `decode_u64_varint` */
  method DecodeU64(bytes: seq<byte>) returns (r: Result<(u64, nat), BitIoError>)
    ensures r == Decode(bytes)
  {
    var result: u64 := 0;
    var shift := 0;
    ghost var whole := Decode(bytes);
    assert whole == Continued(0, 0, DecodeAfter(bytes[0..], 0)) by {
      assert bytes[0..] == bytes && forall v: nat :: Joined(v, 0, 0) == v;
    }
    for i := 0 to |bytes|
      invariant shift == 7 * i && i <= MAX_BYTES && (i < MAX_BYTES ==> result < BitSpec.Pow2(7 * i))
      invariant whole == Continued(result, i, DecodeAfter(bytes[i..], i))
    {
      if i >= MAX_BYTES {
        return Failure(InvalidVarint);
      }
      var digit := bytes[i] % 128;
      if shift >= 63 && digit > 1 {
        return Failure(InvalidVarint);
      }
      GroupRead(bytes, i, result);
      hide Continued, Joined;
      result := Joined(digit, shift, result);
      shift := shift + 7;
      if bytes[i] < 128 {
        return Success((result, i + 1));
      }
    }
    return Failure(InvalidVarint);
  }

  method DecodeI64(bytes: seq<byte>) returns (r: Result<(i64, nat), BitIoError>)
    ensures r == DecodeSigned(bytes)
  {
    var decoded := DecodeU64(bytes);
    match decoded
    case Failure(e) => return Failure(e);
    case Success((u, n)) => return Success((Unzigzag(u), n));
  }

  /** `read_u64_varint_from_bits`: from a byte boundary, on by exactly the encoding's bytes. */
  method ReadU64FromBits(r: BitReader) returns (v: Result<u64, BitIoError>)
    requires r.Valid()
    modifies r
    ensures r.Valid()
    ensures old(r.bitPos) % 8 != 0 ==> v == Failure(InvalidVarint) && r.bitPos == old(r.bitPos)
    ensures old(r.bitPos) % 8 == 0 ==>
      match Decode(r.data[old(r.bitPos) / 8..])
      case Failure(e) => v == Failure(e) && r.bitPos == old(r.bitPos)
      case Success((u, n)) => v == Success(u) && r.bitPos == old(r.bitPos) + 8 * n
  {
    if r.bitPos % 8 != 0 {
      return Failure(InvalidVarint);
    }
    var start := r.bitPos / 8;
    var decoded := DecodeU64(r.data[start..]);
    if decoded.Failure? {
      return Failure(decoded.error);
    }
    var advanced := r.AdvanceBytes(decoded.value.1);
    return Success(decoded.value.0);
  }

  /** `read_i64_varint_from_bits` */
  method ReadI64FromBits(r: BitReader) returns (v: Result<i64, BitIoError>)
    requires r.Valid()
    modifies r
    ensures r.Valid()
    ensures old(r.bitPos) % 8 != 0 ==> v == Failure(InvalidVarint) && r.bitPos == old(r.bitPos)
    ensures old(r.bitPos) % 8 == 0 ==>
      match DecodeSigned(r.data[old(r.bitPos) / 8..])
      case Failure(e) => v == Failure(e) && r.bitPos == old(r.bitPos)
      case Success((n, len)) => v == Success(n) && r.bitPos == old(r.bitPos) + 8 * len
  {
    var u := ReadU64FromBits(r);
    match u
    case Failure(e) => return Failure(e);
    case Success(value) => return Success(Unzigzag(value));
  }

  // ---------------------------------------------------------------- streams of encodings

  function EncodeAll(values: seq<u64>): seq<byte> {
    if values == [] then [] else Encode(values[0]) + EncodeAll(values[1..])
  }

  /** Read `n` numbers one after the other. */
  function DecodeMany(bytes: seq<byte>, n: nat): Result<seq<nat>, BitIoError>
    decreases n
  {
    if n == 0 then Success([])
    else
      match Decode(bytes)
      case Failure(e) => Failure(e)
      case Success((v, len)) =>
        match DecodeMany(bytes[len..], n - 1)
        case Failure(e) => Failure(e)
        case Success(rest) => Success([v] + rest)
  }

  lemma ManyStep(bytes: seq<byte>, n: nat, v: nat, len: nat, rest: seq<nat>)
    requires 0 < n && len <= |bytes|
    requires Decode(bytes) == Success((v, len)) && DecodeMany(bytes[len..], n - 1) == Success(rest)
    ensures DecodeMany(bytes, n) == Success([v] + rest)
  {
  }

  /** A stream of encodings gives back its numbers. */
  lemma {:induction false} StreamOfVarints(values: seq<u64>, rest: seq<byte>)
    ensures DecodeMany(EncodeAll(values) + rest, |values|) == Success(values)
    decreases |values|
  {
    if values != [] {
      var first, tail := Encode(values[0]), EncodeAll(values[1..]) + rest;
      U64RoundTrip(values[0], tail);
      StreamOfVarints(values[1..], rest);
      assert EncodeAll(values) + rest == first + tail;
      hide *;
      assert (first + tail)[|first|..] == tail;
      ManyStep(first + tail, |values|, values[0], |first|, values[1..]);
      assert values == [values[0]] + values[1..];
    }
  }
}
