/** Bit strings, most significant bit first, and their packing into bytes. */
module BitSpec {
  import Arithmetic
  import opened Bytes

  function Pow2(n: nat): (p: nat)
    ensures p > 0
  {
    if n == 0 then 1 else 2 * Pow2(n - 1)
  }

  /** The low `n` bits of `v`, most significant first. */
  function BitsOf(v: nat, n: nat): (s: seq<bool>)
    ensures |s| == n
  {
    if n == 0 then [] else BitsOf(v / 2, n - 1) + [v % 2 == 1]
  }

  function ValueOf(bits: seq<bool>): (v: nat)
    ensures v < Pow2(|bits|)
  {
    if bits == [] then 0 else 2 * ValueOf(bits[..|bits| - 1]) + if bits[|bits| - 1] then 1 else 0
  }

  /** The bits of a byte string in reading order. */
  function BytesBits(s: seq<byte>): (bits: seq<bool>)
    ensures |bits| == 8 * |s|
  {
    if s == [] then [] else BitsOf(s[0], 8) + BytesBits(s[1..])
  }

  function Zeros(n: nat): (z: seq<bool>)
    ensures |z| == n
  {
    seq(n, i => false)
  }

  /** Bits grouped into bytes, the last one filled up with zeros. */
  function Pack(bits: seq<bool>): (s: seq<byte>)
    ensures |s| == (|bits| + 7) / 8
    decreases |bits|
  {
    if bits == [] then []
    else if |bits| < 8 then [ByteOf(bits + Zeros(8 - |bits|))]
    else [ByteOf(bits[..8])] + Pack(bits[8..])
  }

  function ByteOf(bits: seq<bool>): byte
    requires |bits| == 8
  {
    SmallPowers();
    ValueOf(bits)
  }

  lemma SmallPowers()
    ensures Pow2(1) == 2 && Pow2(4) == 16 && Pow2(7) == 128 && Pow2(8) == 256
  {
    assert Pow2(4) == 4 * Pow2(2);
    assert Pow2(7) == 8 * Pow2(4);
  }

  lemma Pow64()
    ensures Pow2(64) == U64_LIMIT
  {
    SmallPowers();
    hide Pow2;
    PowSum(8, 8);
    PowSum(16, 16);
    PowSum(32, 32);
  }

  lemma {:induction false} PowSum(a: nat, b: nat)
    ensures Pow2(a + b) == Pow2(a) * Pow2(b)
    decreases b
  {
    if b > 0 {
      PowSum(a, b - 1);
    }
  }

  // ---------------------------------------------------------------- values and bits

  lemma {:induction false} ValueRoundTrip(v: nat, n: nat)
    requires v < Pow2(n)
    ensures ValueOf(BitsOf(v, n)) == v
  {
    if n > 0 {
      ValueRoundTrip(v / 2, n - 1);
      assert BitsOf(v, n)[..n - 1] == BitsOf(v / 2, n - 1);
    }
  }

  lemma {:induction false} BitsRoundTrip(bits: seq<bool>)
    ensures BitsOf(ValueOf(bits), |bits|) == bits
    decreases |bits|
  {
    if bits != [] {
      BitsRoundTrip(bits[..|bits| - 1]);
      assert bits == bits[..|bits| - 1] + [bits[|bits| - 1]];
    }
  }

  /** `v >> n` */
  function Shr(v: nat, n: nat): (r: nat)
    ensures r <= v
    decreases n
  {
    if n == 0 then v else Shr(v / 2, n - 1)
  }

  /** A shift divides by the power of two. */
  lemma {:induction false} ShrDivides(v: nat, n: nat)
    ensures v == Shr(v, n) * Pow2(n) + v % Pow2(n)
    decreases n
  {
    if n > 0 {
      ShrDivides(v / 2, n - 1);
      LowHalf(v, Pow2(n - 1));
      hide Shr;
      Doubled(Shr(v / 2, n - 1), Pow2(n - 1));
    }
  }

  lemma Doubled(q: nat, d: nat)
    ensures 2 * (q * d) == q * (2 * d)
  {
  }

  /** The high and the low part of a number's bits. */
  lemma {:induction false} BitsSplit(v: nat, a: nat, b: nat)
    ensures BitsOf(v, a + b) == BitsOf(Shr(v, b), a) + BitsOf(v, b)
    decreases b
  {
    if b > 0 {
      BitsSplit(v / 2, a, b - 1);
      assert BitsOf(v, a + b) == BitsOf(v / 2, a + (b - 1)) + [v % 2 == 1];
    }
  }

  /** Only the low bits count. */
  lemma {:induction false} BitsOfLow(v: nat, n: nat)
    ensures BitsOf(v % Pow2(n), n) == BitsOf(v, n)
    decreases n
  {
    if n > 0 {
      BitsOfLow(v / 2, n - 1);
      assert v % Pow2(n) / 2 == v / 2 % Pow2(n - 1) && v % Pow2(n) % 2 == v % 2 by {
        LowHalf(v, Pow2(n - 1));
      }
    }
  }

  lemma LowHalf(v: nat, d: nat)
    requires d > 0
    ensures v % (2 * d) / 2 == v / 2 % d && v % (2 * d) % 2 == v % 2
  {
    var q, r := v / 2 / d, v / 2 % d;
    assert v / 2 == d * q + r;
    assert v == 2 * d * q + (2 * r + v % 2);
    Arithmetic.DivideExactly(q, 2 * r + v % 2, 2 * d);
  }

  lemma ShiftedParts(high: nat, low: nat, b: nat)
    requires low < Pow2(b)
    ensures high * Pow2(b) + low >= 0
    ensures Shr(high * Pow2(b) + low, b) == high && (high * Pow2(b) + low) % Pow2(b) == low
  {
    hide *;
    ShrDivides(high * Pow2(b) + low, b);
    UniqueParts(Shr(high * Pow2(b) + low, b), (high * Pow2(b) + low) % Pow2(b), high, low, Pow2(b));
  }

  lemma UniqueParts(q: int, r: int, high: int, low: int, d: int)
    requires q * d + r == high * d + low && 0 <= r < d && 0 <= low < d
    ensures q == high && r == low
  {
    Arithmetic.DivideExactly(q, r, d);
    Arithmetic.DivideExactly(high, low, d);
  }

  /** Appending `b` low bits to a number appends them to its bits. */
  lemma BitsAppend(high: nat, a: nat, low: nat, b: nat)
    requires low < Pow2(b)
    ensures BitsOf(high * Pow2(b) + low, a + b) == BitsOf(high, a) + BitsOf(low, b)
  {
    var v := high * Pow2(b) + low;
    ShiftedParts(high, low, b);
    BitsSplit(v, a, b);
    BitsOfLow(v, b);
  }

  // ---------------------------------------------------------------- bytes and bits

  lemma {:induction false} BytesBitsConcat(a: seq<byte>, b: seq<byte>)
    ensures BytesBits(a + b) == BytesBits(a) + BytesBits(b)
    decreases |a|
  {
    if a == [] {
      assert a + b == b;
    } else {
      assert (a + b)[1..] == a[1..] + b;
      BytesBitsConcat(a[1..], b);
    }
  }

  /** Packing loses nothing and adds only zeros. */
  lemma {:induction false} PackedBits(bits: seq<bool>)
    ensures BytesBits(Pack(bits)) == bits + Zeros(8 * |Pack(bits)| - |bits|)
    decreases |bits|
  {
    if 0 < |bits| < 8 {
      var full := bits + Zeros(8 - |bits|);
      BitsRoundTrip(full);
      assert Pack(bits)[1..] == [];
    } else if bits != [] {
      BitsRoundTrip(bits[..8]);
      PackedBits(bits[8..]);
      assert Pack(bits)[1..] == Pack(bits[8..]);
      assert bits == bits[..8] + bits[8..];
    }
  }

  lemma ByteFirst(b: byte, rest: seq<bool>)
    ensures Pack(BitsOf(b, 8) + rest) == [b] + Pack(rest)
  {
    SmallPowers();
    ValueRoundTrip(b, 8);
    var bits := BitsOf(b, 8) + rest;
    assert bits[..8] == BitsOf(b, 8) && bits[8..] == rest;
    hide BitsOf, ValueOf, Pow2;
  }

  /** A byte string is the packing of its own bits. */
  lemma {:induction false} PackOfBytes(s: seq<byte>, tail: seq<bool>)
    ensures Pack(BytesBits(s) + tail) == s + Pack(tail)
    decreases |s|
  {
    hide Pack, BitsOf, Pow2;
    if s == [] {
      assert [] + tail == tail && s + Pack(tail) == Pack(tail);
    } else {
      SmallPowers();
      var rest := BytesBits(s[1..]) + tail;
      assert BytesBits(s) + tail == BitsOf(s[0], 8) + rest;
      hide *;
      ByteFirst(s[0], rest);
      PackOfBytes(s[1..], tail);
      assert s + Pack(tail) == [s[0]] + (s[1..] + Pack(tail));
    }
  }

  // ---------------------------------------------------------------- single bits

  lemma DividedTwice(v: nat, d: nat)
    requires d > 0
    ensures v / 2 / d == v / (2 * d)
  {
    var q, r := v / 2 / d, v / 2 % d;
    assert v / 2 == d * q + r;
    Doubled(q, d);
    assert v == 2 * d * q + (2 * r + v % 2);
    Arithmetic.DivideExactly(q, 2 * r + v % 2, 2 * d);
  }

  /** Bit `i` of `n` is the coefficient of 2 to the power n - 1 - i: the most significant one comes first. */
  lemma {:induction false} BitPlace(v: nat, n: nat, i: nat)
    requires i < n
    ensures BitsOf(v, n)[i] == (v / Pow2(n - 1 - i) % 2 == 1)
    decreases n
  {
    if i < n - 1 {
      BitPlace(v / 2, n - 1, i);
      DividedTwice(v, Pow2(n - 2 - i));
    }
  }

  /** Bit `j` of byte `i` is bit 8i + j of the string. */
  lemma {:induction false} BytePlace(s: seq<byte>, i: nat, j: nat)
    requires i < |s| && j < 8
    ensures BytesBits(s)[8 * i + j] == (s[i] / Pow2(7 - j) % 2 == 1)
    decreases |s|
  {
    if i == 0 {
      BitPlace(s[0], 8, j);
    } else {
      BytePlace(s[1..], i - 1, j);
      assert BytesBits(s)[8 * i + j] == BytesBits(s[1..])[8 * (i - 1) + j];
    }
  }

  // ---------------------------------------------------------------- fields

  datatype Field = Field(width: nat, value: nat)

  predicate Fits(f: Field) {
    1 <= f.width <= 64 && f.value < Pow2(f.width)
  }

  /** The bits of a list of fields, one after the other. */
  function Stream(fields: seq<Field>): seq<bool> {
    if fields == [] then [] else BitsOf(fields[0].value, fields[0].width) + Stream(fields[1..])
  }

  function Widths(fields: seq<Field>): seq<nat> {
    seq(|fields|, i requires 0 <= i < |fields| => fields[i].width)
  }

  function TotalWidth(widths: seq<nat>): nat {
    if widths == [] then 0 else widths[0] + TotalWidth(widths[1..])
  }

  /** Read fields of the given widths from the front of a bit string. */
  function Fields(bits: seq<bool>, widths: seq<nat>): seq<Field>
    requires TotalWidth(widths) <= |bits|
    decreases |widths|
  {
    if widths == [] then []
    else [Field(widths[0], ValueOf(bits[..widths[0]]))] + Fields(bits[widths[0]..], widths[1..])
  }

  lemma FieldFirst(f: Field, rest: seq<bool>, widths: seq<nat>)
    requires Fits(f) && TotalWidth(widths) <= |rest|
    ensures TotalWidth([f.width] + widths) == f.width + TotalWidth(widths)
    ensures Fields(BitsOf(f.value, f.width) + rest, [f.width] + widths) == [f] + Fields(rest, widths)
  {
    ValueRoundTrip(f.value, f.width);
    hide BitsOf, ValueOf;
    var bits := BitsOf(f.value, f.width) + rest;
    assert bits[..f.width] == BitsOf(f.value, f.width) && bits[f.width..] == rest;
    assert ([f.width] + widths)[1..] == widths;
  }

  lemma ConcatAssoc(a: seq<bool>, b: seq<bool>, c: seq<bool>)
    ensures a + b + c == a + (b + c)
  {
  }

  lemma WidthsFirst(fields: seq<Field>)
    ensures Widths(fields) == if fields == [] then [] else [fields[0].width] + Widths(fields[1..])
  {
  }

  lemma {:induction false} StreamRoundTrip(fields: seq<Field>, padding: seq<bool>)
    requires forall i :: 0 <= i < |fields| ==> Fits(fields[i])
    ensures |Stream(fields)| == TotalWidth(Widths(fields))
    ensures Fields(Stream(fields) + padding, Widths(fields)) == fields
    decreases |fields|
  {
    hide BitsOf, Fits, Pow2, Widths;
    WidthsFirst(fields);
    if fields == [] {
    } else {
      var f := fields[0];
      StreamRoundTrip(fields[1..], padding);
      ConcatAssoc(BitsOf(f.value, f.width), Stream(fields[1..]), padding);
      FieldFirst(f, Stream(fields[1..]) + padding, Widths(fields[1..]));
      assert fields == [fields[0]] + fields[1..];
    }
  }

  /**
   * Writing any list of fields that fit their widths and finishing gives ceil(total bits / 8) bytes that end in zero
   * padding, and reading the same widths gives the fields back.
   */
  lemma FieldsRoundTrip(fields: seq<Field>)
    requires forall i :: 0 <= i < |fields| ==> Fits(fields[i])
    ensures var bytes := Pack(Stream(fields));
      var total := TotalWidth(Widths(fields));
      && |bytes| == (total + 7) / 8
      && total <= |BytesBits(bytes)|
      && Fields(BytesBits(bytes), Widths(fields)) == fields
      && BytesBits(bytes)[total..] == Zeros(8 * |bytes| - total)
  {
    hide Stream, Pack, BytesBits, Fields, Widths, TotalWidth;
    var bits := Stream(fields);
    PackedBits(bits);
    StreamRoundTrip(fields, Zeros(8 * |Pack(bits)| - |bits|));
  }
}
