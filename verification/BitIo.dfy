/** `BitWriter` and `BitReader`: what is written is a bit string, what is read is its next bits. */
module BitIo {
  import opened Wrappers
  import opened Bytes
  import opened BitSpec

  datatype BitIoError =
    | UnexpectedEof
    | InvalidBitCount(n: nat)
    | ValueOutOfRange(bits: nat)
    | InvalidVarint
    | VarintTooLong

  // ---------------------------------------------------------------- facts about the accumulator

  lemma {:induction false} PowLess(a: nat, b: nat)
    requires a <= b
    ensures Pow2(a) <= Pow2(b)
    decreases b
  {
    if a < b {
      PowLess(a, b - 1);
    }
  }

  /** `(acc << take) | chunk` */
  function Joined(acc: nat, take: nat, chunk: nat): nat {
    acc * Pow2(take) + chunk
  }

  /** `(value >> shift) & ((1 << take) - 1)` */
  function Chunk(value: nat, shift: nat, take: nat): nat {
    Shr(value, shift) % Pow2(take)
  }

  /** Moving `take` bits of the value into the accumulator moves them in the bit string; nothing is shifted out. */
  lemma TakeBits(acc: nat, nbits: nat, value: nat, left: nat, take: nat)
    requires acc < Pow2(nbits) && take <= left
    ensures acc * Pow2(take) + Shr(value, left - take) % Pow2(take) < Pow2(nbits + take)
    ensures BitsOf(acc * Pow2(take) + Shr(value, left - take) % Pow2(take), nbits + take) + BitsOf(value, left - take)
         == BitsOf(acc, nbits) + BitsOf(value, left)
  {
    var high := Shr(value, left - take);
    var chunk := high % Pow2(take);
    BitsSplit(value, take, left - take);
    BitsOfLow(high, take);
    BitsAppend(acc, nbits, chunk, take);
    PowSum(nbits, take);
    hide *;
    Scaled(acc, Pow2(nbits), Pow2(take), chunk);
    assert BitsOf(acc, nbits) + BitsOf(chunk, take) + BitsOf(value, left - take)
        == BitsOf(acc, nbits) + (BitsOf(high, take) + BitsOf(value, left - take));
  }

  lemma Scaled(acc: nat, a: nat, b: nat, chunk: nat)
    requires acc < a && chunk < b
    ensures acc * b + chunk < a * b
  {
    assert (acc + 1) * b <= a * b;
  }

  /** The bits of a writer: its whole bytes and then its accumulator. */
  function Held(out: seq<byte>, acc: nat, nbits: nat): seq<bool> {
    BytesBits(out) + BitsOf(acc, nbits)
  }

  lemma HeldTake(out: seq<byte>, acc: nat, nbits: nat, value: nat, left: nat, take: nat)
    requires acc < Pow2(nbits) && take <= left
    ensures Joined(acc, take, Chunk(value, left - take, take)) < Pow2(nbits + take)
    ensures Held(out, Joined(acc, take, Chunk(value, left - take, take)), nbits + take) + BitsOf(value, left - take)
         == Held(out, acc, nbits) + BitsOf(value, left)
  {
    TakeBits(acc, nbits, value, left, take);
    hide BytesBits, BitsOf, Shr, Pow2;
    var bits, high := BytesBits(out), BitsOf(Joined(acc, take, Chunk(value, left - take, take)), nbits + take);
    assert bits + high + BitsOf(value, left - take) == bits + (high + BitsOf(value, left - take));
    assert bits + BitsOf(acc, nbits) + BitsOf(value, left) == bits + (BitsOf(acc, nbits) + BitsOf(value, left));
  }

  /** A full accumulator is one byte. */
  lemma HeldByte(out: seq<byte>, acc: nat)
    requires acc < Pow2(8)
    ensures acc < 256 && Shr(acc, 0) == acc && acc % Pow2(0) == 0
    ensures Held(out + [acc], 0, 0) == Held(out, acc, 8)
  {
    SmallPowers();
    BytesBitsConcat(out, [acc]);
    assert BytesBits([acc]) == BitsOf(acc, 8) + BytesBits([]);
  }

  /** The bytes whose bits are `bits` and less than a byte of zeros are the packing of `bits`. */
  lemma PackIsUnique(bits: seq<bool>, pad: nat, s: seq<byte>)
    requires pad < 8 && BytesBits(s) == bits + Zeros(pad)
    ensures s == Pack(bits)
  {
    hide *;
    PackedBits(bits);
    assert |Pack(bits)| == |s|;
    PackOfBytes(s, []);
    PackOfBytes(Pack(bits), []);
    EmptyPack();
  }

  lemma EmptyPack()
    ensures Pack([]) == [] && forall s: seq<byte> :: s + [] == s
  {
  }

  lemma {:induction false} ZeroBits(n: nat)
    ensures BitsOf(0, n) == Zeros(n)
  {
    if n > 0 {
      ZeroBits(n - 1);
    }
  }

  class BitWriter {
    var out: seq<byte>
    var acc: nat
    var nbits: nat

    ghost predicate Valid()
      reads this
    {
      nbits < 8 && acc < Pow2(nbits)
    }

    /** Everything written so far. */
    ghost function Contents(): seq<bool>
      reads this
    {
      Held(out, acc, nbits)
    }

    constructor ()
      ensures Valid() && Contents() == []
    {
      out, acc, nbits := [], 0, 0;
    }

    /** The inner loop of `write`: whole bytes leave the accumulator. */
    method Drain()
      requires nbits <= 8 && acc < Pow2(nbits)
      modifies this
      ensures Valid() && Contents() == old(Contents())
    {
      hide Held, Pow2, Shr;
      while nbits >= 8
        invariant nbits <= 8 && acc < Pow2(nbits) && Held(out, acc, nbits) == old(Contents())
        decreases nbits
      {
        HeldByte(out, acc);
        nbits := nbits - 8;
        var b: byte := Shr(acc, nbits) % 256;
        out := out + [b];
        acc := acc % Pow2(nbits);
      }
    }

    /** `write`: append the low `n` bits of `value`, or refuse and change nothing. */
    method Write(n: nat, value: u64) returns (r: Result<(), BitIoError>)
      requires Valid()
      modifies this
      ensures Valid()
      ensures r ==
        if n == 0 || n > 64 then Failure(InvalidBitCount(n))
        else if value >= Pow2(n) then Failure(ValueOutOfRange(n))
        else Success(())
      ensures Contents() == old(Contents()) + if r.Success? then BitsOf(value, n) else []
    {
      if n == 0 || n > 64 {
        return Failure(InvalidBitCount(n));
      }
      if value >= Pow2(n) {
        return Failure(ValueOutOfRange(n));
      }
      var bitsLeft: nat := n;
      hide *;
      ghost var want := Contents() + BitsOf(value, n);
      while bitsLeft > 0
        invariant Valid() && bitsLeft <= n
        invariant Contents() + BitsOf(value, bitsLeft) == want
      {
        bitsLeft := MoveBits(value, bitsLeft);
      }
      NothingLeft(Contents(), value);
      return Success(());
    }

    /** One turn of the loop of `write`. */
    method MoveBits(value: u64, bitsLeft: nat) returns (left: nat)
      requires Valid() && 0 < bitsLeft
      modifies this
      ensures Valid() && left < bitsLeft
      ensures Contents() + BitsOf(value, left) == old(Contents()) + BitsOf(value, bitsLeft)
    {
      var room := 8 - nbits;
      var take := if room < bitsLeft then room else bitsLeft;
      var shift := bitsLeft - take;
      var chunk := Chunk(value, shift, take);
      HeldTake(out, acc, nbits, value, bitsLeft, take);
      hide BitsOf, Held, Chunk, Joined, Pow2;
      acc := Joined(acc, take, chunk);
      nbits := nbits + take;
      left := bitsLeft - take;
      Drain();
    }

    /** `finish`: the packing of everything written. */
    method Finish() returns (bytes: seq<byte>)
      requires Valid()
      modifies this
      ensures bytes == Pack(old(Contents()))
    {
      ghost var bits := Contents();
      ghost var pad := 0;
      if nbits > 0 {
        var fill := 8 - nbits;
        SmallPowers();
        var _ := Write(fill, 0);
        pad := fill;
      }
      ZeroBits(pad);
      assert Contents() == bits + Zeros(pad);
      assert nbits == 0;
      bytes := out;
      hide BytesBits, Pack;
      PackIsUnique(bits, pad, bytes);
    }
  }

  lemma NothingLeft(bits: seq<bool>, value: nat)
    ensures bits + BitsOf(value, 0) == bits
  {
  }

  // ---------------------------------------------------------------- reading

  lemma {:induction false} BitOfByte(v: nat, n: nat, k: nat)
    requires k < n
    ensures BitsOf(v, n)[k] == (Shr(v, n - 1 - k) % 2 == 1)
    decreases n
  {
    if k < n - 1 {
      BitOfByte(v / 2, n - 1, k);
    }
  }

  /** `(data[pos / 8] >> (7 - pos % 8)) & 1` */
  function BitValue(data: seq<byte>, pos: nat): (bit: nat)
    requires pos < 8 * |data|
    ensures bit <= 1
  {
    Shr(data[pos / 8], 7 - pos % 8) % 2
  }

  lemma {:induction false} BitAt(data: seq<byte>, pos: nat)
    requires pos < 8 * |data|
    ensures BytesBits(data)[pos] == (BitValue(data, pos) == 1)
    decreases |data|
  {
    if pos < 8 {
      BitOfByte(data[0], 8, pos);
    } else {
      BitAt(data[1..], pos - 8);
    }
  }

  /** `(out << 1) | bit` on 64 bits. */
  function ShiftInBit(out: u64, bit: nat): nat {
    out * 2 % U64_LIMIT + bit
  }

  /** Reading one more bit; below 64 bits the shift drops nothing. */
  lemma NextBit(bits: seq<bool>, from: nat, to: nat)
    requires from <= to < |bits| && to - from < 64
    ensures ValueOf(bits[from..to]) < U64_LIMIT && ValueOf(bits[from..to + 1]) < U64_LIMIT
    ensures ValueOf(bits[from..to + 1]) == ShiftInBit(ValueOf(bits[from..to]), if bits[to] then 1 else 0)
  {
    assert bits[from..to + 1][..to - from] == bits[from..to];
    Pow64();
    PowLess(to - from + 1, 64);
    assert ValueOf(bits[from..to + 1]) == ValueOf(bits[from..to]) * 2 + if bits[to] then 1 else 0;
    hide ValueOf;
    assert Pow2(to - from + 1) == 2 * Pow2(to - from);
  }

  class BitReader {
    const data: seq<byte>
    var bitPos: nat

    ghost predicate Valid()
      reads this
    {
      bitPos <= 8 * |data|
    }

    constructor (data: seq<byte>)
      ensures Valid() && this.data == data && bitPos == 0
    {
      this.data, bitPos := data, 0;
    }

    function BitsRemaining(): nat
      requires Valid()
      reads this
    {
      8 * |data| - bitPos
    }

    /** The body of the loop of `read`. */
    method ReadBit() returns (bit: nat)
      requires Valid() && bitPos < 8 * |data|
      modifies this
      ensures Valid() && bitPos == old(bitPos) + 1
      ensures bit == if BytesBits(data)[old(bitPos)] then 1 else 0
    {
      BitAt(data, bitPos);
      bit := BitValue(data, bitPos);
      bitPos := bitPos + 1;
    }

    /** `read`: the next `n` bits as a number, or an error that leaves the cursor alone. */
    method Read(n: nat) returns (r: Result<u64, BitIoError>)
      requires Valid()
      modifies this
      ensures Valid()
      ensures if n == 0 || n > 64 then r == Failure(InvalidBitCount(n)) && bitPos == old(bitPos)
              else if old(bitPos) + n > 8 * |data| then r == Failure(UnexpectedEof) && bitPos == old(bitPos)
              else
                && bitPos == old(bitPos) + n && r.Success?
                && r.value == ValueOf(BytesBits(data)[old(bitPos)..old(bitPos) + n])
    {
      if n == 0 || n > 64 {
        return Failure(InvalidBitCount(n));
      }
      if BitsRemaining() < n {
        return Failure(UnexpectedEof);
      }
      var out: u64 := 0;
      ghost var start, bits := bitPos, BytesBits(data);
      assert ValueOf(bits[start..start]) == 0;
      hide *;
      for k := 0 to n
        invariant bitPos == start + k <= 8 * |data|
        invariant out == ValueOf(bits[start..bitPos])
      {
        NextBit(bits, start, bitPos);
        var bit := ReadBit();
        out := ShiftInBit(out, bit);
      }
      return Success(out);
    }

    method Skip(n: nat) returns (r: Result<(), BitIoError>)
      requires Valid()
      modifies this
      ensures Valid()
      ensures r == if old(bitPos) + n <= 8 * |data| then Success(()) else Failure(UnexpectedEof)
      ensures bitPos == old(bitPos) + if r.Success? then n else 0
    {
      if BitsRemaining() < n {
        return Failure(UnexpectedEof);
      }
      bitPos := bitPos + n;
      return Success(());
    }

    /** `align_byte`: on to the next byte boundary, which is never past the end. */
    method AlignByte() returns (r: Result<(), BitIoError>)
      requires Valid()
      modifies this
      ensures Valid() && r == Success(())
      ensures bitPos % 8 == 0 && old(bitPos) <= bitPos < old(bitPos) + 8
    {
      var mis := bitPos % 8;
      if mis != 0 {
        r := Skip(8 - mis);
        return;
      }
      return Success(());
    }

    method AdvanceBytes(bytes: nat) returns (r: Result<(), BitIoError>)
      requires Valid()
      modifies this
      ensures Valid()
      ensures r == if old(bitPos) % 8 != 0 then Failure(InvalidVarint)
                   else if old(bitPos) + 8 * bytes > 8 * |data| then Failure(UnexpectedEof)
                   else Success(())
      ensures bitPos == old(bitPos) + if r.Success? then 8 * bytes else 0
    {
      if bitPos % 8 != 0 {
        return Failure(InvalidVarint);
      }
      var next := bitPos + bytes * 8;
      if next > 8 * |data| {
        return Failure(UnexpectedEof);
      }
      bitPos := next;
      return Success(());
    }
  }
}
