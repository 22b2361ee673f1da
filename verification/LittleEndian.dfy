/** Little-endian numbers in a byte string, written out byte by byte. */
module LittleEndian {
  import opened Bytes

  function At(s: seq<byte>, i: nat): int
    requires i < |s|
  {
    s[i]
  }

  predicate Is16(s: seq<byte>, i: nat, v: int) {
    i + 2 <= |s| && v == At(s, i) + 0x100 * At(s, i + 1)
  }

  predicate Is32(s: seq<byte>, i: nat, v: int) {
    i + 4 <= |s| && v == At(s, i) + 0x100 * At(s, i + 1) + 0x1_0000 * At(s, i + 2) + 0x100_0000 * At(s, i + 3)
  }

  predicate Is64(s: seq<byte>, i: nat, v: int) {
    && i + 8 <= |s|
    && v == At(s, i) + 0x100 * At(s, i + 1) + 0x1_0000 * At(s, i + 2) + 0x100_0000 * At(s, i + 3)
            + 0x1_0000_0000 * At(s, i + 4) + 0x100_0000_0000 * At(s, i + 5)
            + 0x1_0000_0000_0000 * At(s, i + 6) + 0x100_0000_0000_0000 * At(s, i + 7)
  }

  // ----- the encoders' bytes have these values -----

  lemma Two(s: seq<byte>)
    requires |s| == 2
    ensures Is16(s, 0, FromLe(s))
  {
    assert FromLe(s[1..]) == s[1] + 256 * FromLe(s[1..][1..]);
  }

  lemma Four(s: seq<byte>)
    requires |s| == 4
    ensures Is32(s, 0, FromLe(s))
  {
    Two(s[2..]);
    assert s[1..][1..] == s[2..];
    assert FromLe(s[1..]) == s[1] + 256 * FromLe(s[1..][1..]);
  }

  lemma Eight(s: seq<byte>)
    requires |s| == 8
    ensures Is64(s, 0, FromLe(s))
  {
    Four(s[4..]);
    var a, b, c := s[1..], s[2..], s[3..];
    assert a[1..] == b && b[1..] == c && c[1..] == s[4..];
    assert FromLe(s) == s[0] + 256 * FromLe(a);
    assert FromLe(a) == s[1] + 256 * FromLe(b);
    assert FromLe(b) == s[2] + 256 * FromLe(c);
    assert FromLe(c) == s[3] + 256 * FromLe(s[4..]);
  }

  lemma U16Layout(v: u16)
    ensures Is16(LeBytes(v, 2), 0, v)
  {
    U16RoundTrip(v);
    Two(LeBytes(v, 2));
  }

  lemma U32Layout(v: u32)
    ensures Is32(LeBytes(v, 4), 0, v)
  {
    U32RoundTrip(v);
    Four(LeBytes(v, 4));
  }
}
