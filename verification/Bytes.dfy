/** Big-endian integers, as `to_be_bytes` and `from_be_bytes` write and read them. */
module Bytes {
  import opened Common

  function Pow256(n: nat): (r: nat)
    ensures r > 0
  {
    if n == 0 then 1 else 0x100 * Pow256(n - 1)
  }

  /** The `n` low bytes of `x`, most significant first. */
  function BeBytes(x: nat, n: nat): (r: seq<u8>)
    ensures |r| == n
  {
    if n == 0 then [] else BeBytes(x / 0x100, n - 1) + [x % 0x100]
  }

  function FromBe(bytes: seq<u8>): nat {
    if bytes == [] then 0 else FromBe(bytes[..|bytes| - 1]) * 0x100 + bytes[|bytes| - 1]
  }

  lemma {:induction false} BeRoundTrip(x: nat, n: nat)
    requires x < Pow256(n)
    ensures FromBe(BeBytes(x, n)) == x
  {
    if n > 0 {
      BeRoundTrip(x / 0x100, n - 1);
      assert BeBytes(x, n)[..n - 1] == BeBytes(x / 0x100, n - 1);
    }
  }

  /** The most significant byte comes first. */
  lemma {:induction false} MostSignificantFirst(b: u8, rest: seq<u8>)
    ensures FromBe([b] + rest) == b * Pow256(|rest|) + FromBe(rest)
  {
    var all := [b] + rest;
    if rest == [] {
      assert all[..0] == [];
    } else {
      var n := |rest| - 1;
      assert all[..|all| - 1] == [b] + rest[..n];
      MostSignificantFirst(b, rest[..n]);
      assert b * Pow256(n) * 0x100 == b * (0x100 * Pow256(n));
    }
  }

  lemma {:induction false} FromBeBound(bytes: seq<u8>)
    ensures FromBe(bytes) < Pow256(|bytes|)
  {
    if bytes != [] {
      FromBeBound(bytes[..|bytes| - 1]);
    }
  }

  lemma {:induction false} FromBeRoundTrip(bytes: seq<u8>)
    ensures BeBytes(FromBe(bytes), |bytes|) == bytes
  {
    if bytes != [] {
      var n := |bytes| - 1;
      FromBeRoundTrip(bytes[..n]);
      LastByte(FromBe(bytes[..n]), bytes[n]);
      assert bytes == bytes[..n] + [bytes[n]];
    }
  }

  lemma LastByte(high: nat, low: u8)
    ensures (high * 0x100 + low) / 0x100 == high && (high * 0x100 + low) % 0x100 == low
  {
  }

  /** The sizes of the integers the source serialises. */
  lemma Widths()
    ensures Pow256(1) == TWO_8 && Pow256(2) == TWO_16 && Pow256(4) == TWO_32
    ensures Pow256(8) == TWO_64 && Pow256(16) == TWO_128
  {
    assert Pow256(2) == 0x100 * Pow256(1);
    assert Pow256(4) == 0x100 * (0x100 * Pow256(2));
    assert Pow256(6) == 0x100 * (0x100 * Pow256(4));
    assert Pow256(8) == 0x100 * (0x100 * Pow256(6));
    assert Pow256(10) == 0x100 * (0x100 * Pow256(8));
    assert Pow256(12) == 0x100 * (0x100 * Pow256(10));
    assert Pow256(14) == 0x100 * (0x100 * Pow256(12));
    assert Pow256(16) == 0x100 * (0x100 * Pow256(14));
  }

  function U16(bytes: seq<u8>): u16
    requires |bytes| == 2
  {
    FromBeBound(bytes);
    Widths();
    FromBe(bytes)
  }

  function U32(bytes: seq<u8>): u32
    requires |bytes| == 4
  {
    FromBeBound(bytes);
    Widths();
    FromBe(bytes)
  }

  function U64(bytes: seq<u8>): u64
    requires |bytes| == 8
  {
    FromBeBound(bytes);
    Widths();
    FromBe(bytes)
  }

  function U128(bytes: seq<u8>): u128
    requires |bytes| == 16
  {
    FromBeBound(bytes);
    Widths();
    FromBe(bytes)
  }

  lemma U16RoundTrip(x: u16)
    ensures U16(BeBytes(x, 2)) == x
  {
    Widths();
    BeRoundTrip(x, 2);
  }

  lemma U32RoundTrip(x: u32)
    ensures U32(BeBytes(x, 4)) == x
  {
    Widths();
    BeRoundTrip(x, 4);
  }

  lemma U64RoundTrip(x: u64)
    ensures U64(BeBytes(x, 8)) == x
  {
    Widths();
    BeRoundTrip(x, 8);
  }

  lemma U128RoundTrip(x: u128)
    ensures U128(BeBytes(x, 16)) == x
  {
    Widths();
    BeRoundTrip(x, 16);
  }
}
