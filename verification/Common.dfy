/** Types shared by every component: optional values, results and machine integers. */
module Common {

  datatype Option<+T> = None | Some(value: T)

  datatype Result<+T, +E> = Ok(value: T) | Err(error: E)

  const TWO_8: int := 0x100
  const TWO_16: int := 0x1_0000
  const TWO_32: int := 0x1_0000_0000
  const TWO_64: int := 0x1_0000_0000_0000_0000
  const TWO_128: int := 0x1_0000_0000_0000_0000_0000_0000_0000_0000

  // The source's unsigned integers. Wrap-around is written out where the source relies on it.
  type u8 = x: int | 0 <= x < 0x100
  type u16 = x: int | 0 <= x < 0x1_0000
  type u32 = x: int | 0 <= x < 0x1_0000_0000
  type u64 = x: int | 0 <= x < 0x1_0000_0000_0000_0000
  type u128 = x: int | 0 <= x < 0x1_0000_0000_0000_0000_0000_0000_0000_0000

  function Min(a: int, b: int): int {
    if a <= b then a else b
  }

  function Max(a: int, b: int): int {
    if a >= b then a else b
  }

  function Pow2(k: nat): (r: nat)
    ensures r > 0
  {
    if k == 0 then 1 else 2 * Pow2(k - 1)
  }

  /** Exclusive or of the low `k` bits of two numbers. */
  function XorBits(a: nat, b: nat, k: nat): (r: nat)
    ensures r < Pow2(k)
  {
    if k == 0 then 0 else XorBit(a % 2, b % 2) + 2 * XorBits(a / 2, b / 2, k - 1)
  }

  function XorBit(p: nat, q: nat): nat {
    if p == q then 0 else 1
  }

  lemma {:induction false} XorBitsInvolution(a: nat, b: nat, k: nat)
    requires a < Pow2(k)
    ensures XorBits(XorBits(a, b, k), b, k) == a
  {
    if k > 0 {
      XorBitsInvolution(a / 2, b / 2, k - 1);
      var rest := XorBits(a / 2, b / 2, k - 1);
      LowBit(XorBit(a % 2, b % 2), rest);
      assert a == a % 2 + 2 * (a / 2);
    }
  }

  lemma LowBit(bit: nat, rest: nat)
    requires bit < 2
    ensures (bit + 2 * rest) % 2 == bit && (bit + 2 * rest) / 2 == rest
  {
  }

  /** Bit `i` of a number. */
  function Bit(a: nat, i: nat): nat {
    if i == 0 then a % 2 else Bit(a / 2, i - 1)
  }

  /** Each bit of the result is set exactly when the two bits differ. */
  lemma {:induction false} XorIsBitwise(a: nat, b: nat, k: nat, i: nat)
    requires i < k
    ensures Bit(XorBits(a, b, k), i) == 1 <==> Bit(a, i) != Bit(b, i)
  {
    LowBit(XorBit(a % 2, b % 2), XorBits(a / 2, b / 2, k - 1));
    if i > 0 {
      XorIsBitwise(a / 2, b / 2, k - 1, i - 1);
    }
  }

  lemma {:induction false} XorBitsCommute(a: nat, b: nat, k: nat)
    ensures XorBits(a, b, k) == XorBits(b, a, k)
  {
    if k > 0 {
      XorBitsCommute(a / 2, b / 2, k - 1);
    }
  }

  lemma BytePow()
    ensures Pow2(8) == 0x100
  {
    assert Pow2(4) == 16;
    assert Pow2(8) == 2 * 2 * 2 * 2 * Pow2(4);
  }

  /** Bitwise exclusive or of two bytes. */
  function Xor(a: u8, b: u8): u8 {
    BytePow();
    XorBits(a, b, 8)
  }

  lemma XorInvolution(a: u8, b: u8)
    ensures Xor(Xor(a, b), b) == a
  {
    BytePow();
    XorBitsInvolution(a, b, 8);
  }

  lemma {:induction false} XorBitsZero(a: nat, k: nat)
    requires a < Pow2(k)
    ensures XorBits(a, 0, k) == a
  {
    if k > 0 {
      XorBitsZero(a / 2, k - 1);
    }
  }

  lemma XorZero(a: u8)
    ensures Xor(a, 0) == a && Xor(0, a) == a
  {
    BytePow();
    XorBitsZero(a, 8);
    XorBitsCommute(a, 0, 8);
  }

  lemma XorCancels(a: u8, x: u8, y: u8)
    ensures Xor(a, x) == Xor(a, y) <==> x == y
  {
    BytePow();
    XorBitsCommute(a, x, 8);
    XorBitsCommute(a, y, 8);
    XorBitsInvolution(x, a, 8);
    XorBitsInvolution(y, a, 8);
  }

  /** All the elements of a sequence of sequences, in order. */
  function Flatten<T>(parts: seq<seq<T>>): seq<T> {
    if parts == [] then [] else parts[0] + Flatten(parts[1..])
  }

  lemma {:induction false} FlattenAppend<T>(parts: seq<seq<T>>, last: seq<T>)
    ensures Flatten(parts + [last]) == Flatten(parts) + last
  {
    if parts == [] {
      assert parts + [last] == [last];
    } else {
      assert (parts + [last])[1..] == parts[1..] + [last];
      FlattenAppend(parts[1..], last);
    }
  }

  lemma {:induction false} FlattenSplit<T>(parts: seq<seq<T>>, k: nat)
    requires k <= |parts|
    ensures Flatten(parts) == Flatten(parts[..k]) + Flatten(parts[k..])
  {
    if k > 0 {
      FlattenSplit(parts[1..], k - 1);
      assert parts[1..][..k - 1] == parts[1..k] && parts[..k][1..] == parts[1..k];
    } else {
      assert parts[0..] == parts;
    }
  }

  function Elements<T(==)>(xs: seq<T>): set<T> {
    set x | x in xs
  }

  /** The numbers from `lo` up to `hi`, without it. */
  function Range(lo: int, hi: int): (r: set<int>)
    ensures forall s :: s in r <==> lo <= s < hi
    decreases hi - lo
  {
    if lo >= hi then {} else Range(lo, hi - 1) + {hi - 1}
  }
}
