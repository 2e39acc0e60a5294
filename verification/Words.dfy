/**
 Machine integers. Every fixed-width value is an `int` confined to its range, and every place
 where Rust or the target wraps or truncates says so by calling one of the functions below.
 */
module Words {
  const TWO_7 := 0x80
  const TWO_31 := 0x8000_0000
  const TWO_32 := 0x1_0000_0000
  const TWO_63 := 0x8000_0000_0000_0000
  const TWO_64 := 0x1_0000_0000_0000_0000

  type byte = x: int | 0 <= x < 256
  type u32 = x: int | 0 <= x < TWO_32
  type i32 = x: int | -TWO_31 <= x < TWO_31
  type i64 = x: int | -TWO_63 <= x < TWO_63

  /** `x as u32` for a wider or signed `x`. */
  function ToU32(x: int): u32 {
    x % TWO_32
  }

  /** Two's-complement reading of the low 32 bits: `x as i32`. */
  function Wrap32(x: int): i32 {
    var m := x % TWO_32;
    if m < TWO_31 then m else m - TWO_32
  }

  /** Two's-complement reading of the low 64 bits: `x as i64`. */
  function Wrap64(x: int): i64 {
    var m := x % TWO_64;
    if m < TWO_63 then m else m - TWO_64
  }

  function Pow2(n: nat): (p: nat)
    ensures 1 <= p
  {
    if n == 0 then 1 else 2 * Pow2(n - 1)
  }

  lemma Pow2Step7(n: nat)
    requires 7 <= n
    ensures Pow2(n) == TWO_7 * Pow2(n - 7)
  {
    assert Pow2(n) == 2 * Pow2(n - 1) == 4 * Pow2(n - 2);
    assert Pow2(n - 2) == 2 * Pow2(n - 3) == 4 * Pow2(n - 4);
    assert Pow2(n - 4) == 2 * Pow2(n - 5) == 4 * Pow2(n - 6);
    assert Pow2(n - 6) == 2 * Pow2(n - 7);
  }

  lemma Pow2Of32()
    ensures Pow2(32) == TWO_32 && Pow2(31) == TWO_31
  {
    Pow2Step7(31); Pow2Step7(24); Pow2Step7(17); Pow2Step7(10);
    assert Pow2(3) == 8;
  }

  /** `x >> k`: `k` one-bit arithmetic shifts. */
  function ShiftRight(x: int, k: nat): (y: int)
    ensures if x >= 0 then 0 <= y <= x else x <= y < 0
    decreases k
  {
    if k == 0 then x else ShiftRight(x / 2, k - 1)
  }

  /** Division and remainder that truncate toward zero, as in Rust, C and WebAssembly. */
  function TruncDiv(l: int, r: int): int
    requires r != 0
  {
    var q := Magnitude(l) / Magnitude(r);
    if (l < 0) == (r < 0) then q else -q
  }

  function Magnitude(x: int): nat {
    if x < 0 then -x else x
  }

  function TruncRem(l: int, r: int): int
    requires r != 0
  {
    l - r * TruncDiv(l, r)
  }

  datatype BitOp = AndBits | OrBits | XorBits

  function Bit(op: BitOp, a: int, b: int): (bit: nat)
    ensures bit <= 1
  {
    match op
    case AndBits => if a == 1 && b == 1 then 1 else 0
    case OrBits => if a == 1 || b == 1 then 1 else 0
    case XorBits => if a != b then 1 else 0
  }

  /** The `n` low bits of a bitwise operation on two's-complement operands of any width. */
  function Bitwise(op: BitOp, l: int, r: int, n: nat): (bits: nat)
    ensures bits < Pow2(n)
    decreases n
  {
    if n == 0 then 0 else Bit(op, l % 2, r % 2) + 2 * Bitwise(op, l / 2, r / 2, n - 1)
  }

  lemma {:induction false} BitwiseCommutes(op: BitOp, l: int, r: int, n: nat)
    ensures Bitwise(op, l, r, n) == Bitwise(op, r, l, n)
    decreases n
  {
    if n > 0 {
      BitwiseCommutes(op, l / 2, r / 2, n - 1);
    }
  }

  lemma {:induction false} OrWithZero(x: nat, n: nat)
    requires x < Pow2(n)
    ensures Bitwise(OrBits, x, 0, n) == x
    decreases n
  {
    if n > 0 {
      OrWithZero(x / 2, n - 1);
    }
  }

  /** A value below 2^k fits under a multiple of 2^k: "or" is then addition. */
  lemma {:induction false} OrDisjoint(high: nat, low: nat, k: nat, n: nat)
    requires low < Pow2(k) && high * Pow2(k) + low < Pow2(n)
    ensures Bitwise(OrBits, high * Pow2(k), low, n) == high * Pow2(k) + low
    decreases k
  {
    if k == 0 {
      assert high * Pow2(0) == high;
      OrWithZero(high, n);
    } else if n > 0 {
      var half := high * Pow2(k - 1);
      assert high * Pow2(k) == 2 * half;
      OrDisjoint(high, low / 2, k - 1, n - 1);
      assert (2 * half) / 2 == half && (2 * half) % 2 == 0;
    } else {
      OrNothing(high, k);
    }
  }

  /** `a | b` and `x << k` on 32-bit words; bits shifted out are lost. */
  function Or32(a: u32, b: u32): u32 {
    Pow2Of32();
    Bitwise(OrBits, a, b, 32)
  }

  function Shl32(x: u32, k: nat): u32 {
    ToU32(x * Pow2(k))
  }

  /** "Or"-ing in a byte above all set bits adds it there. */
  lemma OrPlaces(low: u32, x: u32, k: nat)
    requires low < Pow2(k) && x * Pow2(k) + low < TWO_32
    ensures Or32(low, Shl32(x, k)) == x * Pow2(k) + low
  {
    Pow2Of32();
    var high: int := x * Pow2(k);
    hide Bitwise, Pow2;
    assert 0 <= high < TWO_32;
    OrDisjoint(x, low, k, 32);
    BitwiseCommutes(OrBits, high, low, 32);
  }

  lemma OrNothing(high: nat, k: nat)
    requires high * Pow2(k) < 1
    ensures high * Pow2(k) == 0
  {
  }

  /** The `n` low bytes of `x`, least significant first. */
  function LittleEndian(x: nat, n: nat): (bs: seq<byte>)
    ensures |bs| == n
  {
    if n == 0 then [] else [x % 256] + LittleEndian(x / 256, n - 1)
  }

  function FromLittleEndian(bs: seq<byte>): nat {
    if bs == [] then 0 else
    var low: nat := bs[0];
    low + 256 * FromLittleEndian(bs[1..])
  }

  /** `u32::to_le_bytes`. */
  function LeBytes(x: u32): (bs: seq<byte>)
    ensures |bs| == 4
  {
    LittleEndian(x, 4)
  }

  lemma {:induction false} LittleEndianRoundTrip(x: nat, n: nat)
    requires x < Pow2(8 * n)
    ensures FromLittleEndian(LittleEndian(x, n)) == x
  {
    if n > 0 {
      Pow2Step7(8 * n);
      assert x / 256 < Pow2(8 * (n - 1));
      LittleEndianRoundTrip(x / 256, n - 1);
      assert LittleEndian(x, n)[1..] == LittleEndian(x / 256, n - 1);
    }
  }

  /** Bytes read as a word and written as `n` bytes come back padded with zeros. */
  lemma {:induction false} FromLittleEndianRoundTrip(bs: seq<byte>, n: nat)
    requires |bs| <= n
    ensures LittleEndian(FromLittleEndian(bs), n) == bs + Zeros(n - |bs|)
    decreases n
  {
    if bs == [] {
      if n > 0 {
        FromLittleEndianRoundTrip([], n - 1);
      }
    } else {
      FromLittleEndianRoundTrip(bs[1..], n - 1);
      assert [bs[0]] + (bs[1..] + Zeros(n - |bs|)) == bs + Zeros(n - |bs|);
    }
  }

  function Zeros(n: nat): (bs: seq<byte>)
    ensures |bs| == n && forall b | b in bs :: b == 0
  {
    if n == 0 then [] else [0] + Zeros(n - 1)
  }

  lemma {:induction false} FromLittleEndianAppend(bs: seq<byte>, b: byte)
    ensures FromLittleEndian(bs + [b]) == b * Pow2(8 * |bs|) + FromLittleEndian(bs)
  {
    if bs == [] {
      assert bs + [b] == [b] && [b][1..] == [];
    } else {
      FromLittleEndianAppend(bs[1..], b);
      assert (bs + [b])[1..] == bs[1..] + [b];
      Pow2Step7(8 * |bs|);
      assert Pow2(8 * |bs|) == 256 * Pow2(8 * (|bs| - 1));
      Scale(b, Pow2(8 * (|bs| - 1)));
    }
  }

  lemma Scale(b: int, p: int)
    ensures b * (256 * p) == 256 * (b * p)
  {
  }

  lemma {:induction false} FromLittleEndianBound(bs: seq<byte>)
    ensures FromLittleEndian(bs) < Pow2(8 * |bs|)
  {
    if bs != [] {
      FromLittleEndianBound(bs[1..]);
      Pow2Step7(8 * |bs|);
    }
  }

  lemma LeBytesRoundTrip(x: u32)
    ensures FromLittleEndian(LeBytes(x)) == x
  {
    Pow2Of32();
    LittleEndianRoundTrip(x, 4);
  }
}
