/**
 LEB128 integers: the two encoder loops, and the decoder the WebAssembly Core Specification 1.0
 gives in section 5.2.2 as a grammar for uN and sN.
 */
module Leb128 {
  import opened Options
  import opened Words

  /** What the unsigned encoder writes: seven bits at a time, continuation bit on all but the last. */
  function UnsignedLeb(val: nat): (bs: seq<byte>)
    ensures 1 <= |bs|
  {
    if val / TWO_7 == 0 then [val % TWO_7] else [val % TWO_7 + TWO_7] + UnsignedLeb(val / TWO_7)
  }

  /** `val >> 7` is an arithmetic shift, so it floors, as division by a positive constant does here. */
  predicate SignedDone(val: int) {
    var signBit := val % TWO_7 >= 64;
    (val / TWO_7 == 0 && !signBit) || (val / TWO_7 == -1 && signBit)
  }

  function SignedLeb(val: int): (bs: seq<byte>)
    ensures 1 <= |bs|
    decreases if val >= 0 then val else -val
  {
    if SignedDone(val) then [val % TWO_7] else [val % TWO_7 + TWO_7] + SignedLeb(val / TWO_7)
  }

  method EncodeU32Leb128(val: u32, buf: seq<byte>) returns (out: seq<byte>)
    ensures out == buf + UnsignedLeb(val)
  {
    out := buf;
    var rest: nat := val;
    while true
      invariant out + UnsignedLeb(rest) == buf + UnsignedLeb(val)
      decreases rest
    {
      var b := rest % TWO_7;
      var next := rest / TWO_7;
      if next != 0 {
        assert out + UnsignedLeb(rest) == (out + [b + TWO_7]) + UnsignedLeb(next);
        out := out + [b + TWO_7];
      } else {
        out := out + [b];
      }
      if next == 0 {
        break;
      }
      rest := next;
    }
  }

  method EncodeI32Leb128(val: i32, buf: seq<byte>) returns (out: seq<byte>)
    ensures out == buf + SignedLeb(val)
  {
    out := buf;
    var rest: int := val;
    var more := true;
    while more
      invariant if more then out + SignedLeb(rest) == buf + SignedLeb(val) else out == buf + SignedLeb(val)
      decreases more, if rest >= 0 then rest else -rest
    {
      var b := rest % TWO_7;
      var next := rest / TWO_7;
      var signBit := b >= 64;
      if (next == 0 && !signBit) || (next == -1 && signBit) {
        more := false;
        out := out + [b];
      } else {
        assert out + SignedLeb(rest) == (out + [b + TWO_7]) + SignedLeb(next);
        out := out + [b + TWO_7];
      }
      rest := next;
    }
  }

  // ----- the specification's decoders

  /** uN: the value and the bytes that follow it. `None` when no prefix of `bs` is a uN. */
  function DecodeUnsigned(bits: nat, bs: seq<byte>): (r: Option<(nat, seq<byte>)>)
    ensures r.Some? ==> |r.value.1| < |bs|
    decreases bs
  {
    if bs == [] then None
    else if bs[0] < TWO_7 then
      if bs[0] < Pow2(bits) then Some((bs[0], bs[1..])) else None
    else if bits <= 7 then None
    else
      var (m, rest) :- DecodeUnsigned(bits - 7, bs[1..]);
      Some((TWO_7 * m + (bs[0] - TWO_7), rest))
  }

  predicate InSigned(bits: nat, val: int) {
    1 <= bits &&
    var half: int := Pow2(bits - 1);
    -half <= val < half
  }

  /** sN, with N at least 1. */
  function DecodeSigned(bits: nat, bs: seq<byte>): (r: Option<(int, seq<byte>)>)
    requires 1 <= bits
    ensures r.Some? ==> |r.value.1| < |bs|
    decreases bs
  {
    if bs == [] then None
    else if bs[0] < 64 then
      if bs[0] < Pow2(bits - 1) then Some((bs[0], bs[1..])) else None
    else if bs[0] < TWO_7 then
      if bs[0] >= TWO_7 - Pow2(bits - 1) then Some((bs[0] - TWO_7, bs[1..])) else None
    else if bits <= 7 then None
    else
      var (m, rest) :- DecodeSigned(bits - 7, bs[1..]);
      Some((TWO_7 * m + (bs[0] - TWO_7), rest))
  }

  // ----- round trips

  lemma {:induction false} UnsignedRoundTrip(bits: nat, val: nat, rest: seq<byte>)
    requires val < Pow2(bits)
    ensures DecodeUnsigned(bits, UnsignedLeb(val) + rest) == Some((val, rest))
    decreases val
  {
    var bs := UnsignedLeb(val) + rest;
    if val / TWO_7 == 0 {
      assert bs[1..] == rest;
    } else {
      if bits <= 7 {
        Pow2AtMost(bits, 7);
        assert false;
      }
      Pow2Step7(bits);
      UnsignedRoundTrip(bits - 7, val / TWO_7, rest);
      assert bs[1..] == UnsignedLeb(val / TWO_7) + rest;
    }
  }

  lemma {:induction false} SignedRoundTrip(bits: nat, val: int, rest: seq<byte>)
    requires InSigned(bits, val)
    ensures DecodeSigned(bits, SignedLeb(val) + rest) == Some((val, rest))
    decreases if val >= 0 then val else -val
  {
    var bs := SignedLeb(val) + rest;
    if SignedDone(val) {
      assert bs[1..] == rest;
    } else {
      if bits <= 7 {
        Pow2AtMost(bits - 1, 6);
        assert false;
      }
      Pow2Step7(bits - 1);
      SignedRoundTrip(bits - 7, val / TWO_7, rest);
      assert bs[1..] == SignedLeb(val / TWO_7) + rest;
    }
  }

  lemma Pow2AtMost(a: nat, b: nat)
    requires a <= b <= 7
    ensures Pow2(a) <= Pow2(b)
    decreases b
  {
    if a < b {
      Pow2AtMost(a, b - 1);
    }
  }

  // ----- length: at most five bytes, and no shorter encoding exists

  lemma {:induction false} UnsignedLength(val: nat, bits: nat, len: nat)
    requires val < Pow2(bits) && bits <= 7 * len && 1 <= len
    ensures |UnsignedLeb(val)| <= len
    decreases len
  {
    if val / TWO_7 != 0 {
      if bits <= 7 {
        Pow2AtMost(bits, 7);
        assert false;
      }
      Pow2Step7(bits);
      UnsignedLength(val / TWO_7, bits - 7, len - 1);
    }
  }

  lemma {:induction false} SignedLength(val: int, bits: nat, len: nat)
    requires InSigned(bits, val) && bits <= 7 * len && 1 <= len
    ensures |SignedLeb(val)| <= len
    decreases len
  {
    if !SignedDone(val) {
      if bits <= 7 {
        Pow2AtMost(bits - 1, 6);
        assert false;
      }
      Pow2Step7(bits - 1);
      SignedLength(val / TWO_7, bits - 7, len - 1);
    }
  }

  /** Any byte string the specification reads as `val` is at least as long as the encoder's. */
  lemma {:induction false} UnsignedShortest(bits: nat, bs: seq<byte>)
    requires DecodeUnsigned(bits, bs).Some?
    ensures var (val, rest) := DecodeUnsigned(bits, bs).value;
            |UnsignedLeb(val)| <= |bs| - |rest|
    decreases bs
  {
    if bs[0] >= TWO_7 {
      UnsignedShortest(bits - 7, bs[1..]);
      var (m, rest) := DecodeUnsigned(bits - 7, bs[1..]).value;
      var val := TWO_7 * m + (bs[0] - TWO_7);
      assert val / TWO_7 == m;
    }
  }

  lemma {:induction false} SignedShortest(bits: nat, bs: seq<byte>)
    requires 1 <= bits && DecodeSigned(bits, bs).Some?
    ensures var (val, rest) := DecodeSigned(bits, bs).value;
            |SignedLeb(val)| <= |bs| - |rest|
    decreases bs
  {
    if bs[0] >= TWO_7 {
      SignedShortest(bits - 7, bs[1..]);
      var (m, rest) := DecodeSigned(bits - 7, bs[1..]).value;
      var val := TWO_7 * m + (bs[0] - TWO_7);
      assert val / TWO_7 == m;
    }
  }

  // ----- the statements for the two types the compiler encodes

  /** Every u32 decodes back, leaving the bytes that follow untouched. */
  lemma U32RoundTrip(val: u32, rest: seq<byte>)
    ensures DecodeUnsigned(32, UnsignedLeb(val) + rest) == Some((val, rest))
  {
    Pow2Of32();
    UnsignedRoundTrip(32, val, rest);
  }

  lemma I32RoundTrip(val: i32, rest: seq<byte>)
    ensures DecodeSigned(32, SignedLeb(val) + rest) == Some((val, rest))
  {
    Pow2Of32();
    SignedRoundTrip(32, val, rest);
  }

  /** At most five bytes, and no byte string that decodes to the same u32 is shorter. */
  lemma U32Shortest(val: u32)
    ensures |UnsignedLeb(val)| <= 5
    ensures forall bs: seq<byte> | DecodeUnsigned(32, bs) == Some((val, [])) :: |UnsignedLeb(val)| <= |bs|
  {
    Pow2Of32();
    UnsignedLength(val, 32, 5);
    forall bs: seq<byte> | DecodeUnsigned(32, bs) == Some((val, []))
      ensures |UnsignedLeb(val)| <= |bs|
    {
      UnsignedShortest(32, bs);
    }
  }

  lemma I32Shortest(val: i32)
    ensures |SignedLeb(val)| <= 5
    ensures forall bs: seq<byte> | DecodeSigned(32, bs) == Some((val, [])) :: |SignedLeb(val)| <= |bs|
  {
    Pow2Of32();
    SignedLength(val, 32, 5);
    forall bs: seq<byte> | DecodeSigned(32, bs) == Some((val, []))
      ensures |SignedLeb(val)| <= |bs|
    {
      SignedShortest(32, bs);
    }
  }
}
