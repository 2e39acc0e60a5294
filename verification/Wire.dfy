/**
 Concatenated encodings and the decoder that reads a known number of them back. Every container
 format of the back end (WebAssembly vectors, SPIR-V instruction streams, fat-binary entries) is an
 instance.
 */
module Wire {
  import opened Options
  import opened Words

  function Concat<T, W>(enc: T -> seq<W>, xs: seq<T>): seq<W> {
    if xs == [] then [] else enc(xs[0]) + Concat(enc, xs[1..])
  }

  function DecodeMany<T, W>(dec: seq<W> -> Option<(T, seq<W>)>, n: nat, ws: seq<W>): Option<(seq<T>, seq<W>)> {
    if n == 0 then Some(([], ws)) else
    var (x, rest) :- dec(ws);
    var (xs, rest') :- DecodeMany(dec, n - 1, rest);
    Some(([x] + xs, rest'))
  }

  /** `dec` undoes `enc` on `x`, whatever follows. */
  ghost predicate Inverts<T, W(!new)>(enc: T -> seq<W>, dec: seq<W> -> Option<(T, seq<W>)>, x: T) {
    forall rest: seq<W> :: dec(enc(x) + rest) == Some((x, rest))
  }

  lemma {:induction false} DecodeManyRoundTrip<T, W(!new)>(enc: T -> seq<W>, dec: seq<W> -> Option<(T, seq<W>)>,
                                                     xs: seq<T>, rest: seq<W>)
    requires forall x | x in xs :: Inverts(enc, dec, x)
    ensures DecodeMany(dec, |xs|, Concat(enc, xs) + rest) == Some((xs, rest))
  {
    if xs == [] {
      assert Concat(enc, xs) + rest == rest;
    } else {
      var tail := Concat(enc, xs[1..]) + rest;
      assert Concat(enc, xs) + rest == enc(xs[0]) + tail;
      assert Inverts(enc, dec, xs[0]);
      DecodeManyRoundTrip(enc, dec, xs[1..], rest);
      assert xs == [xs[0]] + xs[1..];
    }
  }

  lemma {:induction false} ConcatAppend<T, W>(enc: T -> seq<W>, xs: seq<T>, ys: seq<T>)
    ensures Concat(enc, xs + ys) == Concat(enc, xs) + Concat(enc, ys)
  {
    if xs == [] {
      assert xs + ys == ys;
    } else {
      assert (xs + ys)[1..] == xs[1..] + ys;
      ConcatAppend(enc, xs[1..], ys);
    }
  }

  /** One more element encoded: the step of every loop that appends to a byte vector. */
  lemma ConcatStep<T, W>(enc: T -> seq<W>, xs: seq<T>, i: nat)
    requires i < |xs|
    ensures Concat(enc, xs[..i + 1]) == Concat(enc, xs[..i]) + enc(xs[i])
  {
    assert xs[..i + 1] == xs[..i] + [xs[i]];
    ConcatAppend(enc, xs[..i], [xs[i]]);
    assert Concat(enc, [xs[i]]) == enc(xs[i]) + Concat(enc, []);
  }

  /** The same behind a header. */
  lemma AppendStep<T, W>(enc: T -> seq<W>, header: seq<W>, xs: seq<T>, i: nat)
    requires i < |xs|
    ensures header + Concat(enc, xs[..i]) + enc(xs[i]) == header + Concat(enc, xs[..i + 1])
  {
    ConcatStep(enc, xs, i);
    hide Concat;
  }

  /** Four bytes as a little-endian word. */
  function ReadU32(bs: seq<byte>): (r: Option<(u32, seq<byte>)>)
  {
    if |bs| < 4 then None else
    WordBound(bs[..4]);
    Some((FromLittleEndian(bs[..4]), bs[4..]))
  }

  lemma WordBound(bs: seq<byte>)
    requires |bs| == 4
    ensures FromLittleEndian(bs) < TWO_32
  {
    FromLittleEndianBound(bs);
    Pow2Of32();
  }

  /** The bytes of a word, lowest first. */
  lemma LowByteFirst(x: u32, rest: seq<byte>)
    ensures var bs: seq<int> := LeBytes(x) + rest;
            x == bs[0] + 0x100 * bs[1] + 0x1_0000 * bs[2] + 0x100_0000 * bs[3]
  {
    assert LeBytes(x)[1..] == LittleEndian(x / 0x100, 3);
    assert LeBytes(x)[2..] == LittleEndian(x / 0x100 / 0x100, 2);
    assert LeBytes(x)[3..] == LittleEndian(x / 0x100 / 0x100 / 0x100, 1);
  }

  lemma ReadU32Back(x: u32, rest: seq<byte>)
    ensures ReadU32(LeBytes(x) + rest) == Some((x, rest))
  {
    LeBytesRoundTrip(x);
    assert (LeBytes(x) + rest)[..4] == LeBytes(x);
    assert (LeBytes(x) + rest)[4..] == rest;
  }
}
