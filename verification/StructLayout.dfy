/** The struct layout optimizer: sort by alignment, place in order, round the end up. */
module StructLayout {
  import opened Division
  import opened StableSort
  import opened Words

  datatype Field = Field(name: string, size: nat, align: nat)

  datatype Report = Report(order: seq<string>, totalSize: nat, padding: int, cacheLines: nat)

  // ----- the order

  /** The comparator: larger alignment first, then larger size. */
  predicate Before(a: Field, b: Field) {
    a.align > b.align || (a.align == b.align && a.size >= b.size)
  }

  function SortFields(fs: seq<Field>): (r: seq<Field>)
    ensures multiset(r) == multiset(fs) && |r| == |fs|
  {
    Sort(Before, fs)
  }

  lemma BeforeIsPreorder()
    ensures Preorder(Before)
  {
  }

  /** Widest alignment first, then largest; fields equal in both keep their declaration order. */
  lemma SortFieldsSorted(fs: seq<Field>, align: nat, size: nat)
    ensures Sorted(Before, SortFields(fs))
    ensures var r := SortFields(fs);
            forall i, j | 0 <= i < j < |r| ::
              r[i].align > r[j].align || (r[i].align == r[j].align && r[i].size >= r[j].size)
    ensures var tie := (f: Field) => f.align == align && f.size == size;
            Where(tie, SortFields(fs)) == Where(tie, fs)
  {
    BeforeIsPreorder();
    SortSorts(Before, fs);
    SortStable(Before, (f: Field) => f.align == align && f.size == size, fs);
  }

  // ----- placement in a given order

  predicate Alignable(fs: seq<Field>) {
    forall f | f in fs :: 0 < f.align
  }

  function AlignUp(x: nat, align: nat): (y: nat)
    requires 0 < align
    ensures x <= y < x + align
  {
    if x % align == 0 then x else x + (align - x % align)
  }

  /** The offset of each field when the first one may start at `start`. */
  function Offsets(fs: seq<Field>, start: nat): (r: seq<nat>)
    requires Alignable(fs)
    ensures |r| == |fs|
    decreases fs
  {
    if fs == [] then [] else
    var at := AlignUp(start, fs[0].align);
    [at] + Offsets(fs[1..], at + fs[0].size)
  }

  function EndOf(fs: seq<Field>, start: nat): nat
    requires Alignable(fs)
    decreases fs
  {
    if fs == [] then start else EndOf(fs[1..], AlignUp(start, fs[0].align) + fs[0].size)
  }

  function MaxAlign(fs: seq<Field>): (m: nat)
    ensures 1 <= m
    ensures forall f | f in fs :: f.align <= m
    ensures m == 1 || exists f :: f in fs && f.align == m
  {
    if fs == [] then 1 else Wider(fs[0].align, MaxAlign(fs[1..]))
  }

  function Wider(a: nat, b: nat): nat {
    if a > b then a else b
  }

  function SumSizes(fs: seq<Field>): nat {
    if fs == [] then 0 else fs[0].size + SumSizes(fs[1..])
  }

  /** The size of a struct laid out in the given order. */
  function TotalSize(fs: seq<Field>): nat
    requires Alignable(fs)
  {
    AlignUp(EndOf(fs, 0), MaxAlign(fs))
  }

  // ----- sums and maxima do not depend on the order

  lemma {:induction false} SumSizesAppend(a: seq<Field>, b: seq<Field>)
    ensures SumSizes(a + b) == SumSizes(a) + SumSizes(b)
  {
    if a == [] {
      assert a + b == b;
    } else {
      assert (a + b)[1..] == a[1..] + b;
      SumSizesAppend(a[1..], b);
    }
  }

  lemma RemoveMember(b: seq<Field>, f: Field) returns (rest: seq<Field>)
    requires f in b
    ensures multiset(b) == multiset{f} + multiset(rest) && |rest| < |b|
    ensures SumSizes(b) == f.size + SumSizes(rest)
  {
    var k :| 0 <= k < |b| && b[k] == f;
    var front, back := b[..k], b[k + 1..];
    rest := front + back;
    assert b == front + ([f] + back);
    SumSizesAppend(front, back);
    SumSizesAppend(front, [f] + back);
    assert ([f] + back)[1..] == back;
  }

  lemma CancelMember(f: Field, x: multiset<Field>, y: multiset<Field>)
    requires multiset{f} + x == multiset{f} + y
    ensures x == y
  {
    assert (multiset{f} + x) - multiset{f} == x;
    assert (multiset{f} + y) - multiset{f} == y;
  }

  lemma {:induction false} SumSizesPermuted(a: seq<Field>, b: seq<Field>)
    requires multiset(a) == multiset(b)
    ensures SumSizes(a) == SumSizes(b)
    decreases |a|
  {
    if a == [] {
      assert |multiset(b)| == 0;
    } else {
      assert a[0] in multiset(b);
      var rest := RemoveMember(b, a[0]);
      assert a == [a[0]] + a[1..];
      CancelMember(a[0], multiset(a[1..]), multiset(rest));
      SumSizesPermuted(a[1..], rest);
    }
  }

  lemma SameMembers(a: seq<Field>, b: seq<Field>)
    requires multiset(a) == multiset(b)
    ensures forall f :: f in a <==> f in b
    ensures MaxAlign(a) == MaxAlign(b)
  {
    forall f
      ensures f in a <==> f in b
    {
      assert f in a <==> f in multiset(a);
      assert f in b <==> f in multiset(b);
    }
  }

  // ----- no order does better than the sum

  lemma {:induction false} EndAtLeastSum(fs: seq<Field>, start: nat)
    requires Alignable(fs)
    ensures EndOf(fs, start) >= start + SumSizes(fs)
    decreases fs
  {
    if fs != [] {
      EndAtLeastSum(fs[1..], AlignUp(start, fs[0].align) + fs[0].size);
    }
  }

  lemma AlignUpMultiple(x: nat, a: nat)
    requires 0 < a
    ensures AlignUp(x, a) % a == 0
  {
    DivMod(x, a);
    if x % a != 0 {
      MulSub(x / a, -1, a);
      MultipleIsZero(x / a + 1, a);
    }
  }

  /** The least multiple of `a` that is at least `x`. */
  lemma AlignUpLeast(x: nat, y: nat, a: nat)
    requires 0 < a && x <= y && y % a == 0
    ensures AlignUp(x, a) <= y
  {
    AlignUpMultiple(x, a);
    var u := AlignUp(x, a);
    if y < u {
      MultiplesApart(y, u, a);
    }
  }

  lemma AlignUpMonotone(x: nat, y: nat, a: nat)
    requires 0 < a && x <= y
    ensures AlignUp(x, a) <= AlignUp(y, a)
  {
    AlignUpMultiple(y, a);
    AlignUpLeast(x, AlignUp(y, a), a);
  }

  // ----- the greedy order wastes nothing inside

  ghost predicate PowerOfTwo(a: nat) {
    exists k: nat :: a == Pow2(k)
  }

  lemma {:induction false} Pow2Divides(j: nat, k: nat) returns (q: nat)
    requires j <= k
    ensures Pow2(k) == q * Pow2(j)
  {
    if j == k {
      q := 1;
    } else {
      var p := Pow2Divides(j, k - 1);
      q := 2 * p;
      assert 2 * (p * Pow2(j)) == q * Pow2(j);
    }
  }

  lemma {:induction false} Pow2Grows(j: nat, k: nat)
    requires j < k
    ensures Pow2(j) < Pow2(k)
  {
    if j < k - 1 {
      Pow2Grows(j, k - 1);
    }
  }

  lemma SmallerPowerDivides(a: nat, b: nat, x: nat)
    requires PowerOfTwo(a) && PowerOfTwo(b) && a <= b && x % b == 0
    ensures x % a == 0
  {
    var j: nat :| a == Pow2(j);
    var k: nat :| b == Pow2(k);
    if k < j {
      Pow2Grows(k, j);
    }
    var q := Pow2Divides(j, k);
    DivMod(x, b);
    Reassociate(x / b, q, a);
    MultipleIsZero(x / b * q, a);
  }

  lemma Reassociate(d: int, q: int, a: int)
    ensures d * (q * a) == (d * q) * a
  {
  }

  /** Fields as the type system hands them over: sizes are multiples of power-of-two alignments. */
  ghost predicate WellSized(fs: seq<Field>) {
    forall f | f in fs :: PowerOfTwo(f.align) && 0 < f.align && f.size % f.align == 0
  }

  /** In descending order each field starts where the one before it ended, and is aligned there. */
  lemma {:induction false} GreedyPacks(fs: seq<Field>, start: nat)
    requires Sorted(Before, fs) && WellSized(fs)
    requires fs != [] ==> start % fs[0].align == 0
    ensures EndOf(fs, start) == start + SumSizes(fs)
    ensures Packed(fs, Offsets(fs, start), start)
    decreases fs
  {
    if fs != [] {
      GreedyStep(fs, start);
      GreedyPacks(fs[1..], start + fs[0].size);
      PackedStep(fs, Offsets(fs[1..], start + fs[0].size), start);
    }
  }

  /** Offsets without a gap, each a multiple of its field's alignment. */
  ghost predicate Packed(fs: seq<Field>, offsets: seq<nat>, start: nat)
    requires Alignable(fs) && |offsets| == |fs|
  {
    forall k | 0 <= k < |fs| :: offsets[k] == start + SumSizes(fs[..k]) && offsets[k] % fs[k].align == 0
  }

  lemma PackedStep(fs: seq<Field>, later: seq<nat>, start: nat)
    requires Alignable(fs) && fs != [] && |later| == |fs| - 1
    requires Packed(fs[1..], later, start + fs[0].size) && start % fs[0].align == 0
    ensures Packed(fs, [start] + later, start)
  {
    forall k | 0 <= k < |fs|
      ensures ([start] + later)[k] == start + SumSizes(fs[..k]) && ([start] + later)[k] % fs[k].align == 0
    {
      if k > 0 {
        assert fs[..k][1..] == fs[1..][..k - 1];
        assert fs[1..][k - 1] == fs[k];
      }
    }
  }

  lemma GreedyStep(fs: seq<Field>, start: nat)
    requires Sorted(Before, fs) && WellSized(fs) && fs != [] && start % fs[0].align == 0
    ensures |fs| > 1 ==> (start + fs[0].size) % fs[1].align == 0
  {
    assert fs[0] in fs;
    SumOfMultiples(start, fs[0].size, fs[0].align);
    if |fs| > 1 {
      assert fs[1] in fs;
      SmallerPowerDivides(fs[1].align, fs[0].align, start + fs[0].size);
    }
  }

  /** Each field's alignment divides the sizes before it. */
  predicate Tight(fs: seq<Field>, start: nat)
    requires Alignable(fs)
  {
    forall k | 0 <= k < |fs| :: (start + SumSizes(fs[..k])) % fs[k].align == 0
  }

  lemma TightFirst(fs: seq<Field>, start: nat)
    requires Alignable(fs) && fs != []
    ensures Tight(fs, start) <==> start % fs[0].align == 0 && Tight(fs[1..], start + fs[0].size)
  {
    forall k | 0 < k < |fs|
      ensures SumSizes(fs[..k]) == fs[0].size + SumSizes(fs[1..][..k - 1]) && fs[k] == fs[1..][k - 1]
    {
      assert fs[..k][1..] == fs[1..][..k - 1];
    }
    hide SumSizes;
    assert fs[..0] == [];
    NoSizes(fs);
    if Tight(fs, start) {
      forall j | 0 <= j < |fs| - 1
        ensures (start + fs[0].size + SumSizes(fs[1..][..j])) % fs[1..][j].align == 0
      {
        assert (start + SumSizes(fs[..j + 1])) % fs[j + 1].align == 0;
      }
    }
    if start % fs[0].align == 0 && Tight(fs[1..], start + fs[0].size) {
      forall k | 0 <= k < |fs|
        ensures (start + SumSizes(fs[..k])) % fs[k].align == 0
      {
        if k > 0 {
          assert (start + fs[0].size + SumSizes(fs[1..][..k - 1])) % fs[1..][k - 1].align == 0;
        }
      }
    }
  }

  lemma NoSizes(fs: seq<Field>)
    ensures SumSizes(fs[..0]) == 0
  {
  }

  /** An order wastes nothing inside exactly when it is tight, whatever the sizes and alignments. */
  lemma {:induction false} NoGapsExactlyWhenTight(fs: seq<Field>, start: nat)
    requires Alignable(fs)
    ensures EndOf(fs, start) == start + SumSizes(fs) <==> Tight(fs, start)
    decreases fs
  {
    if fs != [] {
      TightFirst(fs, start);
      EndAtLeastSum(fs[1..], AlignUp(start, fs[0].align) + fs[0].size);
      NoGapsExactlyWhenTight(fs[1..], start + fs[0].size);
      hide Tight;
    }
  }

  /** Wherever the greedy order is tight, no order of the same fields gives a smaller struct. */
  lemma TightIsOptimal(fs: seq<Field>, other: seq<Field>)
    requires Alignable(fs) && multiset(other) == multiset(fs)
    ensures Alignable(other) && Alignable(SortFields(fs))
    ensures Tight(SortFields(fs), 0) ==> TotalSize(SortFields(fs)) <= TotalSize(other)
  {
    hide *;
    var best := SortFields(fs);
    PermutedAlignable(fs, best);
    PermutedAlignable(fs, other);
    NoGapsExactlyWhenTight(best, 0);
    SumSizesPermuted(best, fs);
    SumSizesPermuted(other, fs);
    EndAtLeastSum(other, 0);
    AlignedTotal(best);
    AlignedTotal(other);
    AlignUpMonotone(SumSizes(fs), EndOf(other, 0), MaxAlign(fs));
  }

  lemma PermutedAlignable(fs: seq<Field>, other: seq<Field>)
    requires Alignable(fs) && multiset(other) == multiset(fs)
    ensures Alignable(other) && MaxAlign(other) == MaxAlign(fs)
  {
    SameMembers(fs, other);
    hide MaxAlign;
  }

  /** No order of the same fields gives a smaller struct. */
  lemma GreedyIsOptimal(fs: seq<Field>, other: seq<Field>)
    requires WellSized(fs) && multiset(other) == multiset(fs)
    ensures Alignable(other) && Alignable(SortFields(fs))
    ensures TotalSize(SortFields(fs)) == AlignUp(SumSizes(fs), MaxAlign(fs))
    ensures TotalSize(SortFields(fs)) <= TotalSize(other)
  {
    var best := SortFields(fs);
    SortFieldsSorted(fs, 0, 0);
    SameMembers(fs, best);
    SameMembers(fs, other);
    GreedyPacks(best, 0);
    SumSizesPermuted(best, fs);
    SumSizesPermuted(other, fs);
    EndAtLeastSum(other, 0);
    AlignUpMonotone(SumSizes(fs), EndOf(other, 0), MaxAlign(fs));
  }

  // ----- the optimizer

  /** The fields before `k` are placed; the rest start at `end`. */
  ghost predicate Placing(fs: seq<Field>, k: nat, end: nat, maxAlign: nat) {
    && Alignable(fs) && k <= |fs| && 1 <= maxAlign
    && EndOf(fs[k..], end) == EndOf(fs, 0)
    && MaxAlign(fs) == Wider(maxAlign, MaxAlign(fs[k..]))
  }

  lemma PlaceFirst(fs: seq<Field>)
    requires Alignable(fs)
    ensures Placing(fs, 0, 0, 1)
  {
    assert fs[0..] == fs;
    hide EndOf;
  }

  lemma PlaceNext(fs: seq<Field>, k: nat, end: nat, maxAlign: nat)
    requires k < |fs| && Placing(fs, k, end, maxAlign)
    ensures 0 < fs[k].align
    ensures Placing(fs, k + 1, AlignUp(end, fs[k].align) + fs[k].size, Wider(maxAlign, fs[k].align))
  {
    Suffix(fs, k, end);
    hide EndOf, MaxAlign, AlignUp;
  }

  lemma PlaceLast(fs: seq<Field>, end: nat, maxAlign: nat)
    requires Placing(fs, |fs|, end, maxAlign)
    ensures end == EndOf(fs, 0) && maxAlign == MaxAlign(fs)
  {
    assert fs[|fs|..] == [];
    Finished(end);
    hide EndOf, MaxAlign;
  }

  function Names(fs: seq<Field>): seq<string> {
    seq(|fs|, i requires 0 <= i < |fs| => fs[i].name)
  }

  lemma NamesStep(fs: seq<Field>, k: nat)
    requires k < |fs|
    ensures Names(fs[..k + 1]) == Names(fs[..k]) + [fs[k].name]
  {
  }

  lemma NamesEnds(fs: seq<Field>)
    ensures Names(fs[..0]) == [] && fs[..|fs|] == fs
  {
  }

  /** The rounding both loops of the source spell out: add what the remainder lacks. */
  method RoundUp(offset: nat, align: nat) returns (r: nat)
    requires 0 < align
    ensures r == AlignUp(offset, align)
  {
    r := offset;
    var rem := offset % align;
    if rem != 0 {
      r := r + (align - rem);
    }
  }

  /** The placement loop: where the last field ends, and the widest alignment met. */
  method Place(sorted: seq<Field>) returns (end: nat, maxAlign: nat, order: seq<string>)
    requires Alignable(sorted)
    ensures end == EndOf(sorted, 0) && maxAlign == MaxAlign(sorted)
    ensures order == Names(sorted)
  {
    hide *;
    end, maxAlign, order := 0, 1, [];
    PlaceFirst(sorted);
    NamesEnds(sorted);
    for k := 0 to |sorted|
      invariant order == Names(sorted[..k])
      invariant Placing(sorted, k, end, maxAlign)
    {
      var field := sorted[k];
      PlaceNext(sorted, k, end, maxAlign);
      NamesStep(sorted, k);
      maxAlign := Wider(maxAlign, field.align);
      end := RoundUp(end, field.align);
      order := order + [field.name];
      end := end + field.size;
    }
    PlaceLast(sorted, end, maxAlign);
  }

  lemma Suffix(fs: seq<Field>, k: nat, start: nat)
    requires Alignable(fs) && k < |fs|
    ensures 0 < fs[k].align && Alignable(fs[k..]) && Alignable(fs[k + 1..])
    ensures EndOf(fs[k..], start) == EndOf(fs[k + 1..], AlignUp(start, fs[k].align) + fs[k].size)
    ensures MaxAlign(fs[k..]) == Wider(fs[k].align, MaxAlign(fs[k + 1..]))
  {
    assert fs[k..][0] == fs[k] && fs[k..][1..] == fs[k + 1..];
  }

  lemma Finished(start: nat)
    ensures Alignable([]) && EndOf([], start) == start && MaxAlign([]) == 1
  {
  }

  /**
   `optimize_layout`: sort, place, tail padding, cache lines. A zero alignment would make the
   remainder in the placement loop panic.
   */
  method OptimizeLayout(fields: seq<Field>, cacheLineSize: nat) returns (report: Report)
    requires Alignable(fields)
    ensures Alignable(SortFields(fields)) && report.totalSize == TotalSize(SortFields(fields))
    ensures report.order == Names(SortFields(fields))
    ensures report.padding == report.totalSize - SumSizes(fields) && report.padding >= 0
    ensures report.cacheLines == CeilDiv(report.totalSize, if cacheLineSize > 0 then cacheLineSize else 64)
  {
    var sorted := SortFields(fields);
    SameMembers(fields, sorted);
    var offset, maxAlign, order := Place(sorted);
    EndAtLeastSum(sorted, 0);
    SumSizesPermuted(sorted, fields);
    offset := RoundUp(offset, maxAlign);
    var line := if cacheLineSize > 0 then cacheLineSize else 64;
    report := Report(order, offset, offset - SumSizes(fields), CeilDiv(offset, line));
  }

  /**
   Without the size condition greed can lose: a 5-byte field aligned to 4, a 4-byte field aligned
   to 4 and a byte take 16 bytes in the greedy order and 12 in another.
   */
  lemma OddSizesLose(five: Field, four: Field, one: Field)
    requires five.size == 5 && five.align == 4 && four.size == 4 && four.align == 4
    requires one.size == 1 && one.align == 1
    ensures SortFields([five, four, one]) == [five, four, one]
    ensures multiset([five, four, one]) == multiset([five, one, four])
    ensures Alignable([five, four, one]) && TotalSize([five, four, one]) == 16
    ensures Alignable([five, one, four]) && TotalSize([five, one, four]) == 12
  {
    hide *;
    InOrder(five, four, one);
    AlreadySorted(Before, [five, four, one]);
    SortIsSort([five, four, one]);
    ThreeFields(five, four, one);
    ThreeFields(five, one, four);
    Roundings();
    AlignedTotal([five, four, one]);
    AlignedTotal([five, one, four]);
  }

  /** All fields but `f` have sizes that are multiples of power-of-two alignments. */
  ghost predicate OthersWellSized(fs: seq<Field>, f: Field) {
    forall g | g in fs && g != f :: WellSized([g])
  }

  predicate Permuted(a: seq<Field>, b: seq<Field>) {
    multiset(a) == multiset(b)
  }

  /** No list that the field is in is packed better in any order than in the greedy one. */
  ghost predicate NeverLoses(f: Field) {
    forall fs, other | f in fs && Alignable(fs) && OthersWellSized(fs, f) && Permuted(other, fs) ::
      Alignable(SortFields(fs)) && Alignable(other) && TotalSize(SortFields(fs)) <= TotalSize(other)
  }

  /** Among well-sized fields, a field makes greed lose exactly when its size is no multiple of its alignment. */
  lemma LosesExactly(f: Field)
    requires PowerOfTwo(f.align) && 0 < f.align
    ensures NeverLoses(f) <==> f.size % f.align == 0
  {
    if f.size % f.align == 0 {
      forall fs, other | f in fs && Alignable(fs) && OthersWellSized(fs, f) && Permuted(other, fs)
        ensures Alignable(SortFields(fs)) && Alignable(other) && TotalSize(SortFields(fs)) <= TotalSize(other)
      {
        AllWellSized(fs, f);
        GreedyIsOptimal(fs, other);
      }
    } else {
      Counterexample(f);
    }
  }

  lemma AllWellSized(fs: seq<Field>, f: Field)
    requires OthersWellSized(fs, f) && PowerOfTwo(f.align) && 0 < f.align && f.size % f.align == 0
    ensures WellSized(fs)
  {
    forall g | g in fs
      ensures PowerOfTwo(g.align) && 0 < g.align && g.size % g.align == 0
    {
      assert g in [g];
    }
    hide PowerOfTwo;
  }

  /** An empty field of the same alignment, and a byte. */
  lemma Counterexample(f: Field)
    requires PowerOfTwo(f.align) && 0 < f.align && f.size % f.align != 0
    ensures !NeverLoses(f)
  {
    var empty, byte := Field("", 0, f.align), Field("", 1, 1);
    var greedy, better := [f, empty, byte], [empty, f, byte];
    Companions(f, empty, byte);
    hide *;
    GreedyTotal(f, empty, byte);
    BetterTotal(f, empty, byte);
    AlreadySorted(Before, greedy);
    SortIsSort(greedy);
    Refutes(f, greedy, better);
  }

  lemma Refutes(f: Field, greedy: seq<Field>, better: seq<Field>)
    requires f in greedy && Alignable(greedy) && OthersWellSized(greedy, f) && Permuted(better, greedy)
    requires SortFields(greedy) == greedy && Alignable(better) && TotalSize(greedy) > TotalSize(better)
    ensures !NeverLoses(f)
  {
    hide OthersWellSized, SortFields, TotalSize;
  }

  lemma Companions(f: Field, empty: Field, byte: Field)
    requires PowerOfTwo(f.align) && 0 < f.align && f.size % f.align != 0
    requires empty == Field("", 0, f.align) && byte == Field("", 1, 1)
    ensures var greedy, better := [f, empty, byte], [empty, f, byte];
            && f in greedy && Alignable(greedy) && Alignable(better) && OthersWellSized(greedy, f)
            && Permuted(better, greedy) && Sorted(Before, greedy) && 1 < f.align
  {
    assert 1 == Pow2(0);
    assert PowerOfTwo(1);
    hide PowerOfTwo;
  }

  lemma GreedyTotal(f: Field, empty: Field, byte: Field)
    requires 1 < f.align && empty == Field("", 0, f.align) && byte == Field("", 1, 1)
    ensures Alignable([f, empty, byte])
    ensures TotalSize([f, empty, byte]) == AlignUp(AlignUp(f.size, f.align) + 1, f.align)
  {
    var fs := [f, empty, byte];
    hide AlignUp, EndOf, MaxAlign;
    assert Alignable(fs);
    EndOfThree(fs);
    WidestIs(fs, f);
    AlignZero(f.align);
    AlignOne(AlignUp(f.size, f.align));
    AlignOne(f.size);
    AlignedTotal(fs);
    hide TotalSize;
  }

  lemma BetterTotal(f: Field, empty: Field, byte: Field)
    requires 1 < f.align && f.size % f.align != 0 && empty == Field("", 0, f.align) && byte == Field("", 1, 1)
    requires Alignable([f, empty, byte])
    requires TotalSize([f, empty, byte]) == AlignUp(AlignUp(f.size, f.align) + 1, f.align)
    ensures Alignable([empty, f, byte])
    ensures TotalSize([empty, f, byte]) == AlignUp(f.size + 1, f.align) < TotalSize([f, empty, byte])
  {
    var fs := [empty, f, byte];
    hide AlignUp, EndOf, MaxAlign;
    assert Alignable(fs);
    EndOfThree(fs);
    WidestIs(fs, f);
    AlignZero(f.align);
    AlignOne(f.size);
    OneMore(f.size, f.align);
    AlignedTotal(fs);
    hide TotalSize;
  }

  lemma AlignZero(a: nat)
    requires 0 < a
    ensures AlignUp(0, a) == 0
  {
  }

  lemma AlignOne(x: nat)
    ensures AlignUp(x, 1) == x
  {
  }

  /** A byte fits into the padding there is, and otherwise starts another unit. */
  lemma OneMore(x: nat, a: nat)
    requires 1 < a && x % a != 0
    ensures AlignUp(x + 1, a) < AlignUp(AlignUp(x, a) + 1, a)
  {
    AlignUpMultiple(x, a);
    AlignUpLeast(x + 1, AlignUp(x, a), a);
  }

  lemma WidestIs(fs: seq<Field>, widest: Field)
    requires widest in fs && 1 < widest.align && forall f | f in fs :: f.align <= widest.align
    ensures MaxAlign(fs) == widest.align
  {
  }

  lemma InOrder(a: Field, b: Field, c: Field)
    requires a.align == b.align == 4 && c.align == 1 && a.size >= b.size
    ensures Sorted(Before, [a, b, c])
  {
  }

  lemma Roundings()
    ensures AlignUp(5, 4) == 8 && AlignUp(12, 1) == 12 && AlignUp(13, 4) == 16
    ensures AlignUp(5, 1) == 5 && AlignUp(6, 4) == 8 && AlignUp(12, 4) == 12
  {
  }

  lemma AlignedTotal(fs: seq<Field>)
    requires Alignable(fs)
    ensures TotalSize(fs) == AlignUp(EndOf(fs, 0), MaxAlign(fs))
  {
  }

  lemma ThreeFields(a: Field, b: Field, c: Field)
    requires a.align == 4 && a.size == 5 && 0 < b.align <= 4 && 0 < c.align <= 4
    ensures Alignable([a, b, c]) && MaxAlign([a, b, c]) == 4
    ensures EndOf([a, b, c], 0) == AlignUp(AlignUp(5, b.align) + b.size, c.align) + c.size
  {
    EndOfThree([a, b, c]);
    WidestIs([a, b, c], a);
  }

  lemma EndOfNext(fs: seq<Field>, start: nat)
    requires Alignable(fs) && fs != []
    ensures Alignable(fs[1..]) && 0 < fs[0].align
    ensures EndOf(fs, start) == EndOf(fs[1..], AlignUp(start, fs[0].align) + fs[0].size)
  {
  }

  lemma EndOfTwo(fs: seq<Field>, start: nat)
    requires Alignable(fs) && |fs| == 2
    ensures EndOf(fs, start) == AlignUp(AlignUp(start, fs[0].align) + fs[0].size, fs[1].align) + fs[1].size
  {
    EndOfNext(fs, start);
    var next := AlignUp(start, fs[0].align) + fs[0].size;
    EndOfNext(fs[1..], next);
    Finished(AlignUp(next, fs[1].align) + fs[1].size);
    hide EndOf, AlignUp;
    assert fs[1..][1..] == [];
  }

  lemma EndOfThree(fs: seq<Field>)
    requires Alignable(fs) && |fs| == 3
    ensures var end := AlignUp(0, fs[0].align) + fs[0].size;
            EndOf(fs, 0) == AlignUp(AlignUp(end, fs[1].align) + fs[1].size, fs[2].align) + fs[2].size
  {
    EndOfNext(fs, 0);
    EndOfTwo(fs[1..], AlignUp(0, fs[0].align) + fs[0].size);
    hide EndOf, AlignUp;
  }

  lemma SortIsSort(fs: seq<Field>)
    ensures SortFields(fs) == Sort(Before, fs)
  {
  }
}
