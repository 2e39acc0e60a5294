/** Export names: section 2.5.10 of the WebAssembly Core Specification wants them all different. */
module WasmExports {
  import opened Mir
  import opened Options
  import opened WasmEmission
  import opened WasmLowering
  import opened WasmMachine
  import opened WasmModule
  import opened WasmTyping
  import opened WasmValidation
  import opened Words

  // ----- names are told apart by their bytes

  function Width(first: byte): nat {
    if first < 0xC0 then 1 else if first < 0xE0 then 2 else if first < 0xF0 then 3 else 4
  }

  /** The scalar value of one encoded character. */
  function CodePoint(bs: seq<byte>): int
    requires bs != [] && |bs| == Width(bs[0])
  {
    if |bs| == 1 then bs[0] else Tail(if |bs| == 2 then 0xC0 else if |bs| == 3 then 0xE0 else 0xF0, bs)
  }

  /** Six bits from each continuation byte behind what the first byte holds above its tag. */
  function Tail(tag: int, bs: seq<byte>): int
    requires bs != []
  {
    var last: int := bs[|bs| - 1];
    if |bs| == 1 then last - tag else Tail(tag, bs[..|bs| - 1]) * 0x40 + (last - 0x80)
  }

  lemma TailStep(tag: int, front: seq<byte>, last: byte)
    requires front != []
    ensures var low: int := last; Tail(tag, front + [last]) == Tail(tag, front) * 0x40 + (low - 0x80)
  {
    assert (front + [last])[..|front|] == front;
  }

  /** The value of four sextets, the first absent ones being zero. */
  lemma Sextets(n: nat)
    ensures n == n / 0x40 * 0x40 + n % 0x40
    ensures n / 0x40 == n / 0x1000 * 0x40 + n / 0x40 % 0x40
    ensures n / 0x1000 == n / 0x4_0000 * 0x40 + n / 0x1000 % 0x40
  {
  }

  lemma TwoBytes(x: nat, y: nat)
    requires x < 0x20 && y < 0x40
    ensures Width(0xC0 + x) == 2 && CodePoint([0xC0 + x, 0x80 + y]) == x * 0x40 + y
  {
    Lead(0xC0, 0xC0 + x);
    TailStep(0xC0, [0xC0 + x], 0x80 + y);
    assert [0xC0 + x, 0x80 + y] == [0xC0 + x] + [0x80 + y];
    hide Tail;
  }

  lemma ThreeBytes(x: nat, y: nat, z: nat)
    requires x < 0x10 && y < 0x40 && z < 0x40
    ensures Width(0xE0 + x) == 3 && CodePoint([0xE0 + x, 0x80 + y, 0x80 + z]) == (x * 0x40 + y) * 0x40 + z
  {
    Lead(0xE0, 0xE0 + x);
    TailStep(0xE0, [0xE0 + x], 0x80 + y);
    TailStep(0xE0, [0xE0 + x] + [0x80 + y], 0x80 + z);
    assert [0xE0 + x, 0x80 + y, 0x80 + z] == [0xE0 + x] + [0x80 + y] + [0x80 + z];
    hide Tail;
  }

  lemma FourBytes(w: nat, x: nat, y: nat, z: nat)
    requires w < 0x10 && x < 0x40 && y < 0x40 && z < 0x40
    ensures Width(0xF0 + w) == 4
    ensures CodePoint([0xF0 + w, 0x80 + x, 0x80 + y, 0x80 + z]) == ((w * 0x40 + x) * 0x40 + y) * 0x40 + z
  {
    Lead(0xF0, 0xF0 + w);
    TailStep(0xF0, [0xF0 + w], 0x80 + x);
    TailStep(0xF0, [0xF0 + w] + [0x80 + x], 0x80 + y);
    TailStep(0xF0, [0xF0 + w] + [0x80 + x] + [0x80 + y], 0x80 + z);
    assert [0xF0 + w, 0x80 + x, 0x80 + y, 0x80 + z] == [0xF0 + w] + [0x80 + x] + [0x80 + y] + [0x80 + z];
    hide Tail;
  }

  lemma CharBack(c: char)
    ensures var bs := Utf8Char(c);
            bs != [] && |bs| == Width(bs[0]) && CodePoint(bs) == c as int
  {
    var n := c as int;
    Sextets(n);
    if n >= 0x1_0000 {
      FourBytes(n / 0x4_0000, n / 0x1000 % 0x40, n / 0x40 % 0x40, n % 0x40);
      hide CodePoint;
    } else if n >= 0x800 {
      ThreeBytes(n / 0x1000, n / 0x40 % 0x40, n % 0x40);
      hide CodePoint;
    } else if n >= 0x80 {
      TwoBytes(n / 0x40, n % 0x40);
      hide CodePoint;
    }
  }

  lemma Lead(tag: int, first: byte)
    ensures Tail(tag, [first]) == first - tag
  {
  }

  lemma CharPrefix(c: char, d: char, x: seq<byte>, y: seq<byte>)
    requires Utf8Char(c) + x == Utf8Char(d) + y
    ensures c == d && x == y
  {
    CharBack(c);
    CharBack(d);
    hide Utf8Char, CodePoint;
    var w := Utf8Char(c) + x;
    assert w[0] == Utf8Char(c)[0] && w[0] == Utf8Char(d)[0];
    var n := Width(w[0]);
    assert w[..n] == Utf8Char(c) && w[..n] == Utf8Char(d);
    assert w[n..] == x && w[n..] == y;
  }

  lemma {:induction false} Utf8Injective(a: string, b: string)
    requires Utf8(a) == Utf8(b)
    ensures a == b
  {
    if a == [] || b == [] {
      if a != [] {
        CharBack(a[0]);
      }
      if b != [] {
        CharBack(b[0]);
      }
    } else {
      assert Utf8(a) == Utf8Char(a[0]) + Utf8(a[1..]);
      assert Utf8(b) == Utf8Char(b[0]) + Utf8(b[1..]);
      CharPrefix(a[0], b[0], Utf8(a[1..]), Utf8(b[1..]));
      hide Utf8, Utf8Char;
      Utf8Injective(a[1..], b[1..]);
      assert a == [a[0]] + a[1..] && b == [b[0]] + b[1..];
    }
  }

  lemma MemoryName()
    ensures Utf8("memory") == MEMORY_NAME
  {
    Letters("memory", 0);
    Letters("memory", 1);
    Letters("memory", 2);
    Letters("memory", 3);
    Letters("memory", 4);
    Letters("memory", 5);
    Letters("memory", 6);
    hide Utf8;
  }

  lemma Letters(s: string, k: nat)
    requires k <= |s|
    ensures k == |s| ==> Utf8(s[k..]) == []
    ensures k < |s| ==> Utf8(s[k..]) == Utf8Char(s[k]) + Utf8(s[k + 1..])
    ensures k == 0 ==> s[k..] == s
  {
    if k < |s| {
      assert s[k..][1..] == s[k + 1..];
    }
    hide Utf8Char;
  }

  // ----- the emitted module

  ghost predicate DistinctNames(exports: seq<Export>) {
    forall i, j | 0 <= i < j < |exports| :: exports[i].name != exports[j].name
  }

  /** Function names are unique and leave the name of the memory alone. */
  predicate NamesFree(fs: seq<Function>) {
    && (forall i, j | 0 <= i < j < |fs| :: fs[i].name != fs[j].name)
    && forall i | 0 <= i < |fs| :: fs[i].name != "memory"
  }

  lemma ExportName(fs: seq<Function>, i: nat)
    requires i <= |fs|
    ensures |AllExports(CompiledModule(fs))| == |fs| + 1
    ensures AllExports(CompiledModule(fs))[i].name == if i < |fs| then Utf8(fs[i].name) else Utf8("memory")
  {
    CompiledIsEmitted(fs);
    MemoryName();
    hide Utf8, CompiledModule;
    if i < |fs| {
      assert HoldsFunction(CompiledModule(fs), fs[i], i);
    }
  }

  /** The emitted exports have different names exactly when the function names do and none is `memory`. */
  lemma ExportNamesDistinct(fs: seq<Function>)
    ensures DistinctNames(AllExports(CompiledModule(fs))) <==> NamesFree(fs)
  {
    hide Utf8, AllExports, CompiledModule;
    var all := AllExports(CompiledModule(fs));
    ExportName(fs, |fs|);
    forall i | 0 <= i < |fs|
      ensures all[i].name == Utf8(fs[i].name)
    {
      ExportName(fs, i);
    }
    if NamesFree(fs) {
      forall i, j | 0 <= i < j < |all|
        ensures all[i].name != all[j].name
      {
        if all[i].name == all[j].name {
          Utf8Injective(fs[i].name, if j < |fs| then fs[j].name else "memory");
        }
      }
    }
    if DistinctNames(all) {
      forall i, j | 0 <= i < j < |fs|
        ensures fs[i].name != fs[j].name
      {
        assert all[i].name != all[j].name;
      }
      forall i | 0 <= i < |fs|
        ensures fs[i].name != "memory"
      {
        assert all[i].name != all[|fs|].name;
      }
    }
  }

  lemma ExportsAre(fs: seq<Function>, d: Decoded)
    requires LengthsFit(CompiledModule(fs)) && ReadModule(ModuleBytes(CompiledModule(fs))) == Some(d)
    ensures d.exports == AllExports(CompiledModule(fs)) && |d.functions| == |fs| && d.memories == [1]
    ensures DistinctNames(d.exports) <==> NamesFree(fs)
  {
    hide *;
    var m := CompiledModule(fs);
    CompiledIsEmitted(fs);
    WellFormedWhenEmitted(m, fs);
    ModuleRoundTrip(m);
    ExportNamesDistinct(fs);
    MemoryPart(m);
    EmittedCounts(m, fs);
  }

  lemma EmittedCounts(m: Module, fs: seq<Function>)
    requires Emitted(m, fs)
    ensures |m.functions| == |fs|
  {
    hide HoldsFunction;
  }

  lemma FunctionValid(fs: seq<Function>, d: Decoded, i: nat)
    requires LengthsFit(CompiledModule(fs)) && ReadModule(ModuleBytes(CompiledModule(fs))) == Some(d)
    requires i < |fs| && Disciplined(fs[i]) && |fs[i].params| < TWO_32
    ensures ValidFunction(d, i)
    ensures i < |d.exports| && ValidExport(d, d.exports[i])
    ensures d.exports[|d.exports| - 1] == Export([0x6d, 0x65, 0x6d, 0x6f, 0x72, 0x79], 2, 0) && |d.exports| == |fs| + 1
  {
    hide *;
    var d' := EmittedModuleDecodes(fs, i);
    LoweredValid(fs[i], d.types[d.functions[i]]);
    PartsValid(d, i, LowerFunction(fs[i]));
  }

  lemma PartsValid(d: Decoded, i: nat, code: seq<WasmInstr>)
    requires i < |d.functions| == |d.code| < |d.exports| && d.functions[i] < |d.types|
    requires ReadBody(d.code[i]) == Some(code) && ValidBody(d.types[d.functions[i]], code)
    requires d.exports[i].kind == 0 && d.exports[i].index == i
    ensures ValidFunction(d, i) && ValidExport(d, d.exports[i])
  {
    hide ReadBody, ValidBody;
  }

  /**
   The binary of a module of disciplined functions is valid exactly when the function names are
   different and none of them is `memory`.
   */
  lemma EmittedModuleValid(fs: seq<Function>) returns (d: Decoded)
    requires LengthsFit(CompiledModule(fs)) && fs != []
    requires forall f | f in fs :: Disciplined(f) && |f.params| < TWO_32
    ensures ReadModule(ModuleBytes(CompiledModule(fs))) == Some(d)
    ensures ValidModule(d) <==> NamesFree(fs)
  {
    hide *;
    d := EmittedModuleDecodes(fs, 0);
    ExportsAre(fs, d);
    forall i | 0 <= i < |fs|
      ensures ValidFunction(d, i) && i < |d.exports| && ValidExport(d, d.exports[i])
    {
      assert fs[i] in fs;
      FunctionValid(fs, d, i);
    }
    AllValid(d, |fs|);
  }

  lemma AllValid(d: Decoded, n: nat)
    requires |d.functions| == n && |d.exports| == n + 1 && d.memories == [1] && d.exports[n].kind == 2
    requires d.exports[n].index == 0
    requires forall i | 0 <= i < n :: ValidFunction(d, i) && ValidExport(d, d.exports[i])
    ensures ValidModule(d) <==> DistinctNames(d.exports)
  {
    hide ValidFunction;
    forall e | e in d.exports
      ensures ValidExport(d, e)
    {
      var j :| 0 <= j < |d.exports| && d.exports[j] == e;
    }
  }
}
