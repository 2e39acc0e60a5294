/**
 The WebAssembly module builder and the binary it writes, against a decoder for the section grammar
 of the WebAssembly Core Specification 1.0 (sections 5.2.4, 5.3 and 5.5).
 */
module WasmModule {
  import opened Leb128
  import opened Options
  import opened Wire
  import opened Words

  datatype ValType = I32 | I64 | F32 | F64

  datatype FuncType = FuncType(params: seq<ValType>, results: seq<ValType>)

  /** `kind` is 0 for a function, 1 for a table, 2 for a memory, 3 for a global. Names are UTF-8 bytes. */
  datatype Export = Export(name: seq<byte>, kind: byte, index: u32)

  /** The contents of a builder. */
  datatype Module = Module(
    types: seq<FuncType>,
    functions: seq<u32>,
    memoryPages: Option<u32>,
    exports: seq<Export>,
    code: seq<seq<byte>>)

  const HEADER: seq<byte> := [0x00, 0x61, 0x73, 0x6d, 0x01, 0x00, 0x00, 0x00]
  const MEMORY_NAME: seq<byte> := [0x6d, 0x65, 0x6d, 0x6f, 0x72, 0x79]
  const MEMORY_EXPORT := Export(MEMORY_NAME, 2, 0)

  const TYPE_SECTION: byte := 1
  const FUNCTION_SECTION: byte := 3
  const MEMORY_SECTION: byte := 5
  const EXPORT_SECTION: byte := 7
  const CODE_SECTION: byte := 10

  // ----- what the builder writes

  function ValTypeCode(t: ValType): byte {
    match t
    case I32 => 0x7F
    case I64 => 0x7E
    case F32 => 0x7D
    case F64 => 0x7C
  }

  function ValTypeBytes(t: ValType): seq<byte> {
    [ValTypeCode(t)]
  }

  /** A length or count, cast with `as u32`. */
  function Count(n: nat): seq<byte> {
    UnsignedLeb(ToU32(n))
  }

  function Vector<T>(enc: T -> seq<byte>, xs: seq<T>): seq<byte> {
    Count(|xs|) + Concat(enc, xs)
  }

  function FuncTypeBytes(t: FuncType): seq<byte> {
    [0x60] + Vector(ValTypeBytes, t.params) + Vector(ValTypeBytes, t.results)
  }

  function StringBytes(s: seq<byte>): seq<byte> {
    Count(|s|) + s
  }

  function IndexBytes(i: u32): seq<byte> {
    UnsignedLeb(i)
  }

  function LimitBytes(pages: u32): seq<byte> {
    [0x00] + UnsignedLeb(pages)
  }

  function ExportBytes(e: Export): seq<byte> {
    StringBytes(e.name) + [e.kind] + UnsignedLeb(e.index)
  }

  function Section(id: byte, content: seq<byte>): seq<byte> {
    [id] + Count(|content|) + content
  }

  /** A section holding a vector, left out altogether when the vector is empty. */
  function VectorSection<T>(id: byte, enc: T -> seq<byte>, xs: seq<T>): seq<byte> {
    if xs == [] then [] else Section(id, Vector(enc, xs))
  }

  function Memories(m: Module): seq<u32> {
    if m.memoryPages.Some? then [m.memoryPages.value] else []
  }

  /** Setting a memory also exports it. */
  function AllExports(m: Module): seq<Export> {
    if m.memoryPages.Some? then m.exports + [MEMORY_EXPORT] else m.exports
  }

  function ModuleBytes(m: Module): seq<byte> {
    HEADER
    + VectorSection(TYPE_SECTION, FuncTypeBytes, m.types)
    + VectorSection(FUNCTION_SECTION, IndexBytes, m.functions)
    + VectorSection(MEMORY_SECTION, LimitBytes, Memories(m))
    + VectorSection(EXPORT_SECTION, ExportBytes, AllExports(m))
    + VectorSection(CODE_SECTION, StringBytes, m.code)
  }

  // ----- the specification's decoder

  type Reader<T> = seq<byte> -> Option<(T, seq<byte>)>

  function ReadValType(bs: seq<byte>): Option<(ValType, seq<byte>)> {
    if bs == [] then None
    else if bs[0] == 0x7F then Some((I32, bs[1..]))
    else if bs[0] == 0x7E then Some((I64, bs[1..]))
    else if bs[0] == 0x7D then Some((F32, bs[1..]))
    else if bs[0] == 0x7C then Some((F64, bs[1..]))
    else None
  }

  function ReadVector<T>(dec: Reader<T>, bs: seq<byte>): Option<(seq<T>, seq<byte>)> {
    var (n, rest) :- DecodeUnsigned(32, bs);
    DecodeMany(dec, n, rest)
  }

  function ReadFuncType(bs: seq<byte>): Option<(FuncType, seq<byte>)> {
    if bs == [] || bs[0] != 0x60 then None else
    var (params, rest) :- ReadVector(ReadValType, bs[1..]);
    var (results, rest') :- ReadVector(ReadValType, rest);
    Some((FuncType(params, results), rest'))
  }

  function ReadIndex(bs: seq<byte>): Option<(u32, seq<byte>)> {
    var (n, rest) :- DecodeUnsigned(32, bs);
    if n < TWO_32 then Some((n, rest)) else None
  }

  /** A length followed by that many raw bytes: a name, or an entry of the code section. */
  function ReadBytes(bs: seq<byte>): Option<(seq<byte>, seq<byte>)> {
    var (n, rest) :- DecodeUnsigned(32, bs);
    if n <= |rest| then Some((rest[..n], rest[n..])) else None
  }

  /** Limits without a maximum; limits with one (flag 1) are never written. */
  function ReadLimit(bs: seq<byte>): Option<(u32, seq<byte>)> {
    if bs == [] || bs[0] != 0x00 then None else ReadIndex(bs[1..])
  }

  function ReadExport(bs: seq<byte>): Option<(Export, seq<byte>)> {
    var (name, rest) :- ReadBytes(bs);
    if rest == [] || rest[0] > 3 then None else
    var (index, rest') :- ReadIndex(rest[1..]);
    Some((Export(name, rest[0], index), rest'))
  }

  /** An absent section stands for the empty vector; a present one must be used up exactly. */
  function ReadSection<T>(id: byte, dec: Reader<T>, bs: seq<byte>): Option<(seq<T>, seq<byte>)> {
    if bs == [] || bs[0] != id then Some(([], bs)) else
    var (content, rest) :- ReadBytes(bs[1..]);
    var (xs, left) :- ReadVector(dec, content);
    if left == [] then Some((xs, rest)) else None
  }

  datatype Decoded = Decoded(
    types: seq<FuncType>,
    functions: seq<u32>,
    memories: seq<u32>,
    exports: seq<Export>,
    code: seq<seq<byte>>)

  /** A whole module of the five section kinds the builder can write, with every byte consumed. */
  function ReadModule(bs: seq<byte>): Option<Decoded> {
    if !([0x00, 0x61, 0x73, 0x6d, 0x01, 0x00, 0x00, 0x00] <= bs) then None else
    var (types, r1) :- ReadSection(1, ReadFuncType, bs[8..]);
    var (functions, r2) :- ReadSection(3, ReadIndex, r1);
    var (memories, r3) :- ReadSection(5, ReadLimit, r2);
    var (exports, r4) :- ReadSection(7, ReadExport, r3);
    var (code, r5) :- ReadSection(10, ReadBytes, r4);
    if r5 == [] && |functions| == |code| then Some(Decoded(types, functions, memories, exports, code)) else None
  }

  // ----- round trip

  lemma CountRoundTrip(n: nat, rest: seq<byte>)
    requires n < TWO_32
    ensures DecodeUnsigned(32, Count(n) + rest) == Some((n, rest))
  {
    U32RoundTrip(n, rest);
  }

  lemma VectorRoundTrip<T>(enc: T -> seq<byte>, dec: Reader<T>, xs: seq<T>, rest: seq<byte>)
    requires |xs| < TWO_32
    requires forall x | x in xs :: Inverts(enc, dec, x)
    ensures ReadVector(dec, Vector(enc, xs) + rest) == Some((xs, rest))
  {
    assert Vector(enc, xs) + rest == Count(|xs|) + (Concat(enc, xs) + rest);
    CountRoundTrip(|xs|, Concat(enc, xs) + rest);
    DecodeManyRoundTrip(enc, dec, xs, rest);
  }

  lemma ValTypeRoundTrip(t: ValType)
    ensures Inverts(ValTypeBytes, ReadValType, t)
  {
    forall rest: seq<byte>
      ensures ReadValType(ValTypeBytes(t) + rest) == Some((t, rest))
    {
      assert (ValTypeBytes(t) + rest)[1..] == rest;
    }
  }

  lemma FuncTypeRoundTrip(t: FuncType)
    requires |t.params| < TWO_32 && |t.results| < TWO_32
    ensures Inverts(FuncTypeBytes, ReadFuncType, t)
  {
    forall rest: seq<byte>
      ensures ReadFuncType(FuncTypeBytes(t) + rest) == Some((t, rest))
    {
      forall v: ValType
        ensures Inverts(ValTypeBytes, ReadValType, v)
      {
        ValTypeRoundTrip(v);
      }
      var results := Vector(ValTypeBytes, t.results) + rest;
      assert (FuncTypeBytes(t) + rest)[1..] == Vector(ValTypeBytes, t.params) + results;
      VectorRoundTrip(ValTypeBytes, ReadValType, t.params, results);
      VectorRoundTrip(ValTypeBytes, ReadValType, t.results, rest);
    }
  }

  lemma IndexRoundTrip(i: u32)
    ensures Inverts(IndexBytes, ReadIndex, i)
  {
    forall rest: seq<byte>
      ensures ReadIndex(IndexBytes(i) + rest) == Some((i, rest))
    {
      U32RoundTrip(i, rest);
    }
  }

  lemma LimitRoundTrip(pages: u32)
    ensures Inverts(LimitBytes, ReadLimit, pages)
  {
    forall rest: seq<byte>
      ensures ReadLimit(LimitBytes(pages) + rest) == Some((pages, rest))
    {
      assert (LimitBytes(pages) + rest)[1..] == UnsignedLeb(pages) + rest;
      U32RoundTrip(pages, rest);
    }
  }

  lemma ReadBytesBack(s: seq<byte>, rest: seq<byte>)
    requires |s| < TWO_32
    ensures ReadBytes(StringBytes(s) + rest) == Some((s, rest))
  {
    assert StringBytes(s) + rest == Count(|s|) + (s + rest);
    CountRoundTrip(|s|, s + rest);
  }

  lemma StringRoundTrip(s: seq<byte>)
    requires |s| < TWO_32
    ensures Inverts(StringBytes, ReadBytes, s)
  {
    forall rest: seq<byte>
      ensures ReadBytes(StringBytes(s) + rest) == Some((s, rest))
    {
      ReadBytesBack(s, rest);
    }
  }

  lemma ExportRoundTrip(e: Export)
    requires |e.name| < TWO_32 && e.kind <= 3
    ensures Inverts(ExportBytes, ReadExport, e)
  {
    forall rest: seq<byte>
      ensures ReadExport(ExportBytes(e) + rest) == Some((e, rest))
    {
      var index := UnsignedLeb(e.index) + rest;
      assert ExportBytes(e) + rest == StringBytes(e.name) + ([e.kind] + index);
      ReadBytesBack(e.name, [e.kind] + index);
      assert ([e.kind] + index)[1..] == index;
      U32RoundTrip(e.index, rest);
    }
  }

  lemma VectorReadAlone<T>(enc: T -> seq<byte>, dec: Reader<T>, xs: seq<T>)
    requires |xs| < TWO_32
    requires forall x | x in xs :: Inverts(enc, dec, x)
    ensures ReadVector(dec, Vector(enc, xs)) == Some((xs, []))
  {
    VectorRoundTrip(enc, dec, xs, []);
    assert Vector(enc, xs) + [] == Vector(enc, xs);
  }

  lemma PresentSection<T>(id: byte, dec: Reader<T>, content: seq<byte>, xs: seq<T>, rest: seq<byte>)
    requires |content| < TWO_32
    requires ReadVector(dec, content) == Some((xs, []))
    ensures ReadSection(id, dec, Section(id, content) + rest) == Some((xs, rest))
  {
    var bs := Section(id, content) + rest;
    var tail := StringBytes(content) + rest;
    assert bs == [id] + tail;
    assert bs[1..] == tail;
    ReadBytesBack(content, rest);
  }

  /** The bytes after a section do not begin with its own identifier. */
  lemma SectionRoundTrip<T>(id: byte, enc: T -> seq<byte>, dec: Reader<T>, xs: seq<T>, rest: seq<byte>)
    requires |xs| < TWO_32 && |Vector(enc, xs)| < TWO_32
    requires forall x | x in xs :: Inverts(enc, dec, x)
    requires rest == [] || rest[0] != id
    ensures ReadSection(id, dec, VectorSection(id, enc, xs) + rest) == Some((xs, rest))
  {
    if xs == [] {
      assert VectorSection(id, enc, xs) + rest == rest;
    } else {
      VectorReadAlone(enc, dec, xs);
      PresentSection(id, dec, Vector(enc, xs), xs, rest);
    }
  }

  /** Every length and count the builder casts to u32 survives the cast. */
  ghost predicate LengthsFit(m: Module) {
    && |m.types| < TWO_32 && |m.functions| < TWO_32 && |AllExports(m)| < TWO_32 && |m.code| < TWO_32
    && (forall t | t in m.types :: |t.params| < TWO_32 && |t.results| < TWO_32)
    && (forall e | e in m.exports :: |e.name| < TWO_32)
    && (forall c | c in m.code :: |c| < TWO_32)
    && |Vector(FuncTypeBytes, m.types)| < TWO_32
    && |Vector(IndexBytes, m.functions)| < TWO_32
    && |Vector(ExportBytes, AllExports(m))| < TWO_32
    && |Vector(StringBytes, m.code)| < TWO_32
  }

  /** The kinds of section 5.5.10, and one body for each declared function. */
  ghost predicate WellFormed(m: Module) {
    && (forall e | e in m.exports :: e.kind <= 3)
    && |m.functions| == |m.code|
  }

  lemma MemoryContentFits(m: Module)
    ensures |Vector(LimitBytes, Memories(m))| < TWO_32
  {
    if m.memoryPages.Some? {
      var p := m.memoryPages.value;
      U32Shortest(p);
      U32Shortest(1);
      assert Memories(m)[1..] == [];
      assert Concat(LimitBytes, [p]) == LimitBytes(p) + Concat(LimitBytes, []);
    }
  }

  // The binary from each section on: what the decoder still has in front of it.

  function FromCode(m: Module): seq<byte> {
    VectorSection(CODE_SECTION, StringBytes, m.code)
  }

  function FromExports(m: Module): seq<byte> {
    VectorSection(EXPORT_SECTION, ExportBytes, AllExports(m)) + FromCode(m)
  }

  function FromMemories(m: Module): seq<byte> {
    VectorSection(MEMORY_SECTION, LimitBytes, Memories(m)) + FromExports(m)
  }

  function FromFunctions(m: Module): seq<byte> {
    VectorSection(FUNCTION_SECTION, IndexBytes, m.functions) + FromMemories(m)
  }

  function FromTypes(m: Module): seq<byte> {
    VectorSection(TYPE_SECTION, FuncTypeBytes, m.types) + FromFunctions(m)
  }

  lemma CodeSectionReads(m: Module)
    requires LengthsFit(m)
    ensures ReadSection(CODE_SECTION, ReadBytes, FromCode(m)) == Some((m.code, []))
  {
    forall c | c in m.code ensures Inverts(StringBytes, ReadBytes, c) { StringRoundTrip(c); }
    SectionRoundTrip(CODE_SECTION, StringBytes, ReadBytes, m.code, []);
    assert FromCode(m) + [] == FromCode(m);
  }

  lemma ExportSectionReads(m: Module)
    requires LengthsFit(m) && WellFormed(m)
    ensures ReadSection(EXPORT_SECTION, ReadExport, FromExports(m)) == Some((AllExports(m), FromCode(m)))
  {
    forall e | e in AllExports(m) ensures Inverts(ExportBytes, ReadExport, e) { ExportRoundTrip(e); }
    SectionRoundTrip(EXPORT_SECTION, ExportBytes, ReadExport, AllExports(m), FromCode(m));
  }

  lemma MemorySectionReads(m: Module)
    requires LengthsFit(m)
    ensures ReadSection(MEMORY_SECTION, ReadLimit, FromMemories(m)) == Some((Memories(m), FromExports(m)))
  {
    forall p | p in Memories(m) ensures Inverts(LimitBytes, ReadLimit, p) { LimitRoundTrip(p); }
    MemoryContentFits(m);
    SectionRoundTrip(MEMORY_SECTION, LimitBytes, ReadLimit, Memories(m), FromExports(m));
  }

  lemma FunctionSectionReads(m: Module)
    requires LengthsFit(m)
    ensures ReadSection(FUNCTION_SECTION, ReadIndex, FromFunctions(m)) == Some((m.functions, FromMemories(m)))
  {
    forall i | i in m.functions ensures Inverts(IndexBytes, ReadIndex, i) { IndexRoundTrip(i); }
    SectionRoundTrip(FUNCTION_SECTION, IndexBytes, ReadIndex, m.functions, FromMemories(m));
  }

  lemma TypeSectionReads(m: Module)
    requires LengthsFit(m)
    ensures ReadSection(TYPE_SECTION, ReadFuncType, FromTypes(m)) == Some((m.types, FromFunctions(m)))
  {
    forall t | t in m.types ensures Inverts(FuncTypeBytes, ReadFuncType, t) { FuncTypeRoundTrip(t); }
    SectionRoundTrip(TYPE_SECTION, FuncTypeBytes, ReadFuncType, m.types, FromFunctions(m));
  }

  lemma Regroup(h: seq<byte>, a: seq<byte>, b: seq<byte>, c: seq<byte>, d: seq<byte>, e: seq<byte>)
    ensures h + a + b + c + d + e == h + (a + (b + (c + (d + e))))
  {
  }

  lemma BinaryInOrder(m: Module)
    ensures ModuleBytes(m) == HEADER + FromTypes(m)
  {
    Regroup(HEADER,
            VectorSection(TYPE_SECTION, FuncTypeBytes, m.types),
            VectorSection(FUNCTION_SECTION, IndexBytes, m.functions),
            VectorSection(MEMORY_SECTION, LimitBytes, Memories(m)),
            VectorSection(EXPORT_SECTION, ExportBytes, AllExports(m)),
            VectorSection(CODE_SECTION, StringBytes, m.code));
  }

  /** The builder's contents come back from its bytes, with nothing left over. */
  lemma ModuleRoundTrip(m: Module)
    requires LengthsFit(m) && WellFormed(m)
    ensures ReadModule(ModuleBytes(m)) == Some(Decoded(m.types, m.functions, Memories(m), AllExports(m), m.code))
  {
    BinaryInOrder(m);
    assert ModuleBytes(m)[|HEADER|..] == FromTypes(m);
    TypeSectionReads(m);
    FunctionSectionReads(m);
    MemorySectionReads(m);
    ExportSectionReads(m);
    CodeSectionReads(m);
  }
}
