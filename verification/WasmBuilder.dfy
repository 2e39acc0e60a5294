/** The mutable module builder, method by method, against the binary `WasmModule.ModuleBytes` specifies. */
module WasmBuilder {
  import opened Leb128
  import opened Options
  import opened Sequences
  import opened WasmModule
  import opened Wire
  import opened Words

  /** Where a type is first found. */
  function TypeIndex(types: seq<FuncType>, t: FuncType): (i: nat)
    requires t in types
    ensures i < |types| && types[i] == t && forall j | 0 <= j < i :: types[j] != t
  {
    if types[0] == t then 0 else TypeIndex(types[1..], t) + 1
  }

  method EncodeString(s: seq<byte>, buf: seq<byte>) returns (out: seq<byte>)
    ensures out == buf + StringBytes(s)
  {
    out := EncodeU32Leb128(ToU32(|s|), buf);
    out := out + s;
  }

  method EncodeCount(n: nat) returns (out: seq<byte>)
    ensures out == Count(n)
  {
    out := EncodeU32Leb128(ToU32(n), []);
  }

  method EmitSection(id: byte, content: seq<byte>, buf: seq<byte>) returns (out: seq<byte>)
    ensures out == buf + Section(id, content)
  {
    out := EncodeU32Leb128(ToU32(|content|), buf + [id]);
    out := out + content;
  }

  method EmitValTypes(ts: seq<ValType>, buf: seq<byte>) returns (out: seq<byte>)
    ensures out == buf + Vector(ValTypeBytes, ts)
  {
    out := EncodeU32Leb128(ToU32(|ts|), buf);
    ghost var start := out;
    for i := 0 to |ts|
      invariant out == start + Concat(ValTypeBytes, ts[..i])
    {
      ConcatStep(ValTypeBytes, ts, i);
      out := out + [ValTypeCode(ts[i])];
    }
    assert ts[..|ts|] == ts;
  }

  method EmitFuncType(t: FuncType, buf: seq<byte>) returns (out: seq<byte>)
    ensures out == buf + FuncTypeBytes(t)
  {
    out := EmitValTypes(t.params, buf + [0x60]);
    out := EmitValTypes(t.results, out);
  }

  // One method a section; each writes nothing when its vector is empty.

  method EmitTypeList(types: seq<FuncType>, buf: seq<byte>) returns (out: seq<byte>)
    ensures out == buf + Concat(FuncTypeBytes, types)
  {
    hide FuncTypeBytes;
    out := buf;
    for i := 0 to |types|
      invariant out == buf + Concat(FuncTypeBytes, types[..i])
    {
      ConcatStep(FuncTypeBytes, types, i);
      out := EmitFuncType(types[i], out);
    }
    assert types[..|types|] == types;
  }

  method EmitTypeSection(types: seq<FuncType>, buf: seq<byte>) returns (out: seq<byte>)
    ensures out == buf + VectorSection(TYPE_SECTION, FuncTypeBytes, types)
  {
    if types == [] {
      return buf;
    }
    var content := EncodeCount(|types|);
    content := EmitTypeList(types, content);
    assert content == Vector(FuncTypeBytes, types);
    out := EmitSection(TYPE_SECTION, content, buf);
  }

  method EmitFunctionList(functions: seq<u32>, buf: seq<byte>) returns (out: seq<byte>)
    ensures out == buf + Concat(IndexBytes, functions)
  {
    hide UnsignedLeb;
    out := buf;
    for i := 0 to |functions|
      invariant out == buf + Concat(IndexBytes, functions[..i])
    {
      ConcatStep(IndexBytes, functions, i);
      out := EncodeU32Leb128(functions[i], out);
    }
    assert functions[..|functions|] == functions;
  }

  method EmitFunctionSection(functions: seq<u32>, buf: seq<byte>) returns (out: seq<byte>)
    ensures out == buf + VectorSection(FUNCTION_SECTION, IndexBytes, functions)
  {
    if functions == [] {
      return buf;
    }
    var content := EncodeCount(|functions|);
    content := EmitFunctionList(functions, content);
    assert content == Vector(IndexBytes, functions);
    out := EmitSection(FUNCTION_SECTION, content, buf);
  }

  method EmitMemorySection(pages: u32, buf: seq<byte>) returns (out: seq<byte>)
    ensures out == buf + VectorSection(MEMORY_SECTION, LimitBytes, [pages])
  {
    var sec := EncodeU32Leb128(1, []);
    sec := EncodeU32Leb128(pages, sec + [0x00]);
    MemoryVector(pages);
    out := EmitSection(MEMORY_SECTION, sec, buf);
  }

  lemma MemoryVector(pages: u32)
    ensures Vector(LimitBytes, [pages]) == UnsignedLeb(1) + [0x00] + UnsignedLeb(pages)
  {
    assert [pages][1..] == [];
    assert Concat(LimitBytes, [pages]) == LimitBytes(pages) + Concat(LimitBytes, []);
  }

  method EmitExport(e: Export, buf: seq<byte>) returns (out: seq<byte>)
    ensures out == buf + ExportBytes(e)
  {
    out := EncodeString(e.name, buf);
    out := EncodeU32Leb128(e.index, out + [e.kind]);
  }

  method EmitExportList(exports: seq<Export>, buf: seq<byte>) returns (out: seq<byte>)
    ensures out == buf + Concat(ExportBytes, exports)
  {
    hide ExportBytes;
    out := buf;
    for i := 0 to |exports|
      invariant out == buf + Concat(ExportBytes, exports[..i])
    {
      ConcatStep(ExportBytes, exports, i);
      out := EmitExport(exports[i], out);
    }
    assert exports[..|exports|] == exports;
  }

  /** The explicit exports, then the memory's own: `extra` has one element when a memory is set. */
  method EmitExportSection(exports: seq<Export>, extra: seq<Export>, buf: seq<byte>) returns (out: seq<byte>)
    ensures out == buf + VectorSection(EXPORT_SECTION, ExportBytes, exports + extra)
  {
    var count := |exports| + |extra|;
    if count == 0 {
      return buf;
    }
    var content := EncodeCount(count);
    content := EmitExportList(exports, content);
    content := EmitExportList(extra, content);
    ConcatAppend(ExportBytes, exports, extra);
    assert content == Vector(ExportBytes, exports + extra);
    out := EmitSection(EXPORT_SECTION, content, buf);
  }

  method EmitCodeList(code: seq<seq<byte>>, buf: seq<byte>) returns (out: seq<byte>)
    ensures out == buf + Concat(StringBytes, code)
  {
    hide StringBytes;
    out := buf;
    for i := 0 to |code|
      invariant out == buf + Concat(StringBytes, code[..i])
    {
      ConcatStep(StringBytes, code, i);
      out := EncodeString(code[i], out);
    }
    assert code[..|code|] == code;
  }

  method EmitCodeSection(code: seq<seq<byte>>, buf: seq<byte>) returns (out: seq<byte>)
    ensures out == buf + VectorSection(CODE_SECTION, StringBytes, code)
  {
    if code == [] {
      return buf;
    }
    var content := EncodeCount(|code|);
    content := EmitCodeList(code, content);
    assert content == Vector(StringBytes, code);
    out := EmitSection(CODE_SECTION, content, buf);
  }

  lemma AbsentMemory()
    ensures VectorSection(MEMORY_SECTION, LimitBytes, []) == []
  {
  }

  class WasmModuleBuilder {
    var types: seq<FuncType>
    var functions: seq<u32>
    var exports: seq<Export>
    var code: seq<seq<byte>>
    var memoryPages: Option<u32>

    ghost function Contents(): Module
      reads this
    {
      Module(types, functions, memoryPages, exports, code)
    }

    /** Types are interned, and every declared function has a body. */
    ghost predicate Valid()
      reads this
    {
      Distinct(types) && |functions| == |code|
    }

    constructor ()
      ensures Valid() && Contents() == Module([], [], None, [], [])
    {
      types, functions, exports, code, memoryPages := [], [], [], [], None;
    }

    method AddType(t: FuncType) returns (idx: u32)
      requires Valid()
      modifies this`types
      ensures Valid()
      ensures types == if t in old(types) then old(types) else old(types) + [t]
      ensures t in types && idx == ToU32(TypeIndex(types, t))
    {
      for i := 0 to |types|
        invariant forall j | 0 <= j < i :: types[j] != t
      {
        if types[i] == t {
          assert TypeIndex(types, t) == i;
          return ToU32(i);
        }
      }
      idx := ToU32(|types|);
      types := types + [t];
      assert types[|types| - 1] == t;
      assert TypeIndex(types, t) == |types| - 1;
    }

    method AddFunction(typeIdx: u32, body: seq<byte>) returns (idx: u32)
      requires Valid()
      modifies this`functions, this`code
      ensures Valid()
      ensures functions == old(functions) + [typeIdx] && code == old(code) + [body]
      ensures idx == ToU32(|old(functions)|)
    {
      idx := ToU32(|functions|);
      functions := functions + [typeIdx];
      code := code + [body];
    }

    method AddExport(name: seq<byte>, kind: byte, index: u32)
      requires Valid()
      modifies this`exports
      ensures Valid() && exports == old(exports) + [Export(name, kind, index)]
    {
      exports := exports + [Export(name, kind, index)];
    }

    method SetMemory(minPages: u32)
      requires Valid()
      modifies this`memoryPages
      ensures Valid() && memoryPages == Some(minPages)
    {
      memoryPages := Some(minPages);
    }

    /** The sections in order, each written only when it has something to hold. */
    method BuildBytes() returns (out: seq<byte>)
      ensures out == ModuleBytes(Contents())
    {
      hide FuncTypeBytes, ExportBytes, StringBytes, VectorSection;
      out := HEADER;
      out := EmitTypeSection(types, out);
      out := EmitFunctionSection(functions, out);
      var extra: seq<Export> := [];
      if memoryPages.Some? {
        out := EmitMemorySection(memoryPages.value, out);
        extra := [MEMORY_EXPORT];
      } else {
        AbsentMemory();
      }
      assert exports + extra == AllExports(Contents());
      out := EmitExportSection(exports, extra, out);
      out := EmitCodeSection(code, out);
    }
  }
}
