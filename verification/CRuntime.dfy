/**
 The routines of the C runtime, by the return types of their prototypes: what a call of one is declared
 as, and what name it goes by.
 */
module CRuntime {
  import opened CEmission
  import opened CInference
  import opened CTypes
  import opened Mir
  import opened Options

  /** The prototypes of `agam_` and the given name, in the runtime's own C files. */
  function Prototype(routine: string): Option<CType> {
    if routine in {"argc", "parse_int"} then Some(Int)                                              // common
    else if routine == "clock" then Some(Float)
    else if routine in {"argv", "str_concat"} then Some(Str)
    else if routine in {"adam", "dataframe_mean"} then Some(Float)                                  // data frames
    else if routine in {"dataframe_build_sin", "dataframe_filter_gt"} then Some(DataFrame)
    else if routine in {"dataframe_sort", "dataframe_group_by"} then Some(DataFrame)
    else if routine == "dataframe_free" then Some(Int)
    else if routine in {"tensor_fill_rand", "dense_layer", "conv2d"} then Some(Tensor)              // tensors
    else if routine == "tensor_checksum" then Some(Float)
    else if routine == "tensor_free" then Some(Int)
    else if routine == "gpu_malloc" then Some(OpaquePtr)                                            // GPU host
    else if routine in {"gpu_free", "gpu_memcpy_to_device", "gpu_memcpy_to_host"} then Some(Int)
    else None
  }

  /** The prototype of `agam_effect_`, the effect, an underscore and the operation. */
  function EffectPrototype(effect: string, operation: string): Option<CType> {
    if effect == "FileSystem" then
      if operation in {"exists", "is_file", "is_dir"} then Some(Bool)
      else if operation in {"create_dir_all", "write_string", "append_string"} then Some(Int)
      else if operation in {"read_to_string", "read_lines", "list_dir"} then Some(Str)
      else None
    else if effect == "Console" then
      if operation in {"print", "println", "eprint", "eprintln"} then Some(Int)
      else if operation == "read_line" then Some(Str)
      else None
    else None
  }

  predicate Plain(name: string) {
    '.' !in name && ':' !in name
  }

  lemma {:induction false} PlainReplaced(name: string)
    requires Plain(name)
    ensures ReplacePaths(name) == name && ReplaceDots(name) == name
  {
    if name != "" {
      assert name[0] in name && forall c | c in name[1..] :: c in name;
      PlainReplaced(name[1..]);
    }
  }

  /** A name without dots and path separators keeps its spelling behind the prefix. */
  lemma PlainMangled(name: string)
    requires Plain(name)
    ensures MangleName(name) == "agam_" + name
  {
    PlainReplaced(name);
  }

  lemma PointersPlain(routine: string)
    requires Prototype(routine).Some? && Prototype(routine).value in {DataFrame, Tensor, OpaquePtr}
    ensures Plain(routine)
  {
  }

  lemma IntsPlain(routine: string)
    requires Prototype(routine) == Some(Int)
    ensures Plain(routine)
  {
  }

  lemma OthersPlain(routine: string)
    requires Prototype(routine) == Some(Float) || Prototype(routine) == Some(Str)
    ensures Plain(routine)
  {
  }

  lemma RoutinesPlain(routine: string)
    requires Prototype(routine).Some?
    ensures Plain(routine)
  {
    hide Plain;
    if Prototype(routine).value in {DataFrame, Tensor, OpaquePtr} {
      PointersPlain(routine);
    } else if Prototype(routine) == Some(Int) {
      IntsPlain(routine);
    } else {
      OthersPlain(routine);
    }
  }

  /** Each routine but the concatenation is a builtin of the same type. */
  lemma RoutinesBuiltin(routine: string)
    requires Prototype(routine).Some? && routine != "str_concat"
    ensures BuiltinType(routine) == Prototype(routine)
  {
  }

  lemma RoutinesNotPrinted(routine: string)
    requires Prototype(routine).Some?
    ensures !IsPrintBuiltin(routine)
  {
  }

  lemma KnownRoutine(rt: Returns, routine: string)
    requires Prototype(routine).Some? && routine != "str_concat"
    ensures CallType(rt, routine) == Prototype(routine).value && !IsPrintBuiltin(routine)
  {
    hide Prototype, BuiltinType, IsPrintBuiltin;
    RoutinesBuiltin(routine);
    RoutinesNotPrinted(routine);
  }

  lemma RoutinesTyped(routine: string, rt: Returns)
    requires Prototype(routine).Some? && routine !in rt
    ensures CallType(rt, routine) == Prototype(routine).value <==> routine != "str_concat"
    ensures !IsPrintBuiltin(routine)
  {
    if routine != "str_concat" {
      hide *;
      KnownRoutine(rt, routine);
    }
  }

  lemma BuiltinsHavePrototypes(name: string)
    requires BuiltinType(name).Some?
    ensures Prototype(name) == BuiltinType(name) && name != "str_concat"
  {
  }

  /**
   A call of a runtime routine goes to the routine, and its result is declared with the type of the
   prototype, except for the concatenation, which the inference does not know by name.
   */
  lemma RuntimeCallTyped(f: Function, rt: Returns, k: nat)
    requires UniqueResults(f) && k < |AllInstrs(f.blocks)| && AllInstrs(f.blocks)[k].op.Call?
    requires var callee := AllInstrs(f.blocks)[k].op.callee; Prototype(callee).Some? && callee !in rt
    ensures var i := AllInstrs(f.blocks)[k];
            && MangleName(i.op.callee) == "agam_" + i.op.callee && !IsPrintBuiltin(i.op.callee)
            && (Analysis(f, rt).ValueType(i.result) == Prototype(i.op.callee).value <==> i.op.callee != "str_concat")
  {
    hide *;
    var callee := AllInstrs(f.blocks)[k].op.callee;
    CallResultType(f, rt, k);
    RoutinesTyped(callee, rt);
    RoutinesPlain(callee);
    PlainMangled(callee);
  }

  lemma EffectsTyped(effect: string, operation: string)
    requires EffectPrototype(effect, operation).Some?
    ensures EffectPrototype(effect, operation) == Some(EffectType(effect, operation))
  {
  }

  /** An operation of an effect the runtime implements is declared with the type of its prototype. */
  lemma EffectTyped(f: Function, rt: Returns, k: nat)
    requires UniqueResults(f) && k < |AllInstrs(f.blocks)|
    requires var op := AllInstrs(f.blocks)[k].op;
             op.EffectPerform? && EffectPrototype(op.effect, op.operation).Some?
    ensures var i := AllInstrs(f.blocks)[k];
            Some(Analysis(f, rt).ValueType(i.result)) == EffectPrototype(i.op.effect, i.op.operation)
  {
    hide InferInstrs, Seeded, AllInstrs, EffectType, EffectPrototype;
    var op := AllInstrs(f.blocks)[k].op;
    ResultKeepsType(Seeded(f), rt, AllInstrs(f.blocks), k);
    EffectsTyped(op.effect, op.operation);
  }
}
