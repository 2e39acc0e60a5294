/** The C types of the emitter, how it merges them, and the layout it infers for a function. */
module CTypes {
  import opened Mir
  import opened Options

  datatype CType = Int | Float | Bool | Str | OpaquePtr | Tensor | DataFrame | Enum | Struct

  /** Types held by value in a C structure. */
  predicate Aggregate(t: CType) {
    t == Struct || t == Enum
  }

  /** `infer_ctype_from_type_id` on the table of built-in type ids. */
  function TypeOfId(ty: TypeId): Option<CType> {
    if ty == 1 then Some(Bool)
    else if ty == 3 then Some(Str)
    else if ty == 5 || ty == 20 then Some(Float)
    else if ty == 4 || 9 <= ty <= 19 || 21 <= ty <= 24 then Some(Int)
    else None
  }

  function OrElse<T>(o: Option<T>, default: T): T {
    if o.Some? then o.value else default
  }

  predicate IsPrintBuiltin(name: string) {
    name in {"print", "println", "print_int", "print_str"}
  }

  function BuiltinType(name: string): Option<CType> {
    if name in {"argc", "parse_int", "gpu_free", "gpu_memcpy_to_device", "gpu_memcpy_to_host",
                "dataframe_free", "tensor_free"} then Some(Int)
    else if name in {"clock", "adam", "dataframe_mean", "tensor_checksum"} then Some(Float)
    else if name in {"dataframe_build_sin", "dataframe_filter_gt", "dataframe_sort", "dataframe_group_by"} then
      Some(DataFrame)
    else if name in {"tensor_fill_rand", "dense_layer", "conv2d"} then Some(Tensor)
    else if name == "argv" then Some(Str)
    else if name == "gpu_malloc" then Some(OpaquePtr)
    else None
  }

  /** Calls whose type does not come from the module's own functions. */
  predicate IsBuiltin(name: string) {
    IsPrintBuiltin(name) || BuiltinType(name).Some?
  }

  function EffectType(effect: string, operation: string): CType {
    if effect == "FileSystem" && operation in {"exists", "is_file", "is_dir"} then Bool
    else if effect == "FileSystem" && operation in {"read_to_string", "read_lines", "list_dir"} then Str
    else if effect == "Console" && operation == "read_line" then Str
    else Int
  }

  function InferBinOp(op: BinOp, l: CType, r: CType): CType {
    if op in {Eq, NotEq, Lt, LtEq, Gt, GtEq, And, Or} then Bool
    else if op == Add && (l == Str || r == Str) then Str
    else if l == OpaquePtr || r == OpaquePtr then OpaquePtr
    else if l == DataFrame || r == DataFrame then DataFrame
    else if l == Tensor || r == Tensor then Tensor
    else if l == Float || r == Float then Float
    else Int
  }

  function InferUnOp(op: UnOp, v: CType): CType {
    if op == Not then Bool
    else if op == Neg && v == Float then Float
    else Int
  }

  function Merge(l: CType, r: CType): CType {
    if l == r then l
    else if l == Enum || r == Enum then Enum
    else if l == Struct || r == Struct then Struct
    else if l == OpaquePtr || r == OpaquePtr then OpaquePtr
    else if l == DataFrame || r == DataFrame then DataFrame
    else if l == Tensor || r == Tensor then Tensor
    else if l == Str || r == Str then Str
    else if l == Float || r == Float then Float
    else if l == Bool || r == Bool then Bool
    else Int
  }

  /** `reduce(merge_type)`. */
  function MergeAll(ts: seq<CType>): Option<CType> {
    if ts == [] then None
    else if |ts| == 1 then Some(ts[0])
    else
      var t :- MergeAll(ts[..|ts| - 1]);
      Some(Merge(t, ts[|ts| - 1]))
  }

  datatype Layout = Layout(
    params: seq<CType>,
    returnTy: CType,
    values: map<ValueId, CType>,
    locals: map<string, CType>,
    valueStructs: map<ValueId, string>,
    localStructs: map<string, string>)
  {
    function ValueType(v: ValueId): CType {
      if v in values then values[v] else Int
    }

    function LocalType(name: string): Option<CType> {
      if name in locals then Some(locals[name]) else None
    }
  }
}
