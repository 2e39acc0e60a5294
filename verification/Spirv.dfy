/**
 SPIR-V modules: instructions framed by word counts, ten sections in the logical order of section
 2.4 of the SPIR-V specification, literal strings as in section 2.2.1, framing as in section 2.3.
 The repository has no reader; the one here follows the specification.
 */
module Spirv {
  import opened Division
  import opened Options
  import opened Wire
  import opened Words

  const MAGIC: u32 := 0x07230203
  const VERSION_1_5: u32 := 0x00010500
  const GENERATOR: u32 := 0x001A0000
  const TWO_16 := 0x1_0000

  /** Opcodes are below 2^16; only those the builder methods use are named. */
  type Opcode = x: int | 0 <= x < TWO_16

  const OP_NAME: Opcode := 5
  const OP_EXTENSION: Opcode := 10
  const OP_EXT_INST_IMPORT: Opcode := 11
  const OP_MEMORY_MODEL: Opcode := 14
  const OP_CAPABILITY: Opcode := 17
  const OP_DECORATE: Opcode := 71

  datatype Instruction = Instruction(opcode: Opcode, operands: seq<u32>)

  // ----- framing

  /** `(word_count << 16) | opcode`: the shift drops the bits that leave the word. */
  function FirstWord(wordCount: u32, opcode: Opcode): u32 {
    Or32(Shl32(wordCount, 16), opcode)
  }

  function Encode(i: Instruction): seq<u32> {
    [FirstWord(ToU32(|i.operands| + 1), i.opcode)] + i.operands
  }

  lemma Pow2Of16()
    ensures Pow2(16) == TWO_16
  {
    Pow2Step7(16);
    Pow2Step7(9);
  }

  lemma ShiftedCount(n: nat)
    ensures Shl32(ToU32(n), 16) == (n % TWO_16) * TWO_16
  {
    Pow2Of16();
    DivMod(n, TWO_16);
    DivMod(ToU32(n), TWO_16);
    DivMod(n, TWO_32);
    DivisionUnique(n, n / TWO_32 * TWO_16 + ToU32(n) / TWO_16, ToU32(n) % TWO_16, TWO_16);
    DivisionUnique(ToU32(n) * TWO_16, ToU32(n) / TWO_16, (n % TWO_16) * TWO_16, TWO_32);
  }

  /** The first word holds the count modulo 2^16 above the opcode. */
  lemma FirstWordSplits(n: nat, opcode: Opcode)
    ensures FirstWord(ToU32(n), opcode) == (n % TWO_16) * TWO_16 + opcode
    ensures FirstWord(ToU32(n), opcode) / TWO_16 == n % TWO_16
    ensures FirstWord(ToU32(n), opcode) % TWO_16 == opcode
  {
    ShiftedCount(n);
    Pow2Of16();
    Pow2Of32();
    OrDisjoint(n % TWO_16, opcode, 16, 32);
    DivisionUnique((n % TWO_16) * TWO_16 + opcode, n % TWO_16, opcode, TWO_16);
    hide Bitwise, Pow2;
  }

  function ReadInstruction(ws: seq<u32>): (r: Option<(Instruction, seq<u32>)>)
    ensures r.Some? ==> |r.value.1| < |ws| && Framed(r.value.0)
  {
    if ws == [] then None else
    var count := ws[0] / TWO_16;
    if count == 0 || count > |ws| then None else
    Some((Instruction(ws[0] % TWO_16, ws[1..count]), ws[count..]))
  }

  /** Instructions until the words run out. */
  function ReadStream(ws: seq<u32>): Option<seq<Instruction>>
    decreases |ws|
  {
    if ws == [] then Some([]) else
    var (i, rest) :- ReadInstruction(ws);
    var later :- ReadStream(rest);
    Some([i] + later)
  }

  /** The word count, first word included, fits its 16 bits. */
  predicate Framed(i: Instruction) {
    |i.operands| < 65535
  }

  predicate AllFramed(instrs: seq<Instruction>) {
    forall i | i in instrs :: Framed(i)
  }

  lemma InstructionBack(i: Instruction, rest: seq<u32>)
    requires Framed(i)
    ensures ReadInstruction(Encode(i) + rest) == Some((i, rest))
  {
    var n := |i.operands| + 1;
    FirstWordSplits(n, i.opcode);
    SmallCount(n);
    hide FirstWord, ToU32;
    ReadFramed(FirstWord(ToU32(n), i.opcode), i, rest);
  }

  lemma SmallCount(n: nat)
    requires n < TWO_16
    ensures ToU32(n) == n && n % TWO_16 == n
  {
  }

  lemma ReadFramed(word: u32, i: Instruction, rest: seq<u32>)
    requires Framed(i) && word / TWO_16 == |i.operands| + 1 && word % TWO_16 == i.opcode
    ensures ReadInstruction([word] + i.operands + rest) == Some((i, rest))
  {
    var ws := [word] + i.operands + rest;
    assert ws[1..|i.operands| + 1] == i.operands && ws[|i.operands| + 1..] == rest;
  }

  /** An instruction reads back exactly when its word count fits in 16 bits. */
  lemma InstructionRoundTrip(i: Instruction, rest: seq<u32>)
    ensures ReadInstruction(Encode(i) + rest) == Some((i, rest)) <==> Framed(i)
  {
    if Framed(i) {
      InstructionBack(i, rest);
    }
  }

  lemma ReadStreamStep(ws: seq<u32>, first: Instruction, rest: seq<u32>)
    requires ReadInstruction(ws) == Some((first, rest)) && ReadStream(rest).Some?
    ensures ReadStream(ws) == Some([first] + ReadStream(rest).value)
  {
    hide Encode, Framed;
  }

  lemma {:induction false} StreamBack(instrs: seq<Instruction>)
    requires AllFramed(instrs)
    ensures ReadStream(Concat(Encode, instrs)) == Some(instrs)
  {
    if instrs != [] {
      var tail := Concat(Encode, instrs[1..]);
      StreamBack(instrs[1..]);
      assert instrs == [instrs[0]] + instrs[1..] && Framed(instrs[0]);
      assert Concat(Encode, instrs) == Encode(instrs[0]) + tail;
      hide *;
      InstructionBack(instrs[0], tail);
      ReadStreamStep(Concat(Encode, instrs), instrs[0], tail);
    }
  }

  lemma {:induction false} ReadStreamFramed(ws: seq<u32>)
    requires ReadStream(ws).Some?
    ensures AllFramed(ReadStream(ws).value)
    decreases |ws|
  {
    if ws != [] {
      var (i, rest) := ReadInstruction(ws).value;
      ReadStreamFramed(rest);
      hide ReadInstruction, Framed;
    }
  }

  lemma StreamRoundTrip(instrs: seq<Instruction>)
    ensures ReadStream(Concat(Encode, instrs)) == Some(instrs) <==> AllFramed(instrs)
  {
    if AllFramed(instrs) {
      StreamBack(instrs);
    }
    if ReadStream(Concat(Encode, instrs)) == Some(instrs) {
      ReadStreamFramed(Concat(Encode, instrs));
    }
  }

  // ----- literal strings

  /** Four characters to a word, lowest byte first; the last word always holds a zero byte. */
  function StringWords(bs: seq<byte>): seq<u32> {
    if |bs| < 4 then Narrow(bs); [FromLittleEndian(bs)]
    else Narrow(bs[..4]); [FromLittleEndian(bs[..4])] + StringWords(bs[4..])
  }

  lemma Narrow(bs: seq<byte>)
    requires |bs| <= 4
    ensures FromLittleEndian(bs) < TWO_32
  {
    FromLittleEndianBound(bs);
    Pow2Step7(32);
    Pow2Of32();
    Pow2Monotone(8 * |bs|, 32);
  }

  lemma {:induction false} Pow2Monotone(j: nat, k: nat)
    requires j <= k
    ensures Pow2(j) <= Pow2(k)
    decreases k - j
  {
    if j < k {
      Pow2Monotone(j + 1, k);
    }
  }

  /** The bytes before the first zero. */
  function UntilNul(bs: seq<byte>): (r: seq<byte>)
    ensures 0 !in r && |r| <= |bs|
  {
    if bs == [] || bs[0] == 0 then [] else [bs[0]] + UntilNul(bs[1..])
  }

  function ReadString(ws: seq<u32>): (r: Option<(seq<byte>, seq<u32>)>)
    ensures r.Some? ==> 0 !in r.value.0
  {
    if ws == [] then None else
    var bs := LittleEndian(ws[0], 4);
    if 0 in bs then Some((UntilNul(bs), ws[1..])) else
    var (more, rest) :- ReadString(ws[1..]);
    Some((bs + more, rest))
  }

  lemma {:induction false} UntilNulStops(bs: seq<byte>, n: nat)
    requires 0 !in bs
    ensures UntilNul(bs + Zeros(n)) == bs
  {
    if bs != [] {
      assert (bs + Zeros(n))[1..] == bs[1..] + Zeros(n);
      UntilNulStops(bs[1..], n);
    } else {
      assert bs + Zeros(n) == Zeros(n);
    }
  }

  lemma {:induction false} StringBack(bs: seq<byte>, rest: seq<u32>)
    requires 0 !in bs
    ensures ReadString(StringWords(bs) + rest) == Some((bs, rest))
    decreases |bs|
  {
    var ws := StringWords(bs) + rest;
    if |bs| < 4 {
      FromLittleEndianRoundTrip(bs, 4);
      assert (bs + Zeros(4 - |bs|))[|bs|] == 0;
      UntilNulStops(bs, 4 - |bs|);
      assert ws[1..] == rest;
      hide LittleEndian, UntilNul, FromLittleEndian;
    } else {
      FromLittleEndianRoundTrip(bs[..4], 4);
      assert bs[..4] + Zeros(0) == bs[..4];
      StringBack(bs[4..], rest);
      assert ws[1..] == StringWords(bs[4..]) + rest;
      assert bs[..4] + bs[4..] == bs;
      hide LittleEndian, UntilNul, FromLittleEndian;
    }
  }

  /** A string reads back exactly when it holds no NUL: the encoder does not reject one. */
  lemma StringRoundTrip(bs: seq<byte>, rest: seq<u32>)
    ensures ReadString(StringWords(bs) + rest) == Some((bs, rest)) <==> 0 !in bs
  {
    if 0 !in bs {
      StringBack(bs, rest);
    }
  }

  /** `current | (b << shift)` puts the next byte above those gathered. */
  lemma Gathered(chunk: seq<byte>, b: byte)
    requires |chunk| < 4
    ensures FromLittleEndian(chunk) < TWO_32
    ensures Or32(FromLittleEndian(chunk), Shl32(b, 8 * |chunk|)) == FromLittleEndian(chunk + [b])
  {
    Narrow(chunk);
    Narrow(chunk + [b]);
    FromLittleEndianAppend(chunk, b);
    FromLittleEndianBound(chunk);
    hide *;
    OrPlaces(FromLittleEndian(chunk), b, 8 * |chunk|);
  }

  lemma FourBytes(bytes: seq<byte>, done: nat)
    requires done + 4 <= |bytes|
    ensures FromLittleEndian(bytes[done..done + 4]) < TWO_32
    ensures StringWords(bytes[done..]) == [FromLittleEndian(bytes[done..done + 4])] + StringWords(bytes[done + 4..])
  {
    Narrow(bytes[done..done + 4]);
    assert bytes[done..][..4] == bytes[done..done + 4] && bytes[done..][4..] == bytes[done + 4..];
  }

  lemma SliceGrows(bytes: seq<byte>, done: nat, i: nat)
    requires done <= i < |bytes|
    ensures bytes[done..i] + [bytes[i]] == bytes[done..i + 1]
  {
  }

  lemma Regroup(words: seq<u32>, word: u32, later: seq<u32>)
    ensures words + ([word] + later) == words + [word] + later
  {
  }

  lemma NoBytes(bytes: seq<byte>, done: nat)
    requires done <= |bytes|
    ensures FromLittleEndian(bytes[done..done]) == 0
  {
  }

  lemma LastBytes(bytes: seq<byte>, done: nat)
    requires done <= |bytes| < done + 4
    ensures FromLittleEndian(bytes[done..|bytes|]) < TWO_32
    ensures StringWords(bytes[done..]) == [FromLittleEndian(bytes[done..|bytes|])]
  {
    Narrow(bytes[done..]);
    assert bytes[done..|bytes|] == bytes[done..];
  }

  /** Words for the bytes before `done` are out; those up to `i` are gathered in `current`. */
  ghost predicate Gathering(bytes: seq<byte>, i: nat, done: nat, shift: nat, current: u32, words: seq<u32>) {
    && done <= i <= |bytes| && shift == 8 * (i - done) && shift < 32
    && current == FromLittleEndian(bytes[done..i])
    && StringWords(bytes) == words + StringWords(bytes[done..])
  }

  lemma StartGathering(bytes: seq<byte>)
    ensures Gathering(bytes, 0, 0, 0, 0, [])
  {
    assert bytes[0..] == bytes;
  }

  lemma TakeByte(bytes: seq<byte>, i: nat, done: nat, shift: nat, current: u32, words: seq<u32>)
    requires i < |bytes| && Gathering(bytes, i, done, shift, current, words)
    ensures var next := Or32(current, Shl32(bytes[i], shift));
            if shift + 8 == 32 then Gathering(bytes, i + 1, i + 1, 0, 0, words + [next])
            else Gathering(bytes, i + 1, done, shift + 8, next, words)
  {
    var next := Or32(current, Shl32(bytes[i], shift));
    Gathered(bytes[done..i], bytes[i]);
    SliceGrows(bytes, done, i);
    if shift + 8 == 32 {
      FourBytes(bytes, done);
      Regroup(words, next, StringWords(bytes[i + 1..]));
      NoBytes(bytes, i + 1);
    }
    hide FromLittleEndian, StringWords, Or32, Shl32;
  }

  lemma StopGathering(bytes: seq<byte>, done: nat, shift: nat, current: u32, words: seq<u32>)
    requires Gathering(bytes, |bytes|, done, shift, current, words)
    ensures words + [current] == StringWords(bytes)
  {
    LastBytes(bytes, done);
    hide FromLittleEndian, StringWords;
  }

  /** `encode_string`: bytes gathered into `current` until four of them fill a word. */
  method EncodeString(bytes: seq<byte>) returns (words: seq<u32>)
    ensures words == StringWords(bytes)
  {
    hide Gathering, StringWords, FromLittleEndian, Or32, Shl32, Bitwise, Pow2;
    words := [];
    var current: u32, shift := 0, 0;
    ghost var done := 0;
    StartGathering(bytes);
    for i := 0 to |bytes|
      invariant 0 <= done && 0 <= shift && Gathering(bytes, i, done, shift, current, words)
    {
      TakeByte(bytes, i, done, shift, current, words);
      current := Or32(current, Shl32(bytes[i], shift));
      shift := shift + 8;
      if shift == 32 {
        words := words + [current];
        current, shift, done := 0, 0, i + 1;
      }
    }
    StopGathering(bytes, done, shift, current, words);
    words := words + [current];
  }

  lemma {:induction false} StringWordsLength(bs: seq<byte>)
    ensures |StringWords(bs)| == |bs| / 4 + 1
    decreases |bs|
  {
    if |bs| >= 4 {
      StringWordsLength(bs[4..]);
    }
    hide FromLittleEndian;
  }

  // ----- sections

  datatype Section =
    | Capabilities | Extensions | ExtInstImports | MemoryModels | EntryPoints
    | ExecutionModes | DebugNames | Annotations | TypesAndConstants | Functions

  /** What the builder holds: the next identifier and the ten section lists. */
  datatype Contents = Contents(
    nextId: u32,
    capabilities: seq<Instruction>, extensions: seq<Instruction>, extInstImports: seq<Instruction>,
    memoryModel: seq<Instruction>, entryPoints: seq<Instruction>, executionModes: seq<Instruction>,
    debugNames: seq<Instruction>, annotations: seq<Instruction>, typesAndConstants: seq<Instruction>,
    functions: seq<Instruction>)

  const EMPTY := Contents(1, [], [], [], [], [], [], [], [], [], [])

  function In(c: Contents, s: Section): seq<Instruction> {
    match s
    case Capabilities => c.capabilities
    case Extensions => c.extensions
    case ExtInstImports => c.extInstImports
    case MemoryModels => c.memoryModel
    case EntryPoints => c.entryPoints
    case ExecutionModes => c.executionModes
    case DebugNames => c.debugNames
    case Annotations => c.annotations
    case TypesAndConstants => c.typesAndConstants
    case Functions => c.functions
  }

  function Push(c: Contents, s: Section, i: Instruction): (r: Contents)
    ensures r.nextId == c.nextId
    ensures forall t: Section :: In(r, t) == if t == s then In(c, t) + [i] else In(c, t)
  {
    match s
    case Capabilities => c.(capabilities := c.capabilities + [i])
    case Extensions => c.(extensions := c.extensions + [i])
    case ExtInstImports => c.(extInstImports := c.extInstImports + [i])
    case MemoryModels => c.(memoryModel := c.memoryModel + [i])
    case EntryPoints => c.(entryPoints := c.entryPoints + [i])
    case ExecutionModes => c.(executionModes := c.executionModes + [i])
    case DebugNames => c.(debugNames := c.debugNames + [i])
    case Annotations => c.(annotations := c.annotations + [i])
    case TypesAndConstants => c.(typesAndConstants := c.typesAndConstants + [i])
    case Functions => c.(functions := c.functions + [i])
  }

  /** The logical layout order: section 2.4 of the SPIR-V specification. */
  function InLogicalOrder(sections: Section -> seq<Instruction>): seq<Instruction> {
    sections(Capabilities) + (sections(Extensions) + (sections(ExtInstImports) + (sections(MemoryModels)
    + (sections(EntryPoints) + (sections(ExecutionModes) + (sections(DebugNames) + (sections(Annotations)
    + (sections(TypesAndConstants) + sections(Functions)))))))))
  }

  function Stream(c: Contents): seq<Instruction> {
    InLogicalOrder(s => In(c, s))
  }

  function HeaderWords(bound: u32): seq<u32> {
    [MAGIC, VERSION_1_5, GENERATOR, bound, 0]
  }

  function ModuleWords(c: Contents): seq<u32> {
    HeaderWords(c.nextId) + Concat(Encode, Stream(c))
  }

  /** Header, then instructions to the end: the identifier bound and the instruction stream. */
  function ReadModule(ws: seq<u32>): Option<(u32, seq<Instruction>)> {
    if |ws| < 5 || ws[0] != 0x07230203 || ws[1] != 0x00010500 || ws[2] != 0x001A0000 || ws[4] != 0 then None else
    var stream :- ReadStream(ws[5..]);
    Some((ws[3], stream))
  }

  /** A module reads back, sections in logical order, exactly when every word count fits. */
  lemma ModuleRoundTrip(c: Contents)
    ensures ReadModule(ModuleWords(c)) == Some((c.nextId, Stream(c))) <==> AllFramed(Stream(c))
  {
    hide ReadModule, ReadStream, Stream, Encode, AllFramed, Concat;
    ReadBehindHeader(c.nextId, Concat(Encode, Stream(c)));
    StreamRoundTrip(Stream(c));
  }

  lemma ReadBehindHeader(bound: u32, body: seq<u32>)
    ensures ReadStream(body).Some? ==> ReadModule(HeaderWords(bound) + body) == Some((bound, ReadStream(body).value))
    ensures ReadStream(body).None? ==> ReadModule(HeaderWords(bound) + body).None?
  {
    assert (HeaderWords(bound) + body)[5..] == body;
    hide ReadStream;
  }

  // ----- bytes

  function ReadWords(bs: seq<byte>): Option<(seq<u32>, seq<byte>)> {
    DecodeMany(ReadU32, |bs| / 4, bs)
  }

  lemma {:induction false} WordBytesLength(ws: seq<u32>)
    ensures |Concat(LeBytes, ws)| == 4 * |ws|
  {
    if ws != [] {
      WordBytesLength(ws[1..]);
    }
  }

  /** The byte form of a module gives back its words with nothing left over. */
  lemma WordsRoundTrip(ws: seq<u32>)
    ensures ReadWords(Concat(LeBytes, ws)) == Some((ws, []))
  {
    WordBytesLength(ws);
    forall w: u32
      ensures Inverts(LeBytes, ReadU32, w)
    {
      forall rest: seq<byte>
        ensures ReadU32(LeBytes(w) + rest) == Some((w, rest))
      {
        ReadU32Back(w, rest);
      }
    }
    DecodeManyRoundTrip(LeBytes, ReadU32, ws, []);
    assert Concat(LeBytes, ws) + [] == Concat(LeBytes, ws);
    hide LeBytes, ReadU32;
  }

  // ----- histories of builder calls

  /** The builder's methods; `PushTo` is the direct push onto a public list. */
  datatype Call =
    | AllocId
    | AddCapability(capability: u32)
    | AddExtension(extension: seq<byte>)
    | AddExtInstImport(library: seq<byte>)
    | SetMemoryModel(addressing: u32, model: u32)
    | AddDebugName(target: u32, name: seq<byte>)
    | AddDecoration(decorated: u32, decoration: u32, extra: seq<u32>)
    | PushTo(section: Section, instruction: Instruction)

  predicate Allocates(call: Call) {
    call.AllocId? || call.AddExtInstImport?
  }

  /** The instruction a call adds, if any, and the section it belongs to. */
  function Emission(call: Call, nextId: u32): Option<(Section, Instruction)> {
    match call
    case AllocId => None
    case AddCapability(cap) => Some((Capabilities, Instruction(OP_CAPABILITY, [cap])))
    case AddExtension(name) => Some((Extensions, Instruction(OP_EXTENSION, StringWords(name))))
    case AddExtInstImport(name) =>
      Some((ExtInstImports, Instruction(OP_EXT_INST_IMPORT, [nextId] + StringWords(name))))
    case SetMemoryModel(addressing, model) => Some((MemoryModels, Instruction(OP_MEMORY_MODEL, [addressing, model])))
    case AddDebugName(target, name) => Some((DebugNames, Instruction(OP_NAME, [target] + StringWords(name))))
    case AddDecoration(target, decoration, extra) =>
      Some((Annotations, Instruction(OP_DECORATE, [target, decoration] + extra)))
    case PushTo(section, instruction) => Some((section, instruction))
  }

  function Perform(c: Contents, call: Call): Contents {
    var counted := if Allocates(call) then c.(nextId := ToU32(c.nextId + 1)) else c;
    match Emission(call, c.nextId)
    case None => counted
    case Some((s, i)) => Push(counted, s, i)
  }

  function Replay(calls: seq<Call>): Contents {
    if calls == [] then EMPTY else Perform(Replay(calls[..|calls| - 1]), calls[|calls| - 1])
  }

  /** Everything added, tagged with its section, in call order. */
  function Log(calls: seq<Call>): seq<(Section, Instruction)> {
    if calls == [] then [] else
    var before := calls[..|calls| - 1];
    match Emission(calls[|calls| - 1], Replay(before).nextId)
    case None => Log(before)
    case Some(e) => Log(before) + [e]
  }

  function Of(log: seq<(Section, Instruction)>, s: Section): seq<Instruction> {
    if log == [] then [] else
    var (t, i) := log[|log| - 1];
    Of(log[..|log| - 1], s) + if t == s then [i] else []
  }

  lemma OfAppend(log: seq<(Section, Instruction)>, e: (Section, Instruction), s: Section)
    ensures Of(log + [e], s) == Of(log, s) + if e.0 == s then [e.1] else []
  {
    assert (log + [e])[..|log|] == log;
  }

  lemma {:induction false} SectionsHoldTheirCalls(calls: seq<Call>, s: Section)
    ensures In(Replay(calls), s) == Of(Log(calls), s)
    decreases |calls|
  {
    if calls != [] {
      var before := calls[..|calls| - 1];
      SectionsHoldTheirCalls(before, s);
      hide Emission, StringWords, In;
      if Emission(calls[|calls| - 1], Replay(before).nextId).Some? {
        OfAppend(Log(before), Emission(calls[|calls| - 1], Replay(before).nextId).value, s);
      }
    }
  }

  /**
   Whatever order the calls came in, the module reads back as what they added, grouped by section
   in logical order and in call order within a section.
   */
  lemma HistoryReadsBack(calls: seq<Call>)
    requires forall e | e in Log(calls) :: Framed(e.1)
    ensures ReadModule(ModuleWords(Replay(calls)))
         == Some((Replay(calls).nextId, InLogicalOrder(s => Of(Log(calls), s))))
  {
    var c := Replay(calls);
    SameOrder(calls);
    forall s: Section
      ensures AllFramed(Of(Log(calls), s))
    {
      OfFramed(Log(calls), s);
    }
    OrderFramed(calls);
    ModuleRoundTrip(c);
    hide *;
  }

  lemma SameOrder(calls: seq<Call>)
    ensures Stream(Replay(calls)) == InLogicalOrder(s => Of(Log(calls), s))
  {
    SectionsHoldTheirCalls(calls, Capabilities);
    SectionsHoldTheirCalls(calls, Extensions);
    SectionsHoldTheirCalls(calls, ExtInstImports);
    SectionsHoldTheirCalls(calls, MemoryModels);
    SectionsHoldTheirCalls(calls, EntryPoints);
    SectionsHoldTheirCalls(calls, ExecutionModes);
    SectionsHoldTheirCalls(calls, DebugNames);
    SectionsHoldTheirCalls(calls, Annotations);
    SectionsHoldTheirCalls(calls, TypesAndConstants);
    SectionsHoldTheirCalls(calls, Functions);
    hide Replay, Log, Of, In;
  }

  lemma {:induction false} OfFramed(log: seq<(Section, Instruction)>, s: Section)
    requires forall e | e in log :: Framed(e.1)
    ensures AllFramed(Of(log, s))
  {
    if log != [] {
      assert log[|log| - 1] in log;
      OfFramed(log[..|log| - 1], s);
    }
  }

  lemma FramedAppend(a: seq<Instruction>, b: seq<Instruction>)
    requires AllFramed(a) && AllFramed(b)
    ensures AllFramed(a + b)
  {
  }

  lemma OrderFramed(calls: seq<Call>)
    requires forall s: Section :: AllFramed(Of(Log(calls), s))
    ensures AllFramed(InLogicalOrder(s => Of(Log(calls), s)))
  {
    var f := s => Of(Log(calls), s);
    hide Of, Log, AllFramed;
    FramedAppend(f(TypesAndConstants), f(Functions));
    var r8 := f(TypesAndConstants) + f(Functions);
    FramedAppend(f(Annotations), r8);
    var r7 := f(Annotations) + r8;
    FramedAppend(f(DebugNames), r7);
    var r6 := f(DebugNames) + r7;
    FramedAppend(f(ExecutionModes), r6);
    var r5 := f(ExecutionModes) + r6;
    FramedAppend(f(EntryPoints), r5);
    var r4 := f(EntryPoints) + r5;
    FramedAppend(f(MemoryModels), r4);
    var r3 := f(MemoryModels) + r4;
    FramedAppend(f(ExtInstImports), r3);
    var r2 := f(ExtInstImports) + r3;
    FramedAppend(f(Extensions), r2);
    FramedAppend(f(Capabilities), f(Extensions) + r2);
  }

  /** A name is framed exactly when its bytes fit; the builder does not check. */
  lemma NameFramed(target: u32, name: seq<byte>)
    ensures Framed(Emission(AddDebugName(target, name), 0).value.1) <==> |name| < 4 * 65533
  {
    StringWordsLength(name);
    hide StringWords;
  }

  // ----- identifiers

  /** The identifiers handed out, in order. */
  function Allocated(calls: seq<Call>): seq<u32> {
    if calls == [] then [] else
    var before := calls[..|calls| - 1];
    Allocated(before) + if Allocates(calls[|calls| - 1]) then [Replay(before).nextId] else []
  }

  /** Until the counter wraps, identifiers are 1, 2, 3, ... and the bound in the header is one past the last. */
  lemma {:induction false} IdentifiersBelowBound(calls: seq<Call>)
    requires |Allocated(calls)| < TWO_32 - 1
    ensures Replay(calls).nextId == |Allocated(calls)| + 1
    ensures forall k | 0 <= k < |Allocated(calls)| :: Allocated(calls)[k] == k + 1
    decreases |calls|
  {
    if calls != [] {
      IdentifiersBelowBound(calls[..|calls| - 1]);
      hide Emission, StringWords;
    }
  }

  // ----- the builder

  class SpirvModuleBuilder {
    var nextId: u32
    var capabilities: seq<Instruction>
    var extensions: seq<Instruction>
    var extInstImports: seq<Instruction>
    var memoryModel: seq<Instruction>
    var entryPoints: seq<Instruction>
    var executionModes: seq<Instruction>
    var debugNames: seq<Instruction>
    var annotations: seq<Instruction>
    var typesAndConstants: seq<Instruction>
    var functions: seq<Instruction>

    ghost function State(): Contents
      reads this
    {
      Contents(nextId, capabilities, extensions, extInstImports, memoryModel, entryPoints, executionModes,
               debugNames, annotations, typesAndConstants, functions)
    }

    constructor ()
      ensures State() == Replay([])
    {
      nextId := 1;
      capabilities, extensions, extInstImports, memoryModel, entryPoints := [], [], [], [], [];
      executionModes, debugNames, annotations, typesAndConstants, functions := [], [], [], [], [];
    }

    /** The counter wraps as an unchecked 32-bit addition does. */
    method Allocate() returns (id: u32)
      modifies `nextId
      ensures id == old(nextId) && State() == Perform(old(State()), AllocId)
    {
      id := nextId;
      nextId := ToU32(nextId + 1);
    }

    method Capability(cap: u32)
      modifies `capabilities
      ensures State() == Perform(old(State()), AddCapability(cap))
    {
      capabilities := capabilities + [Instruction(OP_CAPABILITY, [cap])];
    }

    method Extension(name: seq<byte>)
      modifies `extensions
      ensures State() == Perform(old(State()), AddExtension(name))
    {
      var operands := EncodeString(name);
      extensions := extensions + [Instruction(OP_EXTENSION, operands)];
    }

    method ExtInstImport(name: seq<byte>) returns (id: u32)
      modifies `extInstImports, `nextId
      ensures id == old(nextId) && State() == Perform(old(State()), AddExtInstImport(name))
    {
      id := Allocate();
      var words := EncodeString(name);
      extInstImports := extInstImports + [Instruction(OP_EXT_INST_IMPORT, [id] + words)];
    }

    method MemoryModel(addressing: u32, model: u32)
      modifies `memoryModel
      ensures State() == Perform(old(State()), SetMemoryModel(addressing, model))
    {
      memoryModel := memoryModel + [Instruction(OP_MEMORY_MODEL, [addressing, model])];
    }

    method DebugName(target: u32, name: seq<byte>)
      modifies `debugNames
      ensures State() == Perform(old(State()), AddDebugName(target, name))
    {
      var words := EncodeString(name);
      debugNames := debugNames + [Instruction(OP_NAME, [target] + words)];
    }

    method Decorate(target: u32, decoration: u32, extra: seq<u32>)
      modifies `annotations
      ensures State() == Perform(old(State()), AddDecoration(target, decoration, extra))
    {
      annotations := annotations + [Instruction(OP_DECORATE, [target, decoration] + extra)];
    }

    method BuildWords() returns (out: seq<u32>)
      ensures out == ModuleWords(State())
    {
      out := [MAGIC, VERSION_1_5, GENERATOR, nextId, 0];
      out := EncodeAll(out, capabilities);
      out := EncodeAll(out, extensions);
      out := EncodeAll(out, extInstImports);
      out := EncodeAll(out, memoryModel);
      out := EncodeAll(out, entryPoints);
      out := EncodeAll(out, executionModes);
      out := EncodeAll(out, debugNames);
      out := EncodeAll(out, annotations);
      out := EncodeAll(out, typesAndConstants);
      out := EncodeAll(out, functions);
      EncodedInOrder(State());
      hide Encode;
    }

    method BuildBytes() returns (bytes: seq<byte>)
      ensures bytes == Concat(LeBytes, ModuleWords(State()))
    {
      var words := BuildWords();
      bytes := [];
      for i := 0 to |words|
        invariant bytes == Concat(LeBytes, words[..i])
      {
        ConcatStep(LeBytes, words, i);
        bytes := bytes + LeBytes(words[i]);
      }
      assert words[..|words|] == words;
    }
  }

  method EncodeAll(out: seq<u32>, instrs: seq<Instruction>) returns (r: seq<u32>)
    ensures r == out + Concat(Encode, instrs)
  {
    r := out;
    assert Concat(Encode, instrs[..0]) == [];
    hide Encode, Concat;
    for i := 0 to |instrs|
      invariant r == out + Concat(Encode, instrs[..i])
    {
      AppendStep(Encode, out, instrs, i);
      r := r + Encode(instrs[i]);
    }
    assert instrs[..|instrs|] == instrs;
  }

  lemma EncodedInOrder(c: Contents)
    ensures ModuleWords(c)
         == HeaderWords(c.nextId) + Concat(Encode, c.capabilities) + Concat(Encode, c.extensions)
            + Concat(Encode, c.extInstImports) + Concat(Encode, c.memoryModel) + Concat(Encode, c.entryPoints)
            + Concat(Encode, c.executionModes) + Concat(Encode, c.debugNames) + Concat(Encode, c.annotations)
            + Concat(Encode, c.typesAndConstants) + Concat(Encode, c.functions)
  {
    ConcatAppend(Encode, c.typesAndConstants, c.functions);
    var r8 := c.typesAndConstants + c.functions;
    ConcatAppend(Encode, c.annotations, r8);
    var r7 := c.annotations + r8;
    ConcatAppend(Encode, c.debugNames, r7);
    var r6 := c.debugNames + r7;
    ConcatAppend(Encode, c.executionModes, r6);
    var r5 := c.executionModes + r6;
    ConcatAppend(Encode, c.entryPoints, r5);
    var r4 := c.entryPoints + r5;
    ConcatAppend(Encode, c.memoryModel, r4);
    var r3 := c.memoryModel + r4;
    ConcatAppend(Encode, c.extInstImports, r3);
    var r2 := c.extInstImports + r3;
    ConcatAppend(Encode, c.extensions, r2);
    ConcatAppend(Encode, c.capabilities, c.extensions + r2);
    hide Encode, Concat;
  }
}
