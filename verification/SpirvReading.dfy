/**
 What the builder's calls said, read off the finished binary: every instruction is read by its opcode
 number and its operands by place, as sections 3.32.1 to 3.32.5 of the SPIR-V specification lay them out.
 */
module SpirvReading {
  import opened Options
  import opened Spirv
  import opened Words

  /** One declaration of a module. */
  datatype Fact =
    | Capability(capability: u32)
    | Extension(extension: seq<byte>)
    | Import(result: u32, library: seq<byte>)
    | Memory(addressing: u32, memory: u32)
    | Name(target: u32, name: seq<byte>)
    | Decoration(decorated: u32, decoration: u32, extra: seq<u32>)
    | Given(instruction: Instruction)

  // ----- the reader

  /** A literal string that uses up all the words. */
  function WholeString(ws: seq<u32>): Option<seq<byte>> {
    var (s, rest) :- ReadString(ws);
    if rest == [] then Some(s) else None
  }

  function ReadCapability(i: Instruction): Option<Fact> {
    if i.opcode == 17 && |i.operands| == 1 then Some(Capability(i.operands[0])) else None
  }

  function ReadExtension(i: Instruction): Option<Fact> {
    if i.opcode != 10 then None else
    var name :- WholeString(i.operands);
    Some(Extension(name))
  }

  function ReadImport(i: Instruction): Option<Fact> {
    if i.opcode != 11 || i.operands == [] then None else
    var name :- WholeString(i.operands[1..]);
    Some(Import(i.operands[0], name))
  }

  function ReadMemoryModel(i: Instruction): Option<Fact> {
    if i.opcode == 14 && |i.operands| == 2 then Some(Memory(i.operands[0], i.operands[1])) else None
  }

  function ReadName(i: Instruction): Option<Fact> {
    if i.opcode != 5 || i.operands == [] then None else
    var name :- WholeString(i.operands[1..]);
    Some(Name(i.operands[0], name))
  }

  function ReadDecoration(i: Instruction): Option<Fact> {
    if i.opcode == 71 && |i.operands| >= 2
    then Some(Decoration(i.operands[0], i.operands[1], i.operands[2..]))
    else None
  }

  function ReadIn(s: Section, i: Instruction): Option<Fact> {
    match s
    case Capabilities => ReadCapability(i)
    case Extensions => ReadExtension(i)
    case ExtInstImports => ReadImport(i)
    case MemoryModels => ReadMemoryModel(i)
    case DebugNames => ReadName(i)
    case Annotations => ReadDecoration(i)
    case _ => Some(Given(i))
  }

  function ReadSection(s: Section, instrs: seq<Instruction>): Option<seq<Fact>> {
    if instrs == [] then Some([]) else
    var n := |instrs| - 1;
    var earlier :- ReadSection(s, instrs[..n]);
    var last :- ReadIn(s, instrs[n]);
    Some(earlier + [last])
  }

  // ----- what was said

  /** Calls that take an identifier. */
  function Taken(calls: seq<Call>): nat {
    if calls == [] then 0 else
    var last := calls[|calls| - 1];
    Taken(calls[..|calls| - 1]) + if last.AllocId? || last.AddExtInstImport? then 1 else 0
  }

  /** The fact a call states and where, when it is handed identifier `id`. */
  function Stated(call: Call, id: nat): Option<(Section, Fact)> {
    match call
    case AllocId => None
    case AddCapability(c) => Some((Capabilities, Capability(c)))
    case AddExtension(name) => Some((Extensions, Extension(name)))
    case AddExtInstImport(name) => if id < TWO_32 then Some((ExtInstImports, Import(id, name))) else None
    case SetMemoryModel(addressing, model) => Some((MemoryModels, Memory(addressing, model)))
    case AddDebugName(target, name) => Some((DebugNames, Name(target, name)))
    case AddDecoration(target, decoration, extra) => Some((Annotations, Decoration(target, decoration, extra)))
    case PushTo(s, i) => Some((s, Given(i)))
  }

  /** The facts stated for one section, in call order; identifiers count from 1. */
  function Said(calls: seq<Call>, s: Section): seq<Fact> {
    if calls == [] then [] else
    var before := calls[..|calls| - 1];
    Joined(Said(before, s), Stated(calls[|calls| - 1], Taken(before) + 1), s)
  }

  function Joined(facts: seq<Fact>, stated: Option<(Section, Fact)>, s: Section): seq<Fact> {
    if stated.Some? && stated.value.0 == s then facts + [stated.value.1] else facts
  }

  /** Names without NUL, sizes that fit a word count, and direct pushes only to the lists without a method. */
  predicate Sayable(call: Call) {
    match call
    case AddExtension(name) => 0 !in name && |name| / 4 + 1 < 65535
    case AddExtInstImport(name) => 0 !in name && |name| / 4 + 2 < 65535
    case AddDebugName(_, name) => 0 !in name && |name| / 4 + 2 < 65535
    case AddDecoration(_, _, extra) => |extra| + 2 < 65535
    case PushTo(s, i) => s in {EntryPoints, ExecutionModes, TypesAndConstants, Functions} && |i.operands| < 65535
    case _ => true
  }

  ghost predicate AllSayable(calls: seq<Call>) {
    forall c | c in calls :: Sayable(c)
  }

  // ----- one call

  lemma StringReads(name: seq<byte>)
    requires 0 !in name
    ensures WholeString(StringWords(name)) == Some(name)
  {
    StringBack(name, []);
    assert StringWords(name) + [] == StringWords(name);
  }

  lemma BehindOne(id: u32, ws: seq<u32>)
    ensures ([id] + ws)[1..] == ws && ([id] + ws)[0] == id
  {
  }

  lemma BehindTwo(a: u32, b: u32, ws: seq<u32>)
    ensures ([a, b] + ws)[2..] == ws
  {
  }

  /** The instruction a call adds reads as the fact it stated, and is framed. */
  lemma CallReads(call: Call, id: u32)
    requires Sayable(call)
    ensures Emission(call, id).Some? <==> Stated(call, id).Some?
    ensures Emission(call, id).Some? ==>
              var (s, i) := Emission(call, id).value;
              Stated(call, id).value.0 == s && ReadIn(s, i) == Some(Stated(call, id).value.1) && Framed(i)
  {
    match call {
      case AddExtension(name) =>
        StringReads(name);
        StringWordsLength(name);
      case AddExtInstImport(name) =>
        StringReads(name);
        StringWordsLength(name);
        BehindOne(id, StringWords(name));
      case AddDebugName(target, name) =>
        StringReads(name);
        StringWordsLength(name);
        BehindOne(target, StringWords(name));
      case AddDecoration(target, decoration, extra) => BehindTwo(target, decoration, extra);
      case _ =>
    }
    hide StringWords, WholeString;
  }

  // ----- a history

  /** The counter is one past the identifiers taken, until it wraps. */
  lemma {:induction false} CounterCounts(calls: seq<Call>)
    requires Taken(calls) < TWO_32 - 1
    ensures Replay(calls).nextId == Taken(calls) + 1
  {
    if calls != [] {
      CounterCounts(calls[..|calls| - 1]);
      hide StringWords;
    }
  }

  lemma SectionGrows(s: Section, instrs: seq<Instruction>, i: Instruction)
    ensures ReadSection(s, instrs + [i])
         == if ReadSection(s, instrs).Some? && ReadIn(s, i).Some?
            then Some(ReadSection(s, instrs).value + [ReadIn(s, i).value]) else None
  {
    assert (instrs + [i])[..|instrs|] == instrs;
    hide ReadIn;
  }

  ghost predicate Reads(calls: seq<Call>, s: Section) {
    ReadSection(s, In(Replay(calls), s)) == Some(Said(calls, s)) && AllFramed(In(Replay(calls), s))
  }

  lemma NothingSaid(s: Section)
    ensures Reads([], s)
  {
    assert In(EMPTY, s) == [];
  }

  /** One more call: its instruction, if it has one, joins its section, and so does its fact. */
  lemma SaidNext(before: seq<Call>, last: Call, s: Section)
    requires Reads(before, s) && Sayable(last) && Replay(before).nextId == Taken(before) + 1
    ensures Reads(before + [last], s)
  {
    hide *;
    var c := Replay(before);
    ReplayNext(before, last);
    SaidAfter(before, last, s);
    JoinedMeans(Said(before, s), Stated(last, c.nextId), s);
    CallReads(last, c.nextId);
    PerformAdds(c, last, s);
    ReadsMeans(before, s);
    ReadsMeans(before + [last], s);
    if Emission(last, c.nextId).Some? {
      SectionGrows(s, In(c, s), Emission(last, c.nextId).value.1);
      FramedGrows(In(c, s), Emission(last, c.nextId).value.1);
    }
  }

  lemma ReadsMeans(calls: seq<Call>, s: Section)
    ensures Reads(calls, s)
            <==> ReadSection(s, In(Replay(calls), s)) == Some(Said(calls, s)) && AllFramed(In(Replay(calls), s))
  {
  }

  lemma FramedGrows(instrs: seq<Instruction>, i: Instruction)
    requires AllFramed(instrs) && Framed(i)
    ensures AllFramed(instrs + [i])
  {
  }

  lemma ReplayNext(before: seq<Call>, last: Call)
    ensures Replay(before + [last]) == Perform(Replay(before), last)
  {
    assert (before + [last])[..|before|] == before;
    hide Perform;
  }

  lemma SaidAfter(before: seq<Call>, last: Call, s: Section)
    ensures Said(before + [last], s) == Joined(Said(before, s), Stated(last, Taken(before) + 1), s)
  {
    assert (before + [last])[..|before|] == before;
    hide Stated, Joined;
  }

  lemma JoinedMeans(facts: seq<Fact>, stated: Option<(Section, Fact)>, s: Section)
    ensures Joined(facts, stated, s)
         == if stated.Some? && stated.value.0 == s then facts + [stated.value.1] else facts
  {
  }

  lemma SayableSplit(before: seq<Call>, last: Call)
    requires AllSayable(before + [last])
    ensures AllSayable(before) && Sayable(last)
  {
    assert last in before + [last];
    assert forall c | c in before :: c in before + [last];
    hide Sayable;
  }

  lemma TakenGrows(before: seq<Call>, last: Call)
    ensures Taken(before) <= Taken(before + [last])
  {
    assert (before + [last])[..|before|] == before;
  }

  lemma {:induction false} SectionSaid(calls: seq<Call>, s: Section)
    requires AllSayable(calls) && Taken(calls) < TWO_32 - 1
    ensures Reads(calls, s)
  {
    hide *;
    if calls == [] {
      NothingSaid(s);
    } else {
      var before, last := calls[..|calls| - 1], calls[|calls| - 1];
      assert calls == before + [last];
      SayableSplit(before, last);
      TakenGrows(before, last);
      SectionSaid(before, s);
      CounterCounts(before);
      SaidNext(before, last, s);
    }
  }

  lemma PerformAdds(c: Contents, call: Call, s: Section)
    ensures In(Perform(c, call), s)
         == if Emission(call, c.nextId).Some? && Emission(call, c.nextId).value.0 == s
            then In(c, s) + [Emission(call, c.nextId).value.1] else In(c, s)
  {
    hide Emission;
  }

  /**
   After any history of builder calls, the words decode to the number of identifiers and ten lists in
   logical order, and reading each list gives what its calls said, in call order.
   */
  lemma HistoryRead(calls: seq<Call>) returns (c: Contents)
    requires AllSayable(calls) && Taken(calls) < TWO_32 - 1
    ensures ReadModule(ModuleWords(Replay(calls)))
         == Some((Taken(calls) + 1,
                  c.capabilities + c.extensions + c.extInstImports + c.memoryModel + c.entryPoints
                  + c.executionModes + c.debugNames + c.annotations + c.typesAndConstants + c.functions))
    ensures ReadSection(Capabilities, c.capabilities) == Some(Said(calls, Capabilities))
    ensures ReadSection(Extensions, c.extensions) == Some(Said(calls, Extensions))
    ensures ReadSection(ExtInstImports, c.extInstImports) == Some(Said(calls, ExtInstImports))
    ensures ReadSection(MemoryModels, c.memoryModel) == Some(Said(calls, MemoryModels))
    ensures ReadSection(EntryPoints, c.entryPoints) == Some(Said(calls, EntryPoints))
    ensures ReadSection(ExecutionModes, c.executionModes) == Some(Said(calls, ExecutionModes))
    ensures ReadSection(DebugNames, c.debugNames) == Some(Said(calls, DebugNames))
    ensures ReadSection(Annotations, c.annotations) == Some(Said(calls, Annotations))
    ensures ReadSection(TypesAndConstants, c.typesAndConstants) == Some(Said(calls, TypesAndConstants))
    ensures ReadSection(Functions, c.functions) == Some(Said(calls, Functions))
  {
    hide *;
    c := Replay(calls);
    CounterCounts(calls);
    forall s: Section
      ensures ReadSection(s, In(c, s)) == Some(Said(calls, s)) && AllFramed(In(c, s))
    {
      SectionSaid(calls, s);
      ReadsMeans(calls, s);
    }
    Sections(c);
    StreamFramed(c);
    ModuleRoundTrip(c);
    StreamOrder(c);
  }

  lemma Sections(c: Contents)
    ensures In(c, Capabilities) == c.capabilities && In(c, Extensions) == c.extensions
    ensures In(c, ExtInstImports) == c.extInstImports && In(c, MemoryModels) == c.memoryModel
    ensures In(c, EntryPoints) == c.entryPoints && In(c, ExecutionModes) == c.executionModes
    ensures In(c, DebugNames) == c.debugNames && In(c, Annotations) == c.annotations
    ensures In(c, TypesAndConstants) == c.typesAndConstants && In(c, Functions) == c.functions
  {
  }

  lemma StreamOrder(c: Contents)
    ensures Stream(c)
         == c.capabilities + c.extensions + c.extInstImports + c.memoryModel + c.entryPoints + c.executionModes
            + c.debugNames + c.annotations + c.typesAndConstants + c.functions
  {
  }

  lemma StreamFramed(c: Contents)
    requires forall s: Section :: AllFramed(In(c, s))
    ensures AllFramed(Stream(c))
  {
    StreamOrder(c);
    hide Stream, Framed;
    assert forall s: Section, i | i in In(c, s) :: Framed(i);
    Sections(c);
  }
}
