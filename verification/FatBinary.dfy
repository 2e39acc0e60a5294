/** The multi-target container: entries behind a magic number, a version and a count. */
module FatBinary {
  import opened Options
  import opened Wire
  import opened Words

  const MAGIC: u32 := 0x4147414D
  const VERSION: u32 := 1

  datatype Target = HostX86_64 | HostAarch64 | NvptxPtx | NvptxCubin | SpirvBinary | WasmBinary

  /** Names are UTF-8 bytes already. */
  datatype Entry = Entry(target: Target, archName: seq<byte>, payload: seq<byte>)

  /** `target as u32`: the declaration order. */
  function TargetId(t: Target): u32 {
    match t
    case HostX86_64 => 0
    case HostAarch64 => 1
    case NvptxPtx => 2
    case NvptxCubin => 3
    case SpirvBinary => 4
    case WasmBinary => 5
  }

  // ----- writing; `len() as u32` truncates

  function Sized(bs: seq<byte>): seq<byte> {
    LeBytes(ToU32(|bs|)) + bs
  }

  function EntryBytes(e: Entry): seq<byte> {
    LeBytes(TargetId(e.target)) + Sized(e.archName) + Sized(e.payload)
  }

  function Header(count: nat): seq<byte> {
    LeBytes(MAGIC) + LeBytes(VERSION) + LeBytes(ToU32(count))
  }

  function BundleBytes(entries: seq<Entry>): seq<byte> {
    Header(|entries|) + Concat(EntryBytes, entries)
  }

  // ----- reading: the numbers are those of the format, written out

  function TargetOf(id: nat): Option<Target> {
    if id == 0 then Some(HostX86_64)
    else if id == 1 then Some(HostAarch64)
    else if id == 2 then Some(NvptxPtx)
    else if id == 3 then Some(NvptxCubin)
    else if id == 4 then Some(SpirvBinary)
    else if id == 5 then Some(WasmBinary)
    else None
  }

  function ReadSized(bs: seq<byte>): (r: Option<(seq<byte>, seq<byte>)>)
    ensures r.Some? ==> |r.value.0| < TWO_32
  {
    var (n, rest) :- ReadU32(bs);
    if n > |rest| then None else Some((rest[..n], rest[n..]))
  }

  function ReadEntry(bs: seq<byte>): (r: Option<(Entry, seq<byte>)>)
    ensures r.Some? ==> EntryFits(r.value.0)
  {
    var (id, rest) :- ReadU32(bs);
    var target :- TargetOf(id);
    var (arch, rest') :- ReadSized(rest);
    var (payload, rest'') :- ReadSized(rest');
    Some((Entry(target, arch, payload), rest''))
  }

  function ReadBundle(bs: seq<byte>): Option<(seq<Entry>, seq<byte>)> {
    var (magic, rest) :- ReadU32(bs);
    var (version, rest') :- ReadU32(rest);
    if magic != 0x4147414D || version != 1 then None else
    var (count, rest'') :- ReadU32(rest');
    DecodeMany(ReadEntry, count, rest'')
  }

  // ----- round trip

  predicate EntryFits(e: Entry) {
    |e.archName| < TWO_32 && |e.payload| < TWO_32
  }

  predicate AllFit(entries: seq<Entry>) {
    forall e | e in entries :: EntryFits(e)
  }

  predicate Fits(entries: seq<Entry>) {
    |entries| < TWO_32 && AllFit(entries)
  }

  lemma ReadSizedBack(bs: seq<byte>, rest: seq<byte>)
    requires |bs| < TWO_32
    ensures ReadSized(Sized(bs) + rest) == Some((bs, rest))
  {
    assert Sized(bs) + rest == LeBytes(|bs|) + (bs + rest);
    ReadU32Back(|bs|, bs + rest);
    assert (bs + rest)[..|bs|] == bs && (bs + rest)[|bs|..] == rest;
  }

  lemma ReadEntrySteps(e: Entry, bs: seq<byte>, afterId: seq<byte>, afterName: seq<byte>, rest: seq<byte>)
    requires ReadU32(bs) == Some((TargetId(e.target), afterId))
    requires ReadSized(afterId) == Some((e.archName, afterName))
    requires ReadSized(afterName) == Some((e.payload, rest))
    ensures ReadEntry(bs) == Some((e, rest))
  {
    hide ReadU32, ReadSized, EntryFits;
  }

  lemma ReadEntryBack(e: Entry, rest: seq<byte>)
    requires EntryFits(e)
    ensures ReadEntry(EntryBytes(e) + rest) == Some((e, rest))
  {
    var tail := Sized(e.payload) + rest;
    EntryBytesApart(e, rest);
    ReadU32Back(TargetId(e.target), Sized(e.archName) + tail);
    ReadSizedBack(e.archName, tail);
    ReadSizedBack(e.payload, rest);
    assert |e.archName| < TWO_32 && |e.payload| < TWO_32;
    hide *;
    ReadEntrySteps(e, EntryBytes(e) + rest, Sized(e.archName) + tail, tail, rest);
  }

  lemma EntryBytesApart(e: Entry, rest: seq<byte>)
    ensures EntryBytes(e) + rest
         == LeBytes(TargetId(e.target)) + (Sized(e.archName) + (Sized(e.payload) + rest))
  {
    hide LeBytes, Sized, TargetId;
  }

  lemma ReadHeaderBack(count: nat, rest: seq<byte>)
    requires count < TWO_32
    ensures ReadBundle(Header(count) + rest) == DecodeMany(ReadEntry, count, rest)
  {
    var tail := LeBytes(count) + rest;
    HeaderApart(count, rest);
    ReadU32Back(MAGIC, LeBytes(VERSION) + tail);
    ReadU32Back(VERSION, tail);
    ReadU32Back(count, rest);
    hide ReadU32, LeBytes, Header, DecodeMany;
  }

  lemma HeaderApart(count: nat, rest: seq<byte>)
    requires count < TWO_32
    ensures Header(count) + rest == LeBytes(MAGIC) + (LeBytes(VERSION) + (LeBytes(count) + rest))
  {
    hide LeBytes;
  }

  lemma DecodeManyStep(n: nat, bs: seq<byte>, entries: seq<Entry>, rest: seq<byte>)
    returns (first: Entry, mid: seq<byte>, later: seq<Entry>)
    requires n > 0 && DecodeMany(ReadEntry, n, bs) == Some((entries, rest))
    ensures ReadEntry(bs) == Some((first, mid)) && DecodeMany(ReadEntry, n - 1, mid) == Some((later, rest))
    ensures entries == [first] + later
  {
    hide ReadEntry, EntryFits;
    first, mid := ReadEntry(bs).value.0, ReadEntry(bs).value.1;
    later := DecodeMany(ReadEntry, n - 1, mid).value.0;
  }

  lemma PrependFits(e: Entry, entries: seq<Entry>)
    requires EntryFits(e) && AllFit(entries)
    ensures AllFit([e] + entries)
  {
  }

  lemma {:induction false} DecodedFits(n: nat, bs: seq<byte>, entries: seq<Entry>, rest: seq<byte>)
    requires DecodeMany(ReadEntry, n, bs) == Some((entries, rest))
    ensures |entries| == n && AllFit(entries)
    decreases n
  {
    if n > 0 {
      hide *;
      var first, mid, later := DecodeManyStep(n, bs, entries, rest);
      DecodedFits(n - 1, mid, later, rest);
      PrependFits(first, later);
    }
  }

  lemma ReadBundleFits(bs: seq<byte>)
    ensures ReadBundle(bs).Some? ==> Fits(ReadBundle(bs).value.0)
  {
    if ReadBundle(bs).Some? {
      var rest := ReadU32(ReadU32(bs).value.1).value.1;
      var (count, rest') := ReadU32(rest).value;
      DecodedFits(count, rest', ReadBundle(bs).value.0, ReadBundle(bs).value.1);
    }
    hide ReadU32, ReadEntry, EntryFits;
  }

  /** A bundle reads back, with nothing left over, exactly when every length fits its 32-bit field. */
  lemma BundleRoundTrip(entries: seq<Entry>)
    ensures ReadBundle(BundleBytes(entries)) == Some((entries, [])) <==> Fits(entries)
  {
    if Fits(entries) {
      var body := Concat(EntryBytes, entries);
      ReadHeaderBack(|entries|, body);
      forall e | e in entries
        ensures Inverts(EntryBytes, ReadEntry, e)
      {
        forall rest: seq<byte>
          ensures ReadEntry(EntryBytes(e) + rest) == Some((e, rest))
        {
          ReadEntryBack(e, rest);
        }
      }
      DecodeManyRoundTrip(EntryBytes, ReadEntry, entries, []);
      assert body + [] == body;
    }
    ReadBundleFits(BundleBytes(entries));
    hide ReadBundle, EntryFits, Header;
  }

  // ----- lookup

  /** The payload of the first entry for the target, and `None` only when there is none. */
  function FindPayload(entries: seq<Entry>, target: Target): (r: Option<seq<byte>>)
    ensures r.None? <==> forall e | e in entries :: e.target != target
    ensures r.Some? ==> exists k :: 0 <= k < |entries| && entries[k].target == target
                                    && entries[k].payload == r.value
                                    && forall j | 0 <= j < k :: entries[j].target != target
  {
    if entries == [] then None
    else if entries[0].target == target then Some(entries[0].payload)
    else FindPayload(entries[1..], target)
  }

  /** What is found after shipping is what was first added for the target. */
  lemma ShippedLookup(entries: seq<Entry>, target: Target, first: nat)
    requires Fits(entries) && first < |entries|
    requires entries[first].target == target && forall j | 0 <= j < first :: entries[j].target != target
    ensures ReadBundle(BundleBytes(entries)).Some?
    ensures FindPayload(ReadBundle(BundleBytes(entries)).value.0, target) == Some(entries[first].payload)
  {
    BundleRoundTrip(entries);
    hide ReadBundle, BundleBytes;
    assert entries[first] in entries;
    var r := FindPayload(entries, target);
    var k :| 0 <= k < |entries| && entries[k].target == target && entries[k].payload == r.value
             && forall j | 0 <= j < k :: entries[j].target != target;
    assert k == first;
  }

  method AppendEntry(before: seq<byte>, entry: Entry) returns (bytes: seq<byte>)
    ensures bytes == before + EntryBytes(entry)
  {
    bytes := before + LeBytes(TargetId(entry.target));
    bytes := bytes + LeBytes(ToU32(|entry.archName|)) + entry.archName;
    bytes := bytes + LeBytes(ToU32(|entry.payload|)) + entry.payload;
    hide LeBytes, TargetId, ToU32;
  }

  class FatBinaryBundle {
    var entries: seq<Entry>

    constructor ()
      ensures entries == []
    {
      entries := [];
    }

    method AddArtifact(target: Target, archName: seq<byte>, payload: seq<byte>)
      modifies this
      ensures entries == old(entries) + [Entry(target, archName, payload)]
    {
      entries := entries + [Entry(target, archName, payload)];
    }

    method Serialize() returns (bytes: seq<byte>)
      ensures bytes == BundleBytes(entries)
    {
      bytes := LeBytes(MAGIC) + LeBytes(VERSION) + LeBytes(ToU32(|entries|));
      for i := 0 to |entries|
        invariant bytes == Header(|entries|) + Concat(EntryBytes, entries[..i])
      {
        bytes := AppendEntry(bytes, entries[i]);
        AppendStep(EntryBytes, Header(|entries|), entries, i);
      }
      assert entries[..|entries|] == entries;
      hide *;
    }
  }
}
