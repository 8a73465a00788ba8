/**
  WASM modules as the packager sees them: a list of sections, and the memory a module
  starts with once its data segments have been applied.
 */
module RunnerModule {
  import opened Common
  import opened Bytes

  const PAGE: nat := 65_536

  datatype MemoryType = MemoryType(
    initial: nat, maximum: Option<nat>, memory64: bool, shared: bool, customPageSize: bool)

  datatype ConstExpr = I32Const(value: int) | OtherExpr

  datatype Segment = Passive(bytes: seq<Byte>) | Active(memory: nat, offset: ConstExpr, bytes: seq<Byte>)

  datatype Export = Export(name: string, isGlobal: bool, index: nat)

  /** Sections the packager reads or rewrites are decoded; `Raw` is any other, copied verbatim. */
  datatype Section =
    | Imports(count: nat, raw: seq<Byte>)
    | Memories(types: seq<MemoryType>)
    | Globals(inits: seq<ConstExpr>, raw: seq<Byte>)
    | Exports(exports: seq<Export>, raw: seq<Byte>)
    | DataCount(count: nat)
    | Data(segments: seq<Segment>)
    | Raw(id: nat, bytes: seq<Byte>)

  type Module = seq<Section>

  function MemoriesOf(m: Module): (r: seq<MemoryType>) {
    if m == [] then []
    else MemoriesOf(m[..|m| - 1]) + if m[|m| - 1].Memories? then m[|m| - 1].types else []
  }

  function SegmentsOf(m: Module): (r: seq<Segment>) {
    if m == [] then []
    else SegmentsOf(m[..|m| - 1]) + if m[|m| - 1].Data? then m[|m| - 1].segments else []
  }

  /** An `i32.const` offset is an unsigned 32-bit address. */
  function Address(value: int): (r: int) {
    if value < 0 then value + 0x1_0000_0000 else value
  }

  function Zeros(n: nat): (r: seq<Byte>)
    ensures |r| == n
    ensures forall i :: 0 <= i < n ==> r[i] == 0
  {
    seq(n, _ => 0)
  }

  predicate CanPut(memory: seq<Byte>, at: int, bytes: seq<Byte>) {
    0 <= at && at + |bytes| <= |memory|
  }

  function Put(memory: seq<Byte>, at: int, bytes: seq<Byte>): (r: seq<Byte>)
    requires CanPut(memory, at, bytes)
    ensures |r| == |memory|
  {
    memory[..at] + bytes + memory[at + |bytes|..]
  }

  /** Instantiation applies active segments in order; an out-of-bounds segment traps. */
  function Apply(memory: seq<Byte>, s: Segment): (r: Option<seq<Byte>>)
    ensures r.Some? ==> |r.value| == |memory|
  {
    match s
    case Passive(_) => Some(memory)
    case Active(index, offset, bytes) =>
      if index == 0 && offset.I32Const? && CanPut(memory, Address(offset.value), bytes)
      then Some(Put(memory, Address(offset.value), bytes))
      else None
  }

  function ApplyAll(memory: seq<Byte>, segments: seq<Segment>): (r: Option<seq<Byte>>)
    ensures r.Some? ==> |r.value| == |memory|
  {
    if segments == [] then Some(memory)
    else
      var n := |segments| - 1;
      var before := ApplyAll(memory, segments[..n]);
      if before.None? then None else Apply(before.value, segments[n])
  }

  /** The memory a module with one memory starts with. */
  function InitialMemory(m: Module): (r: Option<seq<Byte>>) {
    if |MemoriesOf(m)| != 1 then None
    else ApplyAll(Zeros(MemoriesOf(m)[0].initial * PAGE), SegmentsOf(m))
  }
}
