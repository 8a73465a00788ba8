/** A runner whose pointer is overwritten: a segment behind the static's own writes one byte of it. */
module RunnerExample {
  import opened Common
  import opened Bytes
  import opened RunnerModule
  import opened RunnerPatch
  import opened RunnerMemory

  const PLAIN: MemoryType := MemoryType(1, None, false, false, false)

  const EXPORTS: seq<Export> := [
    Export("model_alloc", false, 0), Export("model_prepare", false, 1), Export("model_execute", false, 2),
    Export("memory", false, 0),
    Export("TRAVERSE_MODEL_BLOB", true, 0)]

  const SEGMENTS: seq<Segment> := [Active(0, I32Const(0), SENTINEL), Active(0, I32Const(0), [7])]

  /** The static is at address 0; its segment is followed by one that writes address 0 again. */
  const OVERWRITTEN: Module := [Memories([PLAIN]), Globals([I32Const(0)], []), Exports(EXPORTS, []), Data(SEGMENTS)]

  /** The offset 65536 and the length 1, little endian. */
  const BLOB_SLOT: Pointer := [0, 0, 1, 0, 1, 0, 0, 0]

  const PATCHED_SEGMENTS: seq<Segment> := [Active(0, I32Const(0), BLOB_SLOT), Active(0, I32Const(0), [7])]

  const PATCHED: Module := [
    Memories([MemoryType(2, None, false, false, false)]), Globals([I32Const(0)], []), Exports(EXPORTS, []),
    Data(PATCHED_SEGMENTS + [Active(0, I32Const(PAGE), [42])])]

  const PLAN: Plan := Plan(2, None, 0, PAGE, [42])

  lemma NoSections()
    ensures MemoriesOf([]) == [] && InitsOf([]) == [] && ExportsOf([]) == [] && SegmentsOf([]) == []
  {
  }

  /** What the first pass collects from four sections. */
  lemma FourSections(m: Module, types: seq<MemoryType>, inits: seq<ConstExpr>, exports: seq<Export>,
                     segments: seq<Segment>)
    requires m == [Memories(types), Globals(inits, []), Exports(exports, []), Data(segments)]
    ensures MemoriesOf(m) == types && InitsOf(m) == inits && ExportsOf(m) == exports && SegmentsOf(m) == segments
  {
    NoSections();
    assert m[..0] == [] && m[..4] == m;
    SectionStep(m, 0);
    SectionStep(m, 1);
    SectionStep(m, 2);
    SectionStep(m, 3);
  }

  lemma ExampleFacts()
    ensures FactsOf(OVERWRITTEN) == Ok(Facts(PLAIN, 0, Names(EXPORTS)))
  {
    FourSections(OVERWRITTEN, [PLAIN], [I32Const(0)], EXPORTS, SEGMENTS);
    assert BlobGlobal(EXPORTS) == Some(0);
  }

  lemma NothingMissing()
    ensures FirstMissing(Names(EXPORTS), REQUIRED_EXPORTS) == None
  {
    var names := Names(EXPORTS);
    assert names[0] == REQUIRED_EXPORTS[0] && names[1] == REQUIRED_EXPORTS[1];
    assert names[2] == REQUIRED_EXPORTS[2] && names[3] == REQUIRED_EXPORTS[3];
    assert FirstMissing(names, REQUIRED_EXPORTS[4..]) == None;
    assert REQUIRED_EXPORTS[3..][1..] == REQUIRED_EXPORTS[4..];
    assert FirstMissing(names, REQUIRED_EXPORTS[3..]) == None;
    assert REQUIRED_EXPORTS[2..][1..] == REQUIRED_EXPORTS[3..];
    assert FirstMissing(names, REQUIRED_EXPORTS[2..]) == None;
    assert REQUIRED_EXPORTS[1..][1..] == REQUIRED_EXPORTS[2..];
    assert FirstMissing(names, REQUIRED_EXPORTS[1..]) == None;
  }

  lemma SegmentStep(segments: seq<Segment>, at: nat, pointer: Pointer, i: nat, out: seq<Segment>, patched: bool,
                    last: Segment, here: bool)
    requires i < |segments| && PatchSegments(segments[..i], at, pointer) == Ok((out, patched))
    requires PatchSegment(segments[i], at, pointer) == Ok((last, here))
    ensures PatchSegments(segments[..i + 1], at, pointer) == Ok((out + [last], patched || here))
  {
    assert segments[..i + 1][..i] == segments[..i] && segments[..i + 1][i] == segments[i];
  }

  lemma ExampleSegments()
    ensures PatchSegments(SEGMENTS, 0, BLOB_SLOT) == Ok((PATCHED_SEGMENTS, true))
  {
    var out := PATCHED_SEGMENTS;
    assert SEGMENTS[..0] == [] && SEGMENTS[..2] == SEGMENTS;
    assert SENTINEL[0..8] == SENTINEL && Put(SENTINEL, 0, BLOB_SLOT) == BLOB_SLOT;
    SegmentStep(SEGMENTS, 0, BLOB_SLOT, 0, [], false, out[0], true);
    assert [] + [out[0]] == [out[0]] && [out[0]] + [out[1]] == out;
    SegmentStep(SEGMENTS, 0, BLOB_SLOT, 1, [out[0]], true, out[1], false);
  }

  lemma ExamplePointer()
    ensures PlanFits(PLAN) && PointerOf(PLAN) == BLOB_SLOT && PlanFor(Facts(PLAIN, 0, Names(EXPORTS)), [42]) == PLAN
  {
  }

  lemma SectionsStep(m: Module, plan: Plan, i: nat, out: Module, patched: bool, last: Section, here: bool)
    requires PlanFits(plan) && i < |m| && PatchSections(m[..i], plan) == Ok((out, patched))
    requires PatchSection(m[i], plan) == Ok((last, here))
    ensures PatchSections(m[..i + 1], plan) == Ok((out + [last], patched || here))
  {
    assert m[..i + 1][..i] == m[..i] && m[..i + 1][i] == m[i];
  }

  lemma ExampleSections()
    ensures PlanFits(PLAN) && PatchSections(OVERWRITTEN, PLAN) == Ok((PATCHED, true))
  {
    ExamplePointer();
    ExampleSegments();
    var m, out := OVERWRITTEN, PATCHED;
    assert m[..0] == [] && m[..4] == m && out[..0] == [] && out[..4] == out;
    assert out[..0] + [out[0]] == out[..1] && out[..1] + [out[1]] == out[..2];
    assert out[..2] + [out[2]] == out[..3] && out[..3] + [out[3]] == out[..4];
    SectionsStep(m, PLAN, 0, out[..0], false, out[0], false);
    SectionsStep(m, PLAN, 1, out[..1], false, out[1], false);
    SectionsStep(m, PLAN, 2, out[..2], false, out[2], false);
    SectionsStep(m, PLAN, 3, out[..3], false, out[3], true);
  }

  lemma SegmentsStep(memory: seq<Byte>, segments: seq<Segment>, i: nat, before: seq<Byte>)
    requires i < |segments| && ApplyAll(memory, segments[..i]) == Some(before)
    ensures ApplyAll(memory, segments[..i + 1]) == Apply(before, segments[i])
  {
    assert segments[..i + 1][..i] == segments[..i] && segments[..i + 1][i] == segments[i];
  }

  lemma ThreeSegments(memory: seq<Byte>, segments: seq<Segment>, at: nat, a: seq<Byte>, b: seq<Byte>, c: seq<Byte>)
    requires segments == [Active(0, I32Const(0), a), Active(0, I32Const(0), b), Active(0, I32Const(at), c)]
    requires |a| <= |memory| && 0 < |b| <= |memory| && 0 < at && at + |c| <= |memory|
    ensures var after := ApplyAll(memory, segments); after.Some? && after.value[0] == b[0]
  {
    assert segments[..0] == [] && segments[..3] == segments;
    SegmentsStep(memory, segments, 0, memory);
    var first := Put(memory, 0, a);
    SegmentsStep(memory, segments, 1, first);
    var second := Put(first, 0, b);
    SegmentsStep(memory, segments, 2, second);
    PutIndex(first, 0, b, 0);
    PutIndex(second, at, c, 0);
  }

  lemma ExampleMemory()
    ensures var memory := InitialMemory(PATCHED); memory.Some? && |memory.value| == 2 * PAGE && memory.value[0] == 7
  {
    var segments := PATCHED_SEGMENTS + [Active(0, I32Const(PAGE), [42])];
    FourSections(PATCHED, [MemoryType(2, None, false, false, false)], [I32Const(0)], EXPORTS, segments);
    ThreeSegments(Zeros(2 * PAGE), segments, PAGE, BLOB_SLOT, [7], [42]);
  }

  /** The packager accepts the runner, and yet the memory it starts with does not hold the pointer. */
  lemma PointerOverwritten(valid: Module -> bool)
    requires valid(PATCHED)
    ensures Patched(OVERWRITTEN, [42], valid) == Ok((PATCHED, Layout(PAGE, 1, 2)))
    ensures FactsOf(OVERWRITTEN).Ok? && FactsOf(OVERWRITTEN).value.blobStatic == 0
    ensures BLOB_SLOT == ToLe32(PAGE) + ToLe32(1)
    ensures var memory := InitialMemory(PATCHED); memory.Some? && |memory.value| >= 8 && memory.value[0..8] != BLOB_SLOT
  {
    ExampleFacts();
    NothingMissing();
    ExamplePointer();
    ExampleSections();
    ExampleMemory();
    var memory := InitialMemory(PATCHED).value;
    assert memory[0..8][0] == memory[0];
  }
}
