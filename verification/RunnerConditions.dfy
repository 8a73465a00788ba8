/** When a runner can be patched and what patching makes of it, read off its sections. */
module RunnerConditions {
  import opened Common
  import opened Bytes
  import opened RunnerModule
  import opened RunnerPatch

  // ---- what the sections declare

  lemma Tail(a: Module, b: Module)
    requires b != []
    ensures var n := |b| - 1; (a + b)[..|a + b| - 1] == a + b[..n] && (a + b)[|a + b| - 1] == b[n]
  {
  }

  lemma {:induction false} MemoriesJoin(a: Module, b: Module)
    ensures MemoriesOf(a + b) == MemoriesOf(a) + MemoriesOf(b)
  {
    if b == [] {
      assert a + b == a;
    } else {
      var n := |b| - 1;
      MemoriesJoin(a, b[..n]);
      Tail(a, b);
      var last := if b[n].Memories? then b[n].types else [];
      assert MemoriesOf(a + b) == MemoriesOf(a + b[..n]) + last;
      assert MemoriesOf(a) + MemoriesOf(b[..n]) + last == MemoriesOf(a) + (MemoriesOf(b[..n]) + last);
    }
  }

  lemma {:induction false} GlobalsJoin(a: Module, b: Module)
    ensures InitsOf(a + b) == InitsOf(a) + InitsOf(b)
  {
    if b == [] {
      assert a + b == a;
    } else {
      var n := |b| - 1;
      GlobalsJoin(a, b[..n]);
      Tail(a, b);
      var last := if b[n].Globals? then b[n].inits else [];
      assert InitsOf(a + b) == InitsOf(a + b[..n]) + last;
      assert InitsOf(a) + InitsOf(b[..n]) + last == InitsOf(a) + (InitsOf(b[..n]) + last);
    }
  }

  lemma {:induction false} ExportsJoin(a: Module, b: Module)
    ensures ExportsOf(a + b) == ExportsOf(a) + ExportsOf(b)
  {
    if b == [] {
      assert a + b == a;
    } else {
      var n := |b| - 1;
      ExportsJoin(a, b[..n]);
      Tail(a, b);
      var last := if b[n].Exports? then b[n].exports else [];
      assert ExportsOf(a + b) == ExportsOf(a + b[..n]) + last;
      assert ExportsOf(a) + ExportsOf(b[..n]) + last == ExportsOf(a) + (ExportsOf(b[..n]) + last);
    }
  }

  lemma {:induction false} DataJoin(a: Module, b: Module)
    ensures SegmentsOf(a + b) == SegmentsOf(a) + SegmentsOf(b)
  {
    if b == [] {
      assert a + b == a;
    } else {
      var n := |b| - 1;
      DataJoin(a, b[..n]);
      Tail(a, b);
      var last := if b[n].Data? then b[n].segments else [];
      assert SegmentsOf(a + b) == SegmentsOf(a + b[..n]) + last;
      assert SegmentsOf(a) + SegmentsOf(b[..n]) + last == SegmentsOf(a) + (SegmentsOf(b[..n]) + last);
    }
  }

  lemma OneSection(s: Section)
    ensures MemoriesOf([s]) == if s.Memories? then s.types else []
    ensures InitsOf([s]) == if s.Globals? then s.inits else []
    ensures ExportsOf([s]) == if s.Exports? then s.exports else []
    ensures SegmentsOf([s]) == if s.Data? then s.segments else []
  {
    assert [s][..0] == [];
  }

  /** The memories, globals, exports and segments of a module are those of its sections, in order. */
  lemma SectionsExactly(front: Module, s: Section, back: Module)
    ensures MemoriesOf(front + ([s] + back))
            == MemoriesOf(front) + ((if s.Memories? then s.types else []) + MemoriesOf(back))
    ensures InitsOf(front + ([s] + back)) == InitsOf(front) + ((if s.Globals? then s.inits else []) + InitsOf(back))
    ensures ExportsOf(front + ([s] + back))
            == ExportsOf(front) + ((if s.Exports? then s.exports else []) + ExportsOf(back))
    ensures SegmentsOf(front + ([s] + back))
            == SegmentsOf(front) + ((if s.Data? then s.segments else []) + SegmentsOf(back))
  {
    OneSection(s);
    MemoriesJoin([s], back);
    MemoriesJoin(front, [s] + back);
    GlobalsJoin([s], back);
    GlobalsJoin(front, [s] + back);
    ExportsJoin([s], back);
    ExportsJoin(front, [s] + back);
    DataJoin([s], back);
    DataJoin(front, [s] + back);
  }

  // ---- the static

  predicate ExportsStatic(e: Export) {
    e.name == "TRAVERSE_MODEL_BLOB" && e.isGlobal
  }

  /** The last global exported as the blob static starts out as the address `at`. */
  ghost predicate StaticAt(exports: seq<Export>, inits: seq<ConstExpr>, k: nat, at: nat) {
    && k < |exports| && ExportsStatic(exports[k]) && (forall j :: k < j < |exports| ==> !ExportsStatic(exports[j]))
    && exports[k].index < |inits| && inits[exports[k].index] == I32Const(at)
  }

  ghost predicate StaticOf(m: Module, at: nat) {
    exists k: nat :: StaticAt(ExportsOf(m), InitsOf(m), k, at)
  }

  lemma {:induction false} BlobGlobalExactly(exports: seq<Export>, index: nat)
    ensures BlobGlobal(exports) == Some(index) <==>
            exists k ::
              && 0 <= k < |exports| && ExportsStatic(exports[k]) && exports[k].index == index
              && forall j :: k < j < |exports| ==> !ExportsStatic(exports[j])
    ensures BlobGlobal(exports) == None <==> forall k :: 0 <= k < |exports| ==> !ExportsStatic(exports[k])
  {
    if exports != [] {
      var n := |exports| - 1;
      BlobGlobalExactly(exports[..n], index);
      assert forall k :: 0 <= k < n ==> exports[..n][k] == exports[k];
      assert ExportsStatic(exports[n]) || !ExportsStatic(exports[n]);
    }
  }

  /** The address of the static is what its global starts out as, and there is one. */
  lemma StaticExactly(m: Module, at: nat)
    ensures StaticOf(m, at) <==>
            var global, inits := BlobGlobal(ExportsOf(m)), InitsOf(m);
            global.Some? && global.value < |inits| && inits[global.value] == I32Const(at)
  {
    var exports, inits, global := ExportsOf(m), InitsOf(m), BlobGlobal(ExportsOf(m));
    if k: nat :| StaticAt(exports, inits, k, at) {
      BlobGlobalExactly(exports, exports[k].index);
    }
    if global.Some? && global.value < |inits| && inits[global.value] == I32Const(at) {
      BlobGlobalExactly(exports, global.value);
      var k :| 0 <= k < |exports| && ExportsStatic(exports[k]) && exports[k].index == global.value
               && forall j :: k < j < |exports| ==> !ExportsStatic(exports[j]);
      assert StaticAt(exports, inits, k, at);
    }
  }

  lemma Around(m: Module, i: nat)
    requires i < |m|
    ensures m == m[..i] + ([m[i]] + m[i + 1..])
  {
  }

  lemma {:induction false} NoExports(m: Module)
    requires forall i :: 0 <= i < |m| ==> !m[i].Exports?
    ensures ExportsOf(m) == []
  {
    if m != [] {
      NoExports(m[..|m| - 1]);
    }
  }

  lemma {:induction false} NoGlobals(m: Module)
    requires forall i :: 0 <= i < |m| ==> !m[i].Globals?
    ensures InitsOf(m) == []
  {
    if m != [] {
      NoGlobals(m[..|m| - 1]);
    }
  }

  lemma TheExports(m: Module, e: nat)
    requires WellSectioned(m) && e < |m| && m[e].Exports?
    ensures ExportsOf(m) == m[e].exports
  {
    Around(m, e);
    SectionsExactly(m[..e], m[e], m[e + 1..]);
    NoExports(m[..e]);
    NoExports(m[e + 1..]);
  }

  lemma TheGlobals(m: Module, g: nat)
    requires WellSectioned(m) && g < |m| && m[g].Globals?
    ensures InitsOf(m) == m[g].inits
  {
    Around(m, g);
    SectionsExactly(m[..g], m[g], m[g + 1..]);
    NoGlobals(m[..g]);
    NoGlobals(m[g + 1..]);
  }

  /** In a module with one section of a kind: an export section and a global section say where the static is. */
  ghost predicate StaticIn(m: Module, e: int, g: int, k: nat, at: nat) {
    0 <= e < |m| && 0 <= g < |m| && m[e].Exports? && m[g].Globals? && StaticAt(m[e].exports, m[g].inits, k, at)
  }

  lemma StaticInSections(m: Module, at: nat)
    requires WellSectioned(m)
    ensures StaticOf(m, at) <==> exists e, g, k: nat :: StaticIn(m, e, g, k, at)
  {
    if k: nat :| StaticAt(ExportsOf(m), InitsOf(m), k, at) {
      if forall i :: 0 <= i < |m| ==> !m[i].Exports? {
        NoExports(m);
      }
      if forall i :: 0 <= i < |m| ==> !m[i].Globals? {
        NoGlobals(m);
      }
      var e :| 0 <= e < |m| && m[e].Exports?;
      var g :| 0 <= g < |m| && m[g].Globals?;
      TheExports(m, e);
      TheGlobals(m, g);
      assert StaticIn(m, e, g, k, at);
    }
    if e, g, k: nat :| StaticIn(m, e, g, k, at) {
      TheExports(m, e);
      TheGlobals(m, g);
      assert StaticAt(ExportsOf(m), InitsOf(m), k, at);
    }
  }

  // ---- the first pass

  ghost predicate ImportFree(m: Module) {
    forall i :: 0 <= i < |m| && m[i].Imports? ==> m[i].count == 0
  }

  predicate PlainMemory(memory: MemoryType) {
    !memory.memory64 && !memory.shared && !memory.customPageSize
  }

  ghost predicate NamesOf(exports: seq<Export>, names: seq<string>) {
    |names| == |exports| && forall k :: 0 <= k < |exports| ==> names[k] == exports[k].name
  }

  /** The facts: no imports, one plain memory, the static's address, every export name in order. */
  lemma FactsExactly(m: Module, facts: Facts)
    ensures FactsOf(m) == Ok(facts) <==>
            && ImportFree(m) && MemoriesOf(m) == [facts.memory] && PlainMemory(facts.memory)
            && StaticOf(m, facts.blobStatic) && NamesOf(ExportsOf(m), facts.exports)
  {
    StaticExactly(m, facts.blobStatic);
    if NamesOf(ExportsOf(m), facts.exports) {
      assert facts.exports == Names(ExportsOf(m));
    }
    if |MemoriesOf(m)| == 1 {
      assert MemoriesOf(m) == [MemoriesOf(m)[0]];
    }
    assert ImportFree(m) <==> !ImportsAnything(m);
  }

  /** Why there are no facts; what comes first in this list is the answer. */
  lemma FactsMissing(m: Module, e: Reason)
    ensures FactsOf(m) == Err(e) <==>
            if !ImportFree(m) then e == HasImports
            else if |MemoriesOf(m)| != 1 then e == NotOneMemory
            else if !PlainMemory(MemoriesOf(m)[0]) then e == NotPlainMemory
            else e == NoBlobStatic && forall at: nat :: !StaticOf(m, at)
  {
    var global, inits := BlobGlobal(ExportsOf(m)), InitsOf(m);
    assert ImportFree(m) <==> !ImportsAnything(m);
    forall at: nat
      ensures StaticOf(m, at) <==> global.Some? && global.value < |inits| && inits[global.value] == I32Const(at)
    {
      StaticExactly(m, at);
    }
    if global.Some? && global.value < |inits| && inits[global.value].I32Const? && inits[global.value].value >= 0 {
      assert StaticOf(m, inits[global.value].value);
    }
  }

  // ---- one segment

  /** The segment holds all eight bytes of the static. */
  predicate Holds(s: Segment, at: nat) {
    s.Active? && s.offset.I32Const? && 0 <= s.offset.value <= at && at + 8 <= s.offset.value + |s.bytes|
  }

  predicate AllOnes(bytes: seq<Byte>, from: nat)
    requires from + 8 <= |bytes|
  {
    forall i :: from <= i < from + 8 ==> bytes[i] == 0xFF
  }

  /** It lies in memory 0 at a constant offset and, if it holds the static, the static still is eight times 0xFF. */
  predicate SegmentPatchable(s: Segment, at: nat) {
    s.Active? ==>
      && s.memory == 0 && s.offset.I32Const?
      && (Holds(s, at) ==> AllOnes(s.bytes, at - s.offset.value))
  }

  /** The same segment, except for the eight bytes of a static that it holds. */
  ghost predicate IsSegmentPatch(s: Segment, at: nat, pointer: Pointer, t: Segment) {
    if !Holds(s, at) then t == s
    else
      && t == s.(bytes := t.bytes) && |t.bytes| == |s.bytes|
      && forall i :: 0 <= i < |s.bytes| ==>
           var p := s.offset.value + i - at;
           t.bytes[i] == if 0 <= p < 8 then pointer[p] else s.bytes[i]
  }

  lemma SentinelExactly(bytes: seq<Byte>, from: nat)
    requires from + 8 <= |bytes|
    ensures bytes[from..from + 8] == SENTINEL <==> AllOnes(bytes, from)
  {
    var eight := bytes[from..from + 8];
    if AllOnes(bytes, from) {
      assert eight == SENTINEL;
    }
    if eight == SENTINEL {
      forall i | from <= i < from + 8 ensures bytes[i] == 0xFF {
        assert bytes[i] == eight[i - from];
      }
    }
  }

  lemma SegmentExactly(s: Segment, at: nat, pointer: Pointer, t: Segment)
    ensures PatchSegment(s, at, pointer).Ok? <==> SegmentPatchable(s, at)
    ensures PatchSegment(s, at, pointer).Ok? ==>
              && PatchSegment(s, at, pointer).value.1 == Holds(s, at)
              && (PatchSegment(s, at, pointer).value.0 == t <==> IsSegmentPatch(s, at, pointer, t))
  {
    if Holds(s, at) {
      var from := at - s.offset.value;
      SentinelExactly(s.bytes, from);
      var after := Put(s.bytes, from, pointer);
      assert forall i :: 0 <= i < |after| ==>
               after[i] == if from <= i < from + 8 then pointer[i - from] else s.bytes[i];
      if IsSegmentPatch(s, at, pointer, t) {
        assert t.bytes == after;
      }
    }
  }

  // ---- the data of a section

  ghost predicate AllPatchable(segments: seq<Segment>, at: nat) {
    forall j :: 0 <= j < |segments| ==> SegmentPatchable(segments[j], at)
  }

  ghost predicate SomeHolds(segments: seq<Segment>, at: nat) {
    exists j :: 0 <= j < |segments| && Holds(segments[j], at)
  }

  ghost predicate AreSegmentPatches(segments: seq<Segment>, at: nat, pointer: Pointer, out: seq<Segment>) {
    |out| == |segments| && forall j :: 0 <= j < |segments| ==> IsSegmentPatch(segments[j], at, pointer, out[j])
  }

  lemma {:induction false} SegmentsPatchable(segments: seq<Segment>, at: nat, pointer: Pointer)
    ensures PatchSegments(segments, at, pointer).Ok? <==> AllPatchable(segments, at)
    ensures PatchSegments(segments, at, pointer).Ok? ==>
              && (PatchSegments(segments, at, pointer).value.1 <==> SomeHolds(segments, at))
              && AreSegmentPatches(segments, at, pointer, PatchSegments(segments, at, pointer).value.0)
  {
    if segments != [] {
      var n := |segments| - 1;
      var s := segments[n];
      SegmentsPatchable(segments[..n], at, pointer);
      var last := PatchSegment(s, at, pointer);
      SegmentExactly(s, at, pointer, if last.Ok? then last.value.0 else s);
      assert segments == segments[..n] + [s];
    }
  }

  lemma SameSegments(segments: seq<Segment>, at: nat, pointer: Pointer, a: seq<Segment>, b: seq<Segment>)
    requires AllPatchable(segments, at)
    requires AreSegmentPatches(segments, at, pointer, a) && AreSegmentPatches(segments, at, pointer, b)
    ensures a == b
  {
    forall j | 0 <= j < |a| ensures a[j] == b[j] {
      SegmentExactly(segments[j], at, pointer, a[j]);
      SegmentExactly(segments[j], at, pointer, b[j]);
    }
  }

  // ---- all sections

  predicate SectionPatchable(s: Section, at: nat) {
    s.Data? ==> forall j :: 0 <= j < |s.segments| ==> SegmentPatchable(s.segments[j], at)
  }

  /** The section declares the grown memory, counts one segment more, or has its data patched and the blob behind it. */
  ghost predicate IsSectionPatch(s: Section, plan: Plan, t: Section)
    requires PlanFits(plan)
  {
    match s
    case Memories(_) => t == Memories([MemoryType(plan.pages, plan.maximum, false, false, false)])
    case DataCount(count) => t == DataCount(count + 1)
    case Data(segments) =>
      && t.Data? && |t.segments| == |segments| + 1
      && t.segments[|segments|] == Active(0, I32Const(plan.blobOffset), plan.blob)
      && AreSegmentPatches(segments, plan.at, ToLe32(plan.blobOffset) + ToLe32(|plan.blob|), t.segments[..|segments|])
    case _ => t == s
  }

  lemma SectionExactly(s: Section, plan: Plan, t: Section)
    requires PlanFits(plan)
    ensures PatchSection(s, plan).Ok? <==> SectionPatchable(s, plan.at)
    ensures PatchSection(s, plan).Ok? ==>
              && (PatchSection(s, plan).value.1 <==> s.Data? && SomeHolds(s.segments, plan.at))
              && (PatchSection(s, plan).value.0 == t <==> IsSectionPatch(s, plan, t))
  {
    if s.Data? {
      SegmentsPatchable(s.segments, plan.at, PointerOf(plan));
      if AllPatchable(s.segments, plan.at) {
        DataExactly(s, plan, t);
      }
    }
  }

  lemma DataExactly(s: Section, plan: Plan, t: Section)
    requires PlanFits(plan) && s.Data? && AllPatchable(s.segments, plan.at)
    ensures PatchSection(s, plan).Ok? && (PatchSection(s, plan).value.0 == t <==> IsSectionPatch(s, plan, t))
  {
    SegmentsPatchable(s.segments, plan.at, PointerOf(plan));
    var out, blob := PatchSegments(s.segments, plan.at, PointerOf(plan)).value.0,
      Active(0, I32Const(plan.blobOffset), plan.blob);
    assert (out + [blob])[..|out|] == out;
    if IsSectionPatch(s, plan, t) {
      SameSegments(s.segments, plan.at, PointerOf(plan), out, t.segments[..|out|]);
      assert t.segments == t.segments[..|out|] + [blob];
    }
  }

  ghost predicate Patchable(m: Module, at: nat) {
    forall i :: 0 <= i < |m| ==> SectionPatchable(m[i], at)
  }

  /** Some data segment holds the static. */
  ghost predicate StaticInData(m: Module, at: nat) {
    exists i :: 0 <= i < |m| && m[i].Data? && SomeHolds(m[i].segments, at)
  }

  ghost predicate AreSectionPatches(m: Module, plan: Plan, out: Module)
    requires PlanFits(plan)
  {
    |out| == |m| && forall i :: 0 <= i < |m| ==> IsSectionPatch(m[i], plan, out[i])
  }

  lemma {:induction false} SectionsPatchable(m: Module, plan: Plan)
    requires PlanFits(plan)
    ensures PatchSections(m, plan).Ok? <==> Patchable(m, plan.at)
    ensures PatchSections(m, plan).Ok? ==>
              && (PatchSections(m, plan).value.1 <==> StaticInData(m, plan.at))
              && AreSectionPatches(m, plan, PatchSections(m, plan).value.0)
  {
    if m != [] {
      var n := |m| - 1;
      var s := m[n];
      SectionsPatchable(m[..n], plan);
      var last := PatchSection(s, plan);
      SectionExactly(s, plan, if last.Ok? then last.value.0 else s);
      assert m == m[..n] + [s];
    }
  }

  lemma SameSections(m: Module, plan: Plan, a: Module, b: Module)
    requires PlanFits(plan) && Patchable(m, plan.at) && AreSectionPatches(m, plan, a) && AreSectionPatches(m, plan, b)
    ensures a == b
  {
    forall i | 0 <= i < |a| ensures a[i] == b[i] {
      SectionExactly(m[i], plan, a[i]);
      SectionExactly(m[i], plan, b[i]);
    }
  }

  // ---- the whole patch

  /** The fewest pages that hold the old memory and the blob. */
  ghost predicate FewestPagesFor(size: nat, pages: nat) {
    size <= pages * PAGE && forall fewer: nat :: size <= fewer * PAGE ==> pages <= fewer
  }

  ghost predicate IsExported(m: Module, name: string) {
    exists k :: 0 <= k < |ExportsOf(m)| && ExportsOf(m)[k].name == name
  }

  /** The four exports of the guest ABI. */
  ghost predicate ExportsGuest(m: Module) {
    forall name :: name in ["model_alloc", "model_prepare", "model_execute", "memory"] ==>
      IsExported(m, name)
  }

  /** A 32-bit memory can be grown to hold the blob behind what it holds. */
  ghost predicate Grows(memory: MemoryType, blob: seq<Byte>, pages: nat) {
    && FewestPagesFor(memory.initial * 65_536 + |blob|, pages) && pages <= 65_536
    && (memory.maximum.Some? ==> pages <= memory.maximum.value)
  }

  /** And the static can say where it is and how long. */
  ghost predicate BlobFits(memory: MemoryType, blob: seq<Byte>, pages: nat) {
    Grows(memory, blob, pages) && memory.initial * 65_536 < 0x8000_0000 && |blob| < 0x1_0000_0000
  }

  /** The runner can take this blob, which makes its memory `pages` long. */
  ghost predicate Takes(m: Module, blob: seq<Byte>, memory: MemoryType, at: nat, pages: nat) {
    && ImportFree(m) && MemoriesOf(m) == [memory] && PlainMemory(memory) && StaticOf(m, at)
    && ExportsGuest(m) && BlobFits(memory, blob, pages) && Patchable(m, at) && StaticInData(m, at)
  }

  /** What the runner becomes. */
  ghost predicate Becomes(m: Module, blob: seq<Byte>, memory: MemoryType, at: nat, out: Module, layout: Layout) {
    var plan := Plan(layout.memoryPages, memory.maximum, at, memory.initial * 65_536, blob);
    && layout == Layout(memory.initial * 65_536, |blob|, layout.memoryPages)
    && PlanFits(plan) && AreSectionPatches(m, plan, out)
  }

  lemma PagesExactly(initial: nat, n: nat, pages: nat)
    ensures FewestPagesFor(initial * PAGE + n, pages) <==> pages == initial + PagesFor(n)
  {
    var extra := PagesFor(n);
    assert extra * PAGE >= n && (extra - 1) * PAGE < n;
    var least := initial + extra;
    assert least * PAGE == initial * PAGE + extra * PAGE;
    forall fewer: nat | initial * PAGE + n <= fewer * PAGE ensures least <= fewer {
      assert (fewer - initial) * PAGE >= n;
    }
  }

  lemma {:induction false} MissingExactly(exports: seq<string>, required: seq<string>)
    ensures FirstMissing(exports, required).None? <==> forall name :: name in required ==> name in exports
  {
    if required != [] {
      MissingExactly(exports, required[1..]);
      assert required == [required[0]] + required[1..];
    }
  }

  lemma NameExported(m: Module, name: string)
    ensures name in Names(ExportsOf(m)) <==> IsExported(m, name)
  {
    var exports := ExportsOf(m);
    if name in Names(exports) {
      var k :| 0 <= k < |exports| && Names(exports)[k] == name;
      assert exports[k].name == name;
    }
    if k :| 0 <= k < |exports| && exports[k].name == name {
      assert Names(exports)[k] == name;
    }
  }

  lemma GuestExactly(m: Module)
    ensures FirstMissing(Names(ExportsOf(m)), REQUIRED_EXPORTS).None? <==> ExportsGuest(m)
  {
    MissingExactly(Names(ExportsOf(m)), REQUIRED_EXPORTS);
    forall name ensures name in Names(ExportsOf(m)) <==> IsExported(m, name) {
      NameExported(m, name);
    }
  }

  lemma GrowsExactly(memory: MemoryType, blob: seq<Byte>, pages: nat)
    ensures Grows(memory, blob, pages) <==>
            && pages == LayoutFor(memory, blob).memoryPages <= PAGE
            && !(memory.maximum.Some? && memory.maximum.value < pages)
  {
    PagesExactly(memory.initial, |blob|, pages);
  }

  /** With facts in hand: taking the blob is passing every check. */
  lemma ChecksExactly(m: Module, blob: seq<Byte>, facts: Facts, pages: nat)
    requires FactsOf(m) == Ok(facts)
    ensures Takes(m, blob, facts.memory, facts.blobStatic, pages) <==>
            && FirstMissing(facts.exports, REQUIRED_EXPORTS).None? && BlobFits(facts.memory, blob, pages)
            && Patchable(m, facts.blobStatic) && StaticInData(m, facts.blobStatic)
  {
    FactsExactly(m, facts);
    GuestExactly(m);
  }

  lemma TakesFacts(m: Module, blob: seq<Byte>, memory: MemoryType, at: nat, pages: nat)
    requires Takes(m, blob, memory, at, pages)
    ensures FactsOf(m) == Ok(Facts(memory, at, Names(ExportsOf(m))))
  {
    FactsExactly(m, Facts(memory, at, Names(ExportsOf(m))));
  }

  /** A runner that takes the blob is patched, and fails at most the final validation. */
  lemma TakenIsPatched(m: Module, blob: seq<Byte>, valid: Module -> bool, memory: MemoryType, at: nat, pages: nat)
    returns (out: Module)
    requires Takes(m, blob, memory, at, pages)
    ensures var layout := Layout(memory.initial * PAGE, |blob|, pages);
      && Becomes(m, blob, memory, at, out, layout)
      && Patched(m, blob, valid) == if valid(out) then Ok((out, layout)) else Err(FailedValidation)
  {
    TakesFacts(m, blob, memory, at, pages);
    var facts := FactsOf(m).value;
    var plan := PlanFor(facts, blob);
    ChecksExactly(m, blob, facts, pages);
    GrowsExactly(memory, blob, pages);
    SectionsPatchable(m, plan);
    out := PatchSections(m, plan).value.0;
  }

  /** Nothing else is patched. */
  lemma PatchedIsTaken(m: Module, blob: seq<Byte>, valid: Module -> bool)
    requires Patched(m, blob, valid).Ok? || Patched(m, blob, valid) == Err(FailedValidation)
    ensures FactsOf(m).Ok?
    ensures var facts := FactsOf(m).value;
      Takes(m, blob, facts.memory, facts.blobStatic, LayoutFor(facts.memory, blob).memoryPages)
  {
    FactsFailure(m);
    var facts := FactsOf(m).value;
    var plan := PlanFor(facts, blob);
    var pages := LayoutFor(facts.memory, blob).memoryPages;
    GrowsExactly(facts.memory, blob, pages);
    if PlanFits(plan) {
      SectionsPatchable(m, plan);
      SectionsFailure(m, plan);
    }
    ChecksExactly(m, blob, facts, pages);
  }

  lemma FactsFailure(m: Module)
    ensures FactsOf(m) != Err(FailedValidation)
  {
  }

  lemma {:induction false} SegmentsFailure(segments: seq<Segment>, at: nat, pointer: Pointer)
    ensures PatchSegments(segments, at, pointer) != Err(FailedValidation)
  {
    if segments != [] {
      SegmentsFailure(segments[..|segments| - 1], at, pointer);
    }
  }

  lemma {:induction false} SectionsFailure(m: Module, plan: Plan)
    requires PlanFits(plan)
    ensures PatchSections(m, plan) != Err(FailedValidation)
  {
    if m != [] {
      var n := |m| - 1;
      SectionsFailure(m[..n], plan);
      if m[n].Data? {
        SegmentsFailure(m[n].segments, plan.at, PointerOf(plan));
      }
    }
  }

  /** A module comes out exactly of a runner that takes the blob, is what that becomes, and is valid. */
  lemma PatchedExactly(m: Module, blob: seq<Byte>, valid: Module -> bool, out: Module, layout: Layout)
    ensures Patched(m, blob, valid) == Ok((out, layout)) <==>
            exists memory, at ::
              && Takes(m, blob, memory, at, layout.memoryPages) && Becomes(m, blob, memory, at, out, layout)
              && valid(out)
  {
    if Patched(m, blob, valid) == Ok((out, layout)) {
      PatchedIsTaken(m, blob, valid);
      var facts := FactsOf(m).value;
      var made := TakenIsPatched(m, blob, valid, facts.memory, facts.blobStatic, layout.memoryPages);
      assert Becomes(m, blob, facts.memory, facts.blobStatic, out, layout);
    }
    if memory, at :| Takes(m, blob, memory, at, layout.memoryPages) && Becomes(m, blob, memory, at, out, layout)
                     && valid(out)
    {
      var made := TakenIsPatched(m, blob, valid, memory, at, layout.memoryPages);
      SameSections(m, Plan(layout.memoryPages, memory.maximum, at, memory.initial * PAGE, blob), out, made);
    }
  }

  // ---- and when not

  /** What is wrong with a segment that cannot be patched. */
  ghost predicate SegmentFault(s: Segment, at: nat, e: Reason) {
    && !SegmentPatchable(s, at) && s.Active?
    && if s.memory != 0 then e == UnknownMemory else if s.offset.OtherExpr? then e == OffsetNotConst
       else e == AlreadyPatched
  }

  /** What is wrong with the first segment that cannot be patched. */
  ghost predicate SegmentsFault(segments: seq<Segment>, at: nat, e: Reason) {
    exists j ::
      0 <= j < |segments| && SegmentFault(segments[j], at, e)
      && forall k :: 0 <= k < j ==> SegmentPatchable(segments[k], at)
  }

  ghost predicate SectionsFault(m: Module, at: nat, e: Reason) {
    exists i ::
      0 <= i < |m| && m[i].Data? && SegmentsFault(m[i].segments, at, e)
      && forall k :: 0 <= k < i ==> SectionPatchable(m[k], at)
  }

  lemma {:induction false} SegmentsRefused(segments: seq<Segment>, at: nat, pointer: Pointer, e: Reason)
    ensures PatchSegments(segments, at, pointer) == Err(e) <==> SegmentsFault(segments, at, e)
  {
    SegmentsPatchable(segments, at, pointer);
    if segments != [] {
      var n := |segments| - 1;
      var front, s := segments[..n], segments[n];
      SegmentsRefused(front, at, pointer, e);
      SegmentsPatchable(front, at, pointer);
      SegmentExactly(s, at, pointer, s);
      SegmentReason(s, at, pointer, e);
      assert forall k :: 0 <= k < n ==> front[k] == segments[k];
    }
  }

  lemma SegmentReason(s: Segment, at: nat, pointer: Pointer, e: Reason)
    ensures PatchSegment(s, at, pointer) == Err(e) <==> SegmentFault(s, at, e)
  {
    SegmentExactly(s, at, pointer, s);
  }

  lemma SectionReason(s: Section, plan: Plan, e: Reason)
    requires PlanFits(plan)
    ensures PatchSection(s, plan).Ok? <==> SectionPatchable(s, plan.at)
    ensures PatchSection(s, plan) == Err(e) <==> s.Data? && SegmentsFault(s.segments, plan.at, e)
  {
    SectionExactly(s, plan, s);
    if s.Data? {
      SegmentsRefused(s.segments, plan.at, PointerOf(plan), e);
    }
  }

  lemma {:induction false} SectionsRefused(m: Module, plan: Plan, e: Reason)
    requires PlanFits(plan)
    ensures PatchSections(m, plan) == Err(e) <==> SectionsFault(m, plan.at, e)
  {
    if m != [] {
      var n := |m| - 1;
      var front, s := m[..n], m[n];
      SectionsRefused(front, plan, e);
      SectionsPatchable(front, plan);
      SectionReason(s, plan, e);
      assert forall k :: 0 <= k < n ==> front[k] == m[k];
    }
  }

  lemma {:induction false} FirstMissingExactly(exports: seq<string>, required: seq<string>, name: string)
    ensures FirstMissing(exports, required) == Some(name) <==>
            exists i ::
              && 0 <= i < |required| && required[i] == name && name !in exports
              && forall j :: 0 <= j < i ==> required[j] in exports
  {
    if required != [] {
      var rest := required[1..];
      FirstMissingExactly(exports, rest, name);
      assert forall i :: 0 < i < |required| ==> required[i] == rest[i - 1];
      if i :| 0 <= i < |rest| && rest[i] == name && name !in exports
              && (forall j :: 0 <= j < i ==> rest[j] in exports) && required[0] in exports
      {
        assert required[i + 1] == name;
      }
    }
  }

  /** The first of the four exports that is missing. */
  ghost predicate LacksExport(m: Module, e: Reason) {
    exists i ::
      && 0 <= i < 4 && var guest := ["model_alloc", "model_prepare", "model_execute", "memory"];
      && e == MissingExport(guest[i]) && !IsExported(m, guest[i])
      && forall j :: 0 <= j < i ==> IsExported(m, guest[j])
  }

  /** The first thing in the way of a blob, once the facts are there. */
  ghost predicate InTheWay(m: Module, blob: seq<Byte>, memory: MemoryType, at: nat, e: Reason) {
    if !ExportsGuest(m) then LacksExport(m, e)
    else if !exists pages :: Grows(memory, blob, pages) then e == DoesNotFit
    else if memory.initial * 65_536 >= 0x8000_0000 || |blob| >= 0x1_0000_0000 then e == OffsetTooLarge
    else if !Patchable(m, at) then SectionsFault(m, at, e)
    else e == StaticNotInData && !StaticInData(m, at)
  }

  lemma LacksExactly(m: Module, e: Reason)
    ensures LacksExport(m, e) <==>
            e.MissingExport? && FirstMissing(Names(ExportsOf(m)), REQUIRED_EXPORTS) == Some(e.name)
  {
    var names := Names(ExportsOf(m));
    forall name ensures name in names <==> IsExported(m, name) {
      NameExported(m, name);
    }
    if e.MissingExport? {
      FirstMissingExactly(names, REQUIRED_EXPORTS, e.name);
    }
  }

  lemma WayExactly(m: Module, blob: seq<Byte>, valid: Module -> bool, e: Reason)
    requires FactsOf(m).Ok? && e != FailedValidation
    ensures Patched(m, blob, valid) == Err(e) <==>
            InTheWay(m, blob, FactsOf(m).value.memory, FactsOf(m).value.blobStatic, e)
  {
    var facts := FactsOf(m).value;
    var plan, pages := PlanFor(facts, blob), LayoutFor(facts.memory, blob).memoryPages;
    FactsExactly(m, facts);
    GuestExactly(m);
    LacksExactly(m, e);
    forall other: nat ensures Grows(facts.memory, blob, other) ==> other == pages {
      GrowsExactly(facts.memory, blob, other);
    }
    GrowsExactly(facts.memory, blob, pages);
    if PlanFits(plan) {
      SectionsPatchable(m, plan);
      SectionsRefused(m, plan, e);
    }
  }

  /** Why a blob is refused, apart from the final validation: a fact is missing or something is in the way. */
  lemma RefusedExactly(m: Module, blob: seq<Byte>, valid: Module -> bool, e: Reason)
    requires e != FailedValidation
    ensures Patched(m, blob, valid) == Err(e) <==>
            || FactsOf(m) == Err(e)
            || exists memory, at ::
                 && ImportFree(m) && MemoriesOf(m) == [memory] && PlainMemory(memory) && StaticOf(m, at)
                 && InTheWay(m, blob, memory, at, e)
  {
    if FactsOf(m).Ok? {
      var facts := FactsOf(m).value;
      WayExactly(m, blob, valid, e);
      FactsExactly(m, facts);
    }
    if memory, at :| ImportFree(m) && MemoriesOf(m) == [memory] && PlainMemory(memory) && StaticOf(m, at)
                     && InTheWay(m, blob, memory, at, e)
    {
      FactsExactly(m, Facts(memory, at, Names(ExportsOf(m))));
    }
  }
}
