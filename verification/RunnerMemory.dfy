/**
  What patching a runner does to the memory it starts with, and that it cannot be done
  twice.
 */
module RunnerMemory {
  import opened Common
  import opened Bytes
  import opened RunnerModule
  import opened RunnerPatch
  import opened RunnerConditions

  // ---- one segment, then all of them

  predicate IsPlaced(s: Segment) {
    s.Active? && s.offset.I32Const?
  }

  /** The segment writes some byte of the static. */
  predicate Touches(s: Segment, at: nat) {
    IsPlaced(s) && s.bytes != [] && Address(s.offset.value) < at + 8 && at < Address(s.offset.value) + |s.bytes|
  }

  /** The first address of the static the segment writes. */
  function FirstTouched(s: Segment, at: nat): (i: int)
    requires Touches(s, at)
    ensures InStatic(i, at) && 0 <= i - Address(s.offset.value) < |s.bytes|
  {
    if Address(s.offset.value) > at then Address(s.offset.value) else at
  }

  predicate HoldsStatic(s: Segment, at: nat) {
    IsPlaced(s) && Covers(s.offset.value, s.bytes, at)
  }

  /** The last segment that touches the static holds all of it. */
  predicate Settled(segments: seq<Segment>, at: nat) {
    segments != [] &&
    var n := |segments| - 1;
    HoldsStatic(segments[n], at) || (!Touches(segments[n], at) && Settled(segments[..n], at))
  }

  predicate InStatic(i: int, at: nat) {
    at <= i < at + 8
  }

  /** `long` is `short` with more room behind it, apart from the static. */
  ghost predicate AgreeOutside(short: seq<Byte>, long: seq<Byte>, rest: seq<Byte>, at: nat) {
    && |long| == |short| + |rest|
    && long[|short|..] == rest
    && forall i :: 0 <= i < |short| && !InStatic(i, at) ==> long[i] == short[i]
  }

  lemma PutIndex(memory: seq<Byte>, at: int, bytes: seq<Byte>, i: nat)
    requires CanPut(memory, at, bytes) && i < |memory|
    ensures Put(memory, at, bytes)[i] == if at <= i < at + |bytes| then bytes[i - at] else memory[i]
  {
  }

  /** One patched segment changes the static only, and what it leaves there is known. */
  lemma SegmentAgrees(short: seq<Byte>, long: seq<Byte>, rest: seq<Byte>, s: Segment, at: nat, pointer: Pointer)
    requires AgreeOutside(short, long, rest, at) && at + 8 <= |short|
    requires Apply(short, s).Some? && PatchSegment(s, at, pointer).Ok?
    ensures var after := PatchSegment(s, at, pointer).value.0;
      && Apply(long, after).Some?
      && AgreeOutside(Apply(short, s).value, Apply(long, after).value, rest, at)
  {
    if s.Active? {
      var start := Address(s.offset.value);
      var after := PatchSegment(s, at, pointer).value.0;
      var n, n' := Put(short, start, s.bytes), Put(long, start, after.bytes);
      forall i | 0 <= i < |short| && !InStatic(i, at) ensures n'[i] == n[i] {
        PutIndex(short, start, s.bytes, i);
        PutIndex(long, start, after.bytes, i);
      }
      assert n'[|short|..] == long[|short|..];
    }
  }

  lemma SegmentEffect(short: seq<Byte>, long: seq<Byte>, rest: seq<Byte>, s: Segment, at: nat, pointer: Pointer)
    requires AgreeOutside(short, long, rest, at) && at + 8 <= |short|
    requires Apply(short, s).Some? && PatchSegment(s, at, pointer).Ok?
    ensures var after := PatchSegment(s, at, pointer).value.0;
      && Apply(long, after).Some?
      && AgreeOutside(Apply(short, s).value, Apply(long, after).value, rest, at)
      && (HoldsStatic(s, at) ==> Apply(long, after).value[at..at + 8] == pointer)
      && (!Touches(s, at) ==> Apply(long, after).value[at..at + 8] == long[at..at + 8])
      && (Touches(s, at) && !HoldsStatic(s, at) ==>
            Apply(long, after).value[FirstTouched(s, at)] == s.bytes[FirstTouched(s, at) - Address(s.offset.value)])
  {
    SegmentAgrees(short, long, rest, s, at, pointer);
    if s.Active? && Touches(s, at) && !HoldsStatic(s, at) {
      PutIndex(long, Address(s.offset.value), PatchSegment(s, at, pointer).value.0.bytes, FirstTouched(s, at));
    }
  }

  /** After all segments the memories agree outside the static, and a settled static holds the pointer. */
  lemma {:induction false} SegmentsEffect(memory: seq<Byte>, rest: seq<Byte>, segments: seq<Segment>, at: nat,
                                          pointer: Pointer)
    requires at + 8 <= |memory|
    requires ApplyAll(memory, segments).Some? && PatchSegments(segments, at, pointer).Ok?
    ensures var after := ApplyAll(memory + rest, PatchSegments(segments, at, pointer).value.0);
      && after.Some?
      && AgreeOutside(ApplyAll(memory, segments).value, after.value, rest, at)
      && (Settled(segments, at) ==> after.value[at..at + 8] == pointer)
  {
    if segments != [] {
      var n := |segments| - 1;
      var front := segments[..n];
      SegmentsEffect(memory, rest, front, at, pointer);
      var before := PatchSegments(front, at, pointer).value.0;
      var last := PatchSegment(segments[n], at, pointer).value.0;
      assert (before + [last])[..n] == before;
      SegmentEffect(ApplyAll(memory, front).value, ApplyAll(memory + rest, before).value, rest, segments[n], at,
                    pointer);
    }
  }

  /** The memory at `i` after patching with `pointer`. */
  ghost predicate EndsWith(memory: seq<Byte>, segments: seq<Segment>, at: nat, pointer: Pointer, i: int, byte: Byte) {
    PatchSegments(segments, at, pointer).Ok? &&
    var after := ApplyAll(memory, PatchSegments(segments, at, pointer).value.0);
    after.Some? && 0 <= i < |after.value| && after.value[i] == byte
  }

  /** What the last patched segment leaves in the static. */
  lemma LastSegment(memory: seq<Byte>, segments: seq<Segment>, at: nat, pointer: Pointer, i: int, byte: Byte)
    requires at + 8 <= |memory| && segments != [] && InStatic(i, at)
    requires ApplyAll(memory, segments).Some? && PatchSegments(segments, at, pointer).Ok?
    ensures var s := segments[|segments| - 1];
      && (!Touches(s, at) && EndsWith(memory, segments[..|segments| - 1], at, pointer, i, byte) ==>
            EndsWith(memory, segments, at, pointer, i, byte))
      && (Touches(s, at) && !HoldsStatic(s, at) && i == FirstTouched(s, at) ==>
            byte == s.bytes[i - Address(s.offset.value)] ==> EndsWith(memory, segments, at, pointer, i, byte))
  {
    var n := |segments| - 1;
    var before := PatchSegments(segments[..n], at, pointer).value.0;
    var last := PatchSegment(segments[n], at, pointer).value.0;
    assert (before + [last])[..n] == before;
    assert memory + [] == memory;
    SegmentsEffect(memory, [], segments[..n], at, pointer);
    var mid := ApplyAll(memory, before).value;
    SegmentEffect(ApplyAll(memory, segments[..n]).value, mid, [], segments[n], at, pointer);
    var after := Apply(mid, last).value;
    assert after[i] == after[at..at + 8][i - at] && mid[i] == mid[at..at + 8][i - at];
  }

  /** An unsettled static ends with a byte that does not depend on the pointer. */
  lemma {:induction false} UnsettledByte(memory: seq<Byte>, segments: seq<Segment>, at: nat,
                                         pointer: Pointer)
    returns (i: int, byte: Byte)
    requires at + 8 <= |memory| && !Settled(segments, at)
    requires ApplyAll(memory, segments).Some? && PatchSegments(segments, at, pointer).Ok?
    requires PatchSegments(segments, at, pointer).value.1
    ensures InStatic(i, at)
    ensures forall other: Pointer :: EndsWith(memory, segments, at, other, i, byte)
  {
    var n := |segments| - 1;
    var s := segments[n];
    if Touches(s, at) {
      i := FirstTouched(s, at);
      byte := s.bytes[i - Address(s.offset.value)];
    } else {
      i, byte := UnsettledByte(memory, segments[..n], at, pointer);
    }
    forall other: Pointer ensures EndsWith(memory, segments, at, other, i, byte) {
      SamePatches(segments, at, pointer, other);
      LastSegment(memory, segments, at, other, i, byte);
    }
  }

  /** The pointer reaches the static whatever it is, exactly when the static is settled. */
  lemma PointerLandsExactlyIfSettled(memory: seq<Byte>, segments: seq<Segment>, at: nat, pointer: Pointer)
    requires at + 8 <= |memory| && ApplyAll(memory, segments).Some?
    requires PatchSegments(segments, at, pointer).Ok? && PatchSegments(segments, at, pointer).value.1
    ensures Settled(segments, at) <==> forall other: Pointer :: Lands(memory, segments, at, other)
  {
    assert memory + [] == memory;
    if Settled(segments, at) {
      forall other: Pointer ensures Lands(memory, segments, at, other) {
        SamePatches(segments, at, pointer, other);
        SegmentsEffect(memory, [], segments, at, other);
      }
    } else {
      var i, byte := UnsettledByte(memory, segments, at, pointer);
      var other: Pointer := seq(8, _ => if byte == 0 then 1 else 0);
      assert EndsWith(memory, segments, at, other, i, byte);
      var after := ApplyAll(memory, PatchSegments(segments, at, other).value.0).value;
      assert after[at..at + 8][i - at] != other[i - at];
      assert !Lands(memory, segments, at, other);
    }
  }

  ghost predicate Lands(memory: seq<Byte>, segments: seq<Segment>, at: nat, pointer: Pointer) {
    PatchSegments(segments, at, pointer).Ok? &&
    var after := ApplyAll(memory, PatchSegments(segments, at, pointer).value.0);
    after.Some? && at + 8 <= |after.value| && after.value[at..at + 8] == pointer
  }

  /** Whether a patch succeeds does not depend on the pointer. */
  lemma {:induction false} SamePatches(segments: seq<Segment>, at: nat, a: Pointer, b: Pointer)
    requires PatchSegments(segments, at, a).Ok?
    ensures PatchSegments(segments, at, b).Ok?
    ensures PatchSegments(segments, at, b).value.1 == PatchSegments(segments, at, a).value.1
  {
    if segments != [] { SamePatches(segments[..|segments| - 1], at, a, b); }
  }

  /** A segment that holds the static and fits in memory puts the static in memory. */
  lemma {:induction false} StaticInMemory(memory: seq<Byte>, segments: seq<Segment>, at: nat, pointer: Pointer)
    requires ApplyAll(memory, segments).Some? && PatchSegments(segments, at, pointer).Ok?
    requires PatchSegments(segments, at, pointer).value.1
    ensures at + 8 <= |memory|
  {
    var n := |segments| - 1;
    if PatchSegments(segments[..n], at, pointer).value.1 {
      StaticInMemory(memory, segments[..n], at, pointer);
    }
  }

  /** The blob segment fills the room behind the old memory from its start. */
  lemma BlobEffect(memory: seq<Byte>, room: nat, segments: seq<Segment>, blob: seq<Byte>, start: seq<Byte>)
    requires ApplyAll(start, segments) == Some(memory + Zeros(room)) && |blob| <= room && |memory| < 0x8000_0000
    ensures ApplyAll(start, segments + [Active(0, I32Const(|memory|), blob)])
            == Some(memory + blob + Zeros(room - |blob|))
  {
    var all := segments + [Active(0, I32Const(|memory|), blob)];
    assert all[..|segments|] == segments;
    var full := memory + Zeros(room);
    assert Put(full, |memory|, blob) == memory + blob + Zeros(room - |blob|);
  }

  // ---- from segments to the whole module

  lemma {:induction false} SectionAt(m: Module, plan: Plan, i: nat)
    requires PlanFits(plan) && PatchSections(m, plan).Ok? && i < |m|
    ensures PatchSection(m[i], plan).Ok? && PatchSections(m, plan).value.0[i] == PatchSection(m[i], plan).value.0
  {
    var n := |m| - 1;
    if i < n {
      SectionAt(m[..n], plan, i);
    }
  }

  lemma {:induction false} PatchedSomewhere(m: Module, plan: Plan) returns (i: nat)
    requires PlanFits(plan) && PatchSections(m, plan).Ok? && PatchSections(m, plan).value.1
    ensures i < |m| && m[i].Data? && PatchSegments(m[i].segments, plan.at, PointerOf(plan)).Ok?
    ensures PatchSegments(m[i].segments, plan.at, PointerOf(plan)).value.1
  {
    var n := |m| - 1;
    if PatchSections(m[..n], plan).value.1 {
      i := PatchedSomewhere(m[..n], plan);
    } else {
      i := n;
    }
  }

  lemma {:induction false} OnlyData(m: Module, i: nat)
    requires i < |m| && m[i].Data? && forall j :: 0 <= j < |m| && j != i ==> !m[j].Data?
    ensures SegmentsOf(m) == m[i].segments
  {
    var n := |m| - 1;
    if i < n {
      OnlyData(m[..n], i);
    } else {
      NoData(m[..n]);
    }
  }

  lemma {:induction false} NoData(m: Module)
    requires forall j :: 0 <= j < |m| ==> !m[j].Data?
    ensures SegmentsOf(m) == []
  {
    if m != [] { NoData(m[..|m| - 1]); }
  }

  lemma {:induction false} SomeMemories(m: Module) returns (i: nat)
    requires MemoriesOf(m) != []
    ensures i < |m| && m[i].Memories?
  {
    var n := |m| - 1;
    if m[n].Memories? {
      i := n;
    } else {
      i := SomeMemories(m[..n]);
    }
  }

  lemma {:induction false} OnlyMemories(m: Module, i: nat)
    requires i < |m| && m[i].Memories? && forall j :: 0 <= j < |m| && j != i ==> !m[j].Memories?
    ensures MemoriesOf(m) == m[i].types
  {
    var n := |m| - 1;
    if i < n {
      OnlyMemories(m[..n], i);
    } else {
      NoMemories(m[..n]);
    }
  }

  lemma {:induction false} NoMemories(m: Module)
    requires forall j :: 0 <= j < |m| ==> !m[j].Memories?
    ensures MemoriesOf(m) == []
  {
    if m != [] { NoMemories(m[..|m| - 1]); }
  }

  /** Every section but memory, data and data count is copied as it is, in its place. */
  lemma OtherSectionsUnchanged(m: Module, blob: seq<Byte>, valid: Module -> bool, i: nat)
    requires Patched(m, blob, valid).Ok? && i < |m|
    ensures var out := Patched(m, blob, valid).value.0;
      && |out| == |m|
      && (!m[i].Memories? && !m[i].Data? && !m[i].DataCount? ==> out[i] == m[i])
      && (m[i].Memories? <==> out[i].Memories?) && (m[i].Data? <==> out[i].Data?)
      && (m[i].DataCount? ==> out[i] == DataCount(m[i].count + 1))
  {
    SectionAt(m, PlanFor(FactsOf(m).value, blob), i);
  }

  /** Validation accepts only modules with at most one section of each kind. */
  ghost predicate Sound(valid: Module -> bool) {
    forall m :: valid(m) ==> WellSectioned(m)
  }

  lemma PatchedMemories(m: Module, blob: seq<Byte>, valid: Module -> bool)
    requires Sound(valid) && Patched(m, blob, valid).Ok?
    ensures var (out, layout) := Patched(m, blob, valid).value;
      MemoriesOf(out) == [MemoryType(layout.memoryPages, FactsOf(m).value.memory.maximum, false, false, false)]
  {
    var out := Patched(m, blob, valid).value.0;
    var i := SomeMemories(m);
    forall j | 0 <= j < |m| ensures out[j].Memories? ==> j == i {
      OtherSectionsUnchanged(m, blob, valid, i);
      OtherSectionsUnchanged(m, blob, valid, j);
    }
    SectionAt(m, PlanFor(FactsOf(m).value, blob), i);
    OnlyMemories(out, i);
  }

  /** The data of the patched module: the runner's segments, patched, then the blob. */
  lemma PatchedSegments(m: Module, blob: seq<Byte>, valid: Module -> bool)
    requires Sound(valid) && Patched(m, blob, valid).Ok?
    ensures var (out, layout) := Patched(m, blob, valid).value;
      var plan := PlanFor(FactsOf(m).value, blob);
      var r := PatchSegments(SegmentsOf(m), plan.at, PointerOf(plan));
      && r.Ok? && r.value.1
      && SegmentsOf(out) == r.value.0 + [Active(0, I32Const(layout.blobOffset), blob)]
  {
    var out := Patched(m, blob, valid).value.0;
    var plan := PlanFor(FactsOf(m).value, blob);
    var i := PatchedSomewhere(m, plan);
    forall j | 0 <= j < |m| ensures (out[j].Data? ==> j == i) && (m[j].Data? ==> j == i) {
      OtherSectionsUnchanged(m, blob, valid, i);
      OtherSectionsUnchanged(m, blob, valid, j);
    }
    SectionAt(m, plan, i);
    OnlyData(m, i);
    OnlyData(out, i);
  }

  lemma MarkedMemory(short: seq<Byte>, long: seq<Byte>, rest: seq<Byte>, at: nat, pointer: Pointer)
    requires AgreeOutside(short, long, rest, at) && at + 8 <= |short| && long[at..at + 8] == pointer
    ensures long == Put(short, at, pointer) + rest
  {
    var marked := Put(short, at, pointer) + rest;
    forall i | 0 <= i < |long| ensures long[i] == marked[i] {
      if i < |short| {
        PutIndex(short, at, pointer, i);
        if InStatic(i, at) { assert long[i] == long[at..at + 8][i - at]; }
      } else {
        assert long[i] == long[|short|..][i - |short|];
      }
    }
  }

  /** The segment holds all eight bytes of the static or none of them. */
  predicate AllOrNone(s: Segment, at: nat) {
    HoldsStatic(s, at) || !Touches(s, at)
  }

  /** If every segment holds all of the static or none, a patched static is settled. */
  lemma {:induction false} AllOrNoneSettles(segments: seq<Segment>, at: nat, pointer: Pointer)
    requires forall i :: 0 <= i < |segments| ==> AllOrNone(segments[i], at)
    requires PatchSegments(segments, at, pointer).Ok? && PatchSegments(segments, at, pointer).value.1
    ensures Settled(segments, at)
  {
    var n := |segments| - 1;
    if !HoldsStatic(segments[n], at) { AllOrNoneSettles(segments[..n], at, pointer); }
  }

  // ---- the main results

  /** The page count is the least that holds the old memory and the blob. */
  lemma FewestPages(m: Module, blob: seq<Byte>, valid: Module -> bool, pages: nat)
    requires Patched(m, blob, valid).Ok?
    ensures var layout := Patched(m, blob, valid).value.1;
      && layout.memoryPages <= PAGE
      && layout.blobOffset + |blob| <= layout.memoryPages * PAGE
      && (layout.blobOffset + |blob| <= pages * PAGE ==> layout.memoryPages <= pages)
  {
    var initial := FactsOf(m).value.memory.initial;
    var extra := PagesFor(|blob|);
    assert extra * PAGE >= |blob| && (extra - 1) * PAGE < |blob|;
  }

  /** Settled data, patched and followed by the blob, applied to a memory with room behind it. */
  lemma SettledData(zeros: seq<Byte>, room: nat, segments: seq<Segment>, at: nat, pointer: Pointer, blob: seq<Byte>)
    requires ApplyAll(zeros, segments).Some? && Settled(segments, at) && |blob| <= room && |zeros| < 0x8000_0000
    requires PatchSegments(segments, at, pointer).Ok? && PatchSegments(segments, at, pointer).value.1
    ensures var memory := ApplyAll(zeros, segments).value;
      && CanPut(memory, at, pointer)
      && ApplyAll(zeros + Zeros(room),
                  PatchSegments(segments, at, pointer).value.0 + [Active(0, I32Const(|zeros|), blob)])
         == Some(Put(memory, at, pointer) + blob + Zeros(room - |blob|))
  {
    var memory := ApplyAll(zeros, segments).value;
    StaticInMemory(zeros, segments, at, pointer);
    SegmentsEffect(zeros, Zeros(room), segments, at, pointer);
    var after := PatchSegments(segments, at, pointer).value.0;
    MarkedMemory(memory, ApplyAll(zeros + Zeros(room), after).value, Zeros(room), at, pointer);
    BlobEffect(Put(memory, at, pointer), room, after, blob, zeros + Zeros(room));
  }

  /** Settled data on a memory that starts as zeros and is grown to hold the blob. */
  lemma SettledMemory(size: nat, grown: nat, segments: seq<Segment>, at: nat, pointer: Pointer, blob: seq<Byte>)
    requires ApplyAll(Zeros(size), segments).Some? && Settled(segments, at)
    requires size + |blob| <= grown && size < 0x8000_0000
    requires PatchSegments(segments, at, pointer).Ok? && PatchSegments(segments, at, pointer).value.1
    ensures var memory := ApplyAll(Zeros(size), segments).value;
      && CanPut(memory, at, pointer)
      && ApplyAll(Zeros(grown), PatchSegments(segments, at, pointer).value.0 + [Active(0, I32Const(size), blob)])
         == Some(Put(memory, at, pointer) + blob + Zeros(grown - size - |blob|))
  {
    assert Zeros(grown) == Zeros(size) + Zeros(grown - size);
    SettledData(Zeros(size), grown - size, segments, at, pointer, blob);
  }

  lemma PatchedLayout(m: Module, blob: seq<Byte>, valid: Module -> bool)
    requires Patched(m, blob, valid).Ok?
    ensures var layout := Patched(m, blob, valid).value.1;
      && |MemoriesOf(m)| == 1 && MemoriesOf(m)[0].initial * PAGE == layout.blobOffset < 0x8000_0000
      && |blob| < 0x1_0000_0000
      && PlanFits(PlanFor(FactsOf(m).value, blob)) && PlanFor(FactsOf(m).value, blob).at == FactsOf(m).value.blobStatic
      && PointerOf(PlanFor(FactsOf(m).value, blob)) == ToLe32(layout.blobOffset) + ToLe32(|blob|)
  {
  }

  lemma GrownMemory(m: Module, out: Module, size: nat, pages: nat, at: nat, pointer: Pointer, blob: seq<Byte>)
    requires InitialMemory(m).Some? && MemoriesOf(m)[0].initial * PAGE == size < 0x8000_0000
    requires size + |blob| <= pages * PAGE
    requires Settled(SegmentsOf(m), at)
    requires PatchSegments(SegmentsOf(m), at, pointer).Ok? && PatchSegments(SegmentsOf(m), at, pointer).value.1
    requires |MemoriesOf(out)| == 1 && MemoriesOf(out)[0].initial == pages
    requires SegmentsOf(out) == PatchSegments(SegmentsOf(m), at, pointer).value.0 + [Active(0, I32Const(size), blob)]
    ensures var memory := InitialMemory(m).value;
      && |memory| == size && CanPut(memory, at, pointer)
      && InitialMemory(out) == Some(Put(memory, at, pointer) + blob + Zeros(pages * PAGE - size - |blob|))
  {
    SettledMemory(size, pages * PAGE, SegmentsOf(m), at, pointer, blob);
  }

  /**
    The patched module starts with the runner's memory, except that the exported static
    holds the blob's offset and length; the blob follows at the old memory end, then zeros.
   */
  lemma PatchedInitialMemory(m: Module, blob: seq<Byte>, valid: Module -> bool, at: nat)
    requires Sound(valid) && Patched(m, blob, valid).Ok? && InitialMemory(m).Some?
    requires StaticOf(m, at) && Settled(SegmentsOf(m), at)
    ensures var (out, layout) := Patched(m, blob, valid).value;
      var memory := InitialMemory(m).value;
      && |memory| == layout.blobOffset < 0x8000_0000 && |blob| < 0x1_0000_0000
      && CanPut(memory, at, ToLe32(layout.blobOffset) + ToLe32(|blob|))
      && layout.blobOffset + |blob| <= layout.memoryPages * PAGE
      && InitialMemory(out) == Some(Put(memory, at, ToLe32(layout.blobOffset) + ToLe32(|blob|)) + blob
                                    + Zeros(layout.memoryPages * PAGE - layout.blobOffset - |blob|))
  {
    var (out, layout) := Patched(m, blob, valid).value;
    var plan := PlanFor(FactsOf(m).value, blob);
    StaticExactly(m, at);
    FewestPages(m, blob, valid, layout.memoryPages);
    PatchedMemories(m, blob, valid);
    PatchedSegments(m, blob, valid);
    PatchedLayout(m, blob, valid);
    GrownMemory(m, out, layout.blobOffset, layout.memoryPages, plan.at, PointerOf(plan), blob);
  }

  // ---- patching twice

  lemma {:induction false} StaysPatched(segments: seq<Segment>, at: nat, pointer: Pointer, other: Pointer,
                                        tail: seq<Segment>)
    requires pointer != SENTINEL
    requires PatchSegments(segments, at, pointer).Ok? && PatchSegments(segments, at, pointer).value.1
    ensures PatchSegments(PatchSegments(segments, at, pointer).value.0, at, other).Err?
    ensures PatchSegments(PatchSegments(segments, at, pointer).value.0 + tail, at, other).Err?
  {
    var n := |segments| - 1;
    var (after, _) := PatchSegments(segments, at, pointer).value;
    var front := PatchSegments(segments[..n], at, pointer).value;
    var last := PatchSegment(segments[n], at, pointer).value;
    assert after[..n] == front.0;
    if front.1 {
      StaysPatched(segments[..n], at, pointer, other, []);
    } else {
      PatchedSegmentRefuses(segments[n], at, pointer, other);
    }
    assert (after + tail)[..|after|] == after;
    FailurePropagates(after + tail, |after|, at, other);
  }

  lemma PatchedSegmentRefuses(s: Segment, at: nat, pointer: Pointer, other: Pointer)
    requires pointer != SENTINEL && PatchSegment(s, at, pointer).Ok? && PatchSegment(s, at, pointer).value.1
    ensures PatchSegment(PatchSegment(s, at, pointer).value.0, at, other) == Err(AlreadyPatched)
  {
    var after := PatchSegment(s, at, pointer).value.0;
    var relative := at - s.offset.value;
    assert after.bytes[relative..relative + 8] == pointer;
  }

  /** A section that cannot be patched makes the whole module unpatchable. */
  lemma {:induction false} BadSection(m: Module, plan: Plan, i: nat)
    requires PlanFits(plan) && i < |m| && PatchSection(m[i], plan).Err?
    ensures PatchSections(m, plan).Err?
  {
    var n := |m| - 1;
    if i < n { BadSection(m[..n], plan, i); }
  }

  lemma {:induction false} SameStatic(m: Module, out: Module)
    requires |m| == |out|
    requires forall i :: 0 <= i < |m| ==>
               (out[i] == m[i] || (!m[i].Globals? && !m[i].Exports? && !out[i].Globals? && !out[i].Exports?))
    ensures InitsOf(m) == InitsOf(out) && ExportsOf(m) == ExportsOf(out)
  {
    if m != [] { SameStatic(m[..|m| - 1], out[..|m| - 1]); }
  }

  /** The patched module names the same static, and its data refuses a second pointer. */
  lemma SecondPassFails(m: Module, plan: Plan, out: Module, plan': Plan)
    requires PlanFits(plan) && PlanFits(plan') && plan'.at == plan.at
    requires PatchSections(m, plan).Ok? && PatchSections(m, plan).value == (out, true)
    ensures PatchSections(out, plan').Err?
  {
    var i := PatchedSomewhere(m, plan);
    SectionAt(m, plan, i);
    PointerIsNotSentinel(plan);
    StaysPatched(m[i].segments, plan.at, PointerOf(plan), PointerOf(plan'),
                 [Active(0, I32Const(plan.blobOffset), plan.blob)]);
    BadSection(out, plan', i);
  }

  lemma StaticKept(m: Module, plan: Plan, out: Module)
    requires PlanFits(plan) && PatchSections(m, plan).Ok? && PatchSections(m, plan).value.0 == out
    ensures InitsOf(m) == InitsOf(out) && ExportsOf(m) == ExportsOf(out)
  {
    forall j | 0 <= j < |m|
      ensures out[j] == m[j] || (!m[j].Globals? && !m[j].Exports? && !out[j].Globals? && !out[j].Exports?)
    {
      SectionAt(m, plan, j);
    }
    SameStatic(m, out);
  }

  /** Patching a patched module fails, whatever the second blob. */
  lemma PatchOnlyOnce(m: Module, blob: seq<Byte>, valid: Module -> bool, again: seq<Byte>, valid': Module -> bool)
    requires Patched(m, blob, valid).Ok?
    ensures Patched(Patched(m, blob, valid).value.0, again, valid').Err?
  {
    var out := Patched(m, blob, valid).value.0;
    var plan := PlanFor(FactsOf(m).value, blob);
    StaticKept(m, plan, out);
    if FactsOf(out).Ok? && PlanFits(PlanFor(FactsOf(out).value, again)) {
      SecondPassFails(m, plan, out, PlanFor(FactsOf(out).value, again));
    }
  }

  lemma PointerIsNotSentinel(plan: Plan)
    requires PlanFits(plan)
    ensures PointerOf(plan) != SENTINEL
  {
    assert PointerOf(plan)[3] == plan.blobOffset / 0x100_0000 < 0x80;
  }
}
