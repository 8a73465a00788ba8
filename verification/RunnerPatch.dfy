/**
  Packaging a model: the runner module gains the blob at its old memory end, and its
  eight-byte static is patched to point there.
 */
module RunnerPatch {
  import opened Common
  import opened Bytes
  import opened RunnerModule

  const BLOB_EXPORT := "TRAVERSE_MODEL_BLOB"
  const REQUIRED_EXPORTS := ["model_alloc", "model_prepare", "model_execute", "memory"]

  datatype Reason =
    | HasImports | NotOneMemory | NotPlainMemory | NoBlobStatic | MissingExport(name: string)
    | DoesNotFit | OffsetTooLarge | UnknownMemory | OffsetNotConst | AlreadyPatched | StaticNotInData | FailedValidation

  datatype Facts = Facts(memory: MemoryType, blobStatic: nat, exports: seq<string>)

  datatype Layout = Layout(blobOffset: nat, blobBytes: nat, memoryPages: nat)

  // ---- what the first pass learns

  function InitsOf(m: Module): (r: seq<ConstExpr>) {
    if m == [] then []
    else InitsOf(m[..|m| - 1]) + if m[|m| - 1].Globals? then m[|m| - 1].inits else []
  }

  function ExportsOf(m: Module): (r: seq<Export>) {
    if m == [] then []
    else ExportsOf(m[..|m| - 1]) + if m[|m| - 1].Exports? then m[|m| - 1].exports else []
  }

  predicate ImportsAnything(m: Module) {
    exists i :: 0 <= i < |m| && m[i].Imports? && m[i].count > 0
  }

  /** The global exported as the blob static; a later export of that name wins. */
  function BlobGlobal(exports: seq<Export>): (r: Option<nat>) {
    if exports == [] then None
    else
      var last := exports[|exports| - 1];
      if last.name == BLOB_EXPORT && last.isGlobal then Some(last.index) else BlobGlobal(exports[..|exports| - 1])
  }

  function Names(exports: seq<Export>): (r: seq<string>) {
    seq(|exports|, i requires 0 <= i < |exports| => exports[i].name)
  }

  function FactsOf(m: Module): (r: Result<Facts, Reason>) {
    var memories, inits, global := MemoriesOf(m), InitsOf(m), BlobGlobal(ExportsOf(m));
    if ImportsAnything(m) then Err(HasImports)
    else if |memories| != 1 then Err(NotOneMemory)
    else if memories[0].memory64 || memories[0].shared || memories[0].customPageSize then Err(NotPlainMemory)
    else if global.None? || global.value >= |inits| then Err(NoBlobStatic)
    else if !inits[global.value].I32Const? || inits[global.value].value < 0 then Err(NoBlobStatic)
    else Ok(Facts(memories[0], inits[global.value].value, Names(ExportsOf(m))))
  }

  method ScanExports(before: seq<Export>, more: seq<Export>) returns (global: Option<nat>)
    ensures global == BlobGlobal(before + more)
  {
    global := BlobGlobal(before);
    assert before + more[..0] == before;
    for k := 0 to |more|
      invariant global == BlobGlobal(before + more[..k])
    {
      assert (before + more[..k + 1])[..|before| + k] == before + more[..k];
      if more[k].name == BLOB_EXPORT && more[k].isGlobal {
        global := Some(more[k].index);
      }
    }
    assert more[..|more|] == more;
  }

  lemma SectionStep(m: Module, i: nat)
    requires i < |m|
    ensures MemoriesOf(m[..i + 1]) == MemoriesOf(m[..i]) + if m[i].Memories? then m[i].types else []
    ensures InitsOf(m[..i + 1]) == InitsOf(m[..i]) + if m[i].Globals? then m[i].inits else []
    ensures ExportsOf(m[..i + 1]) == ExportsOf(m[..i]) + if m[i].Exports? then m[i].exports else []
    ensures SegmentsOf(m[..i + 1]) == SegmentsOf(m[..i]) + if m[i].Data? then m[i].segments else []
  {
    assert m[..i + 1][..i] == m[..i] && m[..i + 1][i] == m[i];
  }

  method RunnerFacts(m: Module) returns (r: Result<Facts, Reason>)
    ensures r == FactsOf(m)
  {
    var memories: seq<MemoryType>, inits: seq<ConstExpr>, exports: seq<Export> := [], [], [];
    var global: Option<nat> := None;
    for i := 0 to |m|
      invariant forall j :: 0 <= j < i ==> !(m[j].Imports? && m[j].count > 0)
      invariant memories == MemoriesOf(m[..i]) && inits == InitsOf(m[..i]) && exports == ExportsOf(m[..i])
      invariant global == BlobGlobal(exports)
    {
      SectionStep(m, i);
      match m[i]
      case Imports(count, _) =>
        if count > 0 {
          return Err(HasImports);
        }
      case Memories(types) => memories := memories + types;
      case Globals(values, _) => inits := inits + values;
      case Exports(more, _) =>
        global := ScanExports(exports, more);
        exports := exports + more;
      case _ =>
    }
    assert m[..|m|] == m;
    if |memories| != 1 {
      return Err(NotOneMemory);
    }
    if memories[0].memory64 || memories[0].shared || memories[0].customPageSize {
      return Err(NotPlainMemory);
    }
    if global.None? || global.value >= |inits| || !inits[global.value].I32Const? || inits[global.value].value < 0 {
      return Err(NoBlobStatic);
    }
    return Ok(Facts(memories[0], inits[global.value].value, Names(exports)));
  }

  // ---- the static

  const SENTINEL: seq<Byte> := [0xFF, 0xFF, 0xFF, 0xFF, 0xFF, 0xFF, 0xFF, 0xFF]

  type Pointer = p: seq<Byte> | |p| == 8 witness [0, 0, 0, 0, 0, 0, 0, 0]

  /** The segment starting at `start` holds all eight bytes of the static. */
  predicate Covers(start: int, bytes: seq<Byte>, at: nat) {
    0 <= start <= at && at - start + 8 <= |bytes|
  }

  function PatchBytes(bytes: seq<Byte>, start: int, at: nat, pointer: Pointer): (r: Result<(seq<Byte>, bool), Reason>) {
    if !Covers(start, bytes, at) then Ok((bytes, false))
    else if bytes[at - start..at - start + 8] != SENTINEL then Err(AlreadyPatched)
    else Ok((Put(bytes, at - start, pointer), true))
  }

  /** `patch_static`: the slot is changed in place, and only if it still holds the sentinel. */
  method PatchStatic(bytes: array<Byte>, start: int, at: nat, pointer: Pointer) returns (r: Result<bool, Reason>)
    modifies bytes
    ensures match PatchBytes(old(bytes[..]), start, at, pointer)
            case Ok((after, patched)) => r == Ok(patched) && bytes[..] == after
            case Err(reason) => r == Err(reason) && bytes[..] == old(bytes[..])
  {
    if start < 0 || at < start {
      return Ok(false);
    }
    var relative := at - start;
    if relative + 8 > bytes.Length {
      return Ok(false);
    }
    if bytes[relative..relative + 8] != SENTINEL {
      return Err(AlreadyPatched);
    }
    ghost var was := bytes[..];
    for i := 0 to 8
      invariant forall k :: 0 <= k < bytes.Length ==>
        bytes[k] == if relative <= k < relative + i then pointer[k - relative] else was[k]
    {
      bytes[relative + i] := pointer[i];
    }
    assert bytes[..] == Put(was, relative, pointer);
    return Ok(true);
  }

  function PatchSegment(s: Segment, at: nat, pointer: Pointer): (r: Result<(Segment, bool), Reason>) {
    match s
    case Passive(_) => Ok((s, false))
    case Active(index, offset, bytes) =>
      if index != 0 then Err(UnknownMemory)
      else if !offset.I32Const? then Err(OffsetNotConst)
      else match PatchBytes(bytes, offset.value, at, pointer)
        case Err(reason) => Err(reason)
        case Ok((after, patched)) => Ok((Active(0, offset, after), patched))
  }

  function PatchSegments(segments: seq<Segment>, at: nat, pointer: Pointer): (r: Result<(seq<Segment>, bool), Reason>)
    ensures r.Ok? ==> |r.value.0| == |segments|
  {
    if segments == [] then Ok(([], false))
    else
      var n := |segments| - 1;
      match PatchSegments(segments[..n], at, pointer)
      case Err(reason) => Err(reason)
      case Ok((front, patched)) =>
        match PatchSegment(segments[n], at, pointer)
        case Err(reason) => Err(reason)
        case Ok((last, here)) => Ok((front + [last], patched || here))
  }

  method RewriteData(segments: seq<Segment>, at: nat,
                     pointer: Pointer)
    returns (r: Result<(seq<Segment>, bool), Reason>)
    ensures r == PatchSegments(segments, at, pointer)
  {
    var out: seq<Segment>, patched := [], false;
    for i := 0 to |segments|
      invariant PatchSegments(segments[..i], at, pointer) == Ok((out, patched))
    {
      assert segments[..i + 1][..i] == segments[..i];
      match segments[i]
      case Passive(_) =>
        out := out + [segments[i]];
      case Active(index, offset, data) =>
        if index != 0 {
          FailurePropagates(segments, i + 1, at, pointer);
          return Err(UnknownMemory);
        }
        if !offset.I32Const? {
          FailurePropagates(segments, i + 1, at, pointer);
          return Err(OffsetNotConst);
        }
        var bytes := new Byte[|data|](k requires 0 <= k < |data| => data[k]);
        assert bytes[..] == data;
        var here := PatchStatic(bytes, offset.value, at, pointer);
        if here.Err? {
          FailurePropagates(segments, i + 1, at, pointer);
          return Err(here.error);
        }
        patched := patched || here.value;
        out := out + [Active(0, offset, bytes[..])];
    }
    assert segments[..|segments|] == segments;
    return Ok((out, patched));
  }

  lemma {:induction false} FailurePropagates(segments: seq<Segment>, k: nat, at: nat, pointer: Pointer)
    requires k <= |segments| && PatchSegments(segments[..k], at, pointer).Err?
    ensures PatchSegments(segments, at, pointer) == PatchSegments(segments[..k], at, pointer)
    decreases |segments| - k
  {
    if k == |segments| {
      assert segments[..k] == segments;
    } else {
      assert segments[..k + 1][..k] == segments[..k];
      FailurePropagates(segments, k + 1, at, pointer);
    }
  }

  // ---- the patched module

  /** What the second pass writes: page counts, where the static is, and the blob. */
  datatype Plan = Plan(pages: nat, maximum: Option<nat>, at: nat, blobOffset: nat, blob: seq<Byte>)

  predicate PlanFits(plan: Plan) {
    plan.blobOffset < 0x8000_0000 && |plan.blob| < 0x1_0000_0000
  }

  function PointerOf(plan: Plan): (r: Pointer)
    requires PlanFits(plan)
  {
    ToLe32(plan.blobOffset) + ToLe32(|plan.blob|)
  }

  function PatchSection(s: Section, plan: Plan): (r: Result<(Section, bool), Reason>)
    requires PlanFits(plan)
  {
    match s
    case Memories(_) => Ok((Memories([MemoryType(plan.pages, plan.maximum, false, false, false)]), false))
    case DataCount(count) => Ok((DataCount(count + 1), false))
    case Data(segments) =>
      (match PatchSegments(segments, plan.at, PointerOf(plan))
       case Err(reason) => Err(reason)
       case Ok((out, patched)) => Ok((Data(out + [Active(0, I32Const(plan.blobOffset), plan.blob)]), patched)))
    case _ => Ok((s, false))
  }

  function PatchSections(m: Module, plan: Plan): (r: Result<(Module, bool), Reason>)
    requires PlanFits(plan)
    ensures r.Ok? ==> |r.value.0| == |m|
  {
    if m == [] then Ok(([], false))
    else
      var n := |m| - 1;
      match PatchSections(m[..n], plan)
      case Err(reason) => Err(reason)
      case Ok((front, patched)) =>
        match PatchSection(m[n], plan)
        case Err(reason) => Err(reason)
        case Ok((last, here)) => Ok((front + [last], patched || here))
  }

  /** One section of a kind at most, and a data count that matches: what any valid module has. */
  ghost predicate WellSectioned(m: Module) {
    && (forall i, j :: 0 <= i < j < |m| ==>
          && !(m[i].Memories? && m[j].Memories?) && !(m[i].Data? && m[j].Data?)
          && !(m[i].Globals? && m[j].Globals?) && !(m[i].Exports? && m[j].Exports?))
    && (forall i, j :: 0 <= i < |m| && 0 <= j < |m| && m[i].DataCount? && m[j].Data? ==> m[i].count == |m[j].segments|)
  }

  function FirstMissing(exports: seq<string>, required: seq<string>): (r: Option<string>) {
    if required == [] then None
    else if required[0] !in exports then Some(required[0])
    else FirstMissing(exports, required[1..])
  }

  /** `blob.len().div_ceil(PAGE)` */
  function PagesFor(n: nat): (r: nat) {
    (n + PAGE - 1) / PAGE
  }

  function LayoutFor(memory: MemoryType, blob: seq<Byte>): (r: Layout) {
    Layout(memory.initial * PAGE, |blob|, memory.initial + PagesFor(|blob|))
  }

  function PlanFor(facts: Facts, blob: seq<Byte>): (r: Plan) {
    var layout := LayoutFor(facts.memory, blob);
    Plan(layout.memoryPages, facts.memory.maximum, facts.blobStatic, layout.blobOffset, blob)
  }

  /** The module and layout a patch yields; `valid` stands for the final WASM validation. */
  function Patched(m: Module, blob: seq<Byte>, valid: Module -> bool): (r: Result<(Module, Layout), Reason>) {
    match FactsOf(m)
    case Err(reason) => Err(reason)
    case Ok(facts) =>
      var missing := FirstMissing(facts.exports, REQUIRED_EXPORTS);
      var layout, plan := LayoutFor(facts.memory, blob), PlanFor(facts, blob);
      if missing.Some? then Err(MissingExport(missing.value))
      else if layout.memoryPages > PAGE then Err(DoesNotFit)
      else if facts.memory.maximum.Some? && facts.memory.maximum.value < layout.memoryPages then Err(DoesNotFit)
      else if !PlanFits(plan) then Err(OffsetTooLarge)
      else match PatchSections(m, plan)
        case Err(reason) => Err(reason)
        case Ok((out, patched)) =>
          if !patched then Err(StaticNotInData)
          else if !valid(out) then Err(FailedValidation)
          else Ok((out, layout))
  }

  method PatchRunner(m: Module, blob: seq<Byte>, valid: Module -> bool) returns (r: Result<(Module, Layout), Reason>)
    ensures r == Patched(m, blob, valid)
  {
    var facts := RunnerFacts(m);
    if facts.Err? {
      return Err(facts.error);
    }
    var missing := FirstMissing(facts.value.exports, REQUIRED_EXPORTS);
    if missing.Some? {
      return Err(MissingExport(missing.value));
    }
    var memory := facts.value.memory;
    var layout := LayoutFor(memory, blob);
    if layout.memoryPages > PAGE || (memory.maximum.Some? && memory.maximum.value < layout.memoryPages) {
      return Err(DoesNotFit);
    }
    var plan := PlanFor(facts.value, blob);
    if !PlanFits(plan) {
      return Err(OffsetTooLarge);
    }
    var patched := RewriteSections(m, plan);
    if patched.Err? {
      return Err(patched.error);
    }
    if !patched.value.1 {
      return Err(StaticNotInData);
    }
    if !valid(patched.value.0) {
      return Err(FailedValidation);
    }
    return Ok((patched.value.0, layout));
  }

  /** The second pass: three kinds of section are rewritten, all others copied. */
  method RewriteSections(m: Module, plan: Plan) returns (r: Result<(Module, bool), Reason>)
    requires PlanFits(plan)
    ensures r == PatchSections(m, plan)
  {
    var out: Module, patched := [], false;
    for i := 0 to |m|
      invariant PatchSections(m[..i], plan) == Ok((out, patched))
    {
      assert m[..i + 1][..i] == m[..i];
      match m[i]
      case Memories(_) =>
        out := out + [Memories([MemoryType(plan.pages, plan.maximum, false, false, false)])];
      case DataCount(count) =>
        out := out + [DataCount(count + 1)];
      case Data(segments) =>
        var here := RewriteData(segments, plan.at, PointerOf(plan));
        if here.Err? {
          SectionFailure(m, i + 1, plan);
          return Err(here.error);
        }
        patched := patched || here.value.1;
        out := out + [Data(here.value.0 + [Active(0, I32Const(plan.blobOffset), plan.blob)])];
      case _ =>
        out := out + [m[i]];
    }
    assert m[..|m|] == m;
    return Ok((out, patched));
  }

  lemma {:induction false} SectionFailure(m: Module, k: nat, plan: Plan)
    requires PlanFits(plan) && k <= |m| && PatchSections(m[..k], plan).Err?
    ensures PatchSections(m, plan) == PatchSections(m[..k], plan)
    decreases |m| - k
  {
    if k == |m| {
      assert m[..k] == m;
    } else {
      assert m[..k + 1][..k] == m[..k];
      SectionFailure(m, k + 1, plan);
    }
  }
}
