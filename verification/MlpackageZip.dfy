/**
  Reading a canonical `mlpackage-zip`: stored entries one after the other, then the
  central directory.
 */
module MlpackageZip {
  import opened Common
  import opened Bytes
  import opened EntryNames

  const LOCAL_HEADER: U32 := 0x0403_4b50
  const CENTRAL_HEADER: U32 := 0x0201_4b50
  const LOCAL_HEADER_LEN: nat := 30

  function U16At(bytes: seq<Byte>, at: nat): (r: Option<U16>) {
    if at + 2 <= |bytes| then Some(FromLe16(bytes[at..at + 2])) else None
  }

  function U32At(bytes: seq<Byte>, at: nat): (r: Option<U32>) {
    if at + 4 <= |bytes| then Some(FromLe32(bytes[at..at + 4])) else None
  }

  // ---- the format

  datatype Entry = Entry(name: seq<Byte>, data: seq<Byte>)

  datatype ZipError = NoHeader(at: nat) | Truncated | NotStored | BadName(at: nat) | TruncatedData(at: nat)

  /** Where one local entry's name and data lie. */
  datatype Span = Span(at: nat, nameEnd: nat, dataStart: nat, dataEnd: nat)

  function EntryAt(bytes: seq<Byte>, s: Span): (r: Entry)
    requires s.at + LOCAL_HEADER_LEN <= s.nameEnd <= s.dataStart <= s.dataEnd <= |bytes|
  {
    Entry(bytes[s.at + LOCAL_HEADER_LEN..s.nameEnd], bytes[s.dataStart..s.dataEnd])
  }

  /** The entry whose local header starts at `at`. */
  function LocalEntry(bytes: seq<Byte>, at: nat): (r: Result<Span, ZipError>)
    ensures r.Ok? ==>
              && r.value.at == at
              && at + LOCAL_HEADER_LEN <= r.value.nameEnd <= r.value.dataStart <= r.value.dataEnd <= |bytes|
  {
    var flags, method_ := U16At(bytes, at + 6), U16At(bytes, at + 8);
    var stored, size := U32At(bytes, at + 18), U32At(bytes, at + 22);
    var nameLen, extraLen := U16At(bytes, at + 26), U16At(bytes, at + 28);
    if flags.None? || method_.None? || stored.None? || size.None? || nameLen.None? || extraLen.None? then Err(Truncated)
    else if method_.value != 0 || flags.value / 8 % 2 == 1 || stored.value != size.value then Err(NotStored)
    else
      var nameStart := at + LOCAL_HEADER_LEN;
      var nameEnd := nameStart + nameLen.value;
      var dataStart := nameEnd + extraLen.value;
      var dataEnd := dataStart + size.value;
      if nameEnd > |bytes| || !IsUtf8(bytes[nameStart..nameEnd]) || !SafeEntryPath(bytes[nameStart..nameEnd]) then
        Err(BadName(at))
      else if dataEnd > |bytes| then Err(TruncatedData(at))
      else Ok(Span(at, nameEnd, dataStart, dataEnd))
  }

  /** What is wrong with a local header: it is cut off, not plainly stored, badly named, or its data is cut off. */
  ghost predicate LocalFault(bytes: seq<Byte>, at: nat, e: ZipError) {
    if |bytes| < at + 30 then e == Truncated
    else
      var flags, method_ := FromLe16(bytes[at + 6..at + 8]), FromLe16(bytes[at + 8..at + 10]);
      var stored, size := FromLe32(bytes[at + 18..at + 22]), FromLe32(bytes[at + 22..at + 26]);
      var nameEnd := at + 30 + FromLe16(bytes[at + 26..at + 28]);
      var dataEnd := nameEnd + FromLe16(bytes[at + 28..at + 30]) + size;
      if method_ != 0 || flags % 16 >= 8 || stored != size then e == NotStored
      else if |bytes| < nameEnd || !IsUtf8(bytes[at + 30..nameEnd]) || !SafeEntryPath(bytes[at + 30..nameEnd]) then
        e == BadName(at)
      else e == TruncatedData(at) && |bytes| < dataEnd
  }

  lemma LocalFaultExactly(bytes: seq<Byte>, at: nat, e: ZipError)
    ensures LocalEntry(bytes, at) == Err(e) <==> LocalFault(bytes, at, e)
  {
    if |bytes| >= at + 30 {
      var flags: int := FromLe16(bytes[at + 6..at + 8]);
      assert flags / 8 % 2 == 1 <==> flags % 16 >= 8;
    }
  }

  predicate Fits(bytes: seq<Byte>, s: Span) {
    s.at + LOCAL_HEADER_LEN <= s.nameEnd <= s.dataStart <= s.dataEnd <= |bytes|
  }

  /** The readable entry, if any, at each offset. */
  function Readable(bytes: seq<Byte>): (r: nat -> Option<Span>) {
    (at: nat) =>
      if U32At(bytes, at) == Some(LOCAL_HEADER) && LocalEntry(bytes, at).Ok? then Some(LocalEntry(bytes, at).value)
      else None
  }

  function StartOf(spans: seq<Span>, k: nat): (r: nat)
    requires k <= |spans|
  {
    if k == 0 then 0 else spans[k - 1].dataEnd
  }

  /** Entries back to back from offset 0. */
  ghost predicate Chained(readable: nat -> Option<Span>, spans: seq<Span>) {
    forall k {:trigger StartOf(spans, k)} :: 0 <= k < |spans| ==> readable(StartOf(spans, k)) == Some(spans[k])
  }

  /** Entries back to back from offset 0, then a central directory header. */
  ghost predicate IsArchive(bytes: seq<Byte>, spans: seq<Span>) {
    && spans != []
    && Chained(Readable(bytes), spans)
    && U32At(bytes, StartOf(spans, |spans|)) == Some(CENTRAL_HEADER)
  }

  ghost predicate AllFit(bytes: seq<Byte>, spans: seq<Span>) {
    && (forall k :: 0 <= k < |spans| ==> Fits(bytes, spans[k]))
    && (forall k {:trigger StartOf(spans, k)} :: 0 <= k < |spans| ==> spans[k].at == StartOf(spans, k))
  }

  ghost function EntriesOf(bytes: seq<Byte>, spans: seq<Span>): (r: seq<Entry>)
    requires AllFit(bytes, spans)
    ensures |r| == |spans|
    ensures forall k :: 0 <= k < |spans| ==> r[k] == EntryAt(bytes, spans[k])
  {
    seq(|spans|, k requires 0 <= k < |spans| => EntryAt(bytes, spans[k]))
  }

  lemma ReadableFits(bytes: seq<Byte>, at: nat)
    ensures var s := Readable(bytes)(at); s.Some? ==> Fits(bytes, s.value) && s.value.at == at
  {
  }

  lemma ChainFits(bytes: seq<Byte>, spans: seq<Span>)
    requires Chained(Readable(bytes), spans)
    ensures AllFit(bytes, spans)
  {
    forall k | 0 <= k < |spans| ensures Fits(bytes, spans[k]) { ReadableFits(bytes, StartOf(spans, k)); }
    forall k {:trigger StartOf(spans, k)} | 0 <= k < |spans| ensures spans[k].at == StartOf(spans, k) {
      ReadableFits(bytes, StartOf(spans, k));
    }
  }

  /** Two chains over the same bytes agree as far as both go. */
  lemma {:induction false} ChainsAgree(readable: nat -> Option<Span>, a: seq<Span>, b: seq<Span>, k: nat)
    requires Chained(readable, a) && Chained(readable, b) && k <= |a| && k <= |b|
    ensures StartOf(a, k) == StartOf(b, k)
    ensures k < |a| && k < |b| ==> a[k] == b[k]
  {
    if k > 0 { ChainsAgree(readable, a, b, k - 1); }
    assert StartOf(a, k) == StartOf(b, k);
  }

  /** A chain does not go on where a central header stands. */
  lemma ChainStops(bytes: seq<Byte>, a: seq<Span>, b: seq<Span>)
    requires IsArchive(bytes, a) && Chained(Readable(bytes), b)
    ensures |b| <= |a|
  {
    assert Readable(bytes)(StartOf(a, |a|)).None?;
    if |a| < |b| { ChainsAgree(Readable(bytes), a, b, |a|); }
  }

  /** So a byte string is an archive in at most one way. */
  lemma ArchiveUnique(bytes: seq<Byte>, a: seq<Span>, b: seq<Span>)
    requires IsArchive(bytes, a) && IsArchive(bytes, b)
    ensures a == b
  {
    ChainStops(bytes, a, b);
    ChainStops(bytes, b, a);
    forall k | 0 <= k < |a| ensures a[k] == b[k] { ChainsAgree(Readable(bytes), a, b, k); }
  }

  /** The slices an archive is read from are in bounds, in order and apart. */
  lemma {:induction false} SpansOrdered(bytes: seq<Byte>, spans: seq<Span>, i: nat, j: nat)
    requires AllFit(bytes, spans) && i < j < |spans|
    ensures spans[i].dataEnd <= spans[j].at < spans[j].dataStart <= spans[j].dataEnd <= |bytes|
  {
    assert spans[j].at == StartOf(spans, j);
    if i < j - 1 { SpansOrdered(bytes, spans, i, j - 1); }
  }

  /** The entries read before an error, and the error: no header where the next should be, or what is wrong with it. */
  ghost predicate StopsWith(bytes: seq<Byte>, spans: seq<Span>, e: ZipError) {
    var at := StartOf(spans, |spans|);
    && Chained(Readable(bytes), spans) && (spans == [] || U32At(bytes, at) != Some(CENTRAL_HEADER))
    && if U32At(bytes, at) == Some(LOCAL_HEADER) then LocalEntry(bytes, at) == Err(e) else e == NoHeader(at)
  }

  /** There is one place to stop at, and one error. */
  lemma StopUnique(bytes: seq<Byte>, a: seq<Span>, b: seq<Span>, e: ZipError, f: ZipError)
    requires StopsWith(bytes, a, e) && StopsWith(bytes, b, f)
    ensures e == f
  {
    var n := if |a| <= |b| then |a| else |b|;
    assert Readable(bytes)(StartOf(a, |a|)).None? && Readable(bytes)(StartOf(b, |b|)).None?;
    ChainsAgree(Readable(bytes), a, b, n);
  }

  /**
    The reader.  It succeeds exactly on archives and returns the name and data slices of
    the entries in order; `at` strictly grows, so it ends on every input.
   */
  method MlpackageEntries(bytes: seq<Byte>) returns (r: Result<seq<Entry>, ZipError>)
    ensures r.Ok? <==> exists spans :: IsArchive(bytes, spans)
    ensures r.Ok? ==>
              exists spans :: IsArchive(bytes, spans) && AllFit(bytes, spans) && r.value == EntriesOf(bytes, spans)
    ensures r.Err? ==> exists spans :: StopsWith(bytes, spans, r.error)
  {
    var entries: seq<Entry> := [];
    ghost var spans: seq<Span> := [];
    var at := 0;
    while true
      invariant Chained(Readable(bytes), spans) && AllFit(bytes, spans) && entries == EntriesOf(bytes, spans)
      invariant at == StartOf(spans, |spans|) <= |bytes|
      decreases |bytes| - at
    {
      var signature := U32At(bytes, at);
      if signature == Some(CENTRAL_HEADER) && entries != [] {
        assert IsArchive(bytes, spans);
        return Ok(entries);
      }
      if signature != Some(LOCAL_HEADER) {
        NotArchive(bytes, spans);
        assert StopsWith(bytes, spans, NoHeader(at));
        return Err(NoHeader(at));
      }
      var entry := LocalEntry(bytes, at);
      if entry.Err? {
        NotArchive(bytes, spans);
        assert StopsWith(bytes, spans, entry.error);
        return Err(entry.error);
      }
      ExtendChain(bytes, spans, entry.value);
      entries := entries + [EntryAt(bytes, entry.value)];
      spans := spans + [entry.value];
      at := entry.value.dataEnd;
    }
  }

  lemma ExtendChain(bytes: seq<Byte>, spans: seq<Span>, s: Span)
    requires Chained(Readable(bytes), spans) && Readable(bytes)(StartOf(spans, |spans|)) == Some(s)
    ensures Chained(Readable(bytes), spans + [s])
    ensures AllFit(bytes, spans) && AllFit(bytes, spans + [s])
    ensures EntriesOf(bytes, spans + [s]) == EntriesOf(bytes, spans) + [EntryAt(bytes, s)]
  {
    var longer := spans + [s];
    forall k {:trigger StartOf(longer, k)} | 0 <= k < |longer|
      ensures Readable(bytes)(StartOf(longer, k)) == Some(longer[k])
    {
      assert StartOf(longer, k) == StartOf(spans, k);
      if k < |spans| { assert longer[k] == spans[k]; }
    }
    ChainFits(bytes, spans);
    ChainFits(bytes, longer);
  }

  /** A chain that can neither end nor go on extends to no archive. */
  lemma NotArchive(bytes: seq<Byte>, spans: seq<Span>)
    requires Chained(Readable(bytes), spans)
    requires U32At(bytes, StartOf(spans, |spans|)) != Some(CENTRAL_HEADER) || spans == []
    requires Readable(bytes)(StartOf(spans, |spans|)).None?
    ensures !exists other :: IsArchive(bytes, other)
  {
    forall other: seq<Span> | IsArchive(bytes, other) ensures false {
      ChainStops(bytes, other, spans);
      ChainsAgree(Readable(bytes), spans, other, |spans|);
    }
  }

  // ---- the format as the canonical writer lays it out (sections 4.3.7 and 4.3.12 of the ZIP APPNOTE)

  /** The header fields the reader does not interpret. */
  datatype Meta = Meta(version: U16, flags: U16, stamp: seq<Byte>, extra: seq<Byte>)

  predicate Storable(e: Entry, m: Meta) {
    && |e.name| < 0x1_0000 && |m.extra| < 0x1_0000 && |e.data| < 0x1_0000_0000
    && |m.stamp| == 8 && m.flags / 8 % 2 == 0
    && IsUtf8(e.name) && SafeEntryPath(e.name)
  }

  function Header(e: Entry, m: Meta): (r: seq<Byte>)
    requires Storable(e, m)
    ensures |r| == LOCAL_HEADER_LEN
  {
    ToLe32(LOCAL_HEADER) + ToLe16(m.version) + ToLe16(m.flags) + ToLe16(0) + m.stamp
    + ToLe32(|e.data|) + ToLe32(|e.data|) + ToLe16(|e.name|) + ToLe16(|m.extra|)
  }

  function Local(e: Entry, m: Meta): (r: seq<Byte>)
    requires Storable(e, m)
    ensures |r| == LOCAL_HEADER_LEN + |e.name| + |m.extra| + |e.data|
  {
    Header(e, m) + e.name + m.extra + e.data
  }

  predicate AllStorable(entries: seq<Entry>, metas: seq<Meta>) {
    |entries| == |metas| && forall i :: 0 <= i < |entries| ==> Storable(entries[i], metas[i])
  }

  function Locals(entries: seq<Entry>, metas: seq<Meta>, k: nat): (r: seq<Byte>)
    requires AllStorable(entries, metas) && k <= |entries|
  {
    if k == 0 then [] else Locals(entries, metas, k - 1) + Local(entries[k - 1], metas[k - 1])
  }

  function Archive(entries: seq<Entry>, metas: seq<Meta>, tail: seq<Byte>): (r: seq<Byte>)
    requires AllStorable(entries, metas)
  {
    Locals(entries, metas, |entries|) + ToLe32(CENTRAL_HEADER) + tail
  }

  /** The signatures as they stand in the bytes. */
  lemma Signatures()
    ensures ToLe32(LOCAL_HEADER) == [0x50, 0x4B, 3, 4] && ToLe32(CENTRAL_HEADER) == [0x50, 0x4B, 1, 2]
  {
  }

  // ---- reading the fields back

  lemma FrontFields(e: Entry, m: Meta)
    requires Storable(e, m)
    ensures var h := Header(e, m);
      h[0..4] == ToLe32(LOCAL_HEADER) && h[6..8] == ToLe16(m.flags) && h[8..10] == ToLe16(0)
  {
  }

  lemma BackFields(e: Entry, m: Meta)
    requires Storable(e, m)
    ensures var h := Header(e, m);
      && h[18..22] == ToLe32(|e.data|) && h[22..26] == ToLe32(|e.data|)
      && h[26..28] == ToLe16(|e.name|) && h[28..30] == ToLe16(|m.extra|)
  {
  }

  /** The header fields the reader looks at, wherever the header starts. */
  lemma HeaderFields(bytes: seq<Byte>, pre: seq<Byte>, e: Entry, m: Meta, post: seq<Byte>)
    requires Storable(e, m) && bytes == pre + (Header(e, m) + post)
    ensures U32At(bytes, |pre|) == Some(LOCAL_HEADER)
    ensures U16At(bytes, |pre| + 6) == Some(m.flags) && U16At(bytes, |pre| + 8) == Some(0)
    ensures U32At(bytes, |pre| + 18) == Some(|e.data|) && U32At(bytes, |pre| + 22) == Some(|e.data|)
    ensures U16At(bytes, |pre| + 26) == Some(|e.name|) && U16At(bytes, |pre| + 28) == Some(|m.extra|)
  {
    var h := Header(e, m);
    FrontFields(e, m);
    BackFields(e, m);
    HeaderSlice(bytes, pre, h, post, 0, 4);
    HeaderSlice(bytes, pre, h, post, 6, 8);
    HeaderSlice(bytes, pre, h, post, 8, 10);
    HeaderSlice(bytes, pre, h, post, 18, 22);
    HeaderSlice(bytes, pre, h, post, 22, 26);
    HeaderSlice(bytes, pre, h, post, 26, 28);
    HeaderSlice(bytes, pre, h, post, 28, 30);
    Le32RoundTrip(LOCAL_HEADER);
    Le16RoundTrip(m.flags);
    Le16RoundTrip(0);
    Le32RoundTrip(|e.data|);
    Le16RoundTrip(|e.name|);
    Le16RoundTrip(|m.extra|);
  }

  lemma HeaderSlice(bytes: seq<Byte>, pre: seq<Byte>, h: seq<Byte>, post: seq<Byte>, i: nat, j: nat)
    requires bytes == pre + (h + post) && i <= j <= |h|
    ensures |bytes| >= |pre| + j && bytes[|pre| + i..|pre| + j] == h[i..j]
  {
  }

  function SpanOf(at: nat, e: Entry, m: Meta): (r: Span) {
    var nameEnd := at + LOCAL_HEADER_LEN + |e.name|;
    Span(at, nameEnd, nameEnd + |m.extra|, nameEnd + |m.extra| + |e.data|)
  }

  lemma LocalSlices(bytes: seq<Byte>, pre: seq<Byte>, e: Entry, m: Meta, post: seq<Byte>)
    requires Storable(e, m) && bytes == pre + (Local(e, m) + post)
    ensures Fits(bytes, SpanOf(|pre|, e, m)) && EntryAt(bytes, SpanOf(|pre|, e, m)) == e
    ensures bytes == pre + (Header(e, m) + (e.name + m.extra + e.data + post))
  {
    var s := SpanOf(|pre|, e, m);
    assert Local(e, m) + post == Header(e, m) + (e.name + m.extra + e.data + post);
    assert bytes[|pre| + LOCAL_HEADER_LEN..s.nameEnd] == e.name;
    assert bytes[s.dataStart..s.dataEnd] == e.data;
  }

  /** A laid-out entry is readable where it starts, and reads back as itself. */
  lemma LocalReadable(bytes: seq<Byte>, pre: seq<Byte>, e: Entry, m: Meta, post: seq<Byte>)
    requires Storable(e, m) && bytes == pre + (Local(e, m) + post)
    ensures Readable(bytes)(|pre|) == Some(SpanOf(|pre|, e, m))
    ensures Fits(bytes, SpanOf(|pre|, e, m)) && EntryAt(bytes, SpanOf(|pre|, e, m)) == e
  {
    LocalSlices(bytes, pre, e, m, post);
    HeaderFields(bytes, pre, e, m, e.name + m.extra + e.data + post);
  }

  lemma {:induction false} LocalsPrefix(entries: seq<Entry>, metas: seq<Meta>, k: nat, n: nat)
    requires AllStorable(entries, metas) && k <= n <= |entries|
    ensures Locals(entries, metas, k) <= Locals(entries, metas, n)
  {
    if k < n { LocalsPrefix(entries, metas, k, n - 1); }
  }

  function SpansOf(entries: seq<Entry>, metas: seq<Meta>): (r: seq<Span>)
    requires AllStorable(entries, metas)
    ensures |r| == |entries|
    ensures forall k :: 0 <= k < |entries| ==> r[k] == SpanOf(|Locals(entries, metas, k)|, entries[k], metas[k])
  {
    seq(|entries|, k requires 0 <= k < |entries| => SpanOf(|Locals(entries, metas, k)|, entries[k], metas[k]))
  }

  lemma LocalsStep(entries: seq<Entry>, metas: seq<Meta>, k: nat)
    requires AllStorable(entries, metas) && k < |entries|
    ensures |Locals(entries, metas, k + 1)| == SpanOf(|Locals(entries, metas, k)|, entries[k], metas[k]).dataEnd
  {
    assert Storable(entries[k], metas[k]);
    var front, here := Locals(entries, metas, k), Local(entries[k], metas[k]);
    assert Locals(entries, metas, k + 1) == front + here;
  }

  lemma StartOfSpans(entries: seq<Entry>, metas: seq<Meta>, k: nat)
    requires AllStorable(entries, metas) && k <= |entries|
    ensures StartOf(SpansOf(entries, metas), k) == |Locals(entries, metas, k)|
  {
    if k > 0 { LocalsStep(entries, metas, k - 1); }
  }

  /**
    Laying out any nonempty list of storable entries and reading it back gives that list,
    whatever the uninterpreted header fields and whatever follows the central header.
   */
  lemma ArchiveRoundTrip(entries: seq<Entry>, metas: seq<Meta>, tail: seq<Byte>)
    requires AllStorable(entries, metas) && entries != []
    ensures var bytes, spans := Archive(entries, metas, tail), SpansOf(entries, metas);
      && IsArchive(bytes, spans) && AllFit(bytes, spans) && EntriesOf(bytes, spans) == entries
      && forall other :: IsArchive(bytes, other) ==> other == spans
  {
    var bytes, spans := Archive(entries, metas, tail), SpansOf(entries, metas);
    forall k {:trigger StartOf(spans, k)} | 0 <= k < |spans|
      ensures Readable(bytes)(StartOf(spans, k)) == Some(spans[k])
    {
      EntryReadable(entries, metas, tail, k);
    }
    var n := |entries|;
    StartOfSpans(entries, metas, n);
    var end := |Locals(entries, metas, n)|;
    assert bytes[end..end + 4] == ToLe32(CENTRAL_HEADER);
    Le32RoundTrip(CENTRAL_HEADER);
    ChainFits(bytes, spans);
    forall k | 0 <= k < n ensures EntryAt(bytes, spans[k]) == entries[k] { EntryReadable(entries, metas, tail, k); }
    forall other | IsArchive(bytes, other) ensures other == spans {
      ArchiveUnique(bytes, other, spans);
    }
  }

  lemma PrefixAndRest(bytes: seq<Byte>, upto: seq<Byte>, a: seq<Byte>, b: seq<Byte>)
    requires upto <= bytes && upto == a + b
    ensures bytes == a + (b + bytes[|upto|..])
  {
  }

  lemma EntryReadable(entries: seq<Entry>, metas: seq<Meta>, tail: seq<Byte>, k: nat)
    requires AllStorable(entries, metas) && k < |entries|
    ensures var bytes, spans := Archive(entries, metas, tail), SpansOf(entries, metas);
      && Readable(bytes)(StartOf(spans, k)) == Some(spans[k])
      && Fits(bytes, spans[k]) && EntryAt(bytes, spans[k]) == entries[k]
  {
    var bytes := Archive(entries, metas, tail);
    var pre, upto := Locals(entries, metas, k), Locals(entries, metas, k + 1);
    LocalsPrefix(entries, metas, k + 1, |entries|);
    var post := bytes[|upto|..];
    PrefixAndRest(bytes, upto, pre, Local(entries[k], metas[k]));
    LocalReadable(bytes, pre, entries[k], metas[k], post);
    StartOfSpans(entries, metas, k);
  }
  // ---- every archive is laid out this way

  /** The header fields behind a readable entry that the reader does not interpret. */
  function MetaAt(bytes: seq<Byte>, s: Span): (m: Meta)
    requires Fits(bytes, s)
  {
    var version, flags := FromLe16(bytes[s.at + 4..s.at + 6]), FromLe16(bytes[s.at + 6..s.at + 8]);
    Meta(version, flags, bytes[s.at + 10..s.at + 18], bytes[s.nameEnd..s.dataStart])
  }

  lemma Fields(h: seq<Byte>)
    requires |h| == LOCAL_HEADER_LEN
    ensures h == h[..4] + h[4..6] + h[6..8] + h[8..10] + h[10..18] + h[18..22] + h[22..26] + h[26..28] + h[28..30]
  {
  }

  lemma HeaderOfFields(h: seq<Byte>, e: Entry, m: Meta)
    requires |h| == LOCAL_HEADER_LEN && Storable(e, m)
    requires FromLe32(h[..4]) == LOCAL_HEADER && FromLe16(h[4..6]) == m.version && FromLe16(h[6..8]) == m.flags
    requires FromLe16(h[8..10]) == 0 && h[10..18] == m.stamp
    requires FromLe32(h[18..22]) == FromLe32(h[22..26]) == |e.data|
    requires FromLe16(h[26..28]) == |e.name| && FromLe16(h[28..30]) == |m.extra|
    ensures h == Header(e, m)
  {
    Fields(h);
    Le32OfBytes(h[..4]);
    Le16OfBytes(h[4..6]);
    Le16OfBytes(h[6..8]);
    Le16OfBytes(h[8..10]);
    Le32OfBytes(h[18..22]);
    Le32OfBytes(h[22..26]);
    Le16OfBytes(h[26..28]);
    Le16OfBytes(h[28..30]);
  }

  lemma Window(bytes: seq<Byte>, at: nat, i: nat, j: nat)
    requires i <= j <= LOCAL_HEADER_LEN && at + LOCAL_HEADER_LEN <= |bytes|
    ensures bytes[at..at + LOCAL_HEADER_LEN][i..j] == bytes[at + i..at + j]
  {
    var h, part := bytes[at..at + LOCAL_HEADER_LEN], bytes[at + i..at + j];
    assert |h| == LOCAL_HEADER_LEN && |part| == j - i;
    assert forall k :: 0 <= k < j - i ==> h[i..j][k] == h[i + k] == bytes[at + i + k] == part[k];
  }

  lemma ReadableHeader(bytes: seq<Byte>, at: nat)
    requires Readable(bytes)(at).Some?
    ensures var s := Readable(bytes)(at).value; var e, m := EntryAt(bytes, s), MetaAt(bytes, s);
      Fits(bytes, s) && Storable(e, m) && bytes[at..at + LOCAL_HEADER_LEN] == Header(e, m)
  {
    var s := Readable(bytes)(at).value;
    var h := bytes[at..at + LOCAL_HEADER_LEN];
    Window(bytes, at, 0, 4);
    Window(bytes, at, 4, 6);
    Window(bytes, at, 6, 8);
    Window(bytes, at, 8, 10);
    Window(bytes, at, 10, 18);
    Window(bytes, at, 18, 22);
    Window(bytes, at, 22, 26);
    Window(bytes, at, 26, 28);
    Window(bytes, at, 28, 30);
    assert h[..4] == h[0..4];
    HeaderOfFields(h, EntryAt(bytes, s), MetaAt(bytes, s));
  }

  lemma FourPieces(bytes: seq<Byte>, a: nat, b: nat, c: nat, d: nat, e: nat)
    requires a <= b <= c <= d <= e <= |bytes|
    ensures bytes[a..e] == bytes[a..b] + bytes[b..c] + bytes[c..d] + bytes[d..e]
  {
    var parts := bytes[a..b] + bytes[b..c] + bytes[c..d] + bytes[d..e];
    assert |parts| == e - a;
    assert forall i :: 0 <= i < e - a ==> bytes[a..e][i] == bytes[a + i] == parts[i];
  }

  /** A readable entry is the layout of the entry it reads as. */
  lemma ReadableIsLocal(bytes: seq<Byte>, at: nat)
    requires Readable(bytes)(at).Some?
    ensures var s := Readable(bytes)(at).value; var e, m := EntryAt(bytes, s), MetaAt(bytes, s);
      Fits(bytes, s) && Storable(e, m) && bytes[at..s.dataEnd] == Local(e, m)
  {
    ReadableHeader(bytes, at);
    var s := Readable(bytes)(at).value;
    var e, m := EntryAt(bytes, s), MetaAt(bytes, s);
    FourPieces(bytes, at, at + LOCAL_HEADER_LEN, s.nameEnd, s.dataStart, s.dataEnd);
  }

  ghost function MetasOf(bytes: seq<Byte>, spans: seq<Span>): (r: seq<Meta>)
    requires AllFit(bytes, spans)
    ensures |r| == |spans|
    ensures forall k :: 0 <= k < |spans| ==> r[k] == MetaAt(bytes, spans[k])
  {
    seq(|spans|, k requires 0 <= k < |spans| => MetaAt(bytes, spans[k]))
  }

  lemma ChainStorable(bytes: seq<Byte>, spans: seq<Span>)
    requires Chained(Readable(bytes), spans)
    ensures AllFit(bytes, spans) && AllStorable(EntriesOf(bytes, spans), MetasOf(bytes, spans))
  {
    ChainFits(bytes, spans);
    forall k | 0 <= k < |spans| ensures Storable(EntryAt(bytes, spans[k]), MetaAt(bytes, spans[k])) {
      ReadableIsLocal(bytes, StartOf(spans, k));
    }
  }

  lemma LocalsEnd(entries: seq<Entry>, metas: seq<Meta>, k: nat, front: seq<Byte>, here: seq<Byte>)
    requires AllStorable(entries, metas) && k < |entries|
    requires front == Locals(entries, metas, k) && here == Local(entries[k], metas[k])
    ensures Locals(entries, metas, k + 1) == front + here
  {
  }

  /** The bytes of the `k`-th span are the layout of the `k`-th entry. */
  ghost predicate LocalAt(bytes: seq<Byte>, spans: seq<Span>, entries: seq<Entry>, metas: seq<Meta>, k: nat)
    requires AllStorable(entries, metas) && k < |entries| == |spans|
  {
    var from, end := StartOf(spans, k), StartOf(spans, k + 1);
    from <= end <= |bytes| && bytes[from..end] == Local(entries[k], metas[k])
  }

  lemma SpanIsLocal(bytes: seq<Byte>, spans: seq<Span>, entries: seq<Entry>, metas: seq<Meta>, k: nat)
    requires Chained(Readable(bytes), spans) && AllFit(bytes, spans) && k < |spans|
    requires entries == EntriesOf(bytes, spans) && metas == MetasOf(bytes, spans) && AllStorable(entries, metas)
    ensures LocalAt(bytes, spans, entries, metas, k)
  {
    ReadableIsLocal(bytes, StartOf(spans, k));
  }

  lemma {:induction false} ChainIsLocals(
    bytes: seq<Byte>, spans: seq<Span>, entries: seq<Entry>, metas: seq<Meta>, k: nat)
    requires AllStorable(entries, metas) && k <= |entries| == |spans|
    requires forall i :: 0 <= i < |entries| ==> LocalAt(bytes, spans, entries, metas, i)
    ensures StartOf(spans, k) <= |bytes| && bytes[..StartOf(spans, k)] == Locals(entries, metas, k)
  {
    if k > 0 {
      ChainIsLocals(bytes, spans, entries, metas, k - 1);
      assert LocalAt(bytes, spans, entries, metas, k - 1);
      var from, end := StartOf(spans, k - 1), StartOf(spans, k);
      LocalsEnd(entries, metas, k - 1, bytes[..from], bytes[from..end]);
      assert bytes[..end] == bytes[..from] + bytes[from..end];
    }
  }

  ghost predicate LaidOut(bytes: seq<Byte>, entries: seq<Entry>, metas: seq<Meta>, tail: seq<Byte>) {
    entries != [] && AllStorable(entries, metas) && bytes == Archive(entries, metas, tail)
  }

  lemma CentralSplit(bytes: seq<Byte>, end: nat)
    requires U32At(bytes, end) == Some(CENTRAL_HEADER)
    ensures end + 4 <= |bytes| && bytes == bytes[..end] + ToLe32(CENTRAL_HEADER) + bytes[end + 4..]
  {
    Le32OfBytes(bytes[end..end + 4]);
    assert bytes == bytes[..end] + bytes[end..end + 4] + bytes[end + 4..];
  }

  lemma ArchiveLaidOut(bytes: seq<Byte>, spans: seq<Span>)
    requires IsArchive(bytes, spans)
    ensures exists entries, metas, tail :: LaidOut(bytes, entries, metas, tail)
  {
    ChainStorable(bytes, spans);
    var entries, metas, end := EntriesOf(bytes, spans), MetasOf(bytes, spans), StartOf(spans, |spans|);
    forall i | 0 <= i < |entries| ensures LocalAt(bytes, spans, entries, metas, i) {
      SpanIsLocal(bytes, spans, entries, metas, i);
    }
    ChainIsLocals(bytes, spans, entries, metas, |spans|);
    CentralSplit(bytes, end);
    assert LaidOut(bytes, entries, metas, bytes[end + 4..]);
  }

  /**
    The archives are exactly the layouts of one or more storable entries, a central header
    and anything behind it.
   */
  lemma ArchiveExactly(bytes: seq<Byte>)
    ensures (exists spans :: IsArchive(bytes, spans)) <==>
            exists entries, metas, tail :: LaidOut(bytes, entries, metas, tail)
  {
    if spans :| IsArchive(bytes, spans) {
      ArchiveLaidOut(bytes, spans);
    }
    if entries, metas, tail :| LaidOut(bytes, entries, metas, tail) {
      ArchiveRoundTrip(entries, metas, tail);
      assert IsArchive(bytes, SpansOf(entries, metas));
    }
  }
}
