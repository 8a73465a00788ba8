/**
  Strided tensor buffers: the odometer that lists element offsets in row-major order, and
  moving `f32` bit patterns through it.
 */
module Strided {
  import opened Common
  import opened Bytes

  function Product(shape: seq<nat>): (r: nat) {
    if shape == [] then 1 else Product(shape[..|shape| - 1]) * shape[|shape| - 1]
  }

  /** The mixed-radix digits of `i`, most significant first. */
  function Digits(shape: seq<nat>, i: nat): (r: seq<nat>)
    requires forall k :: 0 <= k < |shape| ==> shape[k] > 0
    ensures |r| == |shape|
    ensures forall k :: 0 <= k < |shape| ==> r[k] < shape[k]
  {
    if shape == [] then []
    else
      var last := shape[|shape| - 1];
      Digits(shape[..|shape| - 1], i / last) + [i % last]
  }

  /** The position an index vector has in row-major order. */
  function RowMajor(shape: seq<nat>, index: seq<nat>): (r: nat)
    requires |index| == |shape|
  {
    if shape == [] then 0
    else
      var n := |shape| - 1;
      RowMajor(shape[..n], index[..n]) * shape[n] + index[n]
  }

  function Offset(index: seq<nat>, strides: seq<nat>): (r: nat)
    requires |index| == |strides|
  {
    if index == [] then 0
    else
      var n := |index| - 1;
      Offset(index[..n], strides[..n]) + index[n] * strides[n]
  }

  lemma {:induction false} DigitsAreRowMajor(shape: seq<nat>, i: nat)
    requires forall k :: 0 <= k < |shape| ==> shape[k] > 0
    requires i < Product(shape)
    ensures RowMajor(shape, Digits(shape, i)) == i
  {
    if shape != [] {
      var n := |shape| - 1;
      var d := shape[n];
      QuotientBelow(i, Product(shape[..n]), d);
      DigitsAreRowMajor(shape[..n], i / d);
      var digits := Digits(shape, i);
      assert digits[..n] == Digits(shape[..n], i / d) && digits[n] == i % d;
      assert RowMajor(shape, digits) == RowMajor(shape[..n], digits[..n]) * d + digits[n];
    }
  }

  lemma {:induction false} RowMajorDigits(shape: seq<nat>, index: seq<nat>)
    requires |index| == |shape| && forall k :: 0 <= k < |shape| ==> index[k] < shape[k]
    ensures RowMajor(shape, index) < Product(shape) && Digits(shape, RowMajor(shape, index)) == index
  {
    if shape != [] {
      var n := |shape| - 1;
      var front := RowMajor(shape[..n], index[..n]);
      RowMajorDigits(shape[..n], index[..n]);
      DivModUnique(RowMajor(shape, index), shape[n], front, index[n]);
      TimesMonotone(front + 1, Product(shape[..n]), shape[n]);
      TimesMonotone(front, Product(shape[..n]), shape[n]);
    }
  }

  lemma QuotientBelow(i: nat, p: nat, d: nat)
    requires d > 0 && i < p * d
    ensures i / d < p
  {
    TimesMonotone(p, i / d, d);
  }

  // ---- one tick of the odometer

  /** The last digit goes up; a digit that reaches its bound goes to zero and carries. */
  function Next(shape: seq<nat>, index: seq<nat>): (r: seq<nat>)
    requires |index| == |shape|
    ensures |r| == |shape|
  {
    if shape == [] then []
    else
      var n := |shape| - 1;
      if index[n] + 1 < shape[n] then index[n := index[n] + 1]
      else Next(shape[..n], index[..n]) + [0]
  }

  lemma {:induction false} NextDigits(shape: seq<nat>, i: nat)
    requires forall k :: 0 <= k < |shape| ==> shape[k] > 0
    ensures Next(shape, Digits(shape, i)) == Digits(shape, i + 1)
  {
    if shape != [] {
      var n := |shape| - 1;
      var d := shape[n];
      var front := shape[..n];
      var digits := Digits(shape, i);
      assert digits[..n] == Digits(front, i / d);
      DivModStep(i, d);
      if i % d + 1 < d {
        assert digits[n := digits[n] + 1] == digits[..n] + [i % d + 1];
      } else {
        NextDigits(front, i / d);
      }
    }
  }

  lemma DivModStep(i: nat, d: nat)
    requires d > 0
    ensures i % d + 1 < d ==> (i + 1) / d == i / d && (i + 1) % d == i % d + 1
    ensures i % d + 1 == d ==> (i + 1) / d == i / d + 1 && (i + 1) % d == 0
  {
    var q, m := i / d, i % d;
    assert i == q * d + m;
    if m + 1 < d {
      DivModUnique(i + 1, d, q, m + 1);
    } else {
      assert i + 1 == (q + 1) * d + 0;
      DivModUnique(i + 1, d, q + 1, 0);
    }
  }

  lemma DivModUnique(i: nat, d: nat, q: nat, m: nat)
    requires d > 0 && m < d && i == q * d + m
    ensures i / d == q && i % d == m
  {
    var q', m' := i / d, i % d;
    assert i == q' * d + m';
    TimesMonotone(q' + 1, q, d);
    TimesMonotone(q + 1, q', d);
  }

  lemma TimesMonotone(a: int, b: int, d: nat)
    ensures a <= b ==> a * d <= b * d
    ensures (a + 1) * d == a * d + d
  {
  }

  method Tick(shape: seq<nat>, index: array<nat>)
    requires index.Length == |shape|
    modifies index
    ensures index[..] == Next(shape, old(index[..]))
  {
    var axis := |shape|;
    ghost var was := index[..];
    assert shape[..axis] == shape && was[..axis] == was;
    while axis > 0
      invariant 0 <= axis <= |shape|
      invariant index[..axis] == was[..axis]
      invariant Next(shape, was) == Next(shape[..axis], was[..axis]) + index[axis..]
      decreases axis
    {
      axis := axis - 1;
      ghost var s, w := shape[..axis + 1], was[..axis + 1];
      assert s[..axis] == shape[..axis] && w[..axis] == was[..axis];
      ghost var tail := index[axis + 1..];
      index[axis] := index[axis] + 1;
      if index[axis] < shape[axis] {
        assert index[..] == w[axis := w[axis] + 1] + tail;
        return;
      }
      index[axis] := 0;
      assert index[axis..] == [0] + tail;
    }
  }

  // ---- the offsets of a whole tensor

  /** The element count never passes the machine word while it is multiplied up. */
  ghost predicate CountFits(shape: seq<nat>) {
    forall k :: 0 <= k <= |shape| ==> Product(shape[..k]) <= USIZE_MAX
  }

  ghost predicate OffsetsFit(shape: seq<nat>, strides: seq<nat>)
    requires |shape| == |strides|
  {
    forall i: nat :: i < Product(shape) ==> NonZero(shape) && Offset(Digits(shape, i), strides) <= USIZE_MAX
  }

  ghost predicate NonZero(shape: seq<nat>) {
    forall k :: 0 <= k < |shape| ==> shape[k] > 0
  }

  lemma {:induction false} ProductZero(shape: seq<nat>)
    ensures Product(shape) > 0 ==> NonZero(shape)
  {
    if shape != [] {
      var n := |shape| - 1;
      ProductZero(shape[..n]);
      if Product(shape) > 0 {
        forall k | 0 <= k < |shape| ensures shape[k] > 0 {
          if k < n { assert shape[k] == shape[..n][k]; }
        }
      }
    }
  }

  method CheckedCount(shape: seq<nat>) returns (r: Option<nat>)
    ensures r.Some? <==> CountFits(shape)
    ensures r.Some? ==> r.value == Product(shape)
  {
    var total := 1;
    for k := 0 to |shape|
      invariant total == Product(shape[..k])
      invariant forall j :: 0 <= j <= k ==> Product(shape[..j]) <= USIZE_MAX
    {
      assert shape[..k + 1][..k] == shape[..k];
      total := total * shape[k];
      assert total == Product(shape[..k + 1]);
      if total > USIZE_MAX {
        return None;
      }
    }
    assert shape[..|shape|] == shape;
    return Some(total);
  }

  /** The partial sums only grow, so checking each is checking the last. */
  method CheckedOffset(index: seq<nat>, strides: seq<nat>) returns (r: Option<nat>)
    requires |index| == |strides|
    ensures r == if Offset(index, strides) <= USIZE_MAX then Some(Offset(index, strides)) else None
  {
    var total := 0;
    for k := 0 to |index|
      invariant total == Offset(index[..k], strides[..k]) <= USIZE_MAX
    {
      OffsetGrows(index, strides, k);
      var term := index[k] * strides[k];
      if term > USIZE_MAX || total + term > USIZE_MAX {
        OffsetPrefix(index, strides, k + 1);
        return None;
      }
      total := total + term;
    }
    assert index[..|index|] == index && strides[..|strides|] == strides;
    return Some(total);
  }

  lemma OffsetGrows(index: seq<nat>, strides: seq<nat>, k: nat)
    requires |index| == |strides| && k < |index|
    ensures Offset(index[..k + 1], strides[..k + 1]) == Offset(index[..k], strides[..k]) + index[k] * strides[k]
  {
    assert index[..k + 1][..k] == index[..k] && strides[..k + 1][..k] == strides[..k];
  }

  lemma {:induction false} OffsetPrefix(index: seq<nat>, strides: seq<nat>, k: nat)
    requires |index| == |strides| && k <= |index|
    ensures Offset(index[..k], strides[..k]) <= Offset(index, strides)
    decreases |index| - k
  {
    if k == |index| {
      assert index[..k] == index && strides[..k] == strides;
    } else {
      OffsetGrows(index, strides, k);
      OffsetPrefix(index, strides, k + 1);
    }
  }

  /** The offsets of every index vector in row-major order, when all of them fit. */
  ghost function Layout(shape: seq<nat>, strides: seq<nat>): (r: Option<seq<nat>>) {
    if |shape| == |strides| && CountFits(shape) && OffsetsFit(shape, strides)
    then (ProductZero(shape); Some(FirstOffsets(shape, strides, Product(shape))))
    else None
  }

  /** The offsets of the first `k` index vectors. */
  ghost function FirstOffsets(shape: seq<nat>, strides: seq<nat>, k: nat): (r: seq<nat>)
    requires |shape| == |strides| && (k > 0 ==> NonZero(shape))
    ensures |r| == k
    ensures forall i :: 0 <= i < k ==> r[i] == Offset(Digits(shape, i), strides)
  {
    if k == 0 then [] else FirstOffsets(shape, strides, k - 1) + [Offset(Digits(shape, k - 1), strides)]
  }

  /**
    The odometer: its i-th offset is the mixed-radix digits of i against the strides, and
    it gives up exactly on a rank mismatch or when a count or offset passes the word.
   */
  method StridedOffsets(shape: seq<nat>, strides: seq<nat>) returns (r: Option<seq<nat>>)
    ensures r == Layout(shape, strides)
  {
    if |shape| != |strides| {
      return None;
    }
    var count := CheckedCount(shape);
    if count.None? {
      return None;
    }
    ProductZero(shape);
    var offsets: seq<nat> := [];
    var index := new nat[|shape|](_ => 0);
    if count.value > 0 { ZeroDigits(shape); assert index[..] == Digits(shape, 0); }
    for i := 0 to count.value
      invariant count.value > 0 ==> index[..] == Digits(shape, i)
      invariant offsets == FirstOffsets(shape, strides, i)
      invariant forall j :: 0 <= j < i ==> offsets[j] <= USIZE_MAX
    {
      var offset := CheckedOffset(index[..], strides);
      if offset.None? {
        return None;
      }
      offsets := offsets + [offset.value];
      Tick(shape, index);
      NextDigits(shape, i);
    }
    assert OffsetsFit(shape, strides) by {
      forall i: nat | i < count.value
        ensures Offset(Digits(shape, i), strides) <= USIZE_MAX
      {
        assert offsets[i] <= USIZE_MAX;
      }
    }
    return Some(offsets);
  }

  lemma {:induction false} ZeroDigits(shape: seq<nat>)
    requires NonZero(shape)
    ensures Digits(shape, 0) == seq(|shape|, _ => 0)
  {
    if shape != [] { ZeroDigits(shape[..|shape| - 1]); }
  }

  // ---- writing and reading through the offsets

  /** The four-byte slot at an element offset lies inside the buffer. */
  predicate HasSlot(buffer: seq<Byte>, offset: nat) {
    offset * 4 + 4 <= |buffer|
  }

  function Store(buffer: seq<Byte>, offset: nat, value: U32): (r: seq<Byte>)
    requires HasSlot(buffer, offset)
    ensures |r| == |buffer|
  {
    buffer[..offset * 4] + ToLe32(value) + buffer[offset * 4 + 4..]
  }

  /** The buffer after the first `k` values went to their slots. */
  function Stored(buffer: seq<Byte>, offsets: seq<nat>, values: seq<U32>, k: nat): (r: seq<Byte>)
    requires k <= |offsets| == |values|
    requires forall i :: 0 <= i < k ==> HasSlot(buffer, offsets[i])
    ensures |r| == |buffer|
  {
    if k == 0 then buffer
    else
      assert HasSlot(buffer, offsets[k - 1]);
      Store(Stored(buffer, offsets, values, k - 1), offsets[k - 1], values[k - 1])
  }

  /** The first offset, from `k` on, whose slot is not inside the buffer. */
  function FirstOutside(buffer: seq<Byte>, offsets: seq<nat>, k: nat): (r: nat)
    requires k <= |offsets|
    ensures k <= r <= |offsets|
    ensures forall i :: k <= i < r ==> HasSlot(buffer, offsets[i])
    ensures r < |offsets| ==> !HasSlot(buffer, offsets[r])
    decreases |offsets| - k
  {
    if k < |offsets| && HasSlot(buffer, offsets[k]) then FirstOutside(buffer, offsets, k + 1) else k
  }

  /** Success flag and buffer after a strided write. */
  ghost function Written(buffer: seq<Byte>, layout: Option<seq<nat>>, values: seq<U32>): (r: (bool, seq<Byte>)) {
    if layout.None? || |layout.value| != |values| then (false, buffer)
    else
      var k := FirstOutside(buffer, layout.value, 0);
      (k == |values|, Stored(buffer, layout.value, values, k))
  }

  method PutWord(buffer: array<Byte>, offset: nat, value: U32)
    requires HasSlot(buffer[..], offset)
    modifies buffer
    ensures buffer[..] == Store(old(buffer[..]), offset, value)
  {
    ghost var was := buffer[..];
    var word := ToLe32(value);
    var start := offset * 4;
    buffer[start], buffer[start + 1], buffer[start + 2], buffer[start + 3] := word[0], word[1], word[2], word[3];
    assert buffer[..] == was[..start] + word + was[start + 4..];
  }

  /** The store loop: it stops at the first offset outside the buffer. */
  method StoreAll(buffer: array<Byte>, offsets: seq<nat>, values: seq<U32>) returns (done: nat)
    requires |offsets| == |values|
    modifies buffer
    ensures done == FirstOutside(old(buffer[..]), offsets, 0)
    ensures buffer[..] == Stored(old(buffer[..]), offsets, values, done)
  {
    ghost var was := buffer[..];
    done := 0;
    while done < |values| && offsets[done] * 4 + 4 <= buffer.Length
      invariant done <= |values| && forall j :: 0 <= j < done ==> HasSlot(was, offsets[j])
      invariant buffer[..] == Stored(was, offsets, values, done)
    {
      PutWord(buffer, offsets[done], values[done]);
      done := done + 1;
    }
    FirstOutsideIs(was, offsets, done);
  }

  /**
    Values go to their slots in order.  On a count mismatch nothing is written; at an
    offset outside the buffer the values before it are already in place.
   */
  method WriteF32Strided(buffer: array<Byte>, shape: seq<nat>, strides: seq<nat>, values: seq<U32>) returns (ok: bool)
    modifies buffer
    ensures (ok, buffer[..]) == Written(old(buffer[..]), Layout(shape, strides), values)
  {
    var offsets := StridedOffsets(shape, strides);
    if offsets.None? || |offsets.value| != |values| {
      return false;
    }
    var done := StoreAll(buffer, offsets.value, values);
    return done == |values|;
  }

  lemma FirstOutsideIs(buffer: seq<Byte>, offsets: seq<nat>, k: nat)
    requires k <= |offsets| && (forall i :: 0 <= i < k ==> HasSlot(buffer, offsets[i]))
    requires k < |offsets| ==> !HasSlot(buffer, offsets[k])
    ensures FirstOutside(buffer, offsets, 0) == k
  {
  }

  /** Reading `size`-byte elements; `convert` turns an element's bytes into an `f32`. */
  function ReadStrided(buffer: seq<Byte>, offsets: seq<nat>, size: nat,
                       convert: seq<Byte> -> U32): (r: Option<seq<U32>>) {
    if offsets == [] then Some([])
    else
      var n := |offsets| - 1;
      var at := offsets[n] * size;
      var front := ReadStrided(buffer, offsets[..n], size, convert);
      if front.None? || at + size > |buffer| then None
      else Some(front.value + [convert(buffer[at..at + size])])
  }

  function F32Bits(bytes: seq<Byte>): (r: U32) {
    if |bytes| == 4 then FromLe32(bytes) else 0
  }

  ghost function Slot(buffer: seq<Byte>, offset: nat): (r: seq<Byte>)
    requires HasSlot(buffer, offset)
  {
    buffer[offset * 4..offset * 4 + 4]
  }

  lemma StoreSlot(buffer: seq<Byte>, offset: nat, value: U32, other: nat)
    requires HasSlot(buffer, offset) && HasSlot(buffer, other)
    ensures Slot(Store(buffer, offset, value), other) == if other == offset then ToLe32(value) else Slot(buffer, other)
  {
    var a, b := offset * 4, other * 4;
    var after := Store(buffer, offset, value);
    if other < offset {
      assert after[b..b + 4] == buffer[b..b + 4];
    } else if other > offset {
      assert after[b..b + 4] == buffer[b..b + 4];
    } else {
      assert after[a..a + 4] == ToLe32(value);
    }
  }

  /** A slot holds the last value sent to it. */
  lemma {:induction false} LastWriterWins(buffer: seq<Byte>, offsets: seq<nat>, values: seq<U32>, k: nat, j: nat)
    requires j < k <= |offsets| == |values|
    requires forall i :: 0 <= i < k ==> HasSlot(buffer, offsets[i])
    requires forall i :: j < i < k ==> offsets[i] != offsets[j]
    ensures Slot(Stored(buffer, offsets, values, k), offsets[j]) == ToLe32(values[j])
  {
    StoreSlot(Stored(buffer, offsets, values, k - 1), offsets[k - 1], values[k - 1], offsets[j]);
    if j < k - 1 { LastWriterWins(buffer, offsets, values, k - 1, j); }
  }

  /** Bytes outside every written slot keep their value. */
  lemma {:induction false} OtherBytesUnchanged(buffer: seq<Byte>, offsets: seq<nat>, values: seq<U32>, k: nat, at: nat)
    requires k <= |offsets| == |values| && at < |buffer|
    requires forall i :: 0 <= i < k ==> HasSlot(buffer, offsets[i]) && !(offsets[i] * 4 <= at < offsets[i] * 4 + 4)
    ensures Stored(buffer, offsets, values, k)[at] == buffer[at]
  {
    if k > 0 { OtherBytesUnchanged(buffer, offsets, values, k - 1, at); }
  }

  ghost predicate Agree(offsets: seq<nat>, values: seq<U32>)
    requires |offsets| == |values|
  {
    forall i, j :: 0 <= i < j < |offsets| && offsets[i] == offsets[j] ==> values[i] == values[j]
  }

  lemma {:induction false} LastIndex(offsets: seq<nat>, i: nat) returns (j: nat)
    requires i < |offsets|
    ensures i <= j < |offsets| && offsets[j] == offsets[i] && forall m :: j < m < |offsets| ==> offsets[m] != offsets[i]
    decreases |offsets| - i
  {
    if m :| i < m < |offsets| && offsets[m] == offsets[i] {
      j := LastIndex(offsets, m);
    } else {
      j := i;
    }
  }

  /** The bit pattern read from a slot is the last one written to it. */
  lemma ReadsLastWritten(buffer: seq<Byte>, offsets: seq<nat>, values: seq<U32>, i: nat) returns (j: nat)
    requires i < |offsets| == |values| && forall i :: 0 <= i < |offsets| ==> HasSlot(buffer, offsets[i])
    ensures i <= j < |offsets| && offsets[j] == offsets[i]
    ensures F32Bits(Slot(Stored(buffer, offsets, values, |values|), offsets[i])) == values[j]
  {
    j := LastIndex(offsets, i);
    LastWriterWins(buffer, offsets, values, |values|, j);
    Le32RoundTrip(values[j]);
  }

  /** An `f32` read succeeds exactly when every slot is inside, and reads slot by slot. */
  lemma {:induction false} ReadsSlots(buffer: seq<Byte>, offsets: seq<nat>)
    ensures var r := ReadStrided(buffer, offsets, 4, F32Bits);
      && (r.Some? <==> forall i :: 0 <= i < |offsets| ==> HasSlot(buffer, offsets[i]))
      && (r.Some? ==> |r.value| == |offsets|)
      && (r.Some? ==> forall i :: 0 <= i < |offsets| ==>
            HasSlot(buffer, offsets[i]) && r.value[i] == F32Bits(Slot(buffer, offsets[i])))
  {
    if offsets != [] {
      var n := |offsets| - 1;
      ReadsSlots(buffer, offsets[..n]);
      assert offsets == offsets[..n] + [offsets[n]];
    }
  }

  /**
    Reading back what was written returns the same bit patterns exactly when values sent
    to one slot agree; so for pairwise distinct offsets it always does.
   */
  lemma WriteThenRead(buffer: seq<Byte>, offsets: seq<nat>, values: seq<U32>)
    requires |offsets| == |values| && forall i :: 0 <= i < |offsets| ==> HasSlot(buffer, offsets[i])
    ensures ReadStrided(Stored(buffer, offsets, values, |values|), offsets, 4, F32Bits) == Some(values)
            <==> Agree(offsets, values)
  {
    var after := Stored(buffer, offsets, values, |values|);
    ReadsSlots(after, offsets);
    var read := ReadStrided(after, offsets, 4, F32Bits).value;
    if Agree(offsets, values) {
      forall i | 0 <= i < |offsets| ensures read[i] == values[i] {
        var j := ReadsLastWritten(buffer, offsets, values, i);
      }
      assert read == values;
    }
    if read == values {
      forall i, j | 0 <= i < j < |offsets| && offsets[i] == offsets[j] ensures values[i] == values[j] {
        assert read[i] == read[j];
      }
    }
  }

  predicate Apart(offsets: seq<nat>) {
    forall i, j :: 0 <= i < j < |offsets| ==> offsets[i] != offsets[j]
  }

  /** The byte belongs to no slot. */
  predicate OutsideSlots(offsets: seq<nat>, at: nat) {
    forall i :: 0 <= i < |offsets| ==> !(offsets[i] * 4 <= at < offsets[i] * 4 + 4)
  }

  ghost predicate SameOutside(offsets: seq<nat>, before: seq<Byte>, after: seq<Byte>) {
    |after| == |before| && forall at :: 0 <= at < |before| && OutsideSlots(offsets, at) ==> after[at] == before[at]
  }

  lemma StoredBack(buffer: seq<Byte>, offsets: seq<nat>, values: seq<U32>)
    requires |offsets| == |values| && Apart(offsets) && forall i :: 0 <= i < |offsets| ==> HasSlot(buffer, offsets[i])
    ensures ReadStrided(Stored(buffer, offsets, values, |values|), offsets, 4, F32Bits) == Some(values)
    ensures SameOutside(offsets, buffer, Stored(buffer, offsets, values, |values|))
  {
    WriteThenRead(buffer, offsets, values);
    forall at | 0 <= at < |buffer| && OutsideSlots(offsets, at)
      ensures Stored(buffer, offsets, values, |values|)[at] == buffer[at]
    {
      OtherBytesUnchanged(buffer, offsets, values, |values|, at);
    }
  }

  /** On a layout without overlap, a write that succeeds is undone by a read and spills nowhere. */
  lemma StridedRoundTrip(buffer: seq<Byte>, shape: seq<nat>, strides: seq<nat>, values: seq<U32>)
    requires Written(buffer, Layout(shape, strides), values).0 && Apart(Layout(shape, strides).value)
    ensures var offsets, after := Layout(shape, strides).value, Written(buffer, Layout(shape, strides), values).1;
      ReadStrided(after, offsets, 4, F32Bits) == Some(values) && SameOutside(offsets, buffer, after)
  {
    StoredBack(buffer, Layout(shape, strides).value, values);
  }

  lemma {:induction false} ZeroStrides(index: seq<nat>, strides: seq<nat>)
    requires |index| == |strides| && forall k :: 0 <= k < |strides| ==> strides[k] == 0
    ensures Offset(index, strides) == 0
  {
    if index != [] { ZeroStrides(index[..|index| - 1], strides[..|index| - 1]); }
  }

  lemma ZeroOffsetsFit(shape: seq<nat>, strides: seq<nat>)
    requires |shape| == |strides| && NonZero(shape) && forall k :: 0 <= k < |strides| ==> strides[k] == 0
    ensures OffsetsFit(shape, strides)
  {
    forall i: nat | i < Product(shape) ensures Offset(Digits(shape, i), strides) <= USIZE_MAX {
      ZeroStrides(Digits(shape, i), strides);
    }
  }

  /** A stride of zero sends every element of a vector to one slot. */
  lemma OverlappingLayout(shape: seq<nat>, strides: seq<nat>)
    requires |shape| == |strides| == 1 && 0 < shape[0] <= USIZE_MAX && strides[0] == 0
    ensures var layout := Layout(shape, strides);
      layout.Some? && |layout.value| == shape[0] && forall i :: 0 <= i < shape[0] ==> layout.value[i] == 0
  {
    assert shape[..0] == [] && shape[..1] == shape;
    assert Product(shape) == Product(shape[..0]) * shape[0] == shape[0];
    assert CountFits(shape) by {
      forall k | 0 <= k <= 1 ensures Product(shape[..k]) <= USIZE_MAX {
      }
    }
    ZeroOffsetsFit(shape, strides);
    forall i: nat | i < shape[0] ensures Layout(shape, strides).value[i] == 0 {
      ZeroStrides(Digits(shape, i), strides);
    }
  }

  /** Of two different values sent to one slot only the second is read back, and the write reports success. */
  lemma OverlapLosesValue(buffer: seq<Byte>, shape: seq<nat>, strides: seq<nat>, values: seq<U32>)
    requires |buffer| >= 4 && shape == [2] && strides == [0] && |values| == 2 && values[0] != values[1]
    ensures var layout := Layout(shape, strides);
      && layout.Some? && Written(buffer, layout, values).0
      && ReadStrided(Written(buffer, layout, values).1, layout.value, 4, F32Bits) == Some([values[1], values[1]])
  {
    OverlappingLayout(shape, strides);
    var offsets := Layout(shape, strides).value;
    assert FirstOutside(buffer, offsets, 0) == 2;
    ReadsSlots(Stored(buffer, offsets, values, 2), offsets);
    LastWriterWins(buffer, offsets, values, 2, 1);
    Le32RoundTrip(values[1]);
    assert ReadStrided(Stored(buffer, offsets, values, 2), offsets, 4, F32Bits).value == [values[1], values[1]];
  }
}
