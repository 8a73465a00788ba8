/**
  The scan that tells a lone surrogate escape from other JSON errors, and what it finds on
  well-formed string literals.
 */
module Surrogates {
  import opened Common
  import opened Bytes
  import opened JsonStrings

  const QUOTE: Byte := 0x22
  const BACKSLASH: Byte := 0x5C
  const LETTER_U: Byte := 0x75
  const PLUS: Byte := 0x2B

  predicate IsHigh(unit: nat) { 0xD800 <= unit <= 0xDBFF }
  predicate IsLow(unit: nat) { 0xDC00 <= unit <= 0xDFFF }

  // ---- the scanner

  predicate HexByte(b: Byte) {
    0x30 <= b <= 0x39 || 0x41 <= b <= 0x46 || 0x61 <= b <= 0x66
  }

  function HexByteValue(b: Byte): (r: nat)
    requires HexByte(b)
    ensures r < 16
  {
    if b <= 0x39 then b - 0x30 else if b <= 0x46 then b - 0x41 + 10 else b - 0x61 + 10
  }

  function HexNumber(digits: seq<Byte>): (r: nat)
    requires forall i :: 0 <= i < |digits| ==> HexByte(digits[i])
  {
    if digits == [] then 0 else HexNumber(digits[..|digits| - 1]) * 16 + HexByteValue(digits[|digits| - 1])
  }

  /** `u16::from_str_radix` of the first four bytes, which also allows a leading plus sign. */
  function ParseUnit(b: seq<Byte>): (r: Option<nat>) {
    if |b| < 4 then None
    else
      var digits := if b[0] == PLUS then b[1..4] else b[..4];
      if forall i :: 0 <= i < |digits| ==> HexByte(digits[i]) then Some(HexNumber(digits)) else None
  }

  function Skip(b: seq<Byte>, n: nat): (r: seq<Byte>) {
    if n <= |b| then b[n..] else []
  }

  /** What the scan answers on the bytes that are left, in its current state. */
  function Scan(b: seq<Byte>, inString: bool, pendingHigh: bool): (r: bool)
    decreases |b|
  {
    if b == [] then pendingHigh
    else if !inString then Scan(b[1..], b[0] == QUOTE, pendingHigh)
    else if b[0] == BACKSLASH && |b| > 1 && b[1] == LETTER_U then
      var unit := ParseUnit(b[2..]);
      if unit.Some? && IsHigh(unit.value) && !pendingHigh then Scan(Skip(b, 6), true, true)
      else if unit.Some? && IsLow(unit.value) && pendingHigh then Scan(Skip(b, 6), true, false)
      else if unit.Some? && (IsHigh(unit.value) || IsLow(unit.value)) then true
      else if pendingHigh then true
      else Scan(Skip(b, 6), true, false)
    else if pendingHigh then true
    else if b[0] == BACKSLASH then Scan(Skip(b, 2), true, false)
    else Scan(b[1..], b[0] != QUOTE, false)
  }

  method HasLoneSurrogateEscape(bytes: seq<Byte>) returns (r: bool)
    ensures r == Scan(bytes, false, false)
  {
    var index, inString, pendingHigh := 0, false, false;
    assert Skip(bytes, 0) == bytes;
    while index < |bytes|
      invariant Scan(bytes, false, false) == Scan(Skip(bytes, index), inString, pendingHigh)
      decreases |bytes| - index
    {
      ghost var left := Skip(bytes, index);
      SkipSkip(bytes, index);
      var byte := bytes[index];
      if !inString {
        inString := byte == QUOTE;
        index := index + 1;
        continue;
      }
      if byte == BACKSLASH && index + 1 < |bytes| && bytes[index + 1] == LETTER_U {
        var unit := ParseUnit(bytes[index + 2..]);
        assert bytes[index + 2..] == left[2..];
        if unit.Some? && IsHigh(unit.value) && !pendingHigh {
          pendingHigh := true;
        } else if unit.Some? && IsLow(unit.value) && pendingHigh {
          pendingHigh := false;
        } else if unit.Some? && (IsHigh(unit.value) || IsLow(unit.value)) {
          return true;
        } else if pendingHigh {
          return true;
        }
        index := index + 6;
        continue;
      }
      if pendingHigh {
        return true;
      }
      if byte == BACKSLASH {
        index := index + 2;
        continue;
      }
      inString := byte != QUOTE;
      index := index + 1;
    }
    return pendingHigh;
  }

  lemma SkipSkip(b: seq<Byte>, i: nat)
    requires i < |b|
    ensures Skip(b, i) == b[i..] && Skip(b, i)[1..] == Skip(b, i + 1)
    ensures Skip(Skip(b, i), 2) == Skip(b, i + 2) && Skip(Skip(b, i), 6) == Skip(b, i + 6)
  {
  }

  // ---- well-formed literals and their UTF-16 code units

  /** A piece of a string literal: a plain character, a short escape, or `\u` and four hex digits. */
  datatype Item = Plain(c: char) | Short(letter: Byte) | Escaped(hex: seq<Byte>)

  predicate WellFormedItem(item: Item) {
    match item
    case Plain(c) => c as int != QUOTE && c as int != BACKSLASH
    case Short(letter) => letter in {0x22, 0x5C, 0x2F, 0x62, 0x66, 0x6E, 0x72, 0x74}
    case Escaped(hex) => |hex| == 4 && forall i :: 0 <= i < 4 ==> HexByte(hex[i])
  }

  /** UTF-8 (section 3 of RFC 3629). */
  function Utf8(c: char): (r: seq<Byte>)
    ensures |r| >= 1
  {
    var u := c as int;
    if u < 0x80 then [u]
    else if u < 0x800 then [0xC0 + u / 0x40, 0x80 + u % 0x40]
    else if u < 0x1_0000 then [0xE0 + u / 0x1000, 0x80 + u / 0x40 % 0x40, 0x80 + u % 0x40]
    else [0xF0 + u / 0x4_0000, 0x80 + u / 0x1000 % 0x40, 0x80 + u / 0x40 % 0x40, 0x80 + u % 0x40]
  }

  function ItemBytes(item: Item): (r: seq<Byte>) {
    match item
    case Plain(c) => Utf8(c)
    case Short(letter) => [BACKSLASH, letter]
    case Escaped(hex) => [BACKSLASH, LETTER_U] + hex
  }

  /** The code units an item adds; a short escape stands for one ASCII character. */
  function ItemUnits(item: Item): (r: seq<nat>)
    requires WellFormedItem(item)
  {
    match item
    case Plain(c) => Utf16Units(c)
    case Short(letter) => [ShortValue(letter)]
    case Escaped(hex) => [HexNumber(hex)]
  }

  function ShortValue(letter: Byte): (r: nat) {
    if letter == 0x62 then 0x8 else if letter == 0x66 then 0xC else if letter == 0x6E then 0xA
    else if letter == 0x72 then 0xD else if letter == 0x74 then 0x9 else letter
  }

  function AllBytes(items: seq<Item>): (r: seq<Byte>) {
    if items == [] then [] else ItemBytes(items[0]) + AllBytes(items[1..])
  }

  predicate WellFormed(items: seq<Item>) {
    forall i :: 0 <= i < |items| ==> WellFormedItem(items[i])
  }

  function AllUnits(items: seq<Item>): (r: seq<nat>)
    requires WellFormed(items)
  {
    if items == [] then [] else ItemUnits(items[0]) + AllUnits(items[1..])
  }

  /** Some surrogate is not half of a high-low pair. */
  ghost predicate HasUnpaired(units: seq<nat>) {
    exists i :: 0 <= i < |units| && Unpaired(units, i)
  }

  predicate Unpaired(units: seq<nat>, i: nat)
    requires i < |units|
  {
    || (IsHigh(units[i]) && !(i + 1 < |units| && IsLow(units[i + 1])))
    || (IsLow(units[i]) && !(i > 0 && IsHigh(units[i - 1])))
  }

  /** Pairing from the left, with a high surrogate possibly waiting for its low. */
  predicate Paired(units: seq<nat>, pendingHigh: bool) {
    if units == [] then !pendingHigh
    else if pendingHigh then IsLow(units[0]) && Paired(units[1..], false)
    else !IsLow(units[0]) && Paired(units[1..], IsHigh(units[0]))
  }

  /** Pairing from the left succeeds exactly when no surrogate is left over. */
  lemma {:induction false} PairedExactly(units: seq<nat>)
    ensures Paired(units, false) <==> !HasUnpaired(units)
  {
    PairedAfter(units, false, units);
  }

  lemma {:induction false} PairedAfter(units: seq<nat>, pendingHigh: bool, whole: seq<nat>)
    requires |units| <= |whole| && units == whole[|whole| - |units|..]
    requires pendingHigh <==> |units| < |whole| && IsHigh(whole[|whole| - |units| - 1])
    ensures Paired(units, pendingHigh) <==>
      (pendingHigh ==> units != [] && IsLow(units[0])) && NoneUnpaired(whole, |whole| - |units|)
    decreases |units|
  {
    if units != [] {
      var at := |whole| - |units|;
      assert units[0] == whole[at];
      PairedAfter(units[1..], IsHigh(units[0]), whole);
      assert NoneUnpaired(whole, at) <==> !Unpaired(whole, at) && NoneUnpaired(whole, at + 1);
      if units[1..] != [] { assert units[1] == whole[at + 1]; }
    }
  }

  ghost predicate NoneUnpaired(units: seq<nat>, from: nat) {
    forall i :: from <= i < |units| ==> !Unpaired(units, i)
  }

  // ---- scanning items, literals and documents

  lemma PlainBytes(c: char)
    requires WellFormedItem(Plain(c))
    ensures forall i :: 0 <= i < |Utf8(c)| ==> Utf8(c)[i] != QUOTE && Utf8(c)[i] != BACKSLASH
  {
  }

  lemma {:induction false} ScanPlain(plain: seq<Byte>, rest: seq<Byte>)
    requires forall i :: 0 <= i < |plain| ==> plain[i] != QUOTE && plain[i] != BACKSLASH
    ensures Scan(plain + rest, true, false) == Scan(rest, true, false)
    ensures plain != [] ==> Scan(plain + rest, true, true)
  {
    if plain == [] {
      assert plain + rest == rest;
    } else {
      assert (plain + rest)[1..] == plain[1..] + rest;
      ScanPlain(plain[1..], rest);
    }
  }

  /** What one item does to the scan. */
  lemma ScanItem(item: Item, rest: seq<Byte>, pendingHigh: bool)
    requires WellFormedItem(item)
    ensures var bytes, unit := ItemBytes(item) + rest, ItemUnits(item)[0];
      if item.Escaped? then
        if pendingHigh == IsLow(unit) then Scan(bytes, true, pendingHigh) == Scan(rest, true, IsHigh(unit))
        else Scan(bytes, true, pendingHigh)
      else Scan(bytes, true, pendingHigh) == (pendingHigh || Scan(rest, true, false))
  {
    var bytes := ItemBytes(item) + rest;
    match item
    case Plain(c) =>
      PlainBytes(c);
      ScanPlain(Utf8(c), rest);
    case Short(letter) =>
      assert bytes[0] == BACKSLASH && bytes[1] == letter && Skip(bytes, 2) == rest;
    case Escaped(hex) =>
      assert bytes[0] == BACKSLASH && bytes[1] == LETTER_U && Skip(bytes, 6) == rest;
      assert bytes[2..][..4] == hex && bytes[2] == hex[0];
  }

  /** What the same item does to the pairing of code units. */
  lemma PairItem(item: Item, more: seq<nat>, pendingHigh: bool)
    requires WellFormedItem(item)
    ensures var units, unit := ItemUnits(item) + more, ItemUnits(item)[0];
      if item.Escaped? then
        Paired(units, pendingHigh) <==> pendingHigh == IsLow(unit) && Paired(more, IsHigh(unit))
      else Paired(units, pendingHigh) <==> !pendingHigh && Paired(more, false)
  {
    var units := ItemUnits(item) + more;
    assert units[0] == ItemUnits(item)[0];
    if |ItemUnits(item)| == 2 {
      assert units[1..] == [ItemUnits(item)[1]] + more && units[1..][1..] == more;
    } else {
      assert units[1..] == more;
    }
  }

  /** From inside a literal, the scan stops with true exactly on an unpaired unit. */
  lemma {:induction false} ScanLiteral(items: seq<Item>, after: seq<Byte>, pendingHigh: bool)
    requires WellFormed(items)
    ensures Scan(AllBytes(items) + ([QUOTE] + after), true, pendingHigh) <==>
            !Paired(AllUnits(items), pendingHigh) || Scan(after, false, false)
    decreases |items|
  {
    var tail := [QUOTE] + after;
    if items == [] {
      assert AllBytes(items) + tail == tail && tail[1..] == after;
    } else {
      var rest := AllBytes(items[1..]) + tail;
      assert AllBytes(items) + tail == ItemBytes(items[0]) + rest;
      ScanItem(items[0], rest, pendingHigh);
      PairItem(items[0], AllUnits(items[1..]), pendingHigh);
      ScanLiteral(items[1..], after, IsHigh(ItemUnits(items[0])[0]));
      ScanLiteral(items[1..], after, false);
    }
  }

  datatype Segment = Between(bytes: seq<Byte>) | Literal(items: seq<Item>)

  predicate WellFormedSegment(s: Segment) {
    match s
    case Between(bytes) => QUOTE !in bytes
    case Literal(items) => WellFormed(items)
  }

  function SegmentBytes(s: Segment): (r: seq<Byte>) {
    match s
    case Between(bytes) => bytes
    case Literal(items) => [QUOTE] + AllBytes(items) + [QUOTE]
  }

  function DocumentBytes(segments: seq<Segment>): (r: seq<Byte>) {
    if segments == [] then [] else SegmentBytes(segments[0]) + DocumentBytes(segments[1..])
  }

  ghost predicate LoneSurrogate(s: Segment)
    requires WellFormedSegment(s)
  {
    s.Literal? && HasUnpaired(AllUnits(s.items))
  }

  lemma {:induction false} ScanBetween(bytes: seq<Byte>, rest: seq<Byte>)
    requires QUOTE !in bytes
    ensures Scan(bytes + rest, false, false) == Scan(rest, false, false)
  {
    if bytes == [] {
      assert bytes + rest == rest;
    } else {
      assert (bytes + rest)[1..] == bytes[1..] + rest;
      ScanBetween(bytes[1..], rest);
    }
  }

  lemma ScanSegment(s: Segment, rest: seq<Byte>)
    requires WellFormedSegment(s)
    ensures Scan(SegmentBytes(s) + rest, false, false) <==> LoneSurrogate(s) || Scan(rest, false, false)
  {
    match s
    case Between(bytes) => ScanBetween(bytes, rest);
    case Literal(items) =>
      var text := SegmentBytes(s) + rest;
      assert text[1..] == AllBytes(items) + ([QUOTE] + rest);
      ScanLiteral(items, rest, false);
      PairedExactly(AllUnits(items));
  }

  /**
    On string literals with any quote-free text between them, the scan answers true
    exactly when the code units of some literal hold an unpaired surrogate.
   */
  lemma {:induction false} ScanDocument(segments: seq<Segment>)
    requires forall i :: 0 <= i < |segments| ==> WellFormedSegment(segments[i])
    ensures Scan(DocumentBytes(segments), false, false) <==>
            exists i :: 0 <= i < |segments| && LoneSurrogate(segments[i])
  {
    if segments != [] {
      var rest := segments[1..];
      ScanDocument(rest);
      ScanSegment(segments[0], DocumentBytes(rest));
      forall i | 0 <= i < |segments| ensures i > 0 ==> segments[i] == rest[i - 1] {}
      if i :| 0 <= i < |rest| && LoneSurrogate(rest[i]) { assert LoneSurrogate(segments[i + 1]); }
    }
  }
}
