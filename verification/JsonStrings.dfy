/**
  Strings in canonical JSON: the escapes of RFC 8785, a reader that undoes them, and the
  UTF-16 order that object members are sorted in.
 */
module JsonStrings {
  import opened Text

  // ---- escaping

  function HexDigit(n: nat): (r: char)
    requires n < 16
  {
    if n < 10 then ('0' as int + n) as char else ('a' as int + (n - 10)) as char
  }

  /** The text of one character (section 3.2.2.2 of RFC 8785). */
  function Escape(c: char): (r: string) {
    if c == '"' then "\\\""
    else if c == '\\' then "\\\\"
    else if c as int == 0x8 then "\\b"
    else if c as int == 0x9 then "\\t"
    else if c as int == 0xA then "\\n"
    else if c as int == 0xC then "\\f"
    else if c as int == 0xD then "\\r"
    else if c as int < 0x20 then "\\u00" + [HexDigit(c as int / 16), HexDigit(c as int % 16)]
    else [c]
  }

  function EscapeAll(s: string): (r: string) {
    if s == "" then "" else Escape(s[0]) + EscapeAll(s[1..])
  }

  function Quoted(s: string): (r: string) {
    "\"" + EscapeAll(s) + "\""
  }

  /** `write_string` */
  method WriteString(start: string, s: string) returns (out: string)
    ensures out == start + Quoted(s)
  {
    out := start + "\"";
    for i := 0 to |s|
      invariant out + EscapeAll(s[i..]) == start + "\"" + EscapeAll(s)
    {
      var c := s[i];
      assert s[i..][0] == c && s[i..][1..] == s[i + 1..];
      Associate(out, Escape(c), EscapeAll(s[i + 1..]));
      if c == '"' {
        out := out + "\\\"";
      } else if c == '\\' {
        out := out + "\\\\";
      } else if c as int == 0x8 {
        out := out + "\\b";
      } else if c as int == 0x9 {
        out := out + "\\t";
      } else if c as int == 0xA {
        out := out + "\\n";
      } else if c as int == 0xC {
        out := out + "\\f";
      } else if c as int == 0xD {
        out := out + "\\r";
      } else if c as int < 0x20 {
        out := out + ("\\u00" + [HexDigit(c as int / 16), HexDigit(c as int % 16)]);
      } else {
        out := out + [c];
      }
    }
    assert s[|s|..] == "" && out + "" == out;
    out := out + "\"";
  }

  lemma Associate(a: string, b: string, c: string)
    ensures (a + b) + c == a + (b + c)
  {
  }

  // ---- reading, as section 7 of RFC 8259 has it

  predicate IsHex(c: char) {
    '0' <= c <= '9' || 'a' <= c <= 'f' || 'A' <= c <= 'F'
  }

  function HexValue(c: char): (r: nat)
    requires IsHex(c)
    ensures r < 16
  {
    if c <= '9' then c as int - '0' as int
    else if c >= 'a' then c as int - 'a' as int + 10
    else c as int - 'A' as int + 10
  }

  datatype StringRead = NoString | StringRead(value: string, rest: string)

  function Push(c: char, r: StringRead): (result: StringRead) {
    if r.NoString? then r else StringRead([c] + r.value, r.rest)
  }

  /** A two-character escape. */
  predicate ShortEscape(c: char) {
    c == '"' || c == '\\' || c == '/' || c == 'b' || c == 't' || c == 'n' || c == 'f' || c == 'r'
  }

  function Unescaped(c: char): (r: char)
    requires ShortEscape(c)
  {
    if c == 'b' then 0x8 as char else if c == 't' then 0x9 as char else if c == 'n' then 0xA as char
    else if c == 'f' then 0xC as char else if c == 'r' then 0xD as char else c
  }

  /** A six-character escape, of a code unit that is no surrogate. */
  predicate LongEscape(text: string) {
    && |text| >= 6 && text[0] == '\\' && text[1] == 'u'
    && IsHex(text[2]) && IsHex(text[3]) && IsHex(text[4]) && IsHex(text[5])
    && !(0xD800 <= FourHex(text) < 0xE000)
  }

  function FourHex(text: string): (r: nat)
    requires |text| >= 6 && IsHex(text[2]) && IsHex(text[3]) && IsHex(text[4]) && IsHex(text[5])
    ensures r < 0x1_0000
  {
    HexValue(text[2]) * 0x1000 + HexValue(text[3]) * 0x100 + HexValue(text[4]) * 0x10 + HexValue(text[5])
  }

  /** Reads up to the closing quote; `text` starts after the opening one. Control characters must be escaped. */
  function ReadString(text: string): (r: StringRead)
    ensures r.StringRead? ==> |r.rest| < |text|
  {
    if text == "" then NoString
    else if text[0] == '"' then StringRead("", text[1..])
    else if text[0] as int < 0x20 then NoString
    else if text[0] != '\\' then Push(text[0], ReadString(text[1..]))
    else if |text| < 2 then NoString
    else if ShortEscape(text[1]) then Push(Unescaped(text[1]), ReadString(text[2..]))
    else if LongEscape(text) then Push(FourHex(text) as char, ReadString(text[6..]))
    else NoString
  }

  lemma HexRead(n: nat)
    requires n < 16
    ensures IsHex(HexDigit(n)) && HexValue(HexDigit(n)) == n
  {
  }

  lemma ControlRead(c: char, text: string)
    requires c as int < 0x20 && |text| >= 6 && text[..4] == "\\u00"
    requires text[4] == HexDigit(c as int / 16) && text[5] == HexDigit(c as int % 16)
    ensures LongEscape(text) && FourHex(text) as char == c
  {
    assert text[0] == text[..4][0] && text[1] == text[..4][1] && text[2] == text[..4][2] && text[3] == text[..4][3];
    HexRead(c as int / 16);
    HexRead(c as int % 16);
  }

  lemma EscapeRead(c: char, rest: string)
    ensures ReadString(Escape(c) + rest) == Push(c, ReadString(rest))
  {
    var text := Escape(c) + rest;
    var u := c as int;
    if c == '"' || c == '\\' || u == 0x8 || u == 0x9 || u == 0xA || u == 0xC || u == 0xD {
      assert text[0] == '\\' && ShortEscape(text[1]) && Unescaped(text[1]) == c;
      assert text[2..] == rest;
    } else if u < 0x20 {
      assert text[..4] == "\\u00";
      assert text[4] == HexDigit(u / 16) && text[5] == HexDigit(u % 16);
      ControlRead(c, text);
      assert text[0] == '\\' && text[1] == 'u' && text[6..] == rest;
    } else {
      assert text[0] == c && text[1..] == rest;
    }
  }

  // ---- no other text is as short -------------------------------------------------------------------

  /** The text stands for exactly this character. */
  predicate ReadsAs(text: string, c: char) {
    ReadString(text + "\"") == StringRead([c], "")
  }

  predicate NoUpperHex(text: string) {
    forall i :: 2 <= i < |text| ==> !('A' <= text[i] <= 'F')
  }

  lemma EmptyRead(text: string)
    requires ReadString(text + "\"") == StringRead("", "")
    ensures text == ""
  {
    var all := text + "\"";
    if all[0] == '"' {
      assert all[1..] == "";
    }
  }

  lemma LoneBackslash()
    ensures ReadString("\\\"").NoString?
  {
    assert "\\\""[2..] == "";
  }

  /** The three forms of a text that stands for one character. */
  lemma ReadsAsForms(text: string, c: char)
    requires ReadsAs(text, c)
    ensures || (text == [c] && c as int >= 0x20 && c != '"' && c != '\\')
            || (|text| == 2 && text[0] == '\\' && ShortEscape(text[1]) && Unescaped(text[1]) == c)
            || (|text| == 6 && LongEscape(text) && FourHex(text) as char == c)
  {
    var all := text + "\"";
    assert all[|text|] == '"' && (text == "" ==> all == "\"");
    assert all[0] == text[0];
    if text[0] != '\\' {
      assert all[1..] == text[1..] + "\"";
      PushedOne(text[0], text[1..], c);
    } else {
      LoneBackslash();
      assert |text| == 1 ==> all == "\\\"";
      assert all[1] == text[1];
      if ShortEscape(text[1]) {
        assert all[2..] == text[2..] + "\"";
        PushedOne(Unescaped(text[1]), text[2..], c);
      } else {
        assert forall i :: 0 <= i < 6 ==> all[i] == text[i];
        assert all[6..] == text[6..] + "\"";
        PushedOne(FourHex(text) as char, text[6..], c);
      }
    }
  }

  lemma PushedOne(d: char, rest: string, c: char)
    requires Push(d, ReadString(rest + "\"")) == StringRead([c], "")
    ensures d == c && rest == ""
  {
    var r := ReadString(rest + "\"");
    assert ([d] + r.value)[0] == d && ([d] + r.value)[1..] == r.value;
    EmptyRead(rest);
  }

  lemma ControlForm(c: char, text: string)
    requires |text| == 6 && LongEscape(text) && FourHex(text) as char == c && c as int < 0x20 && NoUpperHex(text)
    ensures text == "\\u00" + [HexDigit(c as int / 16), HexDigit(c as int % 16)]
  {
    var a, b, x, y := HexValue(text[2]), HexValue(text[3]), HexValue(text[4]), HexValue(text[5]);
    assert a == 0 && b == 0 && x == c as int / 16 && y == c as int % 16;
    assert text[2] == '0' && text[3] == '0' && text[4] == HexDigit(x) && text[5] == HexDigit(y);
  }

  lemma ShortForm(c: char, d: char)
    requires ShortEscape(d) && Unescaped(d) == c
    ensures |Escape(c)| <= 2 && (|Escape(c)| == 2 ==> Escape(c) == ['\\', d])
  {
  }

  lemma LongForm(c: char, text: string)
    requires |text| == 6 && LongEscape(text) && FourHex(text) as char == c
    ensures |Escape(c)| <= 6 && (|Escape(c)| == 6 && NoUpperHex(text) ==> text == Escape(c))
  {
    if |Escape(c)| == 6 && NoUpperHex(text) {
      ControlForm(c, text);
    }
  }

  /** The text of a character is the one shortest text that stands for it, hexadecimal digits in lower case. */
  lemma EscapeShortest(c: char, text: string)
    requires ReadsAs(text, c)
    ensures ReadsAs(Escape(c), c) && |Escape(c)| <= |text|
    ensures |text| == |Escape(c)| && NoUpperHex(text) ==> text == Escape(c)
  {
    assert ReadsAs(Escape(c), c) by {
      EscapeRead(c, "\"");
      assert ReadString("\"") == StringRead("", "") && [c] + "" == [c];
    }
    ReadsAsForms(text, c);
    if |text| == 1 {
      assert Escape(c) == [c];
    } else if |text| == 2 {
      ShortForm(c, text[1]);
      assert text == ['\\', text[1]];
    } else {
      LongForm(c, text);
    }
  }

  /** A quoted string reads back as itself, whatever follows. */
  lemma {:induction false} QuotedRead(s: string, rest: string)
    ensures ReadString(EscapeAll(s) + "\"" + rest) == StringRead(s, rest)
  {
    var text := EscapeAll(s) + "\"" + rest;
    if s == "" {
      assert text == "\"" + rest;
      assert text[1..] == rest;
    } else {
      var tail := EscapeAll(s[1..]) + "\"" + rest;
      QuotedRead(s[1..], rest);
      EscapeRead(s[0], tail);
      assert text == Escape(s[0]) + tail;
      assert [s[0]] + s[1..] == s;
    }
  }

  // ---- the order of object members

  /** `char::encode_utf16` */
  function Utf16Units(c: char): (r: seq<nat>)
    ensures 1 <= |r| <= 2
  {
    var u := c as int;
    if u < 0x1_0000 then [u] else [0xD800 + (u - 0x1_0000) / 0x400, 0xDC00 + (u - 0x1_0000) % 0x400]
  }

  function Utf16(s: string): (r: seq<nat>) {
    if s == "" then [] else Utf16Units(s[0]) + Utf16(s[1..])
  }

  /** One unit is the code point; two are a high and a low surrogate that hold it between them. */
  lemma UnitsExactly(c: char, units: seq<nat>)
    ensures units == Utf16Units(c) <==>
            || (units == [c as int] && c as int < 0x1_0000)
            || (|units| == 2 && 0xD800 <= units[0] < 0xDC00 && 0xDC00 <= units[1] < 0xE000
                && c as int == 0x1_0000 + (units[0] - 0xD800) * 0x400 + (units[1] - 0xDC00))
  {
  }

  /** The units of a text are those of its characters, one after the other. */
  lemma {:induction false} Utf16Concat(s: string, t: string)
    ensures Utf16(s + t) == Utf16(s) + Utf16(t)
  {
    if s == "" {
      assert s + t == t;
    } else {
      assert (s + t)[1..] == s[1..] + t;
      Utf16Concat(s[1..], t);
    }
  }

  lemma UnitsPrefixFree(a: char, b: char, x: seq<nat>, y: seq<nat>)
    requires Utf16Units(a) + x == Utf16Units(b) + y
    ensures a == b && x == y
  {
    var left, right := Utf16Units(a) + x, Utf16Units(b) + y;
    assert left[0] == Utf16Units(a)[0] && right[0] == Utf16Units(b)[0];
    assert |Utf16Units(a)| == |Utf16Units(b)|;
    if |Utf16Units(a)| == 2 {
      assert left[1] == Utf16Units(a)[1] && right[1] == Utf16Units(b)[1];
    }
    assert left[|Utf16Units(a)|..] == x && right[|Utf16Units(b)|..] == y;
  }

  /** Distinct strings have distinct code units, so the order below is total. */
  lemma {:induction false} Utf16Injective(s: string, t: string)
    requires Utf16(s) == Utf16(t)
    ensures s == t
  {
    if s != "" && t != "" {
      UnitsPrefixFree(s[0], t[0], Utf16(s[1..]), Utf16(t[1..]));
      Utf16Injective(s[1..], t[1..]);
      assert s == [s[0]] + s[1..] && t == [t[0]] + t[1..];
    }
  }

  predicate KeyLess(a: string, b: string) {
    LexLess(Utf16(a), Utf16(b))
  }

  /** A name comes first whose units are a proper prefix, or have the smaller unit at the first difference. */
  lemma KeyLessExactly(a: string, b: string)
    ensures var s, t := Utf16(a), Utf16(b);
            KeyLess(a, b) <==>
              || (|s| < |t| && s == t[..|s|])
              || exists k :: 0 <= k < |s| && k < |t| && s[..k] == t[..k] && s[k] < t[k]
  {
    var s, t := Utf16(a), Utf16(b);
    LexLessExactly(s, t);
    if k: nat :| SmallerAt(s, t, k) {
      assert s[k] < t[k];
    }
    if k :| 0 <= k < |s| && k < |t| && s[..k] == t[..k] && s[k] < t[k] {
      assert SmallerAt(s, t, k);
    }
  }

  lemma KeyTotal(a: string, b: string)
    ensures a == b || KeyLess(a, b) || KeyLess(b, a)
  {
    LexTotal(Utf16(a), Utf16(b));
    if Utf16(a) == Utf16(b) { Utf16Injective(a, b); }
  }

  lemma KeyTransitive(a: string, b: string, c: string)
    requires KeyLess(a, b) && KeyLess(b, c)
    ensures KeyLess(a, c)
  {
    LexTransitive(Utf16(a), Utf16(b), Utf16(c));
  }

  lemma KeyIrreflexive(a: string)
    ensures !KeyLess(a, a)
  {
    LexIrreflexive(Utf16(a));
  }
}
