/** Names of archive entries: well-formed UTF-8, and paths that stay inside the directory they are unpacked in. */
module EntryNames {
  import opened Bytes

  // ---- UTF-8 ---------------------------------------------------------------------------------------

  /** Well-formed UTF-8 (section 4 of RFC 3629). */
  predicate IsUtf8(b: seq<Byte>) {
    if b == [] then true
    else if b[0] < 0x80 then IsUtf8(b[1..])
    else if 0xC2 <= b[0] <= 0xDF then |b| >= 2 && Tail(b[1]) && IsUtf8(b[2..])
    else if 0xE0 <= b[0] <= 0xEF then
      |b| >= 3 && Tail(b[1]) && Tail(b[2])
      && (b[0] == 0xE0 ==> b[1] >= 0xA0) && (b[0] == 0xED ==> b[1] < 0xA0) && IsUtf8(b[3..])
    else if 0xF0 <= b[0] <= 0xF4 then
      |b| >= 4 && Tail(b[1]) && Tail(b[2]) && Tail(b[3])
      && (b[0] == 0xF0 ==> b[1] >= 0x90) && (b[0] == 0xF4 ==> b[1] < 0x90) && IsUtf8(b[4..])
    else false
  }

  predicate Tail(b: Byte) {
    0x80 <= b <= 0xBF
  }

  /** The bytes of a character (section 3 of RFC 3629). */
  function Encoded(c: char): (b: seq<Byte>)
    ensures 1 <= |b| <= 4
  {
    var u := c as int;
    if u < 0x80 then [u]
    else if u < 0x800 then [0xC0 + u / 0x40, 0x80 + u % 0x40]
    else if u < 0x1_0000 then [0xE0 + u / 0x40 / 0x40, 0x80 + u / 0x40 % 0x40, 0x80 + u % 0x40]
    else [0xF0 + u / 0x40 / 0x40 / 0x40, 0x80 + u / 0x40 / 0x40 % 0x40, 0x80 + u / 0x40 % 0x40, 0x80 + u % 0x40]
  }

  function EncodedAll(s: string): (b: seq<Byte>) {
    if s == "" then [] else Encoded(s[0]) + EncodedAll(s[1..])
  }

  lemma EncodedFirst(c: char, rest: seq<Byte>)
    requires IsUtf8(rest)
    ensures IsUtf8(Encoded(c) + rest)
  {
    var first := Encoded(c);
    var b := first + rest;
    assert b[|first|..] == rest && b[..|first|] == first;
    assert forall i :: 0 <= i < |first| ==> b[i] == first[i];
  }

  lemma TwoBytes(a: Byte, b: Byte) returns (c: char)
    requires 0xC2 <= a <= 0xDF && Tail(b)
    ensures Encoded(c) == [a, b]
  {
    c := ((a - 0xC0) * 0x40 + (b - 0x80)) as char;
  }

  lemma ThreeBytes(a: Byte, b: Byte, d: Byte) returns (c: char)
    requires 0xE0 <= a <= 0xEF && Tail(b) && Tail(d) && (a == 0xE0 ==> b >= 0xA0) && (a == 0xED ==> b < 0xA0)
    ensures Encoded(c) == [a, b, d]
  {
    var second := (a - 0xE0) * 0x40 + (b - 0x80);
    c := (second * 0x40 + (d - 0x80)) as char;
    assert c as int / 0x40 == second;
  }

  lemma FourBytes(a: Byte, b: Byte, d: Byte, e: Byte) returns (c: char)
    requires 0xF0 <= a <= 0xF4 && Tail(b) && Tail(d) && Tail(e) && (a == 0xF0 ==> b >= 0x90) && (a == 0xF4 ==> b < 0x90)
    ensures Encoded(c) == [a, b, d, e]
  {
    var first := a - 0xF0;
    var second := first * 0x40 + (b - 0x80);
    var third := second * 0x40 + (d - 0x80);
    c := (third * 0x40 + (e - 0x80)) as char;
    assert c as int / 0x40 == third && third / 0x40 == second && second / 0x40 == first;
  }

  lemma FirstCharacter(b: seq<Byte>) returns (c: char)
    requires b != [] && IsUtf8(b)
    ensures |Encoded(c)| <= |b| && b[..|Encoded(c)|] == Encoded(c) && IsUtf8(b[|Encoded(c)|..])
  {
    if b[0] < 0x80 {
      c := b[0] as char;
      assert b[..1] == [b[0]];
    } else if b[0] <= 0xDF {
      c := TwoBytes(b[0], b[1]);
      assert b[..2] == [b[0], b[1]];
    } else if b[0] <= 0xEF {
      c := ThreeBytes(b[0], b[1], b[2]);
      assert b[..3] == [b[0], b[1], b[2]];
    } else {
      c := FourBytes(b[0], b[1], b[2], b[3]);
      assert b[..4] == [b[0], b[1], b[2], b[3]];
    }
  }

  lemma {:induction false} TextIsUtf8(s: string)
    ensures IsUtf8(EncodedAll(s))
  {
    if s != "" {
      TextIsUtf8(s[1..]);
      EncodedFirst(s[0], EncodedAll(s[1..]));
    }
  }

  lemma {:induction false} Decoded(b: seq<Byte>) returns (s: string)
    requires IsUtf8(b)
    ensures EncodedAll(s) == b
    decreases |b|
  {
    if b == [] {
      s := "";
    } else {
      var c := FirstCharacter(b);
      var rest := Decoded(b[|Encoded(c)|..]);
      s := [c] + rest;
      assert s[1..] == rest && b == Encoded(c) + b[|Encoded(c)|..];
    }
  }

  /** Bytes are accepted exactly when they are the UTF-8 form of some text. */
  lemma Utf8Exactly(b: seq<Byte>)
    ensures IsUtf8(b) <==> exists s :: EncodedAll(s) == b
  {
    if IsUtf8(b) {
      var s := Decoded(b);
    }
    if s :| EncodedAll(s) == b {
      TextIsUtf8(s);
    }
  }

  // ---- the parts of a name -------------------------------------------------------------------------

  const SLASH: Byte := 0x2F
  const BACKSLASH: Byte := 0x5C
  const DOT: Byte := 0x2E

  function Split(name: seq<Byte>): (parts: seq<seq<Byte>>)
    ensures |parts| > 0
  {
    if name == [] then [[]]
    else
      var rest := Split(name[1..]);
      if name[0] == SLASH then [[]] + rest else [[name[0]] + rest[0]] + rest[1..]
  }

  function Joined(parts: seq<seq<Byte>>): (name: seq<Byte>)
    requires parts != []
  {
    if |parts| == 1 then parts[0] else parts[0] + [SLASH] + Joined(parts[1..])
  }

  /** The parts joined by slashes give the name, and no part holds a slash. */
  lemma {:induction false} SplitJoined(name: seq<Byte>)
    ensures Joined(Split(name)) == name && forall i :: 0 <= i < |Split(name)| ==> SLASH !in Split(name)[i]
  {
    if name != [] {
      SplitJoined(name[1..]);
      var rest := Split(name[1..]);
      assert name == [name[0]] + name[1..];
      if name[0] == SLASH {
        assert ([[]] + rest)[1..] == rest;
      } else {
        var first := [name[0]] + rest[0];
        assert ([first] + rest[1..])[1..] == rest[1..];
      }
    }
  }

  /** The bytes from `i` to `j` stand between two slashes or ends, with no slash inside. */
  predicate Stretch(name: seq<Byte>, i: nat, j: nat) {
    && i <= j <= |name| && (i == 0 || name[i - 1] == SLASH) && (j == |name| || name[j] == SLASH)
    && SLASH !in name[i..j]
  }

  lemma StretchLater(name: seq<Byte>, i: nat, j: nat)
    requires name != [] && 1 <= i <= j <= |name|
    ensures name[i..j] == name[1..][i - 1..j - 1]
    ensures Stretch(name, i, j) <==> Stretch(name[1..], i - 1, j - 1) && (i == 1 ==> name[0] == SLASH)
  {
    assert i > 1 ==> name[1..][i - 2] == name[i - 1];
    assert j < |name| ==> name[1..][j - 1] == name[j];
  }

  lemma {:induction false} FirstStretch(name: seq<Byte>)
    ensures var n := |Split(name)[0]|; Stretch(name, 0, n) && name[0..n] == Split(name)[0]
  {
    if name != [] && name[0] != SLASH {
      FirstStretch(name[1..]);
      var n := |Split(name[1..])[0]|;
      assert name[0..n + 1] == [name[0]] + name[1..][0..n];
      assert n + 1 < |name| ==> name[n + 1] == name[1..][n];
    }
  }

  lemma FirstStretchOnly(name: seq<Byte>, j: nat, k: nat)
    requires Stretch(name, 0, j) && Stretch(name, 0, k)
    ensures j == k
  {
    assert forall i :: 0 <= i < j ==> name[0..j][i] == name[i];
    assert forall i :: 0 <= i < k ==> name[0..k][i] == name[i];
  }

  /** The part stands somewhere behind the first. */
  ghost predicate LaterPart(name: seq<Byte>, part: seq<Byte>) {
    exists i: nat, j: nat :: 0 < i && Stretch(name, i, j) && name[i..j] == part
  }

  ghost predicate SomePart(name: seq<Byte>, part: seq<Byte>) {
    exists i: nat, j: nat :: Stretch(name, i, j) && name[i..j] == part
  }

  lemma PartsFromFirst(name: seq<Byte>, part: seq<Byte>)
    ensures SomePart(name, part) <==> part == Split(name)[0] || LaterPart(name, part)
  {
    FirstStretch(name);
    if i: nat, j: nat :| Stretch(name, i, j) && name[i..j] == part {
      if i == 0 {
        FirstStretchOnly(name, j, |Split(name)[0]|);
      }
    }
  }

  /** Behind the first byte: the parts behind a leading slash are all parts of the rest. */
  lemma LaterPartsStep(name: seq<Byte>, part: seq<Byte>)
    requires name != []
    ensures LaterPart(name, part) <==>
            if name[0] == SLASH then SomePart(name[1..], part) else LaterPart(name[1..], part)
  {
    var rest := name[1..];
    if i: nat, j: nat :| 0 < i && Stretch(name, i, j) && name[i..j] == part {
      StretchLater(name, i, j);
      assert Stretch(rest, i - 1, j - 1) && rest[i - 1..j - 1] == part;
    }
    if i: nat, j: nat :| Stretch(rest, i, j) && rest[i..j] == part && (i == 0 ==> name[0] == SLASH) {
      StretchLater(name, i + 1, j + 1);
      assert Stretch(name, i + 1, j + 1) && name[i + 1..j + 1] == part;
    }
  }

  lemma {:induction false} LaterParts(name: seq<Byte>, part: seq<Byte>)
    ensures part in Split(name)[1..] <==> LaterPart(name, part)
  {
    if name != [] {
      var rest := Split(name[1..]);
      LaterParts(name[1..], part);
      LaterPartsStep(name, part);
      PartsFromFirst(name[1..], part);
      assert rest == [rest[0]] + rest[1..];
      assert name[0] == SLASH ==> Split(name)[1..] == rest;
      assert name[0] != SLASH ==> Split(name)[1..] == rest[1..];
    }
  }

  /** The parts of a name are what stands between two slashes or ends. */
  lemma PartsExactly(name: seq<Byte>, part: seq<Byte>)
    ensures part in Split(name) <==> SomePart(name, part)
  {
    LaterParts(name, part);
    PartsFromFirst(name, part);
    assert Split(name) == [Split(name)[0]] + Split(name)[1..];
  }

  // ---- safe names ----------------------------------------------------------------------------------

  datatype Component = RootDir | CurDir | ParentDir | Normal(part: seq<Byte>)

  /** `Path::components` for `/`-separated paths. */
  function Components(parts: seq<seq<Byte>>, first: bool): (r: seq<Component>) {
    if parts == [] then []
    else
      (if parts[0] == [] then (if first && |parts| > 1 then [RootDir] else [])
       else if parts[0] == [DOT] then (if first then [CurDir] else [])
       else if parts[0] == [DOT, DOT] then [ParentDir]
       else [Normal(parts[0])]) + Components(parts[1..], false)
  }

  /** No part of the name is empty or made of one or two dots. */
  predicate PlainParts(name: seq<Byte>) {
    forall i :: 0 <= i < |Split(name)| ==>
      Split(name)[i] != [] && Split(name)[i] != [DOT] && Split(name)[i] != [DOT, DOT]
  }

  predicate SafeEntryPath(name: seq<Byte>) {
    && BACKSLASH !in name && 0 !in name && PlainParts(name)
    && (forall i :: 0 <= i < |Components(Split(name), true)| ==> Components(Split(name), true)[i].Normal?)
  }

  /** A name of plain parts has one normal component for each: nothing climbs, restarts or vanishes. */
  lemma SafePathComponents(name: seq<Byte>)
    requires PlainParts(name)
    ensures |Components(Split(name), true)| == |Split(name)|
    ensures forall i :: 0 <= i < |Split(name)| ==> Components(Split(name), true)[i] == Normal(Split(name)[i])
  {
    NormalParts(Split(name), true);
  }

  /**
    A name is safe exactly when it holds no backslash and no zero byte, and no stretch of it between two slashes or
    ends is empty, `.` or `..`.
   */
  lemma SafeExactly(name: seq<Byte>)
    ensures SafeEntryPath(name) <==>
            && (forall i :: 0 <= i < |name| ==> name[i] != 0x5C && name[i] != 0)
            && forall i: nat, j: nat :: Stretch(name, i, j) ==>
                 name[i..j] != [] && name[i..j] != [0x2E] && name[i..j] != [0x2E, 0x2E]
  {
    if PlainParts(name) {
      SafePathComponents(name);
    }
    forall i: nat, j: nat | Stretch(name, i, j) ensures name[i..j] in Split(name) {
      PartsExactly(name, name[i..j]);
    }
    forall k | 0 <= k < |Split(name)| ensures SomePart(name, Split(name)[k]) {
      PartsExactly(name, Split(name)[k]);
    }
  }

  lemma {:induction false} NormalParts(parts: seq<seq<Byte>>, first: bool)
    requires forall i :: 0 <= i < |parts| ==> parts[i] != [] && parts[i] != [DOT] && parts[i] != [DOT, DOT]
    ensures |Components(parts, first)| == |parts|
    ensures forall i :: 0 <= i < |parts| ==> Components(parts, first)[i] == Normal(parts[i])
  {
    if parts != [] {
      NormalParts(parts[1..], false);
      assert Components(parts, first) == [Normal(parts[0])] + Components(parts[1..], false);
    }
  }
}
