/**
  Lexicographic order on number sequences, the order Rust's `String` gets from it,
  and the Unicode whitespace test behind `str::trim`.
 */
module Text {

  /** The first difference decides; a proper prefix comes first. */
  predicate LexLess(a: seq<nat>, b: seq<nat>)
    decreases a
  {
    if b == [] then false
    else if a == [] then true
    else if a[0] != b[0] then a[0] < b[0]
    else LexLess(a[1..], b[1..])
  }

  lemma {:induction false} LexIrreflexive(a: seq<nat>)
    ensures !LexLess(a, a)
  {
    if a != [] { LexIrreflexive(a[1..]); }
  }

  lemma {:induction false} LexTotal(a: seq<nat>, b: seq<nat>)
    ensures a == b || LexLess(a, b) || LexLess(b, a)
  {
    if a != [] && b != [] && a[0] == b[0] {
      LexTotal(a[1..], b[1..]);
      assert a == [a[0]] + a[1..] && b == [b[0]] + b[1..];
    }
  }

  lemma {:induction false} LexTransitive(a: seq<nat>, b: seq<nat>, c: seq<nat>)
    requires LexLess(a, b) && LexLess(b, c)
    ensures LexLess(a, c)
  {
    if a != [] && a[0] == b[0] == c[0] { LexTransitive(a[1..], b[1..], c[1..]); }
  }

  /** The lists agree up to `k`, and there the first has the smaller number. */
  predicate SmallerAt(a: seq<nat>, b: seq<nat>, k: nat) {
    k < |a| && k < |b| && a[..k] == b[..k] && a[k] < b[k]
  }

  lemma SmallerLater(x: nat, a: seq<nat>, b: seq<nat>, k: nat)
    ensures SmallerAt([x] + a, [x] + b, k + 1) <==> SmallerAt(a, b, k)
  {
    var c, d := [x] + a, [x] + b;
    if k < |a| && k < |b| {
      assert c[..k + 1] == [x] + a[..k] && d[..k + 1] == [x] + b[..k];
      assert c[..k + 1][1..] == a[..k] && d[..k + 1][1..] == b[..k];
    }
  }

  lemma PrefixLater(x: nat, a: seq<nat>, b: seq<nat>)
    requires |a| < |b|
    ensures [x] + a == ([x] + b)[..1 + |a|] <==> a == b[..|a|]
  {
    assert ([x] + b)[..1 + |a|] == [x] + b[..|a|];
    assert ([x] + a)[1..] == a && ([x] + b[..|a|])[1..] == b[..|a|];
  }

  /** Below means: the first ends where the second goes on, or at the first difference it has the smaller number. */
  lemma {:induction false} LexLessExactly(a: seq<nat>, b: seq<nat>)
    ensures LexLess(a, b) <==> (|a| < |b| && a == b[..|a|]) || exists k: nat :: SmallerAt(a, b, k)
  {
    if a == [] || b == [] {
      assert b != [] ==> b[..0] == [];
    } else if a[0] != b[0] {
      assert SmallerAt(a, b, 0) <==> a[0] < b[0];
      forall k: nat | 0 < k < |a| && k < |b| ensures a[..k] != b[..k] {
        assert a[..k][0] == a[0] && b[..k][0] == b[0];
      }
      assert |a| < |b| ==> b[..|a|][0] == b[0];
    } else {
      var x, c, d := a[0], a[1..], b[1..];
      assert a == [x] + c && b == [x] + d;
      LexLessExactly(c, d);
      if |a| < |b| {
        PrefixLater(x, c, d);
      }
      forall k: nat ensures SmallerAt(a, b, k + 1) <==> SmallerAt(c, d, k) {
        SmallerLater(x, c, d, k);
      }
      if k: nat :| SmallerAt(a, b, k) {
        assert SmallerAt(c, d, k - 1);
      }
      if k: nat :| SmallerAt(c, d, k) {
        assert SmallerAt(a, b, k + 1);
      }
    }
  }

  function CodePoints(s: string): (r: seq<nat>)
    ensures |r| == |s|
    ensures forall i :: 0 <= i < |s| ==> r[i] == s[i] as int
  {
    seq(|s|, i requires 0 <= i < |s| => s[i] as int)
  }

  lemma CodePointsInjective(s: string, t: string)
    requires CodePoints(s) == CodePoints(t)
    ensures s == t
  {
    assert |s| == |t|;
    forall i | 0 <= i < |s| ensures s[i] == t[i] {
      assert CodePoints(s)[i] == CodePoints(t)[i];
    }
  }

  /** `char::is_whitespace`: the Unicode White_Space property. */
  predicate IsWhitespace(c: char) {
    var u := c as int;
    || 0x9 <= u <= 0xD || u == 0x20 || u == 0x85 || u == 0xA0 || u == 0x1680
    || 0x2000 <= u <= 0x200A || u == 0x2028 || u == 0x2029 || u == 0x202F
    || u == 0x205F || u == 0x3000
  }

  /** `s.trim().is_empty()` */
  predicate Blank(s: string) {
    forall i :: 0 <= i < |s| ==> IsWhitespace(s[i])
  }
}
