/**
  Node ids under the order a `BTreeSet<String>` iterates in.  Rust compares strings by
  UTF-8 bytes, which orders them as their code points do.
 */
module Ids {
  import opened Text

  datatype Id = Id(text: string)

  predicate Less(a: Id, b: Id) {
    LexLess(CodePoints(a.text), CodePoints(b.text))
  }

  /** An id comes first that is a proper prefix, or has the smaller character at the first difference. */
  lemma LessExactly(s: string, t: string)
    ensures Less(Id(s), Id(t)) <==>
            || (|s| < |t| && s == t[..|s|])
            || exists k :: 0 <= k < |s| && k < |t| && s[..k] == t[..k] && s[k] < t[k]
  {
    var a, b := CodePoints(s), CodePoints(t);
    LexLessExactly(a, b);
    forall k | 0 <= k <= |s| && k <= |t| ensures a[..k] == b[..k] <==> s[..k] == t[..k] {
      assert a[..k] == CodePoints(s[..k]) && b[..k] == CodePoints(t[..k]);
      if a[..k] == b[..k] {
        CodePointsInjective(s[..k], t[..k]);
      }
    }
    if |s| < |t| {
      assert s[..|s|] == s && a[..|s|] == a;
    }
    if k: nat :| SmallerAt(a, b, k) {
      assert s[..k] == t[..k] && s[k] < t[k];
    }
    if k :| 0 <= k < |s| && k < |t| && s[..k] == t[..k] && s[k] < t[k] {
      assert SmallerAt(a, b, k);
    }
  }

  lemma LessIrreflexive(a: Id)
    ensures !Less(a, a)
  {
    LexIrreflexive(CodePoints(a.text));
  }

  lemma LessTotal(a: Id, b: Id)
    ensures a == b || Less(a, b) || Less(b, a)
  {
    LexTotal(CodePoints(a.text), CodePoints(b.text));
    if CodePoints(a.text) == CodePoints(b.text) { CodePointsInjective(a.text, b.text); }
  }

  lemma LessTransitive(a: Id, b: Id, c: Id)
    requires Less(a, b) && Less(b, c)
    ensures Less(a, c)
  {
    LexTransitive(CodePoints(a.text), CodePoints(b.text), CodePoints(c.text));
  }

  ghost predicate Sorted(s: seq<Id>) {
    forall i, j :: 0 <= i < j < |s| ==> Less(s[i], s[j])
  }

  function Elements<T>(s: seq<T>): (r: set<T>) {
    set x | x in s
  }

  ghost predicate IsLeast(m: Id, s: set<Id>) {
    m in s && forall x :: x in s && x != m ==> Less(m, x)
  }

  /** The first element a `BTreeSet` yields. */
  method First(s: set<Id>) returns (m: Id)
    requires s != {}
    ensures IsLeast(m, s)
  {
    var rest := s;
    m :| m in rest;
    rest := rest - {m};
    while rest != {}
      invariant rest <= s && m in s && m !in rest
      invariant forall x :: x in s && x !in rest && x != m ==> Less(m, x)
      decreases rest
    {
      var x :| x in rest;
      LessTotal(m, x);
      if Less(x, m) {
        forall y | y in s && y !in rest && y != m ensures Less(x, y) {
          LessTransitive(x, m, y);
        }
        m := x;
      }
      rest := rest - {x};
    }
  }

  /** All elements in the order a `BTreeSet` yields them. */
  method InOrder(s: set<Id>) returns (r: seq<Id>)
    ensures Sorted(r) && Elements(r) == s
  {
    r := [];
    var rest := s;
    while rest != {}
      invariant rest <= s && Sorted(r)
      invariant Elements(r) == s - rest
      invariant forall x, y :: x in r && y in rest ==> Less(x, y)
      decreases rest
    {
      var m := First(rest);
      assert Elements(r + [m]) == Elements(r) + {m};
      r := r + [m];
      rest := rest - {m};
    }
  }

  /** A set has one sorted listing. */
  lemma {:induction false} SortedUnique(a: seq<Id>, b: seq<Id>)
    requires Sorted(a) && Sorted(b) && Elements(a) == Elements(b)
    ensures a == b
  {
    if |b| > 0 { assert b[0] in Elements(b); }
    if a != [] {
      assert a[0] in Elements(a) && b != [];
      if a[0] != b[0] {
        var i :| 0 <= i < |a| && a[i] == b[0];
        var j :| 0 <= j < |b| && b[j] == a[0];
        LessTransitive(a[0], b[0], a[0]);
        LessIrreflexive(a[0]);
        assert false;
      }
      LessIrreflexive(a[0]);
      assert a[0] !in a[1..] && b[0] !in b[1..];
      assert Elements(a[1..]) == Elements(a) - {a[0]};
      assert Elements(b[1..]) == Elements(b) - {b[0]};
      SortedUnique(a[1..], b[1..]);
    }
  }

  lemma {:induction false} SortedCardinality(s: seq<Id>)
    requires Sorted(s)
    ensures |Elements(s)| == |s|
  {
    if s != [] {
      SortedCardinality(s[1..]);
      LessIrreflexive(s[0]);
      assert s[0] !in s[1..];
      assert Elements(s) == {s[0]} + Elements(s[1..]);
    }
  }
}
