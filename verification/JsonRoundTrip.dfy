/**
  The canonical text of a JSON value is read back to its meaning, and is the same for two
  values exactly when their meanings are.
 */
module JsonRoundTrip {
  import opened Common
  import opened Decimals
  import opened JsonNumbers
  import opened JsonStrings
  import opened CanonicalJson

  // ---- equal meanings print alike

  lemma {:induction false} SameMeaningSameText(v: Value, w: Value)
    requires Valid(v) && Valid(w) && MeaningOf(v) == MeaningOf(w)
    ensures CanonicalText(v) == CanonicalText(w)
    decreases v, 1
  {
    match v
    case Num(x) => TextsAgreeExactly(x, w.number);
    case Arr(items) => SameItems(items, w.items);
    case Obj(members) => SameMembers(v, w);
    case _ =>
  }

  lemma {:induction false} SameItems(a: seq<Value>, b: seq<Value>)
    requires (forall i :: 0 <= i < |a| ==> Valid(a[i])) && (forall i :: 0 <= i < |b| ==> Valid(b[i]))
    requires ItemMeanings(a) == ItemMeanings(b)
    ensures ItemsText(a) == ItemsText(b)
    decreases a, 0
  {
    assert |ItemMeanings(a)| == |a| && |ItemMeanings(b)| == |b|;
    if a != [] {
      assert ItemMeanings(a)[0] == ItemMeanings(b)[0];
      SameMeaningSameText(a[0], b[0]);
      assert ItemMeanings(a[1..]) == ItemMeanings(a)[1..] && ItemMeanings(b[1..]) == ItemMeanings(b)[1..];
      SameItems(a[1..], b[1..]);
    }
  }

  lemma {:induction false} SameMembers(v: Value, w: Value)
    requires Valid(v) && Valid(w) && v.Obj? && w.Obj? && MeaningOf(v) == MeaningOf(w)
    ensures Sort(MemberTexts(v.members)) == Sort(MemberTexts(w.members))
    decreases v, 0
  {
    var x, y := Sort(MemberTexts(v.members)), Sort(MemberTexts(w.members));
    SortSorted(MemberTexts(v.members));
    SortSorted(MemberTexts(w.members));
    SameKeys(v.members, w.members);
    SortedKeysAgree(x, y);
    forall i | 0 <= i < |x| ensures x[i] == y[i] {
      var p := SourceOf(v.members, i);
      var q := SourceOf(w.members, i);
      assert MemberMeanings(v.members)[x[i].key] == MemberMeanings(w.members)[x[i].key];
      SameMeaningSameText(v.members[p].value, w.members[q].value);
    }
  }

  /** The member a sorted text comes from. */
  lemma SourceOf(members: seq<Entry<Value>>, i: nat) returns (p: nat)
    requires (forall k :: 0 <= k < |members| ==> Valid(members[k].value)) && i < |Sort(MemberTexts(members))|
    ensures p < |members|
    ensures Sort(MemberTexts(members))[i] == Entry(members[p].key, CanonicalText(members[p].value))
  {
    var texts := MemberTexts(members);
    var e := Sort(texts)[i];
    SortMembership(texts, e);
    p :| 0 <= p < |texts| && texts[p] == e;
  }

  lemma SameKeys(a: seq<Entry<Value>>, b: seq<Entry<Value>>)
    requires (forall i :: 0 <= i < |a| ==> Valid(a[i].value)) && (forall i :: 0 <= i < |b| ==> Valid(b[i].value))
    requires MemberMeanings(a) == MemberMeanings(b)
    ensures KeySet(Sort(MemberTexts(a))) == KeySet(Sort(MemberTexts(b)))
  {
    SortKeySet(a);
    SortKeySet(b);
  }

  lemma SortKeySet(a: seq<Entry<Value>>)
    requires forall i :: 0 <= i < |a| ==> Valid(a[i].value)
    ensures KeySet(Sort(MemberTexts(a))) == MemberMeanings(a).Keys
  {
    var s := Sort(MemberTexts(a));
    forall i | 0 <= i < |s| ensures s[i].key in MemberMeanings(a).Keys {
      var j := SourceOf(a, i);
    }
    forall j | 0 <= j < |a| ensures a[j].key in KeySet(s) {
      var i := SortedPlace(MemberTexts(a), j);
    }
  }

  /** Where sorting puts an entry. */
  lemma SortedPlace<T>(es: seq<Entry<T>>, j: nat) returns (i: nat)
    requires j < |es|
    ensures i < |Sort(es)| && Sort(es)[i] == es[j]
  {
    SortMembership(es, es[j]);
    i :| 0 <= i < |Sort(es)| && Sort(es)[i] == es[j];
  }

  // ---- a reader for canonical text

  datatype ValueRead = NoValue | ValueRead(meaning: Meaning, rest: string)

  datatype ItemsRead = NoItems | ItemsRead(items: seq<Meaning>, rest: string)

  datatype MembersRead = NoMembers | MembersRead(members: map<string, Meaning>, rest: string)

  function ReadValue(text: string): (r: ValueRead)
    ensures r.ValueRead? ==> |r.rest| < |text|
    decreases |text|, 1
  {
    if text == "" then NoValue
    else if text[0] == 'n' then (if "null" <= text then ValueRead(NullMeaning, text[4..]) else NoValue)
    else if text[0] == 't' then (if "true" <= text then ValueRead(BoolMeaning(true), text[4..]) else NoValue)
    else if text[0] == 'f' then (if "false" <= text then ValueRead(BoolMeaning(false), text[5..]) else NoValue)
    else if text[0] == '"' then
      var s := ReadString(text[1..]);
      if s.NoString? then NoValue else ValueRead(StrMeaning(s.value), s.rest)
    else if text[0] == '[' then
      if |text| > 1 && text[1] == ']' then ValueRead(ArrMeaning([]), text[2..])
      else
        var items := ReadItems(text[1..]);
        if items.NoItems? then NoValue else ValueRead(ArrMeaning(items.items), items.rest)
    else if text[0] == '{' then
      if |text| > 1 && text[1] == '}' then ValueRead(ObjMeaning(map[]), text[2..])
      else
        var members := ReadMembers(text[1..]);
        if members.NoMembers? then NoValue else ValueRead(ObjMeaning(members.members), members.rest)
    else
      var number := ReadNumber(text);
      if number.None? then NoValue else ValueRead(NumMeaning(number.value.0), number.value.1)
  }

  /** One or more values with commas between them, up to the closing bracket. */
  function ReadItems(text: string): (r: ItemsRead)
    ensures r.ItemsRead? ==> |r.rest| < |text|
    decreases |text|, 2
  {
    var first := ReadValue(text);
    if first.NoValue? || first.rest == "" then NoItems
    else if first.rest[0] == ']' then ItemsRead([first.meaning], first.rest[1..])
    else if first.rest[0] != ',' then NoItems
    else
      var more := ReadItems(first.rest[1..]);
      if more.NoItems? then NoItems else ItemsRead([first.meaning] + more.items, more.rest)
  }

  /** One or more members with commas between them, up to the closing brace. */
  function ReadMembers(text: string): (r: MembersRead)
    ensures r.MembersRead? ==> |r.rest| < |text|
    decreases |text|, 2
  {
    if text == "" || text[0] != '"' then NoMembers
    else
      var key := ReadString(text[1..]);
      if key.NoString? || key.rest == "" || key.rest[0] != ':' then NoMembers
      else
        var value := ReadValue(key.rest[1..]);
        if value.NoValue? || value.rest == "" then NoMembers
        else if value.rest[0] == '}' then MembersRead(map[key.value := value.meaning], value.rest[1..])
        else if value.rest[0] != ',' then NoMembers
        else
          var more := ReadMembers(value.rest[1..]);
          if more.NoMembers? then NoMembers else MembersRead(more.members[key.value := value.meaning], more.rest)
  }

  // ---- reading undoes printing

  lemma LayoutStart(digits: seq<Digit>, n: int)
    requires digits != []
    ensures EcmaLayout(digits, n) != "" && IsDigit(EcmaLayout(digits, n)[0])
  {
    LayoutHasParts(digits, n);
    var whole, fraction, e :| PrintsAs(digits, n, whole, fraction, e) && DenotesAs(digits, n, whole, fraction, e);
    assert EcmaLayout(digits, n)[0] == Digits(whole)[0];
  }

  /** A number's text starts with a digit or a minus sign. */
  lemma NumberStart(x: Number)
    requires WellFormed(x)
    ensures NumberText(x) != "" && (IsDigit(NumberText(x)[0]) || NumberText(x)[0] == '-')
  {
    NormalFormValue(x);
    match NormalForm(x)
    case Zero =>
    case Decimal(negative, digits, n) => LayoutStart(digits, n);
  }

  lemma NumberBack(x: Number, rest: string)
    requires WellFormed(x) && Delimited(rest)
    ensures ReadValue(NumberText(x) + rest) == ValueRead(NumMeaning(ValueOf(x)), rest)
  {
    NumberStart(x);
    NormalFormValue(x);
    TextDenotes(NormalForm(x), rest);
    NumberCase(NumberText(x), rest, ValueOf(x));
  }

  lemma NumberCase(number: string, rest: string, value: real)
    requires number != "" && (IsDigit(number[0]) || number[0] == '-')
    requires ReadNumber(number + rest) == Some((value, rest))
    ensures ReadValue(number + rest) == ValueRead(NumMeaning(value), rest)
  {
    assert (number + rest)[0] == number[0];
  }

  lemma StringBack(s: string, rest: string)
    ensures ReadValue(Quoted(s) + rest) == ValueRead(StrMeaning(s), rest)
  {
    QuotedRead(s, rest);
    QuotedTail(s, rest);
  }

  lemma LiteralsBack(rest: string)
    ensures ReadValue("null" + rest) == ValueRead(NullMeaning, rest)
    ensures ReadValue("true" + rest) == ValueRead(BoolMeaning(true), rest)
    ensures ReadValue("false" + rest) == ValueRead(BoolMeaning(false), rest)
  {
    var n, t, f := "null" + rest, "true" + rest, "false" + rest;
    assert n[4..] == rest && t[4..] == rest && f[5..] == rest;
    assert t[0] == 't' && f[0] == 'f';
  }

  /** The text of a value is read back to its meaning, whatever delimiter follows. */
  lemma {:induction false} ValueBack(v: Value, rest: string)
    requires Valid(v) && Delimited(rest)
    ensures ReadValue(CanonicalText(v) + rest) == ValueRead(MeaningOf(v), rest)
    decreases v, 2
  {
    match v
    case Null => LiteralsBack(rest);
    case Bool(flag) => LiteralsBack(rest);
    case Num(x) => NumberBack(x, rest);
    case Str(s) => StringBack(s, rest);
    case Arr(items) => ArrayBack(v, rest);
    case Obj(members) => ObjectBack(v, rest);
  }

  /** No value's text starts with a closing bracket. */
  lemma TextStart(v: Value)
    requires Valid(v)
    ensures CanonicalText(v) != "" && CanonicalText(v)[0] != ']'
  {
    if v.Num? { NumberStart(v.number); }
  }

  lemma {:induction false} ArrayBack(v: Value, rest: string)
    requires Valid(v) && v.Arr? && Delimited(rest)
    ensures ReadValue(CanonicalText(v) + rest) == ValueRead(MeaningOf(v), rest)
    decreases v, 1
  {
    if v.items == [] {
      assert CanonicalText(v) + rest == "[]" + rest;
      assert ("[]" + rest)[2..] == rest;
    } else {
      ItemsBack(v.items, rest);
      TextStart(v.items[0]);
      OpenBracket(ItemsText(v.items), rest, ItemMeanings(v.items));
      Regroup("[", ItemsText(v.items), "]", rest);
    }
  }

  lemma Regroup(a: string, b: string, c: string, d: string)
    ensures (a + b + c) + d == a + (b + c + d)
  {
  }

  lemma OpenBracket(body: string, rest: string, items: seq<Meaning>)
    requires body != "" && body[0] != ']' && ReadItems(body + "]" + rest) == ItemsRead(items, rest)
    ensures ReadValue("[" + (body + "]" + rest)) == ValueRead(ArrMeaning(items), rest)
  {
    var inner := body + "]" + rest;
    var text := "[" + inner;
    assert text[1..] == inner && text[1] == body[0];
  }

  lemma {:induction false} ItemsBack(items: seq<Value>, rest: string)
    requires items != [] && forall i :: 0 <= i < |items| ==> Valid(items[i])
    ensures ReadItems(ItemsText(items) + "]" + rest) == ItemsRead(ItemMeanings(items), rest)
    decreases items, 0
  {
    var first := CanonicalText(items[0]);
    if |items| == 1 {
      ValueBack(items[0], "]" + rest);
      LastItem(ItemsText(items) + "]" + rest, first, MeaningOf(items[0]), rest);
    } else {
      var inner := ItemsText(items[1..]) + "]" + rest;
      ValueBack(items[0], "," + inner);
      ItemsBack(items[1..], rest);
      Regroup5(first, ",", ItemsText(items[1..]), "]", rest);
      NextItem(ItemsText(items) + "]" + rest, first, MeaningOf(items[0]), inner, ItemMeanings(items[1..]), rest);
    }
  }

  lemma Regroup5(a: string, b: string, c: string, d: string, e: string)
    ensures (a + b + c) + d + e == a + (b + (c + d + e))
  {
  }

  lemma LastItem(text: string, first: string, meaning: Meaning, rest: string)
    requires text == first + "]" + rest && ReadValue(first + ("]" + rest)) == ValueRead(meaning, "]" + rest)
    ensures ReadItems(text) == ItemsRead([meaning], rest)
  {
    JsonStrings.Associate(first, "]", rest);
    ItemsEnd(text, meaning, "]" + rest);
    assert ("]" + rest)[1..] == rest;
  }

  lemma ItemsEnd(text: string, meaning: Meaning, behind: string)
    requires behind != "" && behind[0] == ']' && ReadValue(text) == ValueRead(meaning, behind)
    ensures ReadItems(text) == ItemsRead([meaning], behind[1..])
  {
  }

  lemma NextItem(text: string, first: string, meaning: Meaning, inner: string, more: seq<Meaning>, rest: string)
    requires text == first + ("," + inner)
    requires ReadValue(first + ("," + inner)) == ValueRead(meaning, "," + inner)
    requires ReadItems(inner) == ItemsRead(more, rest)
    ensures ReadItems(text) == ItemsRead([meaning] + more, rest)
  {
    assert ("," + inner)[1..] == inner;
  }

  // ---- objects

  lemma {:induction false} InsertTexts(e: Entry<Value>, es: seq<Entry<Value>>)
    requires Valid(e.value) && forall i :: 0 <= i < |es| ==> Valid(es[i].value)
    ensures (forall i :: 0 <= i < |Insert(e, es)| ==> Valid(Insert(e, es)[i].value))
    ensures Insert(Entry(e.key, CanonicalText(e.value)), MemberTexts(es)) == MemberTexts(Insert(e, es))
  {
    if es == [] || KeyLess(e.key, es[0].key) {
    } else {
      InsertTexts(e, es[1..]);
      assert MemberTexts(es)[1..] == MemberTexts(es[1..]);
    }
  }

  /** Members may be sorted before or after their values are printed. */
  lemma {:induction false} SortTexts(es: seq<Entry<Value>>)
    requires forall i :: 0 <= i < |es| ==> Valid(es[i].value)
    ensures forall i :: 0 <= i < |Sort(es)| ==> Valid(Sort(es)[i].value)
    ensures Sort(MemberTexts(es)) == MemberTexts(Sort(es))
  {
    if es != [] {
      SortTexts(es[1..]);
      assert MemberTexts(es)[1..] == MemberTexts(es[1..]);
      InsertTexts(es[0], Sort(es[1..]));
    }
  }

  lemma SortDistinct<T>(es: seq<Entry<T>>)
    requires DistinctKeys(es)
    ensures DistinctKeys(Sort(es))
  {
    SortSorted(es);
    var s := Sort(es);
    forall i, j | 0 <= i < j < |s| ensures s[i].key != s[j].key { KeyIrreflexive(s[i].key); }
  }

  lemma SortedLookup(es: seq<Entry<Value>>, i: nat)
    requires DistinctKeys(es) && i < |es|
    ensures es[i].key in MemberMeanings(Sort(es)) && MemberMeanings(Sort(es))[es[i].key] == MeaningOf(es[i].value)
  {
    SortDistinct(es);
    var j := SortedPlace(es, i);
  }

  lemma SortedOrigin(es: seq<Entry<Value>>, j: nat)
    requires j < |Sort(es)|
    ensures Sort(es)[j].key in MemberMeanings(es).Keys
  {
    SortMembership(es, Sort(es)[j]);
  }

  /** A map does not see the order of distinct members. */
  lemma SortMeanings(es: seq<Entry<Value>>)
    requires DistinctKeys(es)
    ensures MemberMeanings(Sort(es)) == MemberMeanings(es)
  {
    forall i | 0 <= i < |es|
      ensures es[i].key in MemberMeanings(Sort(es)) && MemberMeanings(Sort(es))[es[i].key] == MeaningOf(es[i].value)
    {
      SortedLookup(es, i);
    }
    forall j | 0 <= j < |Sort(es)| ensures Sort(es)[j].key in MemberMeanings(es).Keys { SortedOrigin(es, j); }
  }

  lemma {:induction false} MembersBack(v: Value, es: seq<Entry<Value>>, rest: string)
    requires v.Obj? && es != [] && forall i :: 0 <= i < |es| ==> es[i] in v.members && Valid(es[i].value)
    ensures ReadMembers(JoinMembers(MemberTexts(es)) + "}" + rest) == MembersRead(MemberMeanings(es), rest)
    decreases v, 0, |es|
  {
    var texts := MemberTexts(es);
    var key, value := es[0].key, CanonicalText(es[0].value);
    var start := Quoted(key) + ":" + value;
    assert es[0] in v.members;
    assert texts[1..] == MemberTexts(es[1..]);
    if |es| == 1 {
      ValueBack(es[0].value, "}" + rest);
      JsonStrings.Associate(start, "}", rest);
      LastMember(JoinMembers(texts) + "}" + rest, key, value, MeaningOf(es[0].value), rest);
      assert MemberMeanings(es[1..]) == map[];
    } else {
      var inner := JoinMembers(texts[1..]) + "}" + rest;
      ValueBack(es[0].value, "," + inner);
      MembersBack(v, es[1..], rest);
      Regroup5(start, ",", JoinMembers(texts[1..]), "}", rest);
      NextMember(JoinMembers(texts) + "}" + rest, key, value, MeaningOf(es[0].value), inner, MemberMeanings(es[1..]),
                 rest);
    }
  }

  /** Where the parts of a printed member lie. */
  lemma MemberText(key: string, value: string, tail: string)
    ensures var text := Quoted(key) + ":" + value + tail;
      && text != "" && text[0] == '"'
      && ReadString(text[1..]) == StringRead(key, ":" + (value + tail))
      && (":" + (value + tail))[1..] == value + tail
  {
    var after := ":" + (value + tail);
    QuotedRead(key, after);
    QuotedTail(key, after);
    Regroup4(Quoted(key), ":", value, tail);
  }

  lemma Regroup4(a: string, b: string, c: string, d: string)
    ensures a + b + c + d == a + (b + (c + d)) && (b + (c + d))[|b|..] == c + d
  {
  }

  lemma QuotedTail(key: string, after: string)
    ensures (Quoted(key) + after)[1..] == EscapeAll(key) + "\"" + after
    ensures (Quoted(key) + after)[0] == '"'
  {
  }

  lemma LastMember(text: string, key: string, value: string, meaning: Meaning, rest: string)
    requires text == Quoted(key) + ":" + value + ("}" + rest)
    requires ReadValue(value + ("}" + rest)) == ValueRead(meaning, "}" + rest)
    ensures ReadMembers(text) == MembersRead(map[key := meaning], rest)
  {
    MemberText(key, value, "}" + rest);
    assert ("}" + rest)[1..] == rest;
  }

  lemma NextMember(text: string, key: string, value: string, meaning: Meaning, inner: string,
                   more: map<string, Meaning>, rest: string)
    requires text == Quoted(key) + ":" + value + ("," + inner)
    requires ReadValue(value + ("," + inner)) == ValueRead(meaning, "," + inner)
    requires ReadMembers(inner) == MembersRead(more, rest)
    ensures ReadMembers(text) == MembersRead(more[key := meaning], rest)
  {
    MemberText(key, value, "," + inner);
    assert ("," + inner)[1..] == inner;
  }

  lemma {:induction false} ObjectBack(v: Value, rest: string)
    requires Valid(v) && v.Obj? && Delimited(rest)
    ensures ReadValue(CanonicalText(v) + rest) == ValueRead(MeaningOf(v), rest)
    decreases v, 1
  {
    var sorted := Sort(v.members);
    SortTexts(v.members);
    SortMeanings(v.members);
    SortElements(v.members);
    if sorted == [] {
      assert |multiset(v.members)| == |v.members|;
      assert CanonicalText(v) + rest == "{}" + rest;
      assert ("{}" + rest)[2..] == rest;
    } else {
      forall i | 0 <= i < |sorted| ensures sorted[i] in v.members { SortMembership(v.members, sorted[i]); }
      MembersBack(v, sorted, rest);
      var body := JoinMembers(MemberTexts(sorted));
      assert body[0] == '"';
      OpenBrace(body, rest, MemberMeanings(sorted));
      Regroup("{", body, "}", rest);
    }
  }

  lemma OpenBrace(body: string, rest: string, members: map<string, Meaning>)
    requires body != "" && body[0] == '"' && ReadMembers(body + "}" + rest) == MembersRead(members, rest)
    ensures ReadValue("{" + (body + "}" + rest)) == ValueRead(ObjMeaning(members), rest)
  {
    var inner := body + "}" + rest;
    var text := "{" + inner;
    assert text[1..] == inner && text[1] == body[0];
  }

  // ---- the main results

  /** Reading a canonical text recovers the meaning of the value it was printed from. */
  lemma ReadsBack(v: Value)
    requires Valid(v)
    ensures ReadValue(CanonicalText(v)) == ValueRead(MeaningOf(v), "")
  {
    ValueBack(v, "");
    assert CanonicalText(v) + "" == CanonicalText(v);
  }

  /** Two values print alike exactly when they are equal up to member order and number form. */
  lemma SameTextExactly(v: Value, w: Value)
    requires Valid(v) && Valid(w)
    ensures CanonicalText(v) == CanonicalText(w) <==> MeaningOf(v) == MeaningOf(w)
  {
    ReadsBack(v);
    ReadsBack(w);
    if MeaningOf(v) == MeaningOf(w) { SameMeaningSameText(v, w); }
  }

  /** Canonicalising is idempotent: whatever value a canonical text is parsed to prints as that text. */
  lemma Idempotent(v: Value, parsed: Value)
    requires Valid(v) && Valid(parsed)
    requires ReadValue(CanonicalText(v)) == ValueRead(MeaningOf(parsed), "")
    ensures CanonicalText(parsed) == CanonicalText(v)
  {
    ReadsBack(v);
    SameTextExactly(v, parsed);
  }
}
