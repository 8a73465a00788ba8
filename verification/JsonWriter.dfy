/**
  The canonical JSON writer as it runs: text pushed onto a buffer, array items and sorted
  members one after the other, failing on the first unsafe number.
 */
module JsonWriter {
  import opened Common
  import opened JsonNumbers
  import opened JsonStrings
  import opened CanonicalJson
  import opened JsonRoundTrip

  /** What is still to be written of an array from item `i` on. */
  ghost function ItemsLeft(items: seq<Value>, i: nat): (r: string)
    requires i <= |items| && forall k :: 0 <= k < |items| ==> Valid(items[k])
  {
    if i == |items| then "" else (if i == 0 then "" else ",") + ItemsText(items[i..])
  }

  lemma ItemsLeftStep(items: seq<Value>, i: nat)
    requires i < |items| && forall k :: 0 <= k < |items| ==> Valid(items[k])
    ensures ItemsLeft(items, i) == (if i == 0 then "" else ",") + CanonicalText(items[i]) + ItemsLeft(items, i + 1)
  {
    var left := items[i..];
    assert left[0] == items[i] && left[1..] == items[i + 1..];
    Comma(if i == 0 then "" else ",", CanonicalText(items[i]), ItemsText(items[i + 1..]));
  }

  lemma Comma(comma: string, first: string, more: string)
    ensures comma + (first + "," + more) == comma + first + ("," + more)
    ensures comma + first == comma + first + ""
  {
  }

  ghost function MembersLeft(texts: seq<Entry<string>>, i: nat): (r: string)
    requires i <= |texts|
  {
    if i == |texts| then "" else (if i == 0 then "" else ",") + JoinMembers(texts[i..])
  }

  lemma MembersLeftStep(texts: seq<Entry<string>>, i: nat)
    requires i < |texts|
    ensures MembersLeft(texts, i)
            == (if i == 0 then "" else ",") + (Quoted(texts[i].key) + ":" + texts[i].value) + MembersLeft(texts, i + 1)
  {
    var left := texts[i..];
    assert left[0] == texts[i] && left[1..] == texts[i + 1..];
    Comma(if i == 0 then "" else ",", Quoted(texts[i].key) + ":" + texts[i].value, JoinMembers(texts[i + 1..]));
  }

  lemma PushItem(out: string, comma: string, item: string, left: string, more: string, whole: string)
    requires out + left == whole && left == comma + item + more
    ensures (out + comma + item) + more == whole
  {
  }

  /**
    `write_value`: the canonical text is appended exactly when every number is safe.
   */
  method WriteValue(start: string, v: Value) returns (r: Option<string>)
    requires Valid(v)
    ensures r == if AllSafe(v) then Some(start + CanonicalText(v)) else None
    decreases v, 1
  {
    match v
    case Null => return Some(start + "null");
    case Bool(flag) => return Some(start + if flag then "true" else "false");
    case Num(x) => r := WriteNumber(start, x);
    case Str(text) =>
      var out := WriteString(start, text);
      return Some(out);
    case Arr(items) => r := WriteArray(start, v);
    case Obj(members) => r := WriteObject(start, v);
  }

  method WriteArray(start: string, v: Value) returns (r: Option<string>)
    requires Valid(v) && v.Arr?
    ensures r == if AllSafe(v) then Some(start + CanonicalText(v)) else None
    decreases v, 0, 1
  {
    var items := v.items;
    var out := start + "[";
    ghost var whole := start + "[" + ItemsText(items);
    assert items[0..] == items && out + ItemsLeft(items, 0) == whole;
    for i := 0 to |items|
      invariant out + ItemsLeft(items, i) == whole
      invariant forall k :: 0 <= k < i ==> AllSafe(items[k])
    {
      ItemsLeftStep(items, i);
      PushItem(out, if i == 0 then "" else ",", CanonicalText(items[i]), ItemsLeft(items, i), ItemsLeft(items, i + 1),
               whole);
      var comma := if i > 0 then "," else "";
      var written := WriteValue(out + comma, items[i]);
      if written.None? {
        return None;
      }
      out := written.value;
    }
    assert out + "" == out;
    Bracketed(start, "[", ItemsText(items), "]");
    return Some(out + "]");
  }

  lemma Bracketed(start: string, a: string, b: string, c: string)
    ensures (start + a + b) + c == start + (a + b + c)
  {
  }

  method WriteMember(start: string, e: Entry<Value>) returns (r: Option<string>)
    requires Valid(e.value)
    ensures r == if AllSafe(e.value) then Some(start + (Quoted(e.key) + ":" + CanonicalText(e.value))) else None
    decreases e.value, 2
  {
    var named := WriteString(start, e.key);
    MemberPushed(start, e.key, CanonicalText(e.value));
    r := WriteValue(named + ":", e.value);
  }

  predicate EntriesSafe(entries: seq<Entry<Value>>) {
    forall k :: 0 <= k < |entries| ==> AllSafe(entries[k].value)
  }

  lemma SafeStep(entries: seq<Entry<Value>>, i: nat)
    requires i < |entries|
    ensures EntriesSafe(entries[..i + 1]) <==> EntriesSafe(entries[..i]) && AllSafe(entries[i].value)
    ensures !AllSafe(entries[i].value) ==> !EntriesSafe(entries)
  {
    assert entries[..i + 1] == entries[..i] + [entries[i]];
  }

  /** The members in the order given, with commas between them. */
  method WriteMembers(start: string, ghost v: Value, entries: seq<Entry<Value>>) returns (r: Option<string>)
    requires v.Obj? && forall k :: 0 <= k < |entries| ==> entries[k] in v.members && Valid(entries[k].value)
    ensures r == if EntriesSafe(entries) then Some(start + JoinMembers(MemberTexts(entries))) else None
    decreases v, 0, 0
  {
    ghost var texts := MemberTexts(entries);
    var out := start;
    ghost var whole := start + JoinMembers(texts);
    assert texts[0..] == texts && out + MembersLeft(texts, 0) == whole;
    for i := 0 to |entries|
      invariant out + MembersLeft(texts, i) == whole
      invariant EntriesSafe(entries[..i])
    {
      assert entries[i] in v.members;
      MembersLeftStep(texts, i);
      PushItem(out, if i == 0 then "" else ",", Quoted(texts[i].key) + ":" + texts[i].value, MembersLeft(texts, i),
               MembersLeft(texts, i + 1), whole);
      var comma := if i > 0 then "," else "";
      var written := WriteMember(out + comma, entries[i]);
      SafeStep(entries, i);
      if written.None? {
        return None;
      }
      out := written.value;
    }
    assert out + "" == out && entries[..|entries|] == entries;
    return Some(out);
  }

  method WriteObject(start: string, v: Value) returns (r: Option<string>)
    requires Valid(v) && v.Obj?
    ensures r == if AllSafe(v) then Some(start + CanonicalText(v)) else None
    decreases v, 0, 1
  {
    var entries := Sort(v.members);
    SortTexts(v.members);
    SortKeepsMembers(v.members);
    SafeInAnyOrder(v.members, entries);
    var written := WriteMembers(start + "{", v, entries);
    if written.None? {
      return None;
    }
    Bracketed(start, "{", JoinMembers(MemberTexts(entries)), "}");
    return Some(written.value + "}");
  }

  lemma SafeInAnyOrder(a: seq<Entry<Value>>, b: seq<Entry<Value>>)
    requires (forall i :: 0 <= i < |a| ==> a[i] in b) && (forall i :: 0 <= i < |b| ==> b[i] in a)
    ensures EntriesSafe(a) <==> EntriesSafe(b)
  {
    if EntriesSafe(a) {
      forall i | 0 <= i < |b| ensures AllSafe(b[i].value) { assert b[i] in a; }
    }
    if EntriesSafe(b) {
      forall i | 0 <= i < |a| ensures AllSafe(a[i].value) { assert a[i] in b; }
    }
  }

  lemma MemberPushed(out: string, key: string, value: string)
    ensures (out + Quoted(key) + ":") + value == out + (Quoted(key) + ":" + value)
  {
  }

  lemma SortKeepsMembers(members: seq<Entry<Value>>)
    ensures |Sort(members)| == |members|
    ensures forall i :: 0 <= i < |Sort(members)| ==> Sort(members)[i] in members
    ensures forall i :: 0 <= i < |members| ==> members[i] in Sort(members)
  {
    SortElements(members);
    assert |multiset(Sort(members))| == |Sort(members)| && |multiset(members)| == |members|;
    forall i | 0 <= i < |Sort(members)|
      ensures Sort(members)[i] in members
    {
      SortMembership(members, Sort(members)[i]);
    }
    forall i | 0 <= i < |members| ensures members[i] in Sort(members) { SortMembership(members, members[i]); }
  }

  /** `visit_map`: members become a map exactly when no name repeats. */
  method VisitMap(entries: seq<Entry<Value>>) returns (r: Option<map<string, Value>>)
    ensures r.Some? <==> DistinctKeys(entries)
    ensures r.Some? ==> r.value.Keys == KeySet(entries) && forall i :: 0 <= i < |entries| ==>
              r.value[entries[i].key] == entries[i].value
  {
    var members: map<string, Value> := map[];
    for i := 0 to |entries|
      invariant DistinctKeys(entries[..i])
      invariant forall k :: k in members <==> exists j :: 0 <= j < i && entries[j].key == k
      invariant forall j :: 0 <= j < i ==> members[entries[j].key] == entries[j].value
    {
      if entries[i].key in members {
        return None;
      }
      members := members[entries[i].key := entries[i].value];
    }
    assert entries[..|entries|] == entries;
    return Some(members);
  }
}
