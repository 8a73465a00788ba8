/**
  The SPDX tokenizer: a first pass that splits words and parentheses, and a second that
  merges two-word aliases and hands every placeholder its own parenthesis.
 */
module SpdxTokenizer {
  import opened Common
  import opened Text
  import opened SpdxGrammar

  predicate WordChar(c: char) {
    'a' <= c <= 'z' || 'A' <= c <= 'Z' || '0' <= c <= '9' || c == '_' || c == '.' || c == ':' || c == '-' || c == '+'
  }

  predicate ParenChar(c: char) {
    c == '(' || c == ')'
  }

  predicate Legal(c: char) {
    WordChar(c) || ParenChar(c) || IsWhitespace(c)
  }

  ghost predicate FirstIllegal(text: string, c: char) {
    exists j :: 0 <= j < |text| && !Legal(text[j]) && c == text[j] && forall i :: 0 <= i < j ==> Legal(text[i])
  }

  ghost predicate AllLegal(text: string) {
    forall j :: 0 <= j < |text| ==> Legal(text[j])
  }

  function ParenToken(c: char): (r: Token) {
    if c == '(' then Open else Close
  }

  /** `word_token`: keywords are matched without regard to ASCII case. */
  function WordToken(word: string): (r: Token) {
    if AsciiLower(word) == "and" then And
    else if AsciiLower(word) == "or" then Or
    else if AsciiLower(word) == "with" then With
    else Symbol(word)
  }

  // ---- reference: maximal words and single parentheses, left to right

  datatype Item = Word(start: nat, end: nat) | Bracket(start: nat, end: nat)

  function WordEnd(text: string, i: nat): (e: nat)
    requires i <= |text|
    ensures i <= e <= |text|
    ensures forall j :: i <= j < e ==> WordChar(text[j])
    ensures e < |text| ==> !WordChar(text[e])
    decreases |text| - i
  {
    if i < |text| && WordChar(text[i]) then WordEnd(text, i + 1) else i
  }

  function Items(text: string, i: nat): (r: seq<Item>)
    requires i <= |text|
    decreases |text| - i
  {
    if i == |text| then []
    else if WordChar(text[i]) then [Word(i, WordEnd(text, i + 1))] + Items(text, WordEnd(text, i + 1))
    else if ParenChar(text[i]) then [Bracket(i, i + 1)] + Items(text, i + 1)
    else Items(text, i + 1)
  }

  predicate WithinText(text: string, items: seq<Item>) {
    forall k :: 0 <= k < |items| ==> items[k].start < items[k].end <= |text|
  }

  datatype Spanned = Spanned(token: Token, start: nat, end: nat)

  function Joins(table: Table, text: string, items: seq<Item>): (r: bool)
    requires WithinText(text, items)
  {
    |items| > 1 && items[0].Word? && items[1].Word? && items[0].start <= items[1].end
    && table.IsKnown(text[items[0].start..items[1].end])
  }

  /** Words become tokens; two neighbouring words whose joined text is known become one. */
  function Merge(table: Table, text: string, items: seq<Item>): (r: seq<Spanned>)
    requires WithinText(text, items)
  {
    if items == [] then []
    else if items[0].Bracket? then
      [Spanned(ParenToken(text[items[0].start]), items[0].start, items[0].end)] + Merge(table, text, items[1..])
    else if Joins(table, text, items) then
      [Spanned(WordToken(text[items[0].start..items[1].end]), items[0].start, items[1].end)]
      + Merge(table, text, items[2..])
    else
      [Spanned(WordToken(text[items[0].start..items[0].end]), items[0].start, items[0].end)]
      + Merge(table, text, items[1..])
  }

  function TokensOf(spans: seq<Spanned>): (r: seq<Token>)
    ensures |r| == |spans|
  {
    seq(|spans|, k requires 0 <= k < |spans| => spans[k].token)
  }

  // ---- the reference covers the text

  /** Items from `from` on: in order, apart, and over every non-blank character. */
  ghost predicate Splits(text: string, items: seq<Item>, from: nat) {
    && WithinText(text, items)
    && (forall k :: 0 <= k < |items| ==> from <= items[k].start && ItemAt(text, items[k]))
    && (forall k, m :: 0 <= k < m < |items| ==> items[k].end <= items[m].start)
    && (forall j :: from <= j < |text| && !IsWhitespace(text[j]) ==>
          exists k :: 0 <= k < |items| && items[k].start <= j < items[k].end)
  }

  /** A word that does not go on, or one parenthesis. */
  ghost predicate ItemAt(text: string, item: Item) {
    item.start < item.end <= |text| &&
    if item.Word? then (forall j :: item.start <= j < item.end ==> WordChar(text[j])) && !WordAt(text, item.end)
    else item.end == item.start + 1 && ParenChar(text[item.start])
  }

  predicate WordAt(text: string, i: nat) {
    i < |text| && WordChar(text[i])
  }

  lemma {:induction false} ItemsSplit(text: string, i: nat)
    requires i <= |text| && AllLegal(text)
    ensures Splits(text, Items(text, i), i)
    decreases |text| - i
  {
    if i < |text| {
      if WordChar(text[i]) {
        var e := WordEnd(text, i + 1);
        ItemsSplit(text, e);
        SplitsCons(text, Word(i, e), Items(text, e), i);
      } else if ParenChar(text[i]) {
        ItemsSplit(text, i + 1);
        SplitsCons(text, Bracket(i, i + 1), Items(text, i + 1), i);
      } else {
        ItemsSplit(text, i + 1);
        SplitsSkip(text, Items(text, i + 1), i);
      }
    }
  }

  lemma SplitsSkip(text: string, items: seq<Item>, from: nat)
    requires from < |text| && IsWhitespace(text[from]) && Splits(text, items, from + 1)
    ensures Splits(text, items, from)
  {
  }

  lemma SplitsCons(text: string, item: Item, items: seq<Item>, from: nat)
    requires item.start == from && ItemAt(text, item) && Splits(text, items, item.end)
    ensures Splits(text, [item] + items, from)
  {
    var all := [item] + items;
    forall j | from <= j < |text| && !IsWhitespace(text[j])
      ensures exists k :: 0 <= k < |all| && all[k].start <= j < all[k].end
    {
      if j < item.end {
        assert all[0] == item;
      } else {
        var k :| 0 <= k < |items| && items[k].start <= j < items[k].end;
        assert all[k + 1] == items[k];
      }
    }
  }

  lemma WordNotParen(c: char)
    requires WordChar(c)
    ensures !ParenChar(c) && !IsWhitespace(c)
  {
  }

  /** The item that starts at a character is told by that character. */
  lemma ItemIs(text: string, item: Item)
    requires ItemAt(text, item)
    ensures item == if WordChar(text[item.start]) then Word(item.start, WordEnd(text, item.start + 1))
                    else Bracket(item.start, item.start + 1)
    ensures WordChar(text[item.start]) || ParenChar(text[item.start])
  {
    if item.Word? {
      WordEndUnique(text, item.start + 1, item.end);
    } else if WordChar(text[item.start]) {
      WordNotParen(text[item.start]);
    }
  }

  /** Where one item ends and a word starts, no word character stands before the word. */
  lemma NoWordBefore(text: string, item: Item, word: Item)
    requires ItemAt(text, item) && ItemAt(text, word) && word.Word? && item.end == word.start
    ensures !WordAt(text, word.start - 1)
  {
    ItemIs(text, item);
    assert WordAt(text, word.start);
    if WordAt(text, item.start) {
      WordNotParen(text[item.start]);
    }
  }

  /** The item over the character before another item ends where that one starts. */
  lemma ItemBefore(text: string, items: seq<Item>, from: nat, k: nat) returns (m: nat)
    requires Splits(text, items, from) && k < |items| && from < items[k].start
    requires !IsWhitespace(text[items[k].start - 1])
    ensures m < |items| && items[m].end == items[k].start && ItemAt(text, items[m])
  {
    var i := items[k].start - 1;
    var j :| 0 <= j < |items| && items[j].start <= i < items[j].end;
    m := j;
  }

  /** A word of a split could not be longer on either side. */
  lemma WordsMaximal(text: string, items: seq<Item>, from: nat, k: nat)
    requires Splits(text, items, from) && k < |items| && items[k].Word?
    ensures !WordAt(text, items[k].end) && (items[k].start > from ==> !WordAt(text, items[k].start - 1))
  {
    var i := items[k].start;
    assert ItemAt(text, items[k]);
    if i > from && WordAt(text, i - 1) {
      WordNotParen(text[i - 1]);
      var m := ItemBefore(text, items, from, k);
      NoWordBefore(text, items[m], items[k]);
    }
  }

  /** A split from a character that is not blank starts with an item there. */
  lemma FirstItem(text: string, items: seq<Item>, from: nat)
    requires Splits(text, items, from) && from < |text| && !IsWhitespace(text[from])
    ensures items != [] && items[0].start == from && ItemAt(text, items[0])
  {
    var k :| 0 <= k < |items| && items[k].start <= from < items[k].end;
  }

  lemma SplitsOn(text: string, items: seq<Item>, from: nat)
    requires Splits(text, items, from) && from < |text| && IsWhitespace(text[from])
    ensures Splits(text, items, from + 1)
  {
    forall k | 0 <= k < |items| ensures from < items[k].start {
      ItemIs(text, items[k]);
      if WordChar(text[items[k].start]) {
        WordNotParen(text[items[k].start]);
      }
    }
  }

  lemma ItemsFrom(text: string, item: Item)
    requires ItemAt(text, item)
    ensures Items(text, item.start) == [item] + Items(text, item.end)
  {
    ItemIs(text, item);
  }

  lemma ItemsSkip(text: string, i: nat)
    requires i < |text| && IsWhitespace(text[i])
    ensures Items(text, i) == Items(text, i + 1)
  {
    if WordChar(text[i]) {
      WordNotParen(text[i]);
    }
  }

  lemma StartsInside(text: string, items: seq<Item>, from: nat)
    requires Splits(text, items, from) && items != []
    ensures from < |text|
  {
    assert ItemAt(text, items[0]);
  }

  /** The text has one split, and the reference finds it. */
  lemma {:induction false} SplitsUnique(text: string, items: seq<Item>, i: nat)
    requires i <= |text| && Splits(text, items, i)
    ensures items == Items(text, i)
    decreases |text| - i
  {
    if items != [] {
      StartsInside(text, items, i);
    }
    if i < |text| && IsWhitespace(text[i]) {
      SplitsOn(text, items, i);
      ItemsSkip(text, i);
      SplitsUnique(text, items, i + 1);
    } else if i < |text| {
      FirstItem(text, items, i);
      SplitsTail(text, items, 1, i);
      ItemsFrom(text, items[0]);
      SplitsUnique(text, items[1..], items[0].end);
    }
  }

  /** The token a span of text stands for. */
  ghost predicate Reads(text: string, s: Spanned) {
    s.start < s.end <= |text| &&
    if ParenChar(text[s.start]) then s.end == s.start + 1 && s.token == ParenToken(text[s.start])
    else s.token == WordToken(text[s.start..s.end])
         && forall j :: s.start <= j < s.end ==> WordChar(text[j]) || IsWhitespace(text[j])
  }

  /**
    Spans from `from` on: in order and apart, over every non-blank character, each
    reading as its token.  So a non-blank character lies in exactly one token.
   */
  ghost predicate Tokenizes(text: string, spans: seq<Spanned>, from: nat) {
    && (forall k :: 0 <= k < |spans| ==> from <= spans[k].start && Reads(text, spans[k]))
    && (forall k, m :: 0 <= k < m < |spans| ==> spans[k].end <= spans[m].start)
    && (forall j :: from <= j < |text| && !IsWhitespace(text[j]) ==>
          exists k :: 0 <= k < |spans| && spans[k].start <= j < spans[k].end)
  }

  lemma {:induction false} MergeTokenizes(table: Table, text: string, items: seq<Item>, from: nat)
    requires Splits(text, items, from) && from <= |text|
    ensures Tokenizes(text, Merge(table, text, items), from)
    decreases |items|
  {
    if items != [] {
      var used := if items[0].Word? && Joins(table, text, items) then 2 else 1;
      var last := items[used - 1].end;
      var rest := items[used..];
      SplitsTail(text, items, used, from);
      MergeTokenizes(table, text, rest, last);
      var head := Merge(table, text, items)[0];
      MergedReads(table, text, items, from, used);
      TokenizesCons(text, head, Merge(table, text, rest), from);
    }
  }

  lemma SplitsTail(text: string, items: seq<Item>, used: nat, from: nat)
    requires Splits(text, items, from) && 0 < used <= |items|
    ensures Splits(text, items[used..], items[used - 1].end)
  {
    var rest := items[used..];
    forall j | items[used - 1].end <= j < |text| && !IsWhitespace(text[j])
      ensures exists k :: 0 <= k < |rest| && rest[k].start <= j < rest[k].end
    {
      var k :| 0 <= k < |items| && items[k].start <= j < items[k].end;
      assert k >= used;
      assert rest[k - used] == items[k];
    }
  }

  lemma MergedReads(table: Table, text: string, items: seq<Item>, from: nat, used: nat)
    requires Splits(text, items, from) && items != []
    requires used == if items[0].Word? && Joins(table, text, items) then 2 else 1
    ensures Merge(table, text, items)[0].start == items[0].start
    ensures Merge(table, text, items)[0].end == items[used - 1].end
    ensures Reads(text, Merge(table, text, items)[0])
    ensures forall j :: from <= j < items[0].start ==> IsWhitespace(text[j])
  {
    assert ItemAt(text, items[0]);
    if used == 2 {
      assert ItemAt(text, items[1]);
      forall j | items[0].end <= j < items[1].start ensures IsWhitespace(text[j]) {
        forall k | 0 <= k < |items| ensures !(items[k].start <= j < items[k].end) {
          if k > 1 { assert items[1].end <= items[k].start; }
        }
      }
    }
    forall j | from <= j < items[0].start ensures IsWhitespace(text[j]) {
      forall k | 0 <= k < |items| ensures !(items[k].start <= j < items[k].end) {
        if k > 0 { assert items[0].end <= items[k].start; }
      }
    }
  }

  lemma TokenizesCons(text: string, head: Spanned, spans: seq<Spanned>, from: nat)
    requires from <= head.start && Reads(text, head) && Tokenizes(text, spans, head.end)
    requires forall j :: from <= j < head.start ==> IsWhitespace(text[j])
    ensures Tokenizes(text, [head] + spans, from)
  {
    var all := [head] + spans;
    forall j | from <= j < |text| && !IsWhitespace(text[j])
      ensures exists k :: 0 <= k < |all| && all[k].start <= j < all[k].end
    {
      if j < head.end {
        assert all[0] == head;
      } else {
        var k :| 0 <= k < |spans| && spans[k].start <= j < spans[k].end;
        assert all[k + 1] == spans[k];
      }
    }
  }

  // ---- the passes

  /** A word's span, or a placeholder for a parenthesis. */
  function Slots(items: seq<Item>): (r: seq<Option<(nat, nat)>>)
    ensures |r| == |items|
  {
    seq(|items|, k requires 0 <= k < |items| => if items[k].Word? then Some((items[k].start, items[k].end)) else None)
  }

  function Parens(text: string, items: seq<Item>): (r: seq<Token>)
    requires WithinText(text, items)
  {
    if items == [] then []
    else (if items[0].Bracket? then [ParenToken(text[items[0].start])] else []) + Parens(text, items[1..])
  }

  lemma {:induction false} ParensAppend(text: string, items: seq<Item>, item: Item)
    requires WithinText(text, items) && item.start < item.end <= |text|
    ensures Parens(text, items + [item]) ==
            Parens(text, items) + if item.Bracket? then [ParenToken(text[item.start])] else []
  {
    if items == [] {
      assert items + [item] == [item];
    } else {
      ParensAppend(text, items[1..], item);
      assert (items + [item])[1..] == items[1..] + [item];
    }
  }

  lemma SlotsAppend(items: seq<Item>, item: Item)
    ensures Slots(items + [item]) == Slots(items) + [if item.Word? then Some((item.start, item.end)) else None]
  {
  }

  lemma {:induction false} WordEndUnique(text: string, i: nat, e: nat)
    requires i <= e <= |text| && (forall j :: i <= j < e ==> WordChar(text[j])) && (e < |text| ==> !WordChar(text[e]))
    ensures WordEnd(text, i) == e
    decreases e - i
  {
    if i < e { WordEndUnique(text, i + 1, e); }
  }

  /** The first pass, up to the place where the next item starts. */
  ghost predicate SplitSoFar(text: string, items: seq<Item>, next: nat, lexemes: seq<Option<(nat, nat)>>,
                             parens: seq<Token>) {
    && next <= |text| && WithinText(text, items)
    && Items(text, 0) == items + Items(text, next)
    && lexemes == Slots(items) && parens == Parens(text, items)
  }

  lemma SplitStep(text: string, items: seq<Item>, next: nat, item: Item, lexemes: seq<Option<(nat, nat)>>,
                  parens: seq<Token>)
    requires SplitSoFar(text, items, next, lexemes, parens)
    requires next < item.end <= |text| && item.start == next && Items(text, next) == [item] + Items(text, item.end)
    ensures SplitSoFar(text, items + [item], item.end,
              lexemes + [if item.Word? then Some((item.start, item.end)) else None],
              parens + if item.Bracket? then [ParenToken(text[item.start])] else [])
  {
    SlotsAppend(items, item);
    ParensAppend(text, items, item);
    assert items + ([item] + Items(text, item.end)) == (items + [item]) + Items(text, item.end);
  }

  /** A word that ends at `i`. */
  lemma WordStep(text: string, items: seq<Item>, w: nat, i: nat, lexemes: seq<Option<(nat, nat)>>, parens: seq<Token>)
    requires SplitSoFar(text, items, w, lexemes, parens) && w < i <= |text|
    requires (forall j :: w <= j < i ==> WordChar(text[j])) && (i < |text| ==> !WordChar(text[i]))
    ensures SplitSoFar(text, items + [Word(w, i)], i, lexemes + [Some((w, i))], parens)
  {
    WordEndUnique(text, w + 1, i);
    SplitStep(text, items, w, Word(w, i), lexemes, parens);
    assert parens + [] == parens;
  }

  lemma BracketStep(text: string, items: seq<Item>, i: nat, lexemes: seq<Option<(nat, nat)>>, parens: seq<Token>)
    requires SplitSoFar(text, items, i, lexemes, parens) && i < |text| && ParenChar(text[i])
    ensures SplitSoFar(text, items + [Bracket(i, i + 1)], i + 1, lexemes + [None], parens + [ParenToken(text[i])])
  {
    SplitStep(text, items, i, Bracket(i, i + 1), lexemes, parens);
  }

  lemma BlankStep(text: string, items: seq<Item>, i: nat, lexemes: seq<Option<(nat, nat)>>, parens: seq<Token>)
    requires SplitSoFar(text, items, i, lexemes, parens) && i < |text| && IsWhitespace(text[i])
    ensures SplitSoFar(text, items, i + 1, lexemes, parens)
  {
  }

  method SplitWords(text: string) returns (r: Result<(seq<Option<(nat, nat)>>, seq<Token>), Reason>)
    ensures r.Ok? <==> AllLegal(text)
    ensures r.Ok? ==> WithinText(text, Items(text, 0))
                      && r.value.0 == Slots(Items(text, 0)) && r.value.1 == Parens(text, Items(text, 0))
    ensures r.Err? ==> r.error.InvalidCharacter? && FirstIllegal(text, r.error.c)
  {
    var lexemes: seq<Option<(nat, nat)>>, parens: seq<Token>, start: Option<nat> := [], [], None;
    ghost var items: seq<Item> := [];
    for i := 0 to |text|
      invariant forall j :: 0 <= j < i ==> Legal(text[j])
      invariant start.Some? ==> start.value < i && forall j :: start.value <= j < i ==> WordChar(text[j])
      invariant SplitSoFar(text, items, if start.Some? then start.value else i, lexemes, parens)
    {
      var c := text[i];
      if WordChar(c) {
        if start.None? {
          start := Some(i);
        }
      } else {
        if start.Some? {
          WordStep(text, items, start.value, i, lexemes, parens);
          items := items + [Word(start.value, i)];
          lexemes := lexemes + [Some((start.value, i))];
          start := None;
        }
        if ParenChar(c) {
          BracketStep(text, items, i, lexemes, parens);
          items := items + [Bracket(i, i + 1)];
          lexemes := lexemes + [None];
          parens := parens + [ParenToken(c)];
        } else if !IsWhitespace(c) {
          return Err(InvalidCharacter(c));
        } else {
          BlankStep(text, items, i, lexemes, parens);
        }
      }
    }
    if start.Some? {
      WordStep(text, items, start.value, |text|, lexemes, parens);
      items := items + [Word(start.value, |text|)];
      lexemes := lexemes + [Some((start.value, |text|))];
    }
    assert items == Items(text, 0);
    return Ok((lexemes, parens));
  }

  /** The items still to merge, as the second pass sees them. */
  ghost predicate MergeLeft(table: Table, text: string, items: seq<Item>, index: nat, tokens: seq<Token>,
                            parens: seq<Token>)
    requires WithinText(text, items)
  {
    && index <= |items|
    && parens == Parens(text, items[index..])
    && TokensOf(Merge(table, text, items)) == tokens + TokensOf(Merge(table, text, items[index..]))
  }

  lemma TokensOfCons(tokens: seq<Token>, head: Spanned, rest: seq<Spanned>)
    ensures tokens + TokensOf([head] + rest) == (tokens + [head.token]) + TokensOf(rest)
  {
    assert TokensOf([head] + rest) == [head.token] + TokensOf(rest);
  }

  lemma MergeBracket(table: Table, text: string, items: seq<Item>, index: nat, tokens: seq<Token>, parens: seq<Token>)
    requires WithinText(text, items) && MergeLeft(table, text, items, index, tokens, parens)
    requires index < |items| && items[index].Bracket?
    ensures parens != [] && MergeLeft(table, text, items, index + 1, tokens + [parens[0]], parens[1..])
  {
    var left := items[index..];
    assert items[index + 1..] == left[1..];
    ParensStep(text, left);
    TokensOfCons(tokens, Merge(table, text, left)[0], Merge(table, text, left[1..]));
  }

  lemma MergeSingle(table: Table, text: string, items: seq<Item>, index: nat, tokens: seq<Token>, parens: seq<Token>)
    requires WithinText(text, items) && MergeLeft(table, text, items, index, tokens, parens)
    requires index < |items| && items[index].Word?
    requires !Joins(table, text, items[index..])
    ensures MergeLeft(table, text, items, index + 1, tokens + [WordToken(text[items[index].start..items[index].end])],
                      parens)
  {
    var left := items[index..];
    assert items[index + 1..] == left[1..];
    ParensStep(text, left);
    TokensOfCons(tokens, Merge(table, text, left)[0], Merge(table, text, left[1..]));
  }

  lemma MergeJoined(table: Table, text: string, items: seq<Item>, index: nat, tokens: seq<Token>, parens: seq<Token>)
    requires WithinText(text, items) && MergeLeft(table, text, items, index, tokens, parens) && index + 1 < |items|
    requires Joins(table, text, items[index..])
    ensures MergeLeft(table, text, items, index + 2,
                      tokens + [WordToken(text[items[index].start..items[index + 1].end])], parens)
  {
    var left := items[index..];
    assert items[index + 2..] == left[2..] && left[1..][1..] == left[2..];
    ParensStep(text, left);
    ParensStep(text, left[1..]);
    TokensOfCons(tokens, Merge(table, text, left)[0], Merge(table, text, left[2..]));
  }

  lemma ParensStep(text: string, items: seq<Item>)
    requires WithinText(text, items) && items != []
    ensures items[0].Word? ==> Parens(text, items) == Parens(text, items[1..])
    ensures items[0].Bracket? ==> Parens(text, items) == [ParenToken(text[items[0].start])] + Parens(text, items[1..])
  {
  }

  /**
    Tokenizing succeeds exactly on legal characters and yields the merged items: every
    non-blank character lies in exactly one token and tokens follow the source order.
   */
  method Tokenize(table: Table, text: string) returns (r: Result<seq<Token>, Reason>)
    ensures r.Ok? <==> AllLegal(text)
    ensures r.Ok? ==> Splits(text, Items(text, 0), 0)
                      && r.value == TokensOf(Merge(table, text, Items(text, 0)))
                      && Tokenizes(text, Merge(table, text, Items(text, 0)), 0)
    ensures r.Err? ==> r.error.InvalidCharacter? && FirstIllegal(text, r.error.c)
  {
    var split := SplitWords(text);
    if split.Err? {
      return Err(split.error);
    }
    var lexemes, parens := split.value.0, split.value.1;
    ghost var items := Items(text, 0);
    ItemsSplit(text, 0);
    MergeTokenizes(table, text, items, 0);
    var tokens := MergeWords(table, text, lexemes, parens, items);
    return Ok(tokens);
  }

  /** The second pass over the lexemes of `items`. */
  method MergeWords(table: Table, text: string, lexemes: seq<Option<(nat, nat)>>, queue: seq<Token>,
                    ghost items: seq<Item>) returns (tokens: seq<Token>)
    requires Splits(text, items, 0) && lexemes == Slots(items) && queue == Parens(text, items)
    ensures tokens == TokensOf(Merge(table, text, items))
  {
    tokens := [];
    var index, parens := 0, queue;
    assert items[0..] == items;
    while index < |lexemes|
      invariant MergeLeft(table, text, items, index, tokens, parens)
      decreases |lexemes| - index
    {
      var lexeme := lexemes[index];
      if lexeme.None? {
        MergeBracket(table, text, items, index, tokens, parens);
        index, tokens, parens := index + 1, tokens + [parens[0]], parens[1..];
      } else {
        var start := lexeme.value.0;
        if index + 1 < |lexemes| && lexemes[index + 1].Some? && table.IsKnown(text[start..lexemes[index + 1].value.1]) {
          MergeJoined(table, text, items, index, tokens, parens);
          index, tokens := index + 2, tokens + [WordToken(text[start..lexemes[index + 1].value.1])];
        } else {
          MergeSingle(table, text, items, index, tokens, parens);
          index, tokens := index + 1, tokens + [WordToken(text[start..lexeme.value.1])];
        }
      }
    }
  }
}
