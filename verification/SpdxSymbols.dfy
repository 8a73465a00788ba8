/** Symbols are looked up, and keywords recognized, without regard to ASCII case and to the blanks between words. */
module SpdxSymbols {
  import opened Text
  import opened SpdxGrammar
  import opened SpdxTokenizer

  // ---- letters

  /** The same character, or one ASCII letter in both cases. */
  predicate SameLetter(a: char, b: char) {
    || a == b
    || ('A' <= a <= 'Z' && b as int == a as int + ('a' as int - 'A' as int))
    || ('A' <= b <= 'Z' && a as int == b as int + ('a' as int - 'A' as int))
  }

  predicate SameLetters(a: string, b: string) {
    |a| == |b| && forall i :: 0 <= i < |a| ==> SameLetter(a[i], b[i])
  }

  lemma LowerExactly(a: string, b: string)
    ensures AsciiLower(a) == AsciiLower(b) <==> SameLetters(a, b)
  {
    if AsciiLower(a) == AsciiLower(b) {
      forall i | 0 <= i < |a| ensures SameLetter(a[i], b[i]) {
        assert AsciiLower(a)[i] == AsciiLower(b)[i];
      }
    }
  }

  /** A word is a keyword in any case, and any other word is a symbol. */
  lemma KeywordExactly(word: string)
    ensures WordToken(word) == And <==> SameLetters(word, "and")
    ensures WordToken(word) == Or <==> SameLetters(word, "or")
    ensures WordToken(word) == With <==> SameLetters(word, "with")
    ensures WordToken(word).And? || WordToken(word).Or? || WordToken(word).With? || WordToken(word) == Symbol(word)
  {
    assert AsciiLower("and") == "and" && AsciiLower("or") == "or" && AsciiLower("with") == "with";
    LowerExactly(word, "and");
    LowerExactly(word, "or");
    LowerExactly(word, "with");
  }

  // ---- words and the blanks around them

  predicate IsWord(w: string) {
    w != "" && forall i :: 0 <= i < |w| ==> !IsWhitespace(w[i])
  }

  function Interleaved(blanks: seq<string>, words: seq<string>): (s: string)
    requires |blanks| == |words| + 1
  {
    if words == [] then blanks[0] else blanks[0] + (words[0] + Interleaved(blanks[1..], words[1..]))
  }

  /** `s` is these words, with blanks between them and perhaps around them. */
  ghost predicate Spaced(s: string, blanks: seq<string>, words: seq<string>) {
    && |blanks| == |words| + 1 && s == Interleaved(blanks, words)
    && (forall k :: 0 <= k < |words| ==> IsWord(words[k]))
    && (forall k :: 0 <= k < |blanks| ==> Blank(blanks[k]))
    && (forall k :: 0 < k < |words| ==> blanks[k] != "")
  }

  function Joined(words: seq<string>): (s: string) {
    if words == [] then "" else if |words| == 1 then words[0] else words[0] + ([' '] + Joined(words[1..]))
  }

  /** Every text is words with blanks around them. */
  lemma {:induction false} SomeSpacing(s: string) returns (blanks: seq<string>, words: seq<string>)
    ensures Spaced(s, blanks, words)
  {
    if s == "" {
      blanks, words := [""], [];
    } else {
      var later, more := SomeSpacing(s[1..]);
      assert s == [s[0]] + s[1..];
      if IsWhitespace(s[0]) {
        blanks, words := later[0 := [s[0]] + later[0]], more;
      } else if more != [] && later[0] == "" {
        blanks, words := later, more[0 := [s[0]] + more[0]];
        assert words[1..] == more[1..];
      } else {
        blanks, words := [""] + later, [[s[0]]] + more;
        assert blanks[1..] == later && words[1..] == more;
      }
      StillSpaced(s, later, more, blanks, words);
    }
  }

  lemma StillSpaced(s: string, later: seq<string>, more: seq<string>, blanks: seq<string>, words: seq<string>)
    requires s != "" && Spaced(s[1..], later, more)
    requires if IsWhitespace(s[0]) then blanks == later[0 := [s[0]] + later[0]] && words == more
             else if more != [] && later[0] == "" then blanks == later && words == more[0 := [s[0]] + more[0]]
             else blanks == [""] + later && words == [[s[0]]] + more
    ensures Spaced(s, blanks, words)
  {
    assert s == [s[0]] + s[1..];
    if IsWhitespace(s[0]) {
      assert blanks[1..] == later[1..];
    } else if more != [] && later[0] == "" {
      assert words[1..] == more[1..];
    } else {
      assert blanks[1..] == later && words[1..] == more;
    }
  }

  // ---- collapsing

  lemma {:induction false} BlanksVanish(b: string, rest: string)
    requires Blank(b)
    ensures CollapseSpaces(b + rest) == CollapseSpaces(rest)
  {
    if b == "" {
      assert b + rest == rest;
    } else {
      BlanksVanish(b[1..], rest);
      assert (b + rest)[1..] == b[1..] + rest;
      if Blank(b + rest) {
        assert forall i :: 0 <= i < |rest| ==> rest[i] == (b + rest)[|b| + i];
        BlankCollapses(rest);
      }
    }
  }

  lemma BlankCollapses(b: string)
    requires Blank(b)
    ensures CollapseSpaces(b) == ""
  {
  }

  lemma {:induction false} WordStays(w: string, rest: string)
    requires IsWord(w) && (rest == "" || IsWhitespace(rest[0]))
    ensures CollapseSpaces(w + rest) == if Blank(rest) then w else w + ([' '] + CollapseSpaces(rest))
  {
    var s := w + rest;
    assert s[1..] == w[1..] + rest;
    if |w| == 1 {
      assert s[1..] == rest;
      if Blank(rest) {
        BlankCollapses(rest);
      }
    } else {
      WordStays(w[1..], rest);
      assert w == [w[0]] + w[1..];
    }
  }

  lemma {:induction false} OnlyBlanks(blanks: seq<string>, words: seq<string>)
    requires |blanks| == |words| + 1 && Spaced(Interleaved(blanks, words), blanks, words)
    ensures Blank(Interleaved(blanks, words)) <==> words == []
  {
    if words != [] {
      var s := Interleaved(blanks, words);
      assert s[|blanks[0]|] == words[0][0];
    }
  }

  /** Collapsing leaves the words with one space between them. */
  lemma {:induction false} CollapseExactly(s: string, blanks: seq<string>, words: seq<string>)
    requires Spaced(s, blanks, words)
    ensures CollapseSpaces(s) == Joined(words)
    decreases |words|
  {
    if words == [] {
      BlankCollapses(s);
    } else {
      var rest := Interleaved(blanks[1..], words[1..]);
      BlanksVanish(blanks[0], words[0] + rest);
      RestSpaced(s, blanks, words);
      OnlyBlanks(blanks[1..], words[1..]);
      WordStays(words[0], rest);
      CollapseExactly(rest, blanks[1..], words[1..]);
    }
  }

  lemma RestSpaced(s: string, blanks: seq<string>, words: seq<string>)
    requires Spaced(s, blanks, words) && words != []
    ensures var rest := Interleaved(blanks[1..], words[1..]);
      Spaced(rest, blanks[1..], words[1..]) && (rest == "" || IsWhitespace(rest[0]))
  {
    var rest := Interleaved(blanks[1..], words[1..]);
    assert blanks[1..][0] == blanks[1];
    assert rest != "" ==> blanks[1] != "" && rest[0] == blanks[1][0];
  }

  // ---- lower case

  function Lowered(words: seq<string>): (r: seq<string>)
    ensures |r| == |words|
  {
    seq(|words|, k requires 0 <= k < |words| => AsciiLower(words[k]))
  }

  lemma LowerConcat(a: string, b: string)
    ensures AsciiLower(a + b) == AsciiLower(a) + AsciiLower(b)
  {
  }

  lemma {:induction false} LowerJoined(words: seq<string>)
    ensures AsciiLower(Joined(words)) == Joined(Lowered(words))
  {
    if |words| > 1 {
      LowerJoined(words[1..]);
      assert Lowered(words)[1..] == Lowered(words[1..]);
      LowerConcat(words[0], [' '] + Joined(words[1..]));
      LowerConcat([' '], Joined(words[1..]));
      assert AsciiLower([' ']) == [' '];
    }
  }

  predicate NoSpaces(w: string) {
    w != "" && ' ' !in w
  }

  lemma LoweredWords(words: seq<string>)
    requires forall k :: 0 <= k < |words| ==> IsWord(words[k])
    ensures forall k :: 0 <= k < |words| ==> NoSpaces(Lowered(words)[k])
  {
    assert IsWhitespace(' ');
  }

  lemma FirstWord(a: string, more: string, b: string, others: string)
    requires ' ' !in a && ' ' !in b && (more == "" || more[0] == ' ') && (others == "" || others[0] == ' ')
    requires a + more == b + others
    ensures a == b && more == others
  {
    var s := a + more;
    assert forall i :: 0 <= i < |a| ==> s[i] == a[i];
    assert forall i :: 0 <= i < |b| ==> s[i] == b[i];
    assert |a| < |s| ==> s[|a|] == more[0];
    assert |b| < |s| ==> s[|b|] == others[0];
    assert |a| == |b|;
    assert s[..|a|] == a && s[..|b|] == b && s[|a|..] == more && s[|b|..] == others;
  }

  function Behind(words: seq<string>): (s: string)
    requires words != []
  {
    if |words| == 1 then "" else [' '] + Joined(words[1..])
  }

  lemma SomethingJoined(words: seq<string>)
    requires forall k :: 0 <= k < |words| ==> NoSpaces(words[k])
    ensures Joined(words) == "" <==> words == []
  {
  }

  /** Joined words can be told apart again. */
  lemma {:induction false} JoinedInjective(words: seq<string>, others: seq<string>)
    requires forall k :: 0 <= k < |words| ==> NoSpaces(words[k])
    requires forall k :: 0 <= k < |others| ==> NoSpaces(others[k])
    requires Joined(words) == Joined(others)
    ensures words == others
  {
    SomethingJoined(words);
    SomethingJoined(others);
    if words != [] && others != [] {
      assert Joined(words) == words[0] + Behind(words) && Joined(others) == others[0] + Behind(others);
      FirstWord(words[0], Behind(words), others[0], Behind(others));
      if |words| > 1 && |others| > 1 {
        assert Joined(words[1..]) == Behind(words)[1..] == Behind(others)[1..] == Joined(others[1..]);
        JoinedInjective(words[1..], others[1..]);
      }
      assert words == [words[0]] + words[1..] && others == [others[0]] + others[1..];
    }
  }

  // ---- the symbol table

  /** Two symbols have one key exactly when their words agree, but for ASCII case. */
  lemma KeyExactly(s: string, blanks: seq<string>, words: seq<string>, t: string, gaps: seq<string>,
                   others: seq<string>)
    requires Spaced(s, blanks, words) && Spaced(t, gaps, others)
    ensures Normalize(s) == Normalize(t) <==>
            |words| == |others| && forall k :: 0 <= k < |words| ==> SameLetters(words[k], others[k])
  {
    CollapseExactly(s, blanks, words);
    CollapseExactly(t, gaps, others);
    LowerJoined(words);
    LowerJoined(others);
    LoweredWords(words);
    LoweredWords(others);
    if Normalize(s) == Normalize(t) {
      JoinedInjective(Lowered(words), Lowered(others));
      forall k | 0 <= k < |words| ensures SameLetters(words[k], others[k]) {
        assert Lowered(words)[k] == Lowered(others)[k];
        LowerExactly(words[k], others[k]);
      }
    }
    if |words| == |others| && forall k :: 0 <= k < |words| ==> SameLetters(words[k], others[k]) {
      forall k | 0 <= k < |words| ensures Lowered(words)[k] == Lowered(others)[k] {
        LowerExactly(words[k], others[k]);
      }
      assert Lowered(words) == Lowered(others);
    }
  }

  /** So the table answers alike for both. */
  lemma LookupInsensitive(table: Table, s: string, blanks: seq<string>, words: seq<string>, t: string,
                          gaps: seq<string>, others: seq<string>)
    requires Spaced(s, blanks, words) && Spaced(t, gaps, others)
    requires |words| == |others| && forall k :: 0 <= k < |words| ==> SameLetters(words[k], others[k])
    ensures table.IsLicense(s) == table.IsLicense(t) && table.IsException(s) == table.IsException(t)
  {
    KeyExactly(s, blanks, words, t, gaps, others);
  }

  // ---- joining two words

  /** The text is in one of the two lists of the table. */
  ghost predicate Listed(table: Table, symbol: string) {
    Normalize(symbol) in table.licenses || Normalize(symbol) in table.exceptions
  }

  /** Where the first two items are words, their text with what lies between them is listed. */
  ghost predicate PairListed(table: Table, text: string, items: seq<Item>, i: nat)
    requires WithinText(text, items)
  {
    && i + 1 < |items| && items[i].Word? && items[i + 1].Word? && items[i].start <= items[i + 1].end
    && Listed(table, text[items[i].start..items[i + 1].end])
  }

  /** Token by token: two items exactly where they are a listed pair, else one. */
  ghost predicate CutAs(table: Table, text: string, items: seq<Item>, spans: seq<Spanned>, cut: seq<nat>)
    requires WithinText(text, items)
  {
    && |cut| == |spans| + 1 && cut[0] == 0 && cut[|spans|] == |items|
    && forall k :: 0 <= k < |spans| ==> CutHere(table, text, items, spans[k], cut[k], cut[k + 1])
  }

  ghost predicate CutHere(table: Table, text: string, items: seq<Item>, s: Spanned, from: nat, to: nat)
    requires WithinText(text, items)
  {
    && from < to <= |items| && to == (if PairListed(table, text, items, from) then from + 2 else from + 1)
    && s.start == items[from].start && s.end == items[to - 1].end
  }

  lemma FirstCut(table: Table, text: string, items: seq<Item>) returns (used: nat)
    requires WithinText(text, items) && items != []
    ensures 0 < used <= |items| && Merge(table, text, items) != []
    ensures Merge(table, text, items)[1..] == Merge(table, text, items[used..])
    ensures CutHere(table, text, items, Merge(table, text, items)[0], 0, used)
  {
    used := if items[0].Word? && Joins(table, text, items) then 2 else 1;
  }

  function Shifted(cut: seq<nat>, used: nat): (r: seq<nat>)
    ensures |r| == |cut| && forall k :: 0 <= k < |cut| ==> r[k] == cut[k] + used
  {
    seq(|cut|, k requires 0 <= k < |cut| => cut[k] + used)
  }

  lemma CutBefore(table: Table, text: string, items: seq<Item>, used: nat, spans: seq<Spanned>, cut: seq<nat>)
    requires WithinText(text, items) && 0 < used <= |items| && spans != []
    requires CutHere(table, text, items, spans[0], 0, used)
    requires CutAs(table, text, items[used..], spans[1..], cut)
    ensures CutAs(table, text, items, spans, [0] + Shifted(cut, used))
  {
    var all := [0] + Shifted(cut, used);
    forall k | 0 <= k < |spans| ensures CutHere(table, text, items, spans[k], all[k], all[k + 1]) {
      if k > 0 {
        assert spans[k] == spans[1..][k - 1];
        CutLater(table, text, items, used, spans[k], cut[k - 1], cut[k]);
      }
    }
  }

  lemma {:induction false} MergedExactly(table: Table, text: string, items: seq<Item>) returns (cut: seq<nat>)
    requires WithinText(text, items)
    ensures CutAs(table, text, items, Merge(table, text, items), cut)
    decreases |items|
  {
    if items == [] {
      cut := [0];
    } else {
      var used := FirstCut(table, text, items);
      var later := MergedExactly(table, text, items[used..]);
      CutBefore(table, text, items, used, Merge(table, text, items), later);
      cut := [0] + Shifted(later, used);
    }
  }

  lemma CutLater(table: Table, text: string, items: seq<Item>, used: nat, s: Spanned, from: nat, to: nat)
    requires WithinText(text, items) && used <= |items| && CutHere(table, text, items[used..], s, from, to)
    ensures CutHere(table, text, items, s, from + used, to + used)
  {
    var rest := items[used..];
    assert rest[from] == items[from + used] && rest[to - 1] == items[to - 1 + used];
    if from + 1 < |rest| {
      assert rest[from + 1] == items[from + 1 + used];
    }
  }

  // ---- the unknown keys

  /** The symbol stands where a license does: not behind WITH. */
  ghost predicate LicenseAt(ts: seq<Token>, i: nat, symbol: string) {
    i < |ts| && ts[i] == Symbol(symbol) && (i == 0 || ts[i - 1] != With)
  }

  ghost predicate LicenseIn(ts: seq<Token>, symbol: string) {
    exists i: nat :: LicenseAt(ts, i, symbol)
  }

  ghost predicate Unlisted(table: Table, symbol: string) {
    && Normalize(symbol) !in table.licenses && !("LicenseRef-" <= symbol)
    && symbol != "UNLICENSED" && symbol != "NONE"
  }

  lemma LicenseBehind(a: seq<Token>, b: seq<Token>, symbol: string)
    requires b == [] || !b[0].Symbol?
    ensures LicenseIn(a + b, symbol) <==> LicenseIn(a, symbol) || LicenseIn(b, symbol)
  {
    var ts := a + b;
    if i: nat :| LicenseAt(ts, i, symbol) {
      if i < |a| {
        assert LicenseAt(a, i, symbol);
      } else {
        assert LicenseAt(b, i - |a|, symbol);
      }
    }
    if i: nat :| LicenseAt(a, i, symbol) {
      assert LicenseAt(ts, i, symbol);
    }
    if i: nat :| LicenseAt(b, i, symbol) {
      assert LicenseAt(ts, i + |a|, symbol);
    }
  }

  lemma LicenseFront(t: Token, b: seq<Token>, symbol: string)
    requires !t.Symbol? && !t.With?
    ensures LicenseIn([t] + b, symbol) <==> LicenseIn(b, symbol)
  {
    var ts := [t] + b;
    if i: nat :| LicenseAt(ts, i, symbol) {
      assert LicenseAt(b, i - 1, symbol);
    }
    if i: nat :| LicenseAt(b, i, symbol) {
      assert LicenseAt(ts, i + 1, symbol);
    }
  }

  lemma LicenseJoin(a: seq<Token>, t: Token, b: seq<Token>, symbol: string)
    requires !t.Symbol? && !t.With?
    ensures LicenseIn(a + [t] + b, symbol) <==> LicenseIn(a, symbol) || LicenseIn(b, symbol)
  {
    assert a + [t] + b == a + ([t] + b);
    LicenseBehind(a, [t] + b, symbol);
    LicenseFront(t, b, symbol);
  }

  lemma {:induction false} UnknownOfExpr(table: Table, e: Expr, symbol: string)
    ensures symbol in Unknown(table, e) <==> LicenseIn(Yield(e), symbol) && Unlisted(table, symbol)
    decreases e, 2
  {
    match e
    case Single(t) =>
      UnknownOfTerm(table, t, symbol);
    case OrElse(t, rest) =>
      UnknownOfTerm(table, t, symbol);
      UnknownOfExpr(table, rest, symbol);
      LicenseJoin(TermYield(t), Or, Yield(rest), symbol);
  }

  lemma {:induction false} UnknownOfTerm(table: Table, t: Term, symbol: string)
    ensures symbol in TermUnknown(table, t) <==> LicenseIn(TermYield(t), symbol) && Unlisted(table, symbol)
    decreases t, 1
  {
    match t
    case Alone(f) =>
      UnknownOfFactor(table, f, symbol);
    case AndAlso(f, rest) =>
      UnknownOfFactor(table, f, symbol);
      UnknownOfTerm(table, rest, symbol);
      LicenseJoin(FactorYield(f), And, TermYield(rest), symbol);
  }

  lemma {:induction false} UnknownOfFactor(table: Table, f: Factor, symbol: string)
    ensures symbol in FactorUnknown(table, f) <==> LicenseIn(FactorYield(f), symbol) && Unlisted(table, symbol)
    decreases f, 0
  {
    match f
    case Paren(e) =>
      UnknownOfExpr(table, e, symbol);
      LicenseJoin([Open] + Yield(e), Close, [], symbol);
      LicenseFront(Open, Yield(e), symbol);
      assert [Open] + Yield(e) + [Close] + [] == [Open] + Yield(e) + [Close];
      assert !LicenseIn([], symbol);
    case License(id) =>
      assert LicenseAt([Symbol(id)], 0, id);
    case LicenseWith(id, exception) =>
      assert LicenseAt([Symbol(id), With, Symbol(exception)], 0, id);
  }

  /** The unknown keys of an accepted list: the symbols in the place of a license that are neither listed nor exempt. */
  lemma UnknownExactly(table: Table, ts: seq<Token>, unknown: seq<string>, symbol: string)
    requires Derives(table, ts, unknown)
    ensures symbol in unknown <==> LicenseIn(ts, symbol) && Unlisted(table, symbol)
  {
    var e :| Valid(table, e) && Yield(e) == ts && Unknown(table, e) == unknown;
    UnknownOfExpr(table, e, symbol);
  }

  // ---- which symbols may stand where

  /** Behind WITH stands a listed exception, and elsewhere no symbol that is listed as an exception only. */
  ghost predicate InPlace(table: Table, ts: seq<Token>, i: nat) {
    i < |ts| && ts[i].Symbol? ==>
      var key := Normalize(ts[i].text);
      if i > 0 && ts[i - 1] == With then key in table.exceptions else key in table.licenses || key !in table.exceptions
  }

  ghost predicate AllInPlace(table: Table, ts: seq<Token>) {
    forall i: nat :: InPlace(table, ts, i)
  }

  lemma PlacesJoined(table: Table, a: seq<Token>, t: Token, b: seq<Token>)
    requires !t.Symbol? && !t.With?
    ensures AllInPlace(table, a + [t] + b) <==> AllInPlace(table, a) && AllInPlace(table, b)
  {
    var ts := a + [t] + b;
    if AllInPlace(table, ts) {
      forall i: nat ensures InPlace(table, a, i) && InPlace(table, b, i) {
        assert InPlace(table, ts, i) && InPlace(table, ts, i + |a| + 1);
      }
    }
    if AllInPlace(table, a) && AllInPlace(table, b) {
      forall i: nat ensures InPlace(table, ts, i) {
        assert InPlace(table, a, i);
        assert i > |a| ==> InPlace(table, b, i - |a| - 1);
      }
    }
  }

  lemma {:induction false} ValidExpr(table: Table, e: Expr)
    ensures Valid(table, e) <==> AllInPlace(table, Yield(e))
    decreases e, 2
  {
    match e
    case Single(t) =>
      ValidTerm(table, t);
    case OrElse(t, rest) =>
      ValidTerm(table, t);
      ValidExpr(table, rest);
      PlacesJoined(table, TermYield(t), Or, Yield(rest));
  }

  lemma {:induction false} ValidTerm(table: Table, t: Term)
    ensures TermValid(table, t) <==> AllInPlace(table, TermYield(t))
    decreases t, 1
  {
    match t
    case Alone(f) =>
      ValidFactor(table, f);
    case AndAlso(f, rest) =>
      ValidFactor(table, f);
      ValidTerm(table, rest);
      PlacesJoined(table, FactorYield(f), And, TermYield(rest));
  }

  lemma {:induction false} ValidFactor(table: Table, f: Factor)
    ensures FactorValid(table, f) <==> AllInPlace(table, FactorYield(f))
    decreases f, 0
  {
    match f
    case Paren(e) =>
      ValidExpr(table, e);
      PlacesJoined(table, [], Open, Yield(e));
      PlacesJoined(table, [Open] + Yield(e), Close, []);
      assert [] + [Open] + Yield(e) == [Open] + Yield(e);
      assert [Open] + Yield(e) + [Close] + [] == [Open] + Yield(e) + [Close];
    case License(id) =>
      assert InPlace(table, [Symbol(id)], 0) <==> FactorValid(table, f);
    case LicenseWith(id, exception) =>
      var ts := [Symbol(id), With, Symbol(exception)];
      assert InPlace(table, ts, 0) && InPlace(table, ts, 2) <==> FactorValid(table, f);
  }

  /** A list is accepted exactly when it has the form of an expression and each symbol is in its place. */
  lemma AcceptedExactly(table: Table, ts: seq<Token>)
    ensures (exists unknown :: Derives(table, ts, unknown)) <==> (exists e :: Yield(e) == ts) && AllInPlace(table, ts)
  {
    if unknown :| Derives(table, ts, unknown) {
      var e :| Valid(table, e) && Yield(e) == ts && Unknown(table, e) == unknown;
      ValidExpr(table, e);
    }
    if AllInPlace(table, ts) {
      if e :| Yield(e) == ts {
        ValidExpr(table, e);
        assert Derives(table, ts, Unknown(table, e));
      }
    }
  }
}
