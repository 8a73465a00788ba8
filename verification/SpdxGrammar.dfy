/**
  SPDX license expressions: the symbol table, the token grammar, and a parser over token
  lists that accepts exactly what the grammar derives.
 */
module SpdxGrammar {
  import opened Text

  datatype Token = Open | Close | And | Or | With | Symbol(text: string)

  // ---- the symbol table

  /** `split_whitespace`, joined by single spaces. */
  function CollapseSpaces(s: string): (r: string)
    decreases |s|
  {
    if s == [] then ""
    else if IsWhitespace(s[0]) then
      (if Blank(s) then "" else CollapseSpaces(s[1..]))
    else if |s| > 1 && IsWhitespace(s[1]) && !Blank(s[1..]) then [s[0], ' '] + CollapseSpaces(s[1..])
    else [s[0]] + CollapseSpaces(s[1..])
  }

  function AsciiLower(s: string): (r: string)
    ensures |r| == |s|
  {
    seq(|s|, i requires 0 <= i < |s| => if 'A' <= s[i] <= 'Z' then ((s[i] as int) + 32) as char else s[i])
  }

  function Normalize(s: string): (r: string) {
    AsciiLower(CollapseSpaces(s))
  }

  datatype Table = Table(licenses: set<string>, exceptions: set<string>) {
    predicate IsLicense(symbol: string) { Normalize(symbol) in licenses }
    predicate IsException(symbol: string) { Normalize(symbol) in exceptions }
    predicate IsKnown(symbol: string) { IsLicense(symbol) || IsException(symbol) }

    /** An id that may stand where a license is expected. */
    predicate Admits(symbol: string) { IsLicense(symbol) || !IsException(symbol) }

    /** The key reported for an admitted id: none if it is listed or exempt. */
    function Reported(symbol: string): (r: seq<string>) {
      if IsLicense(symbol) || Exempt(symbol) then [] else [symbol]
    }
  }

  predicate Exempt(symbol: string) {
    "LicenseRef-" <= symbol || symbol == "UNLICENSED" || symbol == "NONE" || symbol == "LicenseRef-Proprietary"
  }

  // ---- the grammar, as derivation trees

  datatype Expr = Single(term: Term) | OrElse(term: Term, rest: Expr)

  datatype Term = Alone(factor: Factor) | AndAlso(factor: Factor, rest: Term)

  datatype Factor = Paren(inner: Expr) | License(id: string) | LicenseWith(id: string, exception: string)

  function Yield(e: Expr): (r: seq<Token>) {
    match e
    case Single(t) => TermYield(t)
    case OrElse(t, rest) => TermYield(t) + [Or] + Yield(rest)
  }

  function TermYield(t: Term): (r: seq<Token>) {
    match t
    case Alone(f) => FactorYield(f)
    case AndAlso(f, rest) => FactorYield(f) + [And] + TermYield(rest)
  }

  function FactorYield(f: Factor): (ts: seq<Token>)
    ensures |ts| >= 1
  {
    match f
    case Paren(e) => [Open] + Yield(e) + [Close]
    case License(id) => [Symbol(id)]
    case LicenseWith(id, exception) => [Symbol(id), With, Symbol(exception)]
  }

  predicate Valid(table: Table, e: Expr) {
    match e
    case Single(t) => TermValid(table, t)
    case OrElse(t, rest) => TermValid(table, t) && Valid(table, rest)
  }

  predicate TermValid(table: Table, t: Term) {
    match t
    case Alone(f) => FactorValid(table, f)
    case AndAlso(f, rest) => FactorValid(table, f) && TermValid(table, rest)
  }

  predicate FactorValid(table: Table, f: Factor) {
    match f
    case Paren(e) => Valid(table, e)
    case License(id) => table.Admits(id)
    case LicenseWith(id, exception) => table.Admits(id) && table.IsException(exception)
  }

  /** The unknown license keys of a derivation, in source order. */
  function Unknown(table: Table, e: Expr): (r: seq<string>) {
    match e
    case Single(t) => TermUnknown(table, t)
    case OrElse(t, rest) => TermUnknown(table, t) + Unknown(table, rest)
  }

  function TermUnknown(table: Table, t: Term): (r: seq<string>) {
    match t
    case Alone(f) => FactorUnknown(table, f)
    case AndAlso(f, rest) => FactorUnknown(table, f) + TermUnknown(table, rest)
  }

  function FactorUnknown(table: Table, f: Factor): (r: seq<string>) {
    match f
    case Paren(e) => Unknown(table, e)
    case License(id) => table.Reported(id)
    case LicenseWith(id, _) => table.Reported(id)
  }

  /** The grammar derives `ts` with `unknown` as its unknown keys. */
  ghost predicate Derives(table: Table, ts: seq<Token>, unknown: seq<string>) {
    exists e :: Valid(table, e) && Yield(e) == ts && Unknown(table, e) == unknown
  }

  // ---- recursive descent on token lists

  datatype Reason =
    | InvalidCharacter(c: char) | EmptyExpression | UnexpectedToken(position: nat)
    | OrNeedsTwo | AndNeedsTwo | UnbalancedParenthesis | WithNeedsException
    | ExpectedLicense | ExceptionOutsideWith(symbol: string)

  /** The tokens left and all unknown keys so far, or the first failure. */
  datatype Parse = Parsed(rest: seq<Token>, unknown: seq<string>) | Failed(reason: Reason)

  predicate StartsWith(ts: seq<Token>, t: Token) {
    ts != [] && ts[0] == t
  }

  function ParseExpr(table: Table, ts: seq<Token>, unknown: seq<string>): (p: Parse)
    ensures p.Parsed? ==> |p.rest| < |ts|
    decreases |ts|, 2
  {
    match ParseTerm(table, ts, unknown)
    case Failed(reason) => Failed(reason)
    case Parsed(rest, more) => ParseOrs(table, rest, more)
  }

  function ParseOrs(table: Table, ts: seq<Token>, unknown: seq<string>): (p: Parse)
    ensures p.Parsed? ==> |p.rest| <= |ts|
    decreases |ts|, 2
  {
    if !StartsWith(ts, Or) then Parsed(ts, unknown)
    else match ParseTerm(table, ts[1..], unknown)
      case Failed(_) => Failed(OrNeedsTwo)
      case Parsed(rest, more) => ParseOrs(table, rest, more)
  }

  function ParseTerm(table: Table, ts: seq<Token>, unknown: seq<string>): (p: Parse)
    ensures p.Parsed? ==> |p.rest| < |ts|
    decreases |ts|, 1
  {
    match ParseFactor(table, ts, unknown)
    case Failed(reason) => Failed(reason)
    case Parsed(rest, more) => ParseAnds(table, rest, more)
  }

  function ParseAnds(table: Table, ts: seq<Token>, unknown: seq<string>): (p: Parse)
    ensures p.Parsed? ==> |p.rest| <= |ts|
    decreases |ts|, 1
  {
    if !StartsWith(ts, And) then Parsed(ts, unknown)
    else match ParseFactor(table, ts[1..], unknown)
      case Failed(_) => Failed(AndNeedsTwo)
      case Parsed(rest, more) => ParseAnds(table, rest, more)
  }

  function ParseFactor(table: Table, ts: seq<Token>, unknown: seq<string>): (p: Parse)
    ensures p.Parsed? ==> |p.rest| < |ts|
    decreases |ts|, 0
  {
    if ts == [] then Failed(ExpectedLicense)
    else match ts[0]
      case Open =>
        (match ParseExpr(table, ts[1..], unknown)
         case Failed(reason) => Failed(reason)
         case Parsed(rest, more) =>
           if StartsWith(rest, Close) then Parsed(rest[1..], more) else Failed(UnbalancedParenthesis))
      case Symbol(id) =>
        if !table.Admits(id) then Failed(ExceptionOutsideWith(id))
        else if !StartsWith(ts[1..], With) then Parsed(ts[1..], unknown + table.Reported(id))
        else if |ts| > 2 && ts[2].Symbol? && table.IsException(ts[2].text) then
          Parsed(ts[3..], unknown + table.Reported(id))
        else Failed(WithNeedsException)
      case _ => Failed(ExpectedLicense)
  }

  // ---- completeness: every valid derivation is found

  lemma {:induction false} FactorComplete(table: Table, f: Factor, rest: seq<Token>, unknown: seq<string>)
    requires FactorValid(table, f) && !StartsWith(rest, With)
    ensures ParseFactor(table, FactorYield(f) + rest, unknown) == Parsed(rest, unknown + FactorUnknown(table, f))
    decreases f, 0
  {
    var ts := FactorYield(f) + rest;
    match f
    case License(id) =>
      assert ts[1..] == rest;
    case LicenseWith(id, exception) =>
      assert ts[1..][0] == With && ts[3..] == rest;
    case Paren(e) =>
      assert ts[1..] == Yield(e) + ([Close] + rest);
      ExprComplete(table, e, [Close] + rest, unknown);
  }

  lemma {:induction false} TermComplete(table: Table, t: Term, rest: seq<Token>, unknown: seq<string>)
    requires TermValid(table, t) && !StartsWith(rest, With) && !StartsWith(rest, And)
    ensures ParseTerm(table, TermYield(t) + rest, unknown) == Parsed(rest, unknown + TermUnknown(table, t))
    decreases t, 0
  {
    match t
    case Alone(f) =>
      FactorComplete(table, f, rest, unknown);
    case AndAlso(f, more) =>
      var tail := [And] + (TermYield(more) + rest);
      Regroup(FactorYield(f), And, TermYield(more), rest);
      FactorComplete(table, f, tail, unknown);
      var so := unknown + FactorUnknown(table, f);
      TermComplete(table, more, rest, so);
      TermAsAnds(table, tail, so);
      assert so + TermUnknown(table, more) == unknown + TermUnknown(table, t);
  }

  lemma {:induction false} ExprComplete(table: Table, e: Expr, rest: seq<Token>, unknown: seq<string>)
    requires Valid(table, e) && !StartsWith(rest, With) && !StartsWith(rest, And) && !StartsWith(rest, Or)
    ensures ParseExpr(table, Yield(e) + rest, unknown) == Parsed(rest, unknown + Unknown(table, e))
    decreases e, 0
  {
    match e
    case Single(t) =>
      TermComplete(table, t, rest, unknown);
    case OrElse(t, more) =>
      var tail := [Or] + (Yield(more) + rest);
      Regroup(TermYield(t), Or, Yield(more), rest);
      TermComplete(table, t, tail, unknown);
      var so := unknown + TermUnknown(table, t);
      ExprComplete(table, more, rest, so);
      ExprAsOrs(table, tail, so);
      assert so + Unknown(table, more) == unknown + Unknown(table, e);
  }

  /** What follows AND parses as a term does, and what follows OR as an expression. */
  lemma TermAsAnds(table: Table, ts: seq<Token>, unknown: seq<string>)
    requires StartsWith(ts, And)
    requires (ParseTerm(table, ts[1..], unknown).Parsed? || ParseAnds(table, ts, unknown).Parsed?)
    ensures ParseAnds(table, ts, unknown) == ParseTerm(table, ts[1..], unknown)
  {
  }

  lemma ExprAsOrs(table: Table, ts: seq<Token>, unknown: seq<string>)
    requires StartsWith(ts, Or) && (ParseExpr(table, ts[1..], unknown).Parsed? || ParseOrs(table, ts, unknown).Parsed?)
    ensures ParseOrs(table, ts, unknown) == ParseExpr(table, ts[1..], unknown)
  {
  }

  lemma Regroup(a: seq<Token>, separator: Token, b: seq<Token>, rest: seq<Token>)
    ensures (a + [separator] + b) + rest == a + ([separator] + (b + rest))
    ensures ([separator] + (b + rest))[1..] == b + rest
  {
  }

  // ---- soundness: every accepted list has a derivation

  lemma {:induction false} FactorSound(table: Table, ts: seq<Token>, unknown: seq<string>) returns (f: Factor)
    requires ParseFactor(table, ts, unknown).Parsed?
    ensures FactorValid(table, f) && ParseFactor(table, ts, unknown).unknown == unknown + FactorUnknown(table, f)
    ensures ts == FactorYield(f) + ParseFactor(table, ts, unknown).rest
    decreases |ts|, 0
  {
    match ts[0]
    case Symbol(id) =>
      if StartsWith(ts[1..], With) {
        f := LicenseWith(id, ts[2].text);
        assert ts == [ts[0], ts[1], ts[2]] + ts[3..];
      } else {
        f := License(id);
        assert ts == [ts[0]] + ts[1..];
      }
    case Open =>
      var e := ExprSound(table, ts[1..], unknown);
      f := Paren(e);
      var rest := ParseExpr(table, ts[1..], unknown).rest;
      assert ts == [Open] + ts[1..] && rest == [Close] + rest[1..];
      assert ts == [Open] + (Yield(e) + ([Close] + rest[1..]));
    case _ =>
  }

  lemma {:induction false} TermSound(table: Table, ts: seq<Token>, unknown: seq<string>) returns (t: Term)
    requires ParseTerm(table, ts, unknown).Parsed?
    ensures TermValid(table, t) && ParseTerm(table, ts, unknown).unknown == unknown + TermUnknown(table, t)
    ensures ts == TermYield(t) + ParseTerm(table, ts, unknown).rest
    decreases |ts|, 1
  {
    var f := FactorSound(table, ts, unknown);
    var first := ParseFactor(table, ts, unknown);
    if StartsWith(first.rest, And) {
      TermAsAnds(table, first.rest, first.unknown);
      var after := first.rest[1..];
      var more := TermSound(table, after, first.unknown);
      t := AndAlso(f, more);
      assert first.rest == [And] + after;
      Regroup(FactorYield(f), And, TermYield(more), ParseTerm(table, after, first.unknown).rest);
      assert (unknown + FactorUnknown(table, f)) + TermUnknown(table, more) == unknown + TermUnknown(table, t);
    } else {
      t := Alone(f);
    }
  }

  lemma {:induction false} ExprSound(table: Table, ts: seq<Token>, unknown: seq<string>) returns (e: Expr)
    requires ParseExpr(table, ts, unknown).Parsed?
    ensures Valid(table, e) && ParseExpr(table, ts, unknown).unknown == unknown + Unknown(table, e)
    ensures ts == Yield(e) + ParseExpr(table, ts, unknown).rest
    decreases |ts|, 2
  {
    var t := TermSound(table, ts, unknown);
    var first := ParseTerm(table, ts, unknown);
    if StartsWith(first.rest, Or) {
      ExprAsOrs(table, first.rest, first.unknown);
      var after := first.rest[1..];
      var more := ExprSound(table, after, first.unknown);
      e := OrElse(t, more);
      assert first.rest == [Or] + after;
      Regroup(TermYield(t), Or, Yield(more), ParseExpr(table, after, first.unknown).rest);
      assert (unknown + TermUnknown(table, t)) + Unknown(table, more) == unknown + Unknown(table, e);
    } else {
      e := Single(t);
    }
  }

  /** The parser accepts a whole token list exactly when the grammar derives it. */
  lemma AcceptsExactlyTheGrammar(table: Table, ts: seq<Token>, unknown: seq<string>)
    ensures ParseExpr(table, ts, []) == Parsed([], unknown) <==> Derives(table, ts, unknown)
  {
    if ParseExpr(table, ts, []) == Parsed([], unknown) {
      var e := ExprSound(table, ts, []);
      assert ts == Yield(e);
    }
    forall e | Valid(table, e) && Yield(e) == ts && Unknown(table, e) == unknown
      ensures ParseExpr(table, ts, []) == Parsed([], unknown)
    {
      assert Yield(e) + [] == ts;
      ExprComplete(table, e, [], []);
    }
  }

  // ---- joining accepted expressions

  lemma {:induction false} JoinOr(table: Table, a: Expr, b: Expr) returns (e: Expr)
    requires Valid(table, a) && Valid(table, b)
    ensures Valid(table, e) && Yield(e) == Yield(a) + [Or] + Yield(b)
    ensures Unknown(table, e) == Unknown(table, a) + Unknown(table, b)
    decreases a
  {
    match a
    case Single(t) => e := OrElse(t, b);
    case OrElse(t, rest) =>
      var r := JoinOr(table, rest, b);
      e := OrElse(t, r);
      assert Yield(e) == TermYield(t) + [Or] + (Yield(rest) + [Or] + Yield(b));
      assert Unknown(table, e) == TermUnknown(table, t) + (Unknown(table, rest) + Unknown(table, b));
  }

  lemma {:induction false} JoinTerms(table: Table, a: Term, b: Term) returns (t: Term)
    requires TermValid(table, a) && TermValid(table, b)
    ensures TermValid(table, t) && TermYield(t) == TermYield(a) + [And] + TermYield(b)
    ensures TermUnknown(table, t) == TermUnknown(table, a) + TermUnknown(table, b)
    decreases a
  {
    match a
    case Alone(f) => t := AndAlso(f, b);
    case AndAlso(f, rest) =>
      var r := JoinTerms(table, rest, b);
      t := AndAlso(f, r);
      assert TermYield(t) == FactorYield(f) + [And] + (TermYield(rest) + [And] + TermYield(b));
      assert TermUnknown(table, t) == FactorUnknown(table, f) + (TermUnknown(table, rest) + TermUnknown(table, b));
  }

  /** AND binds tighter, so the last term of `a` merges with the first term of `b`. */
  lemma {:induction false} JoinAnd(table: Table, a: Expr, b: Expr) returns (e: Expr)
    requires Valid(table, a) && Valid(table, b)
    ensures Valid(table, e) && Yield(e) == Yield(a) + [And] + Yield(b)
    ensures Unknown(table, e) == Unknown(table, a) + Unknown(table, b)
    decreases a
  {
    match a
    case OrElse(t, rest) =>
      var r := JoinAnd(table, rest, b);
      e := OrElse(t, r);
      assert Yield(e) == TermYield(t) + [Or] + (Yield(rest) + [And] + Yield(b));
      assert Unknown(table, e) == TermUnknown(table, t) + (Unknown(table, rest) + Unknown(table, b));
    case Single(t) =>
      var joined := JoinTerms(table, t, b.term);
      match b
      case Single(_) => e := Single(joined);
      case OrElse(u, rest) =>
        e := OrElse(joined, rest);
        assert Yield(e) == TermYield(t) + [And] + (TermYield(u) + [Or] + Yield(rest));
        assert Unknown(table, e) == TermUnknown(table, t) + (TermUnknown(table, u) + Unknown(table, rest));
  }

  /** Accepted lists joined by AND or OR stay accepted; their unknown keys follow each other. */
  lemma JoinsStayAccepted(table: Table, ts: seq<Token>, us: seq<Token>, a: seq<string>, b: seq<string>)
    requires Derives(table, ts, a) && Derives(table, us, b)
    ensures Derives(table, ts + [Or] + us, a + b)
    ensures Derives(table, ts + [And] + us, a + b)
  {
    var d :| Valid(table, d) && Yield(d) == ts && Unknown(table, d) == a;
    var e :| Valid(table, e) && Yield(e) == us && Unknown(table, e) == b;
    var either := JoinOr(table, d, e);
    var both := JoinAnd(table, d, e);
  }

  /** Wrapping an accepted list in parentheses changes nothing. */
  lemma WrappingStaysAccepted(table: Table, ts: seq<Token>, a: seq<string>)
    requires Derives(table, ts, a)
    ensures Derives(table, [Open] + ts + [Close], a)
  {
    var d :| Valid(table, d) && Yield(d) == ts && Unknown(table, d) == a;
    var f := Paren(d);
    var t := Alone(f);
    var e := Single(t);
    assert FactorYield(f) == [Open] + ts + [Close] && FactorUnknown(table, f) == a && FactorValid(table, f);
    assert TermYield(t) == FactorYield(f) && TermUnknown(table, t) == a && TermValid(table, t);
    assert Yield(e) == FactorYield(f) && Unknown(table, e) == a && Valid(table, e);
  }
}
