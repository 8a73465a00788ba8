/**
  The SPDX expression checker: a parser object that walks the tokens, proved against the
  grammar, and the whole check from text to unknown license keys.
 */
module SpdxParser {
  import opened Common
  import opened SpdxGrammar
  import opened SpdxTokenizer

  /** The parser object: a cursor into the tokens and the unknown keys met so far. */
  class Parser {
    const table: Table
    const tokens: seq<Token>
    var position: nat
    var unknown: seq<string>

    constructor (table: Table, tokens: seq<Token>)
      ensures this.table == table && this.tokens == tokens
      ensures position == 0 && unknown == []
    {
      this.table, this.tokens, position, unknown := table, tokens, 0, [];
    }

    ghost predicate InBounds()
      reads this
    {
      position <= |tokens|
    }

    ghost function Rest(): (r: seq<Token>)
      requires InBounds()
      reads this
    {
      tokens[position..]
    }

    /** The object moved and collected as `p` says, or reports its failure. */
    ghost predicate Follows(p: Parse, failure: Option<Reason>)
      reads this
    {
      match p
      case Parsed(rest, keys) => failure.None? && InBounds() && Rest() == rest && unknown == keys
      case Failed(reason) => failure == Some(reason)
    }

    method Peek() returns (t: Option<Token>)
      requires InBounds()
      ensures t == if Rest() == [] then None else Some(Rest()[0])
    {
      t := if position < |tokens| then Some(tokens[position]) else None;
    }

    method Advance()
      requires InBounds() && Rest() != []
      modifies this
      ensures InBounds() && Rest() == old(Rest())[1..] && unknown == old(unknown)
      ensures position == old(position) + 1
    {
      position := position + 1;
    }

    method Expression() returns (failure: Option<Reason>)
      requires InBounds()
      modifies this
      ensures Follows(ParseExpr(table, old(Rest()), old(unknown)), failure)
      ensures position >= old(position) && (failure.None? ==> position > old(position))
      decreases |tokens| - position, 2, 1
    {
      failure := AndTerm();
      if failure.None? {
        failure := OrTail();
      }
    }

    /** The loop that follows the first operand. */
    method OrTail() returns (failure: Option<Reason>)
      requires InBounds()
      modifies this
      ensures Follows(ParseOrs(table, old(Rest()), old(unknown)), failure)
      ensures position >= old(position)
      decreases |tokens| - position, 2, 0
    {
      failure := None;
      var next := Peek();
      while next == Some(Or)
        invariant InBounds() && position >= old(position) && failure.None?
        invariant next == if Rest() == [] then None else Some(Rest()[0])
        invariant ParseOrs(table, old(Rest()), old(unknown)) == ParseOrs(table, Rest(), unknown)
        decreases |tokens| - position
      {
        Advance();
        failure := AndTerm();
        if failure.Some? {
          return Some(OrNeedsTwo);
        }
        next := Peek();
      }
    }

    method AndTerm() returns (failure: Option<Reason>)
      requires InBounds()
      modifies this
      ensures Follows(ParseTerm(table, old(Rest()), old(unknown)), failure)
      ensures position >= old(position) && (failure.None? ==> position > old(position))
      decreases |tokens| - position, 1, 1
    {
      failure := WithTerm();
      if failure.None? {
        failure := AndTail();
      }
    }

    /** The loop that follows the first operand. */
    method AndTail() returns (failure: Option<Reason>)
      requires InBounds()
      modifies this
      ensures Follows(ParseAnds(table, old(Rest()), old(unknown)), failure)
      ensures position >= old(position)
      decreases |tokens| - position, 1, 0
    {
      failure := None;
      var next := Peek();
      while next == Some(And)
        invariant InBounds() && position >= old(position) && failure.None?
        invariant next == if Rest() == [] then None else Some(Rest()[0])
        invariant ParseAnds(table, old(Rest()), old(unknown)) == ParseAnds(table, Rest(), unknown)
        decreases |tokens| - position
      {
        Advance();
        failure := WithTerm();
        if failure.Some? {
          return Some(AndNeedsTwo);
        }
        next := Peek();
      }
    }

    method WithTerm() returns (failure: Option<Reason>)
      requires InBounds()
      modifies this
      ensures Follows(ParseFactor(table, old(Rest()), old(unknown)), failure)
      ensures position >= old(position) && (failure.None? ==> position > old(position))
      decreases |tokens| - position, 0, 0
    {
      var next := Peek();
      if next == Some(Open) {
        Advance();
        failure := Expression();
        if failure.Some? { return; }
        next := Peek();
        if next != Some(Close) {
          return Some(UnbalancedParenthesis);
        }
        Advance();
      } else if next.Some? && next.value.Symbol? {
        Advance();
        failure := LicenseSymbol(next.value.text);
        if failure.Some? { return; }
        next := Peek();
        if next == Some(With) {
          Advance();
          next := Peek();
          if next.Some? && next.value.Symbol? && table.IsException(next.value.text) {
            Advance();
          } else {
            return Some(WithNeedsException);
          }
        }
      } else {
        return Some(ExpectedLicense);
      }
    }

    method LicenseSymbol(symbol: string) returns (failure: Option<Reason>)
      requires InBounds()
      modifies this`unknown
      ensures failure == if table.Admits(symbol) then None else Some(ExceptionOutsideWith(symbol))
      ensures unknown == old(unknown) + if failure.None? then table.Reported(symbol) else []
    {
      if table.IsLicense(symbol) {
        return None;
      }
      if table.IsException(symbol) {
        return Some(ExceptionOutsideWith(symbol));
      }
      if !Exempt(symbol) {
        unknown := unknown + [symbol];
      }
      return None;
    }
  }

  /** Why a list of tokens is rejected: the failure of the descent, or where it stopped short of the end. */
  function Rejection(table: Table, tokens: seq<Token>): (r: Option<Reason>) {
    if tokens == [] then Some(EmptyExpression)
    else
      match ParseExpr(table, tokens, [])
      case Failed(reason) => Some(reason)
      case Parsed(rest, _) => if rest == [] then None else Some(UnexpectedToken(|tokens| - |rest|))
  }

  /** An unexpected token stands behind a complete expression. */
  lemma UnexpectedAfterExpression(table: Table, tokens: seq<Token>, k: nat)
    requires tokens != [] && ParseExpr(table, tokens, []).Parsed?
    requires Rejection(table, tokens) == Some(UnexpectedToken(k))
    ensures 0 < k < |tokens| && Derives(table, tokens[..k], ParseExpr(table, tokens, []).unknown)
  {
    var e := ExprSound(table, tokens, []);
    var p := ParseExpr(table, tokens, []);
    assert tokens[..k] == Yield(e) && [] + Unknown(table, e) == p.unknown;
  }

  /** The part after the tokenizer: accepted exactly when derivable, with the unknown keys of the derivation. */
  method ParseTokens(table: Table, tokens: seq<Token>) returns (r: Result<seq<string>, Reason>)
    ensures r.Ok? ==> Derives(table, tokens, r.value)
    ensures r.Err? ==> Rejection(table, tokens) == Some(r.error) && forall unknown :: !Derives(table, tokens, unknown)
  {
    forall unknown ensures ParseExpr(table, tokens, []) == Parsed([], unknown) <==> Derives(table, tokens, unknown) {
      AcceptsExactlyTheGrammar(table, tokens, unknown);
    }
    if tokens == [] {
      return Err(EmptyExpression);
    }
    var parser := new Parser(table, tokens);
    assert parser.Rest() == tokens;
    var failure := parser.Expression();
    if failure.Some? {
      return Err(failure.value);
    }
    if parser.position != |tokens| {
      return Err(UnexpectedToken(parser.position));
    }
    return Ok(parser.unknown);
  }

  /**
    The whole check.  A legal text is accepted exactly when the grammar derives its
    tokens, with exactly the unknown keys of the derivation.
   */
  method ParseSpdx(table: Table, text: string) returns (r: Result<seq<string>, Reason>)
    ensures r.Ok? ==> Splits(text, Items(text, 0), 0)
                      && Derives(table, TokensOf(Merge(table, text, Items(text, 0))), r.value)
    ensures r.Err? && AllLegal(text) ==>
              Splits(text, Items(text, 0), 0)
              && (forall unknown :: !Derives(table, TokensOf(Merge(table, text, Items(text, 0))), unknown))
              && Rejection(table, TokensOf(Merge(table, text, Items(text, 0)))) == Some(r.error)
    ensures !AllLegal(text) ==> r.Err? && r.error.InvalidCharacter? && FirstIllegal(text, r.error.c)
  {
    var tokenized := Tokenize(table, text);
    if tokenized.Err? {
      return Err(tokenized.error);
    }
    r := ParseTokens(table, tokenized.value);
  }
}
