/**
 * The recursive-descent parser of sqlvalidator/grammar/lexer.py.
 *
 * Every parser of the source reads from a shared iterator with `next(tokens)`
 * (which raises StopIteration at the end) or `next(tokens, None)`. Here the
 * iterator is the sequence of tokens still to be read: a parser takes it and
 * returns what it built together with what is left. A parser that the source
 * calls on `iter(some_list)` gets exactly that list and what it leaves is
 * dropped, as in the source. The errors are the ones the source raises.
 *
 * The loops of `ExpressionListParser` and `OrderByParser` are also given as
 * methods with their while-loops, proved to agree with the functions.
 */
module Lexer {
  import opened Basics
  import opened Tokeniser
  import opened Sql

  /** `ParsingError(message)`, the StopIteration of `next(tokens)` on an
      exhausted stream, and the ValueError of `StringParser`. */
  datatype ParseError = ParsingError(message: string) | EndOfTokens | MissingEndQuote(quote: Token)

  /** `Boolean.BOOLEAN_VALUES`, `Condition.PREDICATES` and
      `BooleanCondition.PREDICATES`, which sql.py does not show: fixed here. */
  const BooleanValues: seq<Token> := ["true", "false"]
  const ConditionPredicates: seq<Token> := ["=", "<>", "!=", "<", ">", "<=", ">=", "like", "in", "is"]
  const BooleanPredicates: seq<Token> := ["and", "or"]

  const ArithmeticSymbols: seq<Token> := ["+", "-", "*", "/"]

  /** The tokens that end an expression without becoming its alias. */
  const AliasStops: seq<Token> := [")", "'", "\"", "`", ";"]

  /** `SelectStatementParser.keywords`, and the stop lists of the later clauses. */
  const SelectKeywords: seq<Token> := [";", "from", "where", "group", "having", "order", "limit", "offset"]
  const FromStops: seq<Token> := ["where", "group", "having", "order", "limit", "offset", ";"]
  const WhereStops: seq<Token> := ["group", "having", "order", "limit", "offset", ";"]
  const GroupByStops: seq<Token> := ["having", "order", "limit", "offset", ";"]
  const HavingStops: seq<Token> := ["order", "limit", "offset", ";"]
  const OrderByStops: seq<Token> := ["limit", "offset", ";"]
  const LimitStops: seq<Token> := ["offset", ";"]
  const OffsetStops: seq<Token> := [";"]

  predicate IsQuote(t: Token)
  {
    t == "'" || t == "\"" || t == "`"
  }

  /** A token that `ExpressionParser` reads as a name: not a quote, a number,
      a boolean or an opening parenthesis. */
  predicate PlainWord(t: Token)
  {
    !IsQuote(t) && !IsDigits(t) && t !in BooleanValues && t != "("
  }

  /** `next(tokens, None)`: the token read, if any, and the stream after it. */
  datatype Pulled = Pulled(next: Option<Token>, rest: seq<Token>)

  function Pull(ts: seq<Token>): (r: Pulled)
    ensures ts == StopSeq(r.next) + r.rest
  {
    if ts == [] then Pulled(None, []) else Pulled(Some(ts[0]), ts[1..])
  }

  /** An expression and the stream after it. */
  datatype Partial = Partial(expression: Expr, rest: seq<Token>)

  /** A right-hand operand (`is_right_hand=True`): the expression, the token
      read after it and the stream after that token. */
  datatype Operand = Operand(expression: Expr, next: Option<Token>, rest: seq<Token>)

  /** What lines 288-299 build before looking ahead: possibly nothing yet. */
  datatype Leaf = Leaf(expression: Option<Expr>, rest: seq<Token>)

  // ================================================================ StringParser

  /** `StringParser.parse(tokens, start_quote)`: the next token is the content,
      and the one after must be the same quote. */
  function ParseString(ts: seq<Token>, startQuote: Token): (r: Result<Partial, ParseError>)
    ensures r.Ok? <==> |ts| >= 2 && ts[1] == startQuote
    ensures r.Ok? ==> r.value == Partial(String(ts[0], startQuote), ts[2..])
    ensures |ts| < 2 ==> r == Err(EndOfTokens)
    ensures |ts| >= 2 && ts[1] != startQuote ==> r == Err(MissingEndQuote(startQuote))
  {
    if |ts| < 2 then Err(EndOfTokens)
    else if ts[1] != startQuote then Err(MissingEndQuote(startQuote))
    else Ok(Partial(String(ts[0], startQuote), ts[2..]))
  }

  // ================================================================ ExpressionParser

  /** Lines 288-299, after `main_token` has been read from the stream. */
  function ParseLeaf(main: Token, ts: seq<Token>): (r: Result<Leaf, ParseError>)
    ensures r.Ok? ==> |r.value.rest| <= |ts|
    decreases |ts| + 1, 0
  {
    if IsQuote(main) then
      var s :- ParseString(ts, main);
      Ok(Leaf(Some(s.expression), s.rest))
    else if IsDigits(main) then Ok(Leaf(Some(Integer(DigitText(main))), ts))
    else if main in BooleanValues then Ok(Leaf(Some(Boolean(main)), ts))
    else if main == "(" then
      var taken := UntilClosingParenthesis(ts);
      var arguments :- ParseExpressionList(taken.tokens);
      Ok(Leaf(Some(Parenthesis(arguments)), taken.rest))
    else Ok(Leaf(None, ts))
  }

  /** Lines 304-314: a function call, a negative integer or a column, decided
      by the token read after `main_token`. */
  function ParseLookAhead(main: Token, next: Option<Token>, rest: seq<Token>): (r: Result<Operand, ParseError>)
    ensures r.Ok? ==> |r.value.rest| <= |rest|
    ensures r.Ok? && next.Some? && r.value.next.Some? ==> |r.value.rest| < |rest| + 1
    decreases |rest| + 1, 0
  {
    if next == Some("(") then
      var taken := UntilClosingParenthesis(rest);
      var arguments :- ParseExpressionList(taken.tokens);
      var p := Pull(taken.rest);
      Ok(Operand(FunctionCall(main, arguments), p.next, p.rest))
    else if next.Some? && main == "-" && IsDigits(next.value) then
      var p := Pull(rest);
      Ok(Operand(Integer(Number(-(DigitsValue(next.value) as int))), p.next, p.rest))
    else Ok(Operand(Column(main), next, rest))
  }

  /** `ExpressionParser.parse(tokens, is_right_hand=True)`, lines 286-323:
      a leaf, then a right-recursive chain of arithmetic operators. */
  function ParseOperand(ts: seq<Token>): (r: Result<Operand, ParseError>)
    ensures r.Ok? ==> |r.value.rest| < |ts|
    ensures ts == [] ==> r == Err(EndOfTokens)
    decreases |ts|, 1
  {
    if ts == [] then Err(EndOfTokens)
    else
      var main := ts[0];
      var leaf :- ParseLeaf(main, ts[1..]);
      var p := Pull(leaf.rest);
      var head :- if leaf.expression.Some? then Ok(Operand(leaf.expression.value, p.next, p.rest))
                  else ParseLookAhead(main, p.next, p.rest);
      ContinueArithmetic(head.expression, head.next, head.rest)
  }

  /** Lines 316-323: an arithmetic symbol after an operand takes the whole
      right-hand operand that follows as its right side. */
  function ContinueArithmetic(left: Expr, next: Option<Token>, rest: seq<Token>): (r: Result<Operand, ParseError>)
    ensures r.Ok? ==> |r.value.rest| <= |rest|
    ensures next.None? || next.value !in ArithmeticSymbols ==> r == Ok(Operand(left, next, rest))
    decreases |rest|, 2
  {
    if next.Some? && next.value in ArithmeticSymbols then
      var right :- ParseOperand(rest);
      Ok(Operand(ArithmaticOperator(next.value, left, right.expression), right.next, right.rest))
    else Ok(Operand(left, next, rest))
  }

  /** Lines 337-352: a following token that does not end the expression makes
      it an Alias; `as` introduces the alias explicitly. */
  function WithAlias(e: Expr, next: Option<Token>, rest: seq<Token>): (r: Result<Partial, ParseError>)
    ensures r.Ok? ==> |r.value.rest| <= |rest|
    ensures next.None? || next.value in AliasStops ==> r == Ok(Partial(e, rest))
    ensures next.Some? && next.value !in AliasStops && r.Ok? ==>
      r.value.expression.Alias? && r.value.expression.expression == e &&
      (r.value.expression.withAs <==> next.value == "as")
    ensures next == Some("as") && rest == [] ==> r == Err(EndOfTokens)
  {
    if next.Some? && next.value !in AliasStops then
      if next.value == "as" then
        if rest == [] then Err(EndOfTokens) else Ok(Partial(Alias(e, rest[0], true), rest[1..]))
      else Ok(Partial(Alias(e, next.value, false), rest))
    else Ok(Partial(e, rest))
  }

  /** `ExpressionParser.parse(tokens)`: an operand, then an optional condition,
      an optional boolean condition and an optional alias. */
  function ParseExpr(ts: seq<Token>): (r: Result<Partial, ParseError>)
    ensures r.Ok? ==> |r.value.rest| < |ts|
    ensures ts == [] ==> r == Err(EndOfTokens)
    decreases |ts|, 3
  {
    var op :- ParseOperand(ts);
    var cond :- if op.next.Some? && op.next.value in ConditionPredicates then
        (var right :- ParseOperand(op.rest);
         Ok(Operand(Condition(op.expression, op.next.value, right.expression), right.next, right.rest)))
      else Ok(op);
    assert |cond.rest| < |ts|;
    var both :- if cond.next.Some? && cond.next.value in BooleanPredicates then
        (var right :- ParseExpr(cond.rest);
         var p := Pull(right.rest);
         Ok(Operand(BooleanCondition(cond.next.value, cond.expression, right.expression), p.next, p.rest)))
      else Ok(cond);
    WithAlias(both.expression, both.next, both.rest)
  }

  // ================================================================ ExpressionListParser

  function TotalLength(items: seq<seq<Token>>): nat
  {
    if items == [] then 0 else |items[0]| + TotalLength(items[1..])
  }

  /**
   * The item boundaries of the `ExpressionListParser` loop, from the tokens of
   * the current item `current` and the parenthesis count `count`: each token
   * read is added to the item; the item ends at the end of input, or when the
   * following token is a comma at count 0, which is dropped. The token after
   * such a comma always starts the next item, and the count is never reset.
   */
  function Items(ts: seq<Token>, current: seq<Token>, count: int): (r: seq<seq<Token>>)
    ensures TotalLength(r) <= |current| + |ts|
    decreases |ts|
  {
    if ts == [] then []
    else
      var item := current + [ts[0]];
      var depth := count + Delta(ts[0]);
      if |ts| == 1 then [item]
      else if ts[1] == "," && depth == 0 then [item] + Items(ts[2..], [], depth)
      else Items(ts[1..], item, depth)
  }

  function SplitItems(ts: seq<Token>): (r: seq<seq<Token>>)
    ensures TotalLength(r) <= |ts|
  {
    Items(ts, [], 0)
  }

  /** `ExpressionParser.parse(iter(expression_tokens))` on each item, in order,
      stopping at the first error. */
  function ParseItems(items: seq<seq<Token>>): (r: Result<seq<Expr>, ParseError>)
    ensures r.Ok? ==> |r.value| == |items|
    decreases TotalLength(items), 4, |items|
  {
    if items == [] then Ok([])
    else
      var first :- ParseExpr(items[0]);
      var others :- ParseItems(items[1..]);
      Ok([first.expression] + others)
  }

  /** `ExpressionListParser.parse(tokens)`. */
  function ParseExpressionList(ts: seq<Token>): (r: Result<seq<Expr>, ParseError>)
    ensures ts == [] ==> r == Ok([])
    decreases |ts|, 5
  {
    ParseItems(SplitItems(ts))
  }

  /** Two parses in sequence: the first error, or both results. */
  function Both<T>(a: Result<seq<T>, ParseError>, b: Result<seq<T>, ParseError>): Result<seq<T>, ParseError>
  {
    if a.Err? then a else if b.Err? then b else Ok(a.value + b.value)
  }

  lemma {:induction false} ParseItemsAppend(xs: seq<seq<Token>>, ys: seq<seq<Token>>)
    ensures ParseItems(xs + ys) == Both(ParseItems(xs), ParseItems(ys))
    decreases |xs|
  {
    if xs == [] {
      assert xs + ys == ys;
      if ParseItems(ys).Ok? {
        assert [] + ParseItems(ys).value == ParseItems(ys).value;
      }
    } else {
      assert (xs + ys)[0] == xs[0];
      assert (xs + ys)[1..] == xs[1..] + ys;
      ParseItemsAppend(xs[1..], ys);
      var first := ParseExpr(xs[0]);
      if first.Ok? && ParseItems(xs[1..]).Ok? && ParseItems(ys).Ok? {
        var e := first.value.expression;
        var a := ParseItems(xs[1..]).value;
        var b := ParseItems(ys).value;
        assert [e] + (a + b) == ([e] + a) + b;
      }
    }
  }

  lemma ParseItemsOne(item: seq<Token>)
    ensures ParseExpr(item).Ok? ==> ParseItems([item]) == Ok([ParseExpr(item).value.expression])
    ensures ParseExpr(item).Err? ==> ParseItems([item]) == Err(ParseExpr(item).error)
  {
    assert [item][0] == item;
    assert [item][1..] == [];
    assert ParseItems([]) == Ok([]);
    if ParseExpr(item).Ok? {
      var e := ParseExpr(item).value.expression;
      assert [e] + [] == [e];
    }
  }

  /** Reading one more token of the list: `Items` unrolled once. */
  lemma ItemsStep(ts: seq<Token>, i: nat, current: seq<Token>, count: int)
    requires i < |ts|
    ensures Items(ts[i..], current, count) ==
      (var item := current + [ts[i]];
       var depth := count + Delta(ts[i]);
       if i + 1 == |ts| then [item]
       else if ts[i + 1] == "," && depth == 0 then [item] + Items(ts[i + 2..], [], depth)
       else Items(ts[i + 1..], item, depth))
  {
    var rest := ts[i..];
    assert rest[0] == ts[i];
    if i + 1 < |ts| {
      assert rest[1] == ts[i + 1];
      assert rest[1..] == ts[i + 1..];
      assert rest[2..] == ts[i + 2..];
    }
  }

  /** The list split so far, one token further. */
  lemma ItemsAdvance(ts: seq<Token>, i: nat, done: seq<seq<Token>>, current: seq<Token>, count: int)
    requires i < |ts| && SplitItems(ts) == done + Items(ts[i..], current, count)
    ensures var item := current + [ts[i]];
      var depth := count + Delta(ts[i]);
      if i + 1 == |ts| then SplitItems(ts) == (done + [item]) + []
      else if ts[i + 1] == "," && depth == 0 then SplitItems(ts) == (done + [item]) + Items(ts[i + 2..], [], depth)
      else SplitItems(ts) == done + Items(ts[i + 1..], item, depth)
  {
    ItemsStep(ts, i, current, count);
    var item := current + [ts[i]];
    var depth := count + Delta(ts[i]);
    if i + 1 == |ts| {
      assert done + [item] == (done + [item]) + [];
    } else if ts[i + 1] == "," && depth == 0 {
      assert done + ([item] + Items(ts[i + 2..], [], depth)) == (done + [item]) + Items(ts[i + 2..], [], depth);
    }
  }

  /** An item closed by the loop: its parse is appended, or its error is
      the result of the whole list. */
  lemma ItemClosed(ts: seq<Token>, done: seq<seq<Token>>, item: seq<Token>, later: seq<seq<Token>>, expressions: seq<Expr>)
    requires SplitItems(ts) == (done + [item]) + later
    requires ParseItems(done) == Ok(expressions)
    ensures ParseExpr(item).Err? ==> ParseExpressionList(ts) == Err(ParseExpr(item).error)
    ensures ParseExpr(item).Ok? ==> ParseItems(done + [item]) == Ok(expressions + [ParseExpr(item).value.expression])
  {
    ParseItemsAppend(done, [item]);
    ParseItemsAppend(done + [item], later);
    ParseItemsOne(item);
  }

  /** The loop of `ExpressionListParser.parse`. */
  method ExpressionListParse(ts: seq<Token>) returns (r: Result<seq<Expr>, ParseError>)
    ensures r == ParseExpressionList(ts)
  {
    ghost var done: seq<seq<Token>> := [];
    var expressions: seq<Expr> := [];
    var expressionTokens: seq<Token> := [];
    var countParenthesis := 0;
    var i := 0;
    while i < |ts|
      invariant 0 <= i <= |ts|
      invariant SplitItems(ts) == done + Items(ts[i..], expressionTokens, countParenthesis)
      invariant ParseItems(done) == Ok(expressions)
      decreases |ts| - i
    {
      ItemsAdvance(ts, i, done, expressionTokens, countParenthesis);
      var nextToken := ts[i];
      expressionTokens := expressionTokens + [nextToken];
      countParenthesis := countParenthesis + Delta(nextToken);
      i := i + 1;
      if i == |ts| || (ts[i] == "," && countParenthesis == 0) {
        ghost var later: seq<seq<Token>> := if i == |ts| then [] else Items(ts[i + 1..], [], countParenthesis);
        ItemClosed(ts, done, expressionTokens, later, expressions);
        var item := ParseExpr(expressionTokens);
        if item.Err? {
          return Err(item.error);
        }
        done := done + [expressionTokens];
        expressions := expressions + [item.value.expression];
        expressionTokens := [];
        if i < |ts| {
          i := i + 1;
        } else {
          assert Items(ts[i..], [], countParenthesis) == [];
        }
      }
    }
    assert ts[i..] == [];
    assert done + [] == done;
    return Ok(expressions);
  }

  // ================================================================ clauses

  function ParseWhere(ts: seq<Token>): (r: Result<WhereClause, ParseError>)
    ensures r.Ok? <==> ParseExpr(ts).Ok?
    ensures r.Ok? ==> r.value.expression == ParseExpr(ts).value.expression
  {
    var e :- ParseExpr(ts);
    Ok(WhereClause(e.expression))
  }

  function ParseHaving(ts: seq<Token>): (r: Result<HavingClause, ParseError>)
    ensures r.Ok? <==> ParseExpr(ts).Ok?
    ensures r.Ok? ==> r.value.expression == ParseExpr(ts).value.expression
  {
    var e :- ParseExpr(ts);
    Ok(HavingClause(e.expression))
  }

  function ParseOffset(ts: seq<Token>): (r: Result<OffsetClause, ParseError>)
    ensures r.Ok? <==> ParseExpr(ts).Ok?
    ensures r.Ok? ==> r.value.expression == ParseExpr(ts).value.expression
  {
    var e :- ParseExpr(ts);
    Ok(OffsetClause(e.expression))
  }

  /** `GroupByParser.parse`: an optional leading `rollup`, then an expression list. */
  function ParseGroupBy(ts: seq<Token>): (r: Result<GroupByClause, ParseError>)
    ensures ts == [] ==> r == Err(EndOfTokens)
    ensures r.Ok? ==> (r.value.rollup <==> ts[0] == "rollup")
  {
    if ts == [] then Err(EndOfTokens)
    else
      var rollup := ts[0] == "rollup";
      var seed := if rollup then None else Some(ts[0]);
      var cut := UntilOneOfSeeded(ts[1..], [], seed);
      var expressions :- ParseExpressionList(cut.tokens);
      Ok(GroupByClause(expressions, rollup))
  }

  /** `OrderByItemParser.parse`: an expression up to `asc` or `desc`. */
  function ParseOrderByItem(ts: seq<Token>): (r: Result<OrderByItem, ParseError>)
    ensures r.Ok? ==> !(r.value.hasAsc && r.value.hasDesc)
    ensures r.Ok? ==> (r.value.hasAsc <==> UntilOneOf(ts, ["asc", "desc"]).stop == Some("asc"))
    ensures r.Ok? ==> (r.value.hasDesc <==> UntilOneOf(ts, ["asc", "desc"]).stop == Some("desc"))
  {
    var cut := UntilOneOf(ts, ["asc", "desc"]);
    var e :- ParseExpr(cut.tokens);
    Ok(OrderByItem(e.expression, cut.stop == Some("asc"), cut.stop == Some("desc")))
  }

  /** The items of `OrderByParser.parse`: one per comma-separated part. */
  function ParseOrderByItems(ts: seq<Token>): (r: Result<seq<OrderByItem>, ParseError>)
    ensures r.Ok? ==> |r.value| == CountToken(ts, ",") + 1
    decreases |ts|
  {
    var cut := UntilOneOf(ts, [","]);
    CutCount(ts, [","], ",");
    var item :- ParseOrderByItem(cut.tokens);
    if cut.stop.Some? then
      var others :- ParseOrderByItems(cut.rest);
      Ok([item] + others)
    else Ok([item])
  }

  lemma CutCount(ts: seq<Token>, stopWords: seq<Token>, t: Token)
    requires stopWords == [t]
    ensures var cut := UntilOneOf(ts, stopWords);
      CountToken(ts, t) == (if cut.stop.Some? then 1 + CountToken(cut.rest, t) else 0)
  {
    var cut := UntilOneOf(ts, stopWords);
    assert ts == cut.tokens + (StopSeq(cut.stop) + cut.rest);
    CountTokenAppend(cut.tokens, StopSeq(cut.stop) + cut.rest, t);
    CountTokenAppend(StopSeq(cut.stop), cut.rest, t);
    CountTokenAbsent(cut.tokens, t);
    if cut.stop.Some? {
      assert StopSeq(cut.stop) == [t];
      assert CountToken([t], t) == 1 + CountToken([], t);
    }
  }

  lemma {:induction false} CountTokenAbsent(ts: seq<Token>, t: Token)
    requires forall i :: 0 <= i < |ts| ==> ts[i] !in [t]
    ensures CountToken(ts, t) == 0
  {
    if ts != [] {
      assert ts[0] != t by { assert ts[0] !in [t]; }
      CountTokenAbsent(ts[1..], t);
    }
  }

  function ParseOrderBy(ts: seq<Token>): (r: Result<OrderByClause, ParseError>)
    ensures r.Ok? ==> |r.value.items| == CountToken(ts, ",") + 1
  {
    var items :- ParseOrderByItems(ts);
    Ok(OrderByClause(items))
  }

  /** The loop of `OrderByParser.parse`. */
  method OrderByParse(ts: seq<Token>) returns (r: Result<OrderByClause, ParseError>)
    ensures r == ParseOrderBy(ts)
  {
    var cut := UntilOneOf(ts, [","]);
    var expression := ParseOrderByItem(cut.tokens);
    if expression.Err? {
      return Err(expression.error);
    }
    var expressions := [expression.value];
    var nextToken := cut.stop;
    var rest := cut.rest;
    while nextToken.Some?
      invariant ParseOrderByItems(ts) == ContinueItems(expressions, nextToken, rest)
      decreases |rest|, nextToken.Some?
    {
      cut := UntilOneOf(rest, [","]);
      expression := ParseOrderByItem(cut.tokens);
      if expression.Err? {
        return Err(expression.error);
      }
      ContinueStep(expressions, expression.value, cut.stop, cut.rest);
      expressions := expressions + [expression.value];
      nextToken := cut.stop;
      rest := cut.rest;
    }
    return Ok(OrderByClause(expressions));
  }

  /** What the order-by loop still has to produce after `done`. */
  function ContinueItems(done: seq<OrderByItem>, next: Option<Token>, rest: seq<Token>): Result<seq<OrderByItem>, ParseError>
  {
    if next.None? then Ok(done)
    else match ParseOrderByItems(rest)
      case Err(e) => Err(e)
      case Ok(more) => Ok(done + more)
  }

  lemma ContinueStep(done: seq<OrderByItem>, item: OrderByItem, next: Option<Token>, rest: seq<Token>)
    ensures (match ContinueItems([item], next, rest) case Err(e) => Err(e) case Ok(more) => Ok(done + more))
      == ContinueItems(done + [item], next, rest)
  {
    if next.Some? && ParseOrderByItems(rest).Ok? {
      var more := ParseOrderByItems(rest).value;
      assert done + ([item] + more) == (done + [item]) + more;
    }
  }

  /** `LimitClauseParser.parse`: `all`, or an expression. */
  function ParseLimit(ts: seq<Token>): (r: Result<LimitClause, ParseError>)
    ensures ts == [] ==> r == Err(EndOfTokens)
    ensures ts != [] && ts[0] == "all" ==> r == Ok(LimitClause(true, None))
    ensures r.Ok? ==> (r.value.limitAll <==> r.value.expression.None?)
  {
    if ts == [] then Err(EndOfTokens)
    else if ts[0] == "all" then Ok(LimitClause(true, None))
    else
      var cut := UntilOneOfSeeded(ts[1..], [], Some(ts[0]));
      var e :- ParseExpr(cut.tokens);
      Ok(LimitClause(false, Some(e.expression)))
  }

  // ================================================================ statements

  /** `FromStatementParser.parse`: a sub-query in parentheses, a quoted or a
      bare table name, and an optional alias. */
  function ParseFrom(ts: seq<Token>): (r: Result<Expr, ParseError>)
    ensures ts == [] ==> r == Err(EndOfTokens)
    decreases |ts|, 0
  {
    if ts == [] then Err(EndOfTokens)
    else
      var main := ts[0];
      var head :- if main == "(" then
          (var taken := UntilClosingParenthesis(ts[1..]);
           var argument :- ParseStatement(taken.tokens);
           Ok(Partial(Parenthesis([Query(argument)]), taken.rest)))
        else if IsQuote(main) then
          (var s :- ParseString(ts[1..], main);
           Ok(Partial(Table(Quoted(s.expression)), s.rest)))
        else Ok(Partial(Table(Bare(main)), ts[1..]));
      var p := Pull(head.rest);
      if p.next.None? then Ok(head.expression)
      else if p.next.value == "as" then
        if p.rest == [] then Err(EndOfTokens) else Ok(Alias(head.expression, p.rest[0], true))
      else Ok(Alias(head.expression, p.next.value, false))
  }

  /** What `SelectStatementParser.parse` reads before the select list. */
  datatype Head = Head(selectAll: bool, selectDistinct: bool, selectDistinctOn: Option<seq<Expr>>,
                       firstExpressionToken: Option<Token>, rest: seq<Token>)

  /** Lines 46-65: `all`, `distinct` or `distinct on (...)`, and the first
      token of the select list when it has already been read. */
  function ParseSelectHead(ts: seq<Token>): (r: Result<Head, ParseError>)
    ensures ts == [] ==> r == Err(EndOfTokens)
    ensures r.Ok? ==> !(r.value.selectAll && r.value.selectDistinct)
    ensures r.Ok? ==> (r.value.selectDistinctOn.Some? ==> r.value.selectDistinct)
  {
    if ts == [] then Err(EndOfTokens)
    else if ts[0] == "all" then Ok(Head(true, false, None, None, ts[1..]))
    else if ts[0] == "distinct" then
      if |ts| < 2 then Err(EndOfTokens)
      else if ts[1] == "on" then
        if |ts| < 3 then Err(EndOfTokens)
        else
          var taken := UntilClosingParenthesis(ts[3..]);
          var on :- ParseExpressionList(taken.tokens);
          Ok(Head(false, true, Some(on), None, taken.rest))
      else Ok(Head(false, true, None, Some(ts[1]), ts[2..]))
    else Ok(Head(false, false, None, Some(ts[0]), ts[1..]))
  }

  lemma TakenSuffix(ts: seq<Token>)
    ensures IsSuffix(UntilClosingParenthesis(ts).rest, ts)
  {
    var taken := UntilClosingParenthesis(ts);
    if |taken.tokens| < |ts| {
      assert ts[|ts| - |taken.rest|..] == taken.rest;
    }
  }

  /** The head only moves forward in the stream. */
  lemma SelectHeadAdvances(ts: seq<Token>)
    requires ParseSelectHead(ts).Ok?
    ensures var head := ParseSelectHead(ts).value;
      IsSuffix(StopSeq(head.firstExpressionToken) + head.rest, ts)
  {
    var head := ParseSelectHead(ts).value;
    if ts[0] == "all" {
      SuffixOfTail(ts[1..], ts, 1);
    } else if ts[0] == "distinct" && ts[1] == "on" {
      TakenSuffix(ts[3..]);
      SuffixOfTail(head.rest, ts, 3);
    } else if ts[0] == "distinct" {
      assert StopSeq(head.firstExpressionToken) + head.rest == ts[1..];
      SuffixOfTail(ts[1..], ts, 1);
    } else {
      assert StopSeq(head.firstExpressionToken) + head.rest == ts;
    }
  }

  /** The state between two clauses: what was built, the token that stopped
      the last scan and the stream after it. */
  datatype Stage<T> = Stage(clause: Option<T>, next: Option<Token>, rest: seq<Token>)

  /** Reading a clause only moves forward in the stream. */
  predicate Advances<T>(s: Stage<T>, next: Option<Token>, rest: seq<Token>)
  {
    IsSuffix(StopSeq(s.next) + s.rest, StopSeq(next) + rest)
  }

  /** What a scan leaves, the stop word first, is a suffix of what it read. */
  lemma CutSuffix(ts: seq<Token>, stopWords: seq<Token>)
    ensures var cut := UntilOneOf(ts, stopWords);
      IsSuffix(StopSeq(cut.stop) + cut.rest, ts)
  {
    var cut := UntilOneOf(ts, stopWords);
    assert ts[|cut.tokens|..] == StopSeq(cut.stop) + cut.rest;
  }

  lemma CutAdvances(rest: seq<Token>, stopWords: seq<Token>, next: Option<Token>)
    ensures var cut := UntilOneOf(rest, stopWords);
      IsSuffix(StopSeq(cut.stop) + cut.rest, StopSeq(next) + rest)
  {
    CutSuffix(rest, stopWords);
    SuffixOfTail(StopSeq(UntilOneOf(rest, stopWords).stop) + UntilOneOf(rest, stopWords).rest,
                 StopSeq(next) + rest, |StopSeq(next)|);
  }

  /** The same after a keyword and the `by` that follows it. */
  lemma CutAdvancesPastBy(next: Option<Token>, rest: seq<Token>, stopWords: seq<Token>)
    requires next.Some? && rest != []
    ensures var cut := UntilOneOf(rest[1..], stopWords);
      IsSuffix(StopSeq(cut.stop) + cut.rest, StopSeq(next) + rest)
  {
    var tail := rest[1..];
    var cut := UntilOneOf(tail, stopWords);
    CutSuffix(tail, stopWords);
    assert (StopSeq(next) + rest)[2..] == tail;
    SuffixOfTail(StopSeq(cut.stop) + cut.rest, StopSeq(next) + rest, 2);
  }

  /** Lines 72-78. */
  function FromPart(next: Option<Token>, rest: seq<Token>): (r: Result<Stage<Expr>, ParseError>)
    ensures r.Ok? ==> Advances(r.value, next, rest)
    ensures next != Some("from") ==> r == Ok(Stage(None, next, rest))
    decreases |rest|, 1
  {
    if next == Some("from") then
      var cut := UntilOneOf(rest, FromStops);
      var from :- ParseFrom(cut.tokens);
      CutAdvances(rest, FromStops, next);
      Ok(Stage(Some(from), cut.stop, cut.rest))
    else Ok(Stage(None, next, rest))
  }

  /** Lines 80-86. */
  function WherePart(next: Option<Token>, rest: seq<Token>): (r: Result<Stage<WhereClause>, ParseError>)
    ensures r.Ok? ==> Advances(r.value, next, rest)
    ensures next != Some("where") ==> r == Ok(Stage(None, next, rest))
  {
    if next == Some("where") then
      var cut := UntilOneOf(rest, WhereStops);
      var clause :- ParseWhere(cut.tokens);
      CutAdvances(rest, WhereStops, next);
      Ok(Stage(Some(clause), cut.stop, cut.rest))
    else Ok(Stage(None, next, rest))
  }

  /** Lines 88-97: `group` must be followed by `by`. */
  function GroupByPart(next: Option<Token>, rest: seq<Token>): (r: Result<Stage<GroupByClause>, ParseError>)
    ensures r.Ok? ==> Advances(r.value, next, rest)
    ensures next != Some("group") ==> r == Ok(Stage(None, next, rest))
    ensures next == Some("group") && (rest == [] || rest[0] != "by") ==> r == Err(ParsingError("Missing BY after GROUP"))
  {
    if next == Some("group") then
      if rest == [] || rest[0] != "by" then Err(ParsingError("Missing BY after GROUP"))
      else
        var cut := UntilOneOf(rest[1..], GroupByStops);
        var clause :- ParseGroupBy(cut.tokens);
        CutAdvancesPastBy(next, rest, GroupByStops);
        Ok(Stage(Some(clause), cut.stop, cut.rest))
    else Ok(Stage(None, next, rest))
  }

  /** Lines 99-105. */
  function HavingPart(next: Option<Token>, rest: seq<Token>): (r: Result<Stage<HavingClause>, ParseError>)
    ensures r.Ok? ==> Advances(r.value, next, rest)
    ensures next != Some("having") ==> r == Ok(Stage(None, next, rest))
  {
    if next == Some("having") then
      var cut := UntilOneOf(rest, HavingStops);
      var clause :- ParseHaving(cut.tokens);
      CutAdvances(rest, HavingStops, next);
      Ok(Stage(Some(clause), cut.stop, cut.rest))
    else Ok(Stage(None, next, rest))
  }

  /** Lines 107-116: `order` must be followed by `by`. */
  function OrderByPart(next: Option<Token>, rest: seq<Token>): (r: Result<Stage<OrderByClause>, ParseError>)
    ensures r.Ok? ==> Advances(r.value, next, rest)
    ensures next != Some("order") ==> r == Ok(Stage(None, next, rest))
    ensures next == Some("order") && (rest == [] || rest[0] != "by") ==> r == Err(ParsingError("Missing BY after ORDER"))
  {
    if next == Some("order") then
      if rest == [] || rest[0] != "by" then Err(ParsingError("Missing BY after ORDER"))
      else
        var cut := UntilOneOf(rest[1..], OrderByStops);
        var clause :- ParseOrderBy(cut.tokens);
        CutAdvancesPastBy(next, rest, OrderByStops);
        Ok(Stage(Some(clause), cut.stop, cut.rest))
    else Ok(Stage(None, next, rest))
  }

  /** Lines 118-124. */
  function LimitPart(next: Option<Token>, rest: seq<Token>): (r: Result<Stage<LimitClause>, ParseError>)
    ensures r.Ok? ==> Advances(r.value, next, rest)
    ensures next != Some("limit") ==> r == Ok(Stage(None, next, rest))
  {
    if next == Some("limit") then
      var cut := UntilOneOf(rest, LimitStops);
      var clause :- ParseLimit(cut.tokens);
      CutAdvances(rest, LimitStops, next);
      Ok(Stage(Some(clause), cut.stop, cut.rest))
    else Ok(Stage(None, next, rest))
  }

  /** Lines 126-130. */
  function OffsetPart(next: Option<Token>, rest: seq<Token>): (r: Result<Stage<OffsetClause>, ParseError>)
    ensures r.Ok? ==> Advances(r.value, next, rest)
    ensures next != Some("offset") ==> r == Ok(Stage(None, next, rest))
  {
    if next == Some("offset") then
      var cut := UntilOneOf(rest, OffsetStops);
      var clause :- ParseOffset(cut.tokens);
      CutAdvances(rest, OffsetStops, next);
      Ok(Stage(Some(clause), cut.stop, cut.rest))
    else Ok(Stage(None, next, rest))
  }

  /** The optional clauses of a select statement, the token that stopped the
      last scan and the stream after it. */
  datatype Clauses = Clauses(fromStatement: Option<Expr>, whereClause: Option<WhereClause>,
                             groupByClause: Option<GroupByClause>, havingClause: Option<HavingClause>,
                             orderByClause: Option<OrderByClause>, limitClause: Option<LimitClause>,
                             offsetClause: Option<OffsetClause>, last: Option<Token>, rest: seq<Token>)

  /** Lines 72-130: each clause in its fixed order, each one only if the
      previous scan stopped on its keyword. */
  function ParseClauses(next: Option<Token>, rest: seq<Token>): (r: Result<Clauses, ParseError>)
    ensures r.Ok? ==> IsSuffix(StopSeq(r.value.last) + r.value.rest, StopSeq(next) + rest)
    decreases |rest|, 2
  {
    var from :- FromPart(next, rest);
    var where :- WherePart(from.next, from.rest);
    var groupBy :- GroupByPart(where.next, where.rest);
    var having :- HavingPart(groupBy.next, groupBy.rest);
    var orderBy :- OrderByPart(having.next, having.rest);
    var limit :- LimitPart(orderBy.next, orderBy.rest);
    var offset :- OffsetPart(limit.next, limit.rest);
    ClausesReach(StopSeq(next) + rest, StopSeq(from.next) + from.rest,
                 StopSeq(where.next) + where.rest, StopSeq(groupBy.next) + groupBy.rest,
                 StopSeq(having.next) + having.rest, StopSeq(orderBy.next) + orderBy.rest,
                 StopSeq(limit.next) + limit.rest, StopSeq(offset.next) + offset.rest);
    Ok(Clauses(from.clause, where.clause, groupBy.clause, having.clause, orderBy.clause,
               limit.clause, offset.clause, offset.next, offset.rest))
  }

  lemma ClausesReach(s0: seq<Token>, s1: seq<Token>, s2: seq<Token>, s3: seq<Token>,
                     s4: seq<Token>, s5: seq<Token>, s6: seq<Token>, s7: seq<Token>)
    requires IsSuffix(s1, s0) && IsSuffix(s2, s1) && IsSuffix(s3, s2) && IsSuffix(s4, s3)
    requires IsSuffix(s5, s4) && IsSuffix(s6, s5) && IsSuffix(s7, s6)
    ensures IsSuffix(s7, s0)
  {
    SuffixTrans(s2, s1, s0);
    SuffixTrans(s3, s2, s0);
    SuffixTrans(s4, s3, s0);
    SuffixTrans(s5, s4, s0);
    SuffixTrans(s6, s5, s0);
    SuffixTrans(s7, s6, s0);
  }

  /** A token at the head of a suffix of `ts` is a token of `ts`. */
  lemma SuffixHead(a: seq<Token>, b: seq<Token>)
    requires IsSuffix(a, b) && a != []
    ensures a[0] in b
  {
    assert b[|b| - |a|] == a[0];
  }

  /** `SelectStatementParser.parse`: the head, the select list up to the first
      keyword, then the clauses; `semi_colon` records whether the last scan
      stopped on `;`. */
  function ParseSelect(ts: seq<Token>): (r: Result<SelectStatement, ParseError>)
    ensures ts == [] ==> r == Err(EndOfTokens)
    ensures r.Ok? && r.value.semiColon ==> ";" in ts
    decreases |ts|, 3
  {
    var head :- ParseSelectHead(ts);
    SelectHeadAdvances(ts);
    var cut := UntilOneOfSeeded(head.rest, SelectKeywords, head.firstExpressionToken);
    var expressions :- ParseExpressionList(cut.tokens);
    CutSuffix(StopSeq(head.firstExpressionToken) + head.rest, SelectKeywords);
    var clauses :- ParseClauses(cut.stop, cut.rest);
    var tail := StopSeq(clauses.last) + clauses.rest;
    SuffixTrans(StopSeq(cut.stop) + cut.rest, StopSeq(head.firstExpressionToken) + head.rest, ts);
    SuffixTrans(tail, StopSeq(cut.stop) + cut.rest, ts);
    if clauses.last == Some(";") then
      SuffixHead(tail, ts);
      FromClauses(head, expressions, clauses)
    else FromClauses(head, expressions, clauses)
  }

  function FromClauses(head: Head, expressions: seq<Expr>, clauses: Clauses): (r: Result<SelectStatement, ParseError>)
    ensures r.Ok? && (r.value.semiColon <==> clauses.last == Some(";"))
  {
    Ok(SelectStatement(
      head.selectAll, head.selectDistinct, head.selectDistinctOn, expressions,
      clauses.fromStatement, clauses.whereClause, clauses.groupByClause, clauses.havingClause,
      clauses.orderByClause, clauses.limitClause, clauses.offsetClause, clauses.last == Some(";")))
  }

  /** `SQLStatementParser.parse`: the statement must start with `select`. */
  function ParseStatement(ts: seq<Token>): (r: Result<SelectStatement, ParseError>)
    ensures ts == [] ==> r == Err(EndOfTokens)
    ensures ts != [] && ts[0] != "select" ==> r == Err(ParsingError(""))
    decreases |ts|, 4
  {
    if ts == [] then Err(EndOfTokens)
    else if ts[0] == "select" then ParseSelect(ts[1..])
    else Err(ParsingError(""))
  }
}
