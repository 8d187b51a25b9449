/**
 * What the parser of sqlvalidator/grammar/lexer.py does on the shapes of
 * input its tests and its callers rely on: how a leaf is chosen, how
 * arithmetic nests, when a trailing word becomes an alias, where an
 * expression list is cut, and which statements are rejected.
 */
module LexerProperties {
  import opened Basics
  import opened Tokeniser
  import opened Sql
  import opened Lexer

  // ================================================================ scans

  lemma CutAtStop(t: Token, ts: seq<Token>, stopWords: seq<Token>)
    requires t in stopWords
    ensures UntilOneOf([t] + ts, stopWords) == Cut([], Some(t), ts)
  {
    assert ([t] + ts)[1..] == ts;
  }

  lemma CutPast(t: Token, ts: seq<Token>, stopWords: seq<Token>)
    requires t !in stopWords
    ensures UntilOneOf([t] + ts, stopWords) ==
      (var r := UntilOneOf(ts, stopWords); Cut([t] + r.tokens, r.stop, r.rest))
  {
    assert ([t] + ts)[1..] == ts;
  }

  /** A scan without stop words takes everything. */
  lemma {:induction false} CutNoStops(ts: seq<Token>)
    ensures UntilOneOf(ts, []) == Cut(ts, None, [])
  {
    if ts != [] {
      CutNoStops(ts[1..]);
      CutPast(ts[0], ts[1..], []);
      assert [ts[0]] + ts[1..] == ts;
    }
  }

  /** Starting from `depth` open parentheses, a balanced run followed by `)`
      is taken whole and the `)` is consumed. */
  lemma {:induction false} ClosingAfter(args: seq<Token>, tail: seq<Token>, depth: nat)
    requires NeverBelow(args, depth) && depth + Depth(args) == 0
    ensures ClosingFrom(args + [")"] + tail, depth) == Taken(args, tail)
  {
    var ts := args + [")"] + tail;
    if args == [] {
      assert ts == [")"] + tail;
      assert ts[1..] == tail;
    } else {
      assert ts[0] == args[0];
      assert depth + Depth(args[..1]) >= 0;
      assert args[..1] == [args[0]];
      var d: nat := depth + Delta(args[0]);
      forall k | 0 <= k <= |args[1..]| ensures d + Depth(args[1..][..k]) >= 0 {
        DepthPrefix(args[0], args[1..], k + 1);
        assert [args[0]] + args[1..] == args;
        assert depth + Depth(args[..k + 1]) >= 0;
      }
      assert NeverBelow(args[1..], d);
      assert ts[1..] == args[1..] + [")"] + tail;
      ClosingAfter(args[1..], tail, d);
      assert [args[0]] + args[1..] == args;
    }
  }

  /** `get_tokens_until_closing_parenthesis` returns exactly a balanced
      argument list followed by its closing parenthesis. */
  lemma ClosingOfBalanced(args: seq<Token>, tail: seq<Token>)
    requires NeverBelow(args, 0) && Depth(args) == 0
    ensures UntilClosingParenthesis(args + [")"] + tail) == Taken(args, tail)
  {
    ClosingAfter(args, tail, 0);
  }

  // ================================================================ expression lists

  /** Position `j` of the list is a separating comma: a comma after the
      first token at parenthesis count 0. */
  predicate SplitsAt(ts: seq<Token>, count: int, j: int)
  {
    1 <= j < |ts| && ts[j] == "," && count + Depth(ts[..j]) == 0
  }

  lemma SplitsAtShift(ts: seq<Token>, count: int, j: int)
    requires |ts| >= 2 && j >= 1
    ensures SplitsAt(ts, count, j + 1) <==> SplitsAt(ts[1..], count + Delta(ts[0]), j)
  {
    if j + 1 < |ts| {
      DepthPrefix(ts[0], ts[1..], j + 1);
      assert [ts[0]] + ts[1..] == ts;
    }
  }

  lemma FirstDepth(ts: seq<Token>)
    requires ts != []
    ensures Depth(ts[..1]) == Delta(ts[0])
  {
    assert ts[..1] == [ts[0]];
  }

  /** Without a separating comma the whole list is one item: commas inside
      parentheses stay in the item. */
  lemma {:induction false} ItemsUnsplit(ts: seq<Token>, current: seq<Token>, count: int)
    requires ts != []
    requires forall j :: 1 <= j < |ts| ==> !SplitsAt(ts, count, j)
    ensures Items(ts, current, count) == [current + ts]
    decreases |ts|
  {
    var item := current + [ts[0]];
    var depth := count + Delta(ts[0]);
    if |ts| == 1 {
      assert current + ts == item;
    } else {
      FirstDepth(ts);
      assert !SplitsAt(ts, count, 1);
      forall j | 1 <= j < |ts[1..]| ensures !SplitsAt(ts[1..], depth, j) {
        SplitsAtShift(ts, count, j);
      }
      ItemsUnsplit(ts[1..], item, depth);
      assert item + ts[1..] == current + ts;
    }
  }

  /** The first separating comma ends the first item and is dropped; the rest
      is split from count 0. */
  lemma {:induction false} ItemsSplit(ts: seq<Token>, current: seq<Token>, count: int, j: int)
    requires SplitsAt(ts, count, j)
    requires forall k :: 1 <= k < j ==> !SplitsAt(ts, count, k)
    ensures Items(ts, current, count) == [current + ts[..j]] + Items(ts[j + 1..], [], 0)
    decreases j
  {
    var item := current + [ts[0]];
    var depth := count + Delta(ts[0]);
    FirstDepth(ts);
    if j == 1 {
      assert ts[..1] == [ts[0]];
    } else {
      assert !SplitsAt(ts, count, 1);
      SplitsAtShift(ts, count, j - 1);
      forall k | 1 <= k < j - 1 ensures !SplitsAt(ts[1..], depth, k) {
        SplitsAtShift(ts, count, k);
      }
      ItemsSplit(ts[1..], item, depth, j - 1);
      assert item + ts[1..][..j - 1] == current + ts[..j];
      assert ts[1..][j..] == ts[j + 1..];
    }
  }

  /** No item of an expression list is empty. */
  lemma {:induction false} ItemsNonEmpty(ts: seq<Token>, current: seq<Token>, count: int)
    ensures forall i :: 0 <= i < |Items(ts, current, count)| ==> Items(ts, current, count)[i] != []
    decreases |ts|
  {
    if |ts| >= 2 {
      var item := current + [ts[0]];
      var depth := count + Delta(ts[0]);
      if ts[1] == "," && depth == 0 {
        ItemsNonEmpty(ts[2..], [], depth);
      } else {
        ItemsNonEmpty(ts[1..], item, depth);
      }
    }
  }

  lemma DepthAppend(xs: seq<Token>, ys: seq<Token>)
    ensures Depth(xs + ys) == Depth(xs) + Depth(ys)
  {
    if xs != [] {
      assert (xs + ys)[1..] == xs[1..] + ys;
      DepthAppend(xs[1..], ys);
    } else {
      assert xs + ys == ys;
    }
  }

  lemma DepthOne(t: Token)
    ensures Depth([t]) == Delta(t)
  {
    assert [t][1..] == [];
  }

  lemma DepthSnoc(ts: seq<Token>, k: nat)
    requires k < |ts|
    ensures Depth(ts[..k + 1]) == Depth(ts[..k]) + Delta(ts[k])
  {
    assert ts[..k + 1] == ts[..k] + [ts[k]];
    DepthAppend(ts[..k], [ts[k]]);
    DepthOne(ts[k]);
  }

  /** A comma inside a call's parentheses does not separate; the one after
      it does. */
  lemma ItemsNestedComma(f: Token, a: Token, b: Token, c: Token)
    requires f != "," && a != "," && b != ","
    requires f != "(" && f != ")" && a != "(" && a != ")" && b != "(" && b != ")"
    ensures SplitItems([f, "(", a, ",", b, ")", ",", c]) == [[f, "(", a, ",", b, ")"], [c]]
  {
    var ts := [f, "(", a, ",", b, ")", ",", c];
    assert ts[..0] == [];
    DepthSnoc(ts, 0);
    DepthSnoc(ts, 1);
    DepthSnoc(ts, 2);
    DepthSnoc(ts, 3);
    DepthSnoc(ts, 4);
    DepthSnoc(ts, 5);
    assert Depth(ts[..6]) == 0;
    forall k | 1 <= k < 6 ensures !SplitsAt(ts, 0, k) {
      if k != 3 {
        assert ts[k] != ",";
      }
    }
    ItemsSplit(ts, [], 0, 6);
    assert ts[7..] == [c];
    assert [] + ts[..6] == [f, "(", a, ",", b, ")"];
    assert Items([c], [], 0) == [[c]] by { assert [] + [c] == [c]; }
  }

  /** The token after a separating comma always starts the next item, even a
      comma, and a trailing separating comma is dropped. */
  lemma ItemsAfterComma(a: Token)
    requires a != "(" && a != ")"
    ensures SplitItems([a, ",", ","]) == [[a], [","]]
    ensures SplitItems([a, ","]) == [[a]]
  {
    assert [] + [a] == [a];
    assert Delta(a) == 0;
    assert Items([","], [], 0) == [[","]] by { assert [] + [","] == [","]; }
    assert [a, ",", ","][2..] == [","];
    assert Items([a, ",", ","], [], 0) == [[a]] + Items([","], [], 0);
    assert [a, ","][2..] == [];
    assert Items([a, ","], [], 0) == [[a]] + Items([], [], 0);
    assert [[a]] + [] == [[a]];
  }

  // ================================================================ leaves

  lemma LeafOfPlain(main: Token, ts: seq<Token>)
    requires PlainWord(main)
    ensures ParseLeaf(main, ts) == Ok(Leaf(None, ts))
  {
  }

  lemma LeafOfDigits(d: Token, ts: seq<Token>)
    requires IsDigits(d)
    ensures ParseLeaf(d, ts) == Ok(Leaf(Some(Integer(DigitText(d))), ts))
  {
    assert !IsQuote(d) by { assert IsDigitChar(d[0]); }
  }

  /** A name is decided by the token after it (lines 304-314). */
  lemma OperandOfPlain(c: Token, ts: seq<Token>)
    requires PlainWord(c)
    ensures ParseOperand([c] + ts) ==
      (match ParseLookAhead(c, Pull(ts).next, Pull(ts).rest)
       case Err(e) => Err(e)
       case Ok(head) => ContinueArithmetic(head.expression, head.next, head.rest))
  {
    assert ([c] + ts)[1..] == ts;
    LeafOfPlain(c, ts);
  }

  lemma OperandInteger(d: Token, ts: seq<Token>)
    requires IsDigits(d)
    ensures ParseOperand([d] + ts) == ContinueArithmetic(Integer(DigitText(d)), Pull(ts).next, Pull(ts).rest)
  {
    assert ([d] + ts)[1..] == ts;
    LeafOfDigits(d, ts);
  }

  lemma LookAheadNegative(d: Token, ts: seq<Token>)
    requires IsDigits(d)
    ensures ParseLookAhead("-", Some(d), ts) ==
      Ok(Operand(Integer(Number(-(DigitsValue(d) as int))), Pull(ts).next, Pull(ts).rest))
  {
    assert d != "(" by { assert IsDigitChar(d[0]); }
  }

  lemma OperandNegative(d: Token, ts: seq<Token>)
    requires IsDigits(d)
    ensures ParseOperand(["-", d] + ts) ==
      ContinueArithmetic(Integer(Number(-(DigitsValue(d) as int))), Pull(ts).next, Pull(ts).rest)
  {
    assert !IsDigits("-") by { assert !IsDigitChar("-"[0]); }
    assert ["-", d] + ts == ["-"] + ([d] + ts);
    OperandOfPlain("-", [d] + ts);
    assert Pull([d] + ts) == Pulled(Some(d), ts) by { assert ([d] + ts)[1..] == ts; }
    LookAheadNegative(d, ts);
  }

  lemma OperandColumn(c: Token, ts: seq<Token>)
    requires PlainWord(c)
    requires ts == [] || (ts[0] != "(" && !(c == "-" && IsDigits(ts[0])))
    ensures ParseOperand([c] + ts) == ContinueArithmetic(Column(c), Pull(ts).next, Pull(ts).rest)
  {
    OperandOfPlain(c, ts);
  }

  /** A name followed by `(` is a call over the parsed argument list. */
  lemma OperandCall(f: Token, ts: seq<Token>)
    requires PlainWord(f)
    ensures ParseOperand([f, "("] + ts) ==
      (var taken := UntilClosingParenthesis(ts);
       match ParseExpressionList(taken.tokens)
       case Err(e) => Err(e)
       case Ok(arguments) => ContinueArithmetic(FunctionCall(f, arguments), Pull(taken.rest).next, Pull(taken.rest).rest))
  {
    assert [f, "("] + ts == [f] + (["("] + ts);
    OperandOfPlain(f, ["("] + ts);
    assert Pull(["("] + ts) == Pulled(Some("("), ts) by { assert (["("] + ts)[1..] == ts; }
  }

  /** `f(args) tail` with a balanced argument list. */
  lemma OperandCallBalanced(f: Token, args: seq<Token>, tail: seq<Token>)
    requires PlainWord(f) && NeverBelow(args, 0) && Depth(args) == 0
    ensures ParseOperand([f, "("] + (args + [")"] + tail)) ==
      (match ParseExpressionList(args)
       case Err(e) => Err(e)
       case Ok(arguments) => ContinueArithmetic(FunctionCall(f, arguments), Pull(tail).next, Pull(tail).rest))
  {
    OperandCall(f, args + [")"] + tail);
    ClosingOfBalanced(args, tail);
  }

  /** A quote starts a string literal: the next token is its content and the
      one after must close it. */
  lemma OperandString(q: Token, ts: seq<Token>)
    requires IsQuote(q)
    ensures ParseOperand([q] + ts) ==
      (match ParseString(ts, q)
       case Err(e) => Err(e)
       case Ok(s) => ContinueArithmetic(s.expression, Pull(s.rest).next, Pull(s.rest).rest))
  {
    assert ([q] + ts)[1..] == ts;
  }

  // ================================================================ arithmetic

  /** An arithmetic symbol after a name takes the whole operand that follows. */
  lemma ArithmeticStep(a: Token, op: Token, ts: seq<Token>)
    requires PlainWord(a) && op in ArithmeticSymbols
    ensures ParseOperand([a, op] + ts) ==
      (match ParseOperand(ts)
       case Err(e) => Err(e)
       case Ok(right) => Ok(Operand(ArithmaticOperator(op, Column(a), right.expression), right.next, right.rest)))
  {
    assert [a, op] + ts == [a] + ([op] + ts);
    assert !IsDigits(op) by { assert !IsDigitChar(op[0]); }
    OperandColumn(a, [op] + ts);
    assert ([op] + ts)[1..] == ts;
  }

  /** No precedence: `a op1 b op2 c` is `a op1 (b op2 c)`. */
  lemma ArithmeticRightNested(a: Token, op1: Token, b: Token, op2: Token, c: Token)
    requires PlainWord(a) && PlainWord(b) && PlainWord(c)
    requires op1 in ArithmeticSymbols && op2 in ArithmeticSymbols
    ensures ParseOperand([a, op1, b, op2, c]) ==
      Ok(Operand(ArithmaticOperator(op1, Column(a), ArithmaticOperator(op2, Column(b), Column(c))), None, []))
  {
    assert [a, op1, b, op2, c] == [a, op1] + [b, op2, c];
    assert [b, op2, c] == [b, op2] + [c];
    ArithmeticStep(a, op1, [b, op2, c]);
    ArithmeticStep(b, op2, [c]);
    OperandColumn(c, []);
    assert [c] + [] == [c];
  }

  // ================================================================ aliases

  /** `true` and `false` are boolean leaves and consume nothing more. */
  lemma LeafOfBoolean(b: Token, ts: seq<Token>)
    requires b in BooleanValues
    ensures ParseLeaf(b, ts) == Ok(Leaf(Some(Boolean(b)), ts))
  {
    assert !IsDigits(b) by { assert !IsDigitChar(b[0]); }
  }

  /** `(` with balanced contents and its `)` is a parenthesised list over the parsed contents. */
  lemma LeafOfParenthesis(args: seq<Token>, tail: seq<Token>)
    requires NeverBelow(args, 0) && Depth(args) == 0
    ensures ParseExpressionList(args).Err? ==> ParseLeaf("(", args + [")"] + tail) == Err(ParseExpressionList(args).error)
    ensures ParseExpressionList(args).Ok? ==>
      ParseLeaf("(", args + [")"] + tail) == Ok(Leaf(Some(Parenthesis(ParseExpressionList(args).value)), tail))
  {
    ClosingOfBalanced(args, tail);
  }

  /** A condition keyword after the first operand takes the next operand as its
      right side; the alias check comes last. */
  lemma ExprCondition(ts: seq<Token>, left: Expr, p: Token, rest: seq<Token>, right: Operand)
    requires ParseOperand(ts) == Ok(Operand(left, Some(p), rest)) && p in ConditionPredicates
    requires ParseOperand(rest) == Ok(right)
    requires right.next.None? || right.next.value !in BooleanPredicates
    ensures ParseExpr(ts) == WithAlias(Condition(left, p, right.expression), right.next, right.rest)
  {
  }

  /** A condition whose right side fails fails the same way. */
  lemma ExprConditionErr(ts: seq<Token>, left: Expr, p: Token, rest: seq<Token>, e: ParseError)
    requires ParseOperand(ts) == Ok(Operand(left, Some(p), rest)) && p in ConditionPredicates
    requires ParseOperand(rest) == Err(e)
    ensures ParseExpr(ts) == Err(e)
  {
  }

  /** A condition followed by `and`/`or` becomes the left side of the boolean condition. */
  lemma ExprConditionThenBoolean(ts: seq<Token>, left: Expr, p: Token, rest: seq<Token>, right: Operand, more: Partial)
    requires ParseOperand(ts) == Ok(Operand(left, Some(p), rest)) && p in ConditionPredicates
    requires ParseOperand(rest) == Ok(right) && right.next.Some? && right.next.value in BooleanPredicates
    requires ParseExpr(right.rest) == Ok(more)
    ensures ParseExpr(ts) ==
      WithAlias(BooleanCondition(right.next.value, Condition(left, p, right.expression), more.expression),
                Pull(more.rest).next, Pull(more.rest).rest)
  {
  }

  /** `and`/`or` after the first operand takes a whole expression as its right
      side, and the token after that expression is read afresh. */
  lemma ExprBooleanCondition(ts: seq<Token>, left: Expr, b: Token, rest: seq<Token>, more: Partial)
    requires ParseOperand(ts) == Ok(Operand(left, Some(b), rest)) && b in BooleanPredicates
    requires ParseExpr(rest) == Ok(more)
    ensures ParseExpr(ts) == WithAlias(BooleanCondition(b, left, more.expression), Pull(more.rest).next, Pull(more.rest).rest)
  {
    assert b !in ConditionPredicates;
  }

  /** A boolean condition whose right side fails fails the same way. */
  lemma ExprBooleanConditionErr(ts: seq<Token>, left: Expr, b: Token, rest: seq<Token>, e: ParseError)
    requires ParseOperand(ts) == Ok(Operand(left, Some(b), rest)) && b in BooleanPredicates
    requires ParseExpr(rest) == Err(e)
    ensures ParseExpr(ts) == Err(e)
  {
    assert b !in ConditionPredicates;
  }

  /** An operand not followed by a condition or boolean keyword goes straight
      to the alias step. */
  lemma ExprOfOperand(ts: seq<Token>, e: Expr, next: Option<Token>, rest: seq<Token>)
    requires ParseOperand(ts) == Ok(Operand(e, next, rest))
    requires next.None? || (next.value !in ConditionPredicates && next.value !in BooleanPredicates)
    ensures ParseExpr(ts) == WithAlias(e, next, rest)
  {
  }

  lemma ColumnAlone(c: Token)
    requires PlainWord(c)
    ensures ParseExpr([c]) == Ok(Partial(Column(c), []))
    ensures ParseExpressionList([c]) == Ok([Column(c)])
  {
    OperandColumn(c, []);
    assert [c] + [] == [c];
    ExprOfOperand([c], Column(c), None, []);
    ParseItemsOne([c]);
    assert Items([c], [], 0) == [[c]] by { assert [] + [c] == [c]; }
  }

  /** `as` is neither an operator, a condition keyword nor a terminator. */
  lemma AsIsInert()
    ensures "as" !in ArithmeticSymbols && "as" !in ConditionPredicates && "as" !in BooleanPredicates
    ensures "as" !in AliasStops && "as" != "(" && !IsDigits("as")
  {
    assert !IsDigitChar("as"[0]);
  }

  /** `c AS a`. */
  lemma ExprAliasAs(c: Token, a: Token, ts: seq<Token>)
    requires PlainWord(c)
    ensures ParseExpr([c, "as", a] + ts) == Ok(Partial(Alias(Column(c), a, true), ts))
  {
    assert [c, "as", a] + ts == [c] + (["as", a] + ts);
    AsIsInert();
    OperandColumn(c, ["as", a] + ts);
    assert (["as", a] + ts)[1..] == [a] + ts;
    ExprOfOperand([c, "as", a] + ts, Column(c), Some("as"), [a] + ts);
    assert ([a] + ts)[1..] == ts;
  }

  /** `c a` with a plain following word: an alias without `AS`. */
  lemma ExprAliasBare(c: Token, a: Token, ts: seq<Token>)
    requires PlainWord(c) && a != "(" && a != "as" && !(c == "-" && IsDigits(a))
    requires a !in AliasStops && a !in ArithmeticSymbols && a !in ConditionPredicates && a !in BooleanPredicates
    ensures ParseExpr([c, a] + ts) == Ok(Partial(Alias(Column(c), a, false), ts))
  {
    assert [c, a] + ts == [c] + ([a] + ts);
    OperandColumn(c, [a] + ts);
    assert ([a] + ts)[1..] == ts;
    ExprOfOperand([c, a] + ts, Column(c), Some(a), ts);
  }

  /** `)`, a quote or `;` after an expression ends it and is consumed. */
  lemma ExprStops(c: Token, t: Token, ts: seq<Token>)
    requires PlainWord(c) && t in AliasStops
    ensures ParseExpr([c, t] + ts) == Ok(Partial(Column(c), ts))
  {
    assert [c, t] + ts == [c] + ([t] + ts);
    StopIsInert(t);
    OperandColumn(c, [t] + ts);
    assert ([t] + ts)[1..] == ts;
    ExprOfOperand([c, t] + ts, Column(c), Some(t), ts);
  }

  /** `AS` with nothing after it runs out of tokens. */
  lemma ExprAsAtEnd(c: Token)
    requires PlainWord(c)
    ensures ParseExpr([c, "as"]) == Err(EndOfTokens)
  {
    assert [c, "as"] == [c] + ["as"];
    AsIsInert();
    OperandColumn(c, ["as"]);
    assert ["as"][1..] == [];
    ExprOfOperand([c, "as"], Column(c), Some("as"), []);
  }

  // ================================================================ strings

  lemma StringOperand(q: Token, v: Token, ts: seq<Token>)
    requires IsQuote(q)
    ensures ParseOperand([q, v, q] + ts) == ContinueArithmetic(String(v, q), Pull(ts).next, Pull(ts).rest)
  {
    assert [q, v, q] + ts == [q] + ([v, q] + ts);
    OperandString(q, [v, q] + ts);
    assert ([v, q] + ts)[2..] == ts;
  }

  /** The tokens that end an expression are neither operators nor keywords. */
  lemma StopIsInert(t: Token)
    requires t in AliasStops
    ensures t !in ArithmeticSymbols && t !in ConditionPredicates && t !in BooleanPredicates
    ensures t != "(" && t != "as" && !IsDigits(t)
  {
    assert !IsDigitChar(t[0]);
  }

  lemma ExprString(q: Token, v: Token, ts: seq<Token>)
    requires IsQuote(q)
    requires ts == [] || ts[0] in AliasStops
    ensures ParseExpr([q, v, q] + ts) == Ok(Partial(String(v, q), if ts == [] then [] else ts[1..]))
  {
    StringOperand(q, v, ts);
    if ts == [] {
      assert ContinueArithmetic(String(v, q), None, []) == Ok(Operand(String(v, q), None, []));
      ExprOfOperand([q, v, q] + ts, String(v, q), None, []);
    } else {
      var t := ts[0];
      assert Pull(ts) == Pulled(Some(t), ts[1..]);
      StopIsInert(t);
      assert ContinueArithmetic(String(v, q), Some(t), ts[1..]) == Ok(Operand(String(v, q), Some(t), ts[1..]));
      ExprOfOperand([q, v, q] + ts, String(v, q), Some(t), ts[1..]);
    }
  }

  lemma ExprStringAlias(q: Token, v: Token, a: Token)
    requires IsQuote(q)
    requires a != "as" && a !in AliasStops && a !in ArithmeticSymbols && a !in ConditionPredicates && a !in BooleanPredicates
    ensures ParseExpr([q, v, q, a]) == Ok(Partial(Alias(String(v, q), a, false), []))
  {
    StringOperand(q, v, [a]);
    assert [q, v, q] + [a] == [q, v, q, a];
    assert Pull([a]) == Pulled(Some(a), []);
    ExprOfOperand([q, v, q, a], String(v, q), Some(a), []);
  }

  lemma ExprStringUnterminated(q: Token, v: Token)
    requires IsQuote(q)
    ensures ParseExpr([q, v]) == Err(EndOfTokens)
  {
    assert [q, v] == [q] + [v];
    OperandString(q, [v]);
  }

  lemma ExprStringMismatch(q: Token, v: Token, e: Token, ts: seq<Token>)
    requires IsQuote(q) && e != q
    ensures ParseExpr([q, v, e] + ts) == Err(MissingEndQuote(q))
  {
    assert [q, v, e] + ts == [q] + ([v, e] + ts);
    OperandString(q, [v, e] + ts);
  }

  // ================================================================ statements

  /** A select-list word that neither starts a literal nor is a keyword. */
  predicate ListWord(c: Token)
  {
    PlainWord(c) && c !in SelectKeywords && c != "all" && c != "distinct" && c != "," && c != ")"
  }

  lemma HeadOfWord(c: Token, ts: seq<Token>)
    requires c != "all" && c != "distinct"
    ensures ParseSelectHead([c] + ts) == Ok(Head(false, false, None, Some(c), ts))
  {
    assert ([c] + ts)[1..] == ts;
  }

  lemma StatementOfSelect(xs: seq<Token>)
    ensures ParseStatement(["select"] + xs) == ParseSelect(xs)
  {
    assert (["select"] + xs)[1..] == xs;
  }

  /** `SelectStatementParser.parse` once its head, select list and clauses are known. */
  lemma SelectOf(ts: seq<Token>, head: Head, expressions: seq<Expr>, clauses: Result<Clauses, ParseError>)
    requires ParseSelectHead(ts) == Ok(head)
    requires ParseExpressionList(UntilOneOfSeeded(head.rest, SelectKeywords, head.firstExpressionToken).tokens) == Ok(expressions)
    requires (var cut := UntilOneOfSeeded(head.rest, SelectKeywords, head.firstExpressionToken);
              ParseClauses(cut.stop, cut.rest) == clauses)
    ensures clauses.Ok? ==> ParseSelect(ts) == FromClauses(head, expressions, clauses.value)
    ensures clauses.Err? ==> ParseSelect(ts) == Err(clauses.error)
  {
  }

  /** After `;` or at the end of input there are no clauses. */
  lemma ClausesNone(next: Option<Token>, rest: seq<Token>)
    requires next.None? || next == Some(";")
    ensures ParseClauses(next, rest) == Ok(Clauses(None, None, None, None, None, None, None, next, rest))
  {
    AfterFrom(next, rest, None);
  }

  /** Once the from-clause is read, a stop that starts no later clause ends
      the clauses. */
  lemma AfterFrom(next: Option<Token>, rest: seq<Token>, from: Option<Expr>)
    requires FromPart(next, rest).Ok? && FromPart(next, rest).value.clause == from
    requires var last := FromPart(next, rest).value.next; last.None? || last == Some(";")
    ensures var s := FromPart(next, rest).value;
      ParseClauses(next, rest) == Ok(Clauses(from, None, None, None, None, None, None, s.next, s.rest))
  {
    var s := FromPart(next, rest).value;
    assert WherePart(s.next, s.rest) == Ok(Stage(None, s.next, s.rest));
    assert GroupByPart(s.next, s.rest) == Ok(Stage(None, s.next, s.rest));
    assert HavingPart(s.next, s.rest) == Ok(Stage(None, s.next, s.rest));
    assert OrderByPart(s.next, s.rest) == Ok(Stage(None, s.next, s.rest));
    assert LimitPart(s.next, s.rest) == Ok(Stage(None, s.next, s.rest));
    assert OffsetPart(s.next, s.rest) == Ok(Stage(None, s.next, s.rest));
  }

  lemma ClausesGroupNoBy(ys: seq<Token>)
    requires ys == [] || ys[0] != "by"
    ensures ParseClauses(Some("group"), ys) == Err(ParsingError("Missing BY after GROUP"))
  {
    assert FromPart(Some("group"), ys) == Ok(Stage(None, Some("group"), ys));
    assert WherePart(Some("group"), ys) == Ok(Stage(None, Some("group"), ys));
    assert GroupByPart(Some("group"), ys).Err?;
  }

  lemma ClausesOrderNoBy(ys: seq<Token>)
    requires ys == [] || ys[0] != "by"
    ensures ParseClauses(Some("order"), ys) == Err(ParsingError("Missing BY after ORDER"))
  {
    assert FromPart(Some("order"), ys) == Ok(Stage(None, Some("order"), ys));
    assert WherePart(Some("order"), ys) == Ok(Stage(None, Some("order"), ys));
    assert GroupByPart(Some("order"), ys) == Ok(Stage(None, Some("order"), ys));
    assert HavingPart(Some("order"), ys) == Ok(Stage(None, Some("order"), ys));
    assert OrderByPart(Some("order"), ys).Err?;
  }

  lemma FromOfWord(t: Token)
    requires t != "(" && !IsQuote(t)
    ensures ParseFrom([t]) == Ok(Table(Bare(t)))
  {
    assert [t][1..] == [];
  }

  /** `FROM t AS a`. */
  lemma FromAliasAs(t: Token, a: Token)
    requires t != "(" && !IsQuote(t)
    ensures ParseFrom([t, "as", a]) == Ok(Alias(Table(Bare(t)), a, true))
  {
    assert [t, "as", a][1..] == ["as", a];
    assert Pull(["as", a]) == Pulled(Some("as"), [a]);
  }

  /** `FROM t a`, the alias without `as`. */
  lemma FromAliasBare(t: Token, a: Token)
    requires t != "(" && !IsQuote(t) && a != "as"
    ensures ParseFrom([t, a]) == Ok(Alias(Table(Bare(t)), a, false))
  {
    assert [t, a][1..] == [a];
    assert Pull([a]) == Pulled(Some(a), []);
  }

  /** A quoted table name is a string literal in the table position. */
  lemma FromQuoted(q: Token, v: Token)
    requires IsQuote(q)
    ensures ParseFrom([q, v, q]) == Ok(Table(Quoted(String(v, q))))
  {
    var ts := [q, v, q];
    assert ts[0] == q && ts[1..] == [v, q];
    assert ParseString([v, q], q) == Ok(Partial(String(v, q), []));
  }

  /** A quoted table name closed by another token is the string parser's error. */
  lemma FromQuotedMismatch(q: Token, v: Token, w: Token)
    requires IsQuote(q) && w != q
    ensures ParseFrom([q, v, w]) == Err(MissingEndQuote(q))
  {
    var ts := [q, v, w];
    assert ts[0] == q && ts[1..] == [v, w];
    assert ParseString([v, w], q) == Err(MissingEndQuote(q));
  }

  /** `FROM (select ...)`: balanced tokens in parentheses are parsed as a
      statement of their own; a failure of that statement is the error. */
  lemma FromSubquery(inner: seq<Token>)
    requires NeverBelow(inner, 0) && Depth(inner) == 0
    ensures ParseStatement(inner).Ok? ==> ParseFrom(["("] + inner + [")"]) == Ok(Parenthesis([Query(ParseStatement(inner).value)]))
    ensures ParseStatement(inner).Err? ==> ParseFrom(["("] + inner + [")"]) == Err(ParseStatement(inner).error)
  {
    var ts := ["("] + inner + [")"];
    assert ts[0] == "(" && ts[1..] == inner + [")"] + [];
    ClosingOfBalanced(inner, []);
    assert Pull([]) == Pulled(None, []);
  }

  /** Tokens without parentheses are balanced. */
  lemma {:induction false} DepthOfParenFree(xs: seq<Token>)
    requires forall i :: 0 <= i < |xs| ==> xs[i] != "(" && xs[i] != ")"
    ensures Depth(xs) == 0
  {
    if xs != [] {
      DepthOfParenFree(xs[1..]);
    }
  }

  lemma ParenFreeBalanced(xs: seq<Token>)
    requires forall i :: 0 <= i < |xs| ==> xs[i] != "(" && xs[i] != ")"
    ensures NeverBelow(xs, 0) && Depth(xs) == 0
  {
    forall k | 0 <= k <= |xs| ensures 0 + Depth(xs[..k]) >= 0 {
      DepthOfParenFree(xs[..k]);
    }
    DepthOfParenFree(xs);
  }

  /** `select c from t` without a final `;`. */
  lemma SelectFromOpen(c: Token, t: Token)
    requires ListWord(c) && t != "(" && !IsQuote(t) && t !in FromStops
    ensures ParseStatement(["select", c, "from", t]) ==
      Ok(SelectStatement(false, false, None, [Column(c)], Some(Table(Bare(t))), None, None, None, None, None, None, false))
  {
    assert ["select", c, "from", t] == ["select"] + ([c, "from"] + [t]);
    StatementOfSelect([c, "from"] + [t]);
    ListUpTo(c, "from", [t]);
    assert [t] == [t] + [];
    CutPast(t, [], FromStops);
    assert UntilOneOf([t], FromStops) == Cut([t], None, []);
    FromOfWord(t);
    assert FromPart(Some("from"), [t]) == Ok(Stage(Some(Table(Bare(t))), None, []));
    ClausesOnlyFrom(Some("from"), [t], Some(Table(Bare(t))), None, []);
    SelectOf([c, "from"] + [t], Head(false, false, None, Some(c), ["from"] + [t]), [Column(c)],
             Ok(Clauses(Some(Table(Bare(t))), None, None, None, None, None, None, None, [])));
  }

  /** `from (select c from t)`: the sub-query of a from clause is the
      statement in the parentheses, without a semicolon. */
  lemma FromSubqueryColumn(c: Token, t: Token)
    requires ListWord(c) && t != "(" && t != ")" && !IsQuote(t) && t !in FromStops
    ensures ParseFrom(["("] + ["select", c, "from", t] + [")"]) == Ok(Parenthesis([Query(
      SelectStatement(false, false, None, [Column(c)], Some(Table(Bare(t))), None, None, None, None, None, None, false))]))
  {
    var inner := ["select", c, "from", t];
    ParenFreeBalanced(inner);
    SelectFromOpen(c, t);
    FromSubquery(inner);
  }

  /** A from-clause that ends the statement is its only clause. */
  lemma ClausesOnlyFrom(next: Option<Token>, rest: seq<Token>, from: Option<Expr>, last: Option<Token>, tail: seq<Token>)
    requires FromPart(next, rest) == Ok(Stage(from, last, tail))
    requires last.None? || last == Some(";")
    ensures ParseClauses(next, rest) == Ok(Clauses(from, None, None, None, None, None, None, last, tail))
  {
    AfterFrom(next, rest, from);
  }

  lemma ClausesFrom(t: Token)
    requires t != "(" && !IsQuote(t) && t !in FromStops
    ensures ParseClauses(Some("from"), [t, ";"]) ==
      Ok(Clauses(Some(Table(Bare(t))), None, None, None, None, None, None, Some(";"), []))
  {
    assert [t, ";"] == [t] + ([";"] + []);
    CutPast(t, [";"] + [], FromStops);
    CutAtStop(";", [], FromStops);
    assert UntilOneOf([t, ";"], FromStops) == Cut([t], Some(";"), []);
    FromOfWord(t);
    assert FromPart(Some("from"), [t, ";"]) == Ok(Stage(Some(Table(Bare(t))), Some(";"), []));
    ClausesOnlyFrom(Some("from"), [t, ";"], Some(Table(Bare(t))), Some(";"), []);
  }

  /** The select list of `select c ...` up to the first keyword `k`. */
  lemma ListUpTo(c: Token, k: Token, ys: seq<Token>)
    requires ListWord(c) && k in SelectKeywords
    ensures var head := ParseSelectHead([c, k] + ys);
      && head == Ok(Head(false, false, None, Some(c), [k] + ys))
      && UntilOneOfSeeded(head.value.rest, SelectKeywords, head.value.firstExpressionToken) == Cut([c], Some(k), ys)
      && ParseExpressionList([c]) == Ok([Column(c)])
  {
    assert [c, k] + ys == [c] + ([k] + ys);
    HeadOfWord(c, [k] + ys);
    assert StopSeq(Some(c)) + ([k] + ys) == [c] + ([k] + ys);
    CutPast(c, [k] + ys, SelectKeywords);
    CutAtStop(k, ys, SelectKeywords);
    ColumnAlone(c);
  }

  /** `select c`: no `;`, so `semi_colon` is false. */
  lemma SelectColumn(c: Token)
    requires ListWord(c)
    ensures ParseStatement(["select", c]) ==
      Ok(SelectStatement(false, false, None, [Column(c)], None, None, None, None, None, None, None, false))
  {
    StatementOfSelect([c]);
    assert ["select", c] == ["select"] + [c];
    HeadOfWord(c, []);
    assert [c] + [] == [c];
    assert StopSeq(Some(c)) + [] == [c];
    ColumnAlone(c);
    CutPast(c, [], SelectKeywords);
    assert UntilOneOf([c], SelectKeywords) == Cut([c], None, []);
    ClausesNone(None, []);
    SelectOf([c], Head(false, false, None, Some(c), []), [Column(c)],
             Ok(Clauses(None, None, None, None, None, None, None, None, [])));
  }

  /** `select c;`: `semi_colon` records the final `;`. */
  lemma SelectColumnSemicolon(c: Token)
    requires ListWord(c)
    ensures ParseStatement(["select", c, ";"]) ==
      Ok(SelectStatement(false, false, None, [Column(c)], None, None, None, None, None, None, None, true))
  {
    var ys: seq<Token> := [];
    var xs := [c, ";"] + ys;
    assert ["select", c, ";"] == ["select"] + xs;
    StatementOfSelect(xs);
    ListUpTo(c, ";", ys);
    ClausesNone(Some(";"), ys);
    var head := Head(false, false, None, Some(c), [";"] + ys);
    var clauses := Clauses(None, None, None, None, None, None, None, Some(";"), ys);
    SelectOf(xs, head, [Column(c)], Ok(clauses));
    assert FromClauses(head, [Column(c)], clauses) ==
      Ok(SelectStatement(false, false, None, [Column(c)], None, None, None, None, None, None, None, true));
  }

  /** `group` not followed by `by` is rejected, whatever keyword-free select list comes before it. */
  lemma GroupWithoutBy(list: seq<Token>, ys: seq<Token>)
    requires list != [] && list[0] != "all" && list[0] != "distinct"
    requires FreeOf(list, SelectKeywords) && ParseExpressionList(list).Ok?
    requires ys == [] || ys[0] != "by"
    ensures ParseStatement(["select"] + (list + (["group"] + ys))) == Err(ParsingError("Missing BY after GROUP"))
  {
    ClausesGroupNoBy(ys);
    SelectListClausesErr(list, "group", ys, ParseExpressionList(list).value, ParsingError("Missing BY after GROUP"));
  }

  /** `order` not followed by `by` is rejected, whatever keyword-free select list comes before it. */
  lemma OrderWithoutBy(list: seq<Token>, ys: seq<Token>)
    requires list != [] && list[0] != "all" && list[0] != "distinct"
    requires FreeOf(list, SelectKeywords) && ParseExpressionList(list).Ok?
    requires ys == [] || ys[0] != "by"
    ensures ParseStatement(["select"] + (list + (["order"] + ys))) == Err(ParsingError("Missing BY after ORDER"))
  {
    ClausesOrderNoBy(ys);
    SelectListClausesErr(list, "order", ys, ParseExpressionList(list).value, ParsingError("Missing BY after ORDER"));
  }

  /** `select c from t;` */
  lemma SelectFrom(c: Token, t: Token)
    requires ListWord(c) && t != "(" && !IsQuote(t) && t !in FromStops
    ensures ParseStatement(["select", c, "from", t, ";"]) ==
      Ok(SelectStatement(false, false, None, [Column(c)], Some(Table(Bare(t))), None, None, None, None, None, None, true))
  {
    assert ["select", c, "from", t, ";"] == ["select"] + ([c, "from"] + [t, ";"]);
    StatementOfSelect([c, "from"] + [t, ";"]);
    ListUpTo(c, "from", [t, ";"]);
    ClausesFrom(t);
    SelectOf([c, "from"] + [t, ";"], Head(false, false, None, Some(c), ["from"] + [t, ";"]), [Column(c)],
             Ok(Clauses(Some(Table(Bare(t))), None, None, None, None, None, None, Some(";"), [])));
  }

  /** A scan over tokens that are not stop words stops at the stop word after them. */
  predicate FreeOf(xs: seq<Token>, stopWords: seq<Token>)
  {
    forall i :: 0 <= i < |xs| ==> xs[i] !in stopWords
  }

  lemma {:induction false} CutAfter(xs: seq<Token>, k: Token, ys: seq<Token>, stopWords: seq<Token>)
    requires FreeOf(xs, stopWords)
    requires k in stopWords
    ensures UntilOneOf(xs + [k] + ys, stopWords) == Cut(xs, Some(k), ys)
  {
    if xs == [] {
      assert xs + [k] + ys == [k] + ys;
      CutAtStop(k, ys, stopWords);
    } else {
      CutAfter(xs[1..], k, ys, stopWords);
      assert xs + [k] + ys == [xs[0]] + (xs[1..] + [k] + ys);
      CutPast(xs[0], xs[1..] + [k] + ys, stopWords);
      assert [xs[0]] + xs[1..] == xs;
    }
  }

  lemma SplitTail(xs: seq<Token>, k: Token, ys: seq<Token>)
    ensures xs + ([k] + ys) == xs + [k] + ys
  {
  }

  lemma AppendCons(xs: seq<Token>, ys: seq<Token>)
    requires xs != []
    ensures xs + ys == [xs[0]] + (xs[1..] + ys)
    ensures (xs + ys)[0] == xs[0] && (xs + ys)[1..] == xs[1..] + ys
  {
  }

  /** The head and the select-list scan of `select <list> k ...` for a
      select list without keywords and a keyword `k`. */
  lemma HeadBefore(list: seq<Token>, k: Token, ys: seq<Token>)
    requires list != [] && list[0] != "all" && list[0] != "distinct"
    requires FreeOf(list, SelectKeywords) && k in SelectKeywords
    ensures var head := Head(false, false, None, Some(list[0]), list[1..] + ([k] + ys));
      && ParseSelectHead(list + ([k] + ys)) == Ok(head)
      && UntilOneOfSeeded(head.rest, SelectKeywords, head.firstExpressionToken) == Cut(list, Some(k), ys)
  {
    var tail := [k] + ys;
    AppendCons(list, tail);
    HeadOfWord(list[0], list[1..] + tail);
    assert StopSeq(Some(list[0])) == [list[0]];
    SplitTail(list, k, ys);
    CutAfter(list, k, ys, SelectKeywords);
  }

  /** A keyword-free select list followed by clauses that parse: the statement
      holds that list and those clauses. */
  lemma SelectListClauses(list: seq<Token>, k: Token, ys: seq<Token>, expressions: seq<Expr>, c: Clauses)
    requires list != [] && list[0] != "all" && list[0] != "distinct"
    requires FreeOf(list, SelectKeywords) && k in SelectKeywords
    requires ParseExpressionList(list) == Ok(expressions)
    requires ParseClauses(Some(k), ys) == Ok(c)
    ensures ParseStatement(["select"] + (list + ([k] + ys))) ==
      Ok(SelectStatement(false, false, None, expressions, c.fromStatement, c.whereClause, c.groupByClause,
                         c.havingClause, c.orderByClause, c.limitClause, c.offsetClause, c.last == Some(";")))
  {
    var ts := list + ([k] + ys);
    StatementOfSelect(ts);
    HeadBefore(list, k, ys);
    SelectOf(ts, Head(false, false, None, Some(list[0]), list[1..] + ([k] + ys)), expressions, Ok(c));
  }

  /** A keyword-free select list followed by clauses that fail: the statement fails the same way. */
  lemma SelectListClausesErr(list: seq<Token>, k: Token, ys: seq<Token>, expressions: seq<Expr>, e: ParseError)
    requires list != [] && list[0] != "all" && list[0] != "distinct"
    requires FreeOf(list, SelectKeywords) && k in SelectKeywords
    requires ParseExpressionList(list) == Ok(expressions)
    requires ParseClauses(Some(k), ys) == Err(e)
    ensures ParseStatement(["select"] + (list + ([k] + ys))) == Err(e)
  {
    var ts := list + ([k] + ys);
    StatementOfSelect(ts);
    HeadBefore(list, k, ys);
    SelectOf(ts, Head(false, false, None, Some(list[0]), list[1..] + ([k] + ys)), expressions, Err(e));
  }

  /** `select <list> from t;` for any select list without keywords: the list
      is parsed on its own and the table is bare. */
  lemma SelectListFrom(list: seq<Token>, t: Token, expressions: seq<Expr>)
    requires list != [] && list[0] != "all" && list[0] != "distinct"
    requires FreeOf(list, SelectKeywords)
    requires ParseExpressionList(list) == Ok(expressions)
    requires t != "(" && !IsQuote(t) && t !in FromStops
    ensures ParseStatement(["select"] + (list + ["from", t, ";"])) ==
      Ok(SelectStatement(false, false, None, expressions, Some(Table(Bare(t))), None, None, None, None, None, None, true))
  {
    ClausesFrom(t);
    assert ["from", t, ";"] == ["from"] + [t, ";"];
    SelectListClauses(list, "from", [t, ";"], expressions,
                      Clauses(Some(Table(Bare(t))), None, None, None, None, None, None, Some(";"), []));
  }

  /** `select <list>;`: no FROM part, and `semi_colon` is set. */
  lemma SelectListEnd(list: seq<Token>, expressions: seq<Expr>)
    requires list != [] && list[0] != "all" && list[0] != "distinct"
    requires FreeOf(list, SelectKeywords)
    requires ParseExpressionList(list) == Ok(expressions)
    ensures ParseStatement(["select"] + (list + [";"])) ==
      Ok(SelectStatement(false, false, None, expressions, None, None, None, None, None, None, None, true))
  {
    ClausesNone(Some(";"), []);
    assert [";"] + [] == [";"];
    SelectListClauses(list, ";", [], expressions, Clauses(None, None, None, None, None, None, None, Some(";"), []));
  }

  // ================================================================ select lists

  lemma ExprCall(f: Token, a: Token)
    requires PlainWord(f) && PlainWord(a) && a != ")"
    ensures ParseExpr([f, "(", a, ")"]) == Ok(Partial(FunctionCall(f, [Column(a)]), []))
  {
    var ts := [f, "(", a, ")"];
    var e := FunctionCall(f, [Column(a)]);
    ColumnAlone(a);
    DepthOne(a);
    assert [a][..0] == [] && [a][..1] == [a];
    assert NeverBelow([a], 0);
    OperandCallBalanced(f, [a], []);
    assert [f, "("] + ([a] + [")"] + []) == ts;
    assert Pull([]) == Pulled(None, []);
    ExprOfOperand(ts, e, None, []);
  }

  /** `f(a)`: a call with one column argument. */
  lemma ListCall(f: Token, a: Token)
    requires PlainWord(f) && PlainWord(a) && a != "," && a != ")"
    ensures ParseExpressionList([f, "(", a, ")"]) == Ok([FunctionCall(f, [Column(a)])])
  {
    var ts := [f, "(", a, ")"];
    ExprCall(f, a);
    ItemsUnsplit(ts, [], 0);
    assert [] + ts == ts;
    ParseItemsOne(ts);
  }

  /** `c a`: a column with a bare alias. */
  lemma ListAlias(c: Token, a: Token)
    requires PlainWord(c) && a != "(" && a != "as" && a != "," && !(c == "-" && IsDigits(a))
    requires a !in AliasStops && a !in ArithmeticSymbols && a !in ConditionPredicates && a !in BooleanPredicates
    ensures ParseExpressionList([c, a]) == Ok([Alias(Column(c), a, false)])
  {
    ExprAliasBare(c, a, []);
    assert [c, a] + [] == [c, a];
    ItemsUnsplit([c, a], [], 0);
    assert [] + [c, a] == [c, a];
    ParseItemsOne([c, a]);
  }

  /** `c as a`: a column with an AS alias. */
  lemma ListAliasAs(c: Token, a: Token)
    requires PlainWord(c) && a != ","
    ensures ParseExpressionList([c, "as", a]) == Ok([Alias(Column(c), a, true)])
  {
    ExprAliasAs(c, a, []);
    assert [c, "as", a] + [] == [c, "as", a];
    ItemsUnsplit([c, "as", a], [], 0);
    assert [] + [c, "as", a] == [c, "as", a];
    ParseItemsOne([c, "as", a]);
  }

  /** `c, d`: two columns. */
  lemma ListTwo(c: Token, d: Token)
    requires PlainWord(c) && PlainWord(d) && c != ")"
    ensures ParseExpressionList([c, ",", d]) == Ok([Column(c), Column(d)])
  {
    var ts := [c, ",", d];
    DepthOne(c);
    assert ts[..1] == [c];
    ItemsSplit(ts, [], 0, 1);
    assert [] + ts[..1] == [c];
    assert ts[2..] == [d];
    assert Items([d], [], 0) == [[d]] by { assert [] + [d] == [d]; }
    ColumnAlone(c);
    ColumnAlone(d);
    ParseItemsOne([c]);
    ParseItemsOne([d]);
    ParseItemsAppend([[c]], [[d]]);
    assert [[c]] + [[d]] == [[c], [d]];
    assert [Column(c)] + [Column(d)] == [Column(c), Column(d)];
  }

  /** A number on its own. */
  lemma ListNumber(d: Token)
    requires IsDigits(d)
    ensures ParseExpressionList([d]) == Ok([Integer(DigitText(d))])
  {
    OperandInteger(d, []);
    assert [d] + [] == [d];
    assert Pull([]) == Pulled(None, []);
    ExprOfOperand([d], Integer(DigitText(d)), None, []);
    ParseItemsOne([d]);
    assert Items([d], [], 0) == [[d]] by { assert [] + [d] == [d]; }
  }
}
