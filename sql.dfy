/**
 * The syntax tree of sqlvalidator/grammar/sql.py, its `__str__` rendering and
 * its `__eq__` equality.
 *
 * sql.py defines only `SelectStatement`, `Expression`, `FunctionCall`,
 * `Column`, `String` and `Alias`; the parser also builds `Integer`,
 * `Boolean`, `Parenthesis`, `Table`, `ArithmaticOperator`, `Condition`,
 * `BooleanCondition` and the clause nodes, so they are declared here too.
 * Their rendering is not defined by the source and is a stated assumption
 * (see `Render`); nothing below is proved about it.
 */
module Sql {
  import opened Basics

  /** `Integer(main_token)` keeps the digit text; `Integer(-int(t))` holds a number. */
  datatype IntValue = DigitText(text: string) | Number(n: int)

  /** `Table(name)` or `Table(String(...))`. */
  datatype TableValue = Bare(name: string) | Quoted(literal: Expr)

  datatype Expr =
    | Column(value: string)
    | String(value: string, quotes: string)
    | Integer(number: IntValue)
    | Boolean(value: string)
    | FunctionCall(functionName: string, args: seq<Expr>)
    | Alias(expression: Expr, alias: string, withAs: bool)
    | Parenthesis(args: seq<Expr>)
    | Query(statement: SelectStatement)
    | Table(table: TableValue)
    | ArithmaticOperator(symbol: string, left: Expr, right: Expr)
    | Condition(left: Expr, symbol: string, right: Expr)
    | BooleanCondition(symbol: string, left: Expr, right: Expr)

  datatype WhereClause = WhereClause(expression: Expr)
  datatype GroupByClause = GroupByClause(expressions: seq<Expr>, rollup: bool)
  datatype HavingClause = HavingClause(expression: Expr)
  datatype OrderByItem = OrderByItem(expression: Expr, hasAsc: bool, hasDesc: bool)
  datatype OrderByClause = OrderByClause(items: seq<OrderByItem>)
  datatype LimitClause = LimitClause(limitAll: bool, expression: Option<Expr>)
  datatype OffsetClause = OffsetClause(expression: Expr)

  /** The statement the parser builds, with every keyword argument it passes. */
  datatype SelectStatement = SelectStatement(
    selectAll: bool,
    selectDistinct: bool,
    selectDistinctOn: Option<seq<Expr>>,
    expressions: seq<Expr>,
    fromStatement: Option<Expr>,
    whereClause: Option<WhereClause>,
    groupByClause: Option<GroupByClause>,
    havingClause: Option<HavingClause>,
    orderByClause: Option<OrderByClause>,
    limitClause: Option<LimitClause>,
    offsetClause: Option<OffsetClause>,
    semiColon: bool)

  // ================================================================ __str__

  /**
   * `str(expression)`. Column, String, FunctionCall and Alias follow sql.py;
   * the other node kinds render by assumption: Integer and Boolean and Table
   * like `Expression.__str__` (their value), Parenthesis as its arguments
   * joined by ", " in parentheses, a nested query as its statement, and the
   * three binary nodes as "left symbol right".
   */
  function Render(e: Expr): string
  {
    match e
    case Column(v) => v
    case String(v, q) => q + v + q
    case Integer(DigitText(t)) => t
    case Integer(Number(n)) => IntToString(n)
    case Boolean(v) => v
    case FunctionCall(name, args) => Upper(name) + "(" + Join(", ", RenderAll(args)) + ")"
    case Alias(inner, alias, withAs) => Render(inner) + (if withAs then " AS " else " ") + alias
    case Parenthesis(args) => "(" + Join(", ", RenderAll(args)) + ")"
    case Query(s) => RenderStatement(s)
    case Table(Bare(name)) => name
    case Table(Quoted(literal)) => Render(literal)
    case ArithmaticOperator(symbol, l, r) => Render(l) + " " + symbol + " " + Render(r)
    case Condition(l, symbol, r) => Render(l) + " " + symbol + " " + Render(r)
    case BooleanCondition(symbol, l, r) => Render(l) + " " + symbol + " " + Render(r)
  }

  /** `map(str, es)`. */
  function RenderAll(es: seq<Expr>): (r: seq<string>)
    ensures |r| == |es|
  {
    if es == [] then [] else [Render(es[0])] + RenderAll(es[1..])
  }

  /** `SelectStatement.__str__`: the select list and the FROM part; the other
      clauses are not rendered by sql.py. */
  function RenderStatement(s: SelectStatement): string
  {
    (if |s.expressions| == 1 then "SELECT " + Render(s.expressions[0])
     else "SELECT\n " + Join(",\n ", RenderAll(s.expressions)))
    + (if s.fromStatement.Some? then "\nFROM " + Render(s.fromStatement.value) else "")
    + ";"
  }

  lemma RenderAllAt(es: seq<Expr>, i: nat)
    requires i < |es|
    ensures RenderAll(es)[i] == Render(es[i])
    decreases i
  {
    if i > 0 {
      RenderAllAt(es[1..], i - 1);
    }
  }

  /** The statement text starts with SELECT and always ends with a semicolon;
      the select list is on the first line exactly when it has one item. */
  lemma RenderStatementShape(s: SelectStatement)
    ensures StartsWith(RenderStatement(s), "SELECT")
    ensures EndsWith(RenderStatement(s), ";")
    ensures |s.expressions| == 1 <==> StartsWith(RenderStatement(s), "SELECT ")
    ensures |s.expressions| != 1 <==> StartsWith(RenderStatement(s), "SELECT\n ")
  {
    var single := |s.expressions| == 1;
    var body := if single then " " + Render(s.expressions[0])
                else "\n " + Join(",\n ", RenderAll(s.expressions));
    var from := if s.fromStatement.Some? then "\nFROM " + Render(s.fromStatement.value) else "";
    assert single ==> "SELECT " + Render(s.expressions[0]) == "SELECT" + body;
    assert !single ==> "SELECT\n " + Join(",\n ", RenderAll(s.expressions)) == "SELECT" + body;
    assert RenderStatement(s) == "SELECT" + body + from + ";";
    if single {
      assert body[..1] == " ";
    } else {
      assert body[..2] == "\n ";
    }
    TextShape(body, from, single);
  }

  /** `SELECT`, a body opening with a space or a line break, the rest, `;`. */
  lemma TextShape(body: string, from: string, single: bool)
    requires single ==> StartsWith(body, " ")
    requires !single ==> StartsWith(body, "\n ")
    ensures var r := "SELECT" + body + from + ";";
      && StartsWith(r, "SELECT") && EndsWith(r, ";")
      && (single <==> StartsWith(r, "SELECT ")) && (!single <==> StartsWith(r, "SELECT\n "))
  {
    var r := "SELECT" + body + from + ";";
    assert r == "SELECT" + (body + from + ";");
    assert r[..6] == "SELECT";
    assert r[|r| - 1..] == ";";
    assert r[6] == body[0];
    assert r[..7] == r[..6] + [r[6]];
    if !single {
      assert r[7] == body[1];
      assert r[..8] == r[..7] + [r[7]];
    }
    assert ("SELECT ")[6] == ' ' && ("SELECT\n ")[6] == '\n';
  }

  /** A call without arguments renders as `NAME()`. */
  lemma RenderFunctionCallNoArgs(name: string)
    ensures Render(FunctionCall(name, [])) == Upper(name) + "()"
  {
  }

  /** A bare table and a column print as their names. */
  lemma RenderNames(c: string, t: string)
    ensures Render(Column(c)) == c && Render(Table(Bare(t))) == t
  {
  }

  /** The text of a statement by the size of its select list and whether it
      has a FROM part. */
  lemma RenderParts(s: SelectStatement)
    ensures |s.expressions| == 1 && s.fromStatement.Some? ==>
      RenderStatement(s) == "SELECT " + Render(s.expressions[0]) + "\nFROM " + Render(s.fromStatement.value) + ";"
    ensures |s.expressions| != 1 && s.fromStatement.Some? ==>
      RenderStatement(s) == "SELECT\n " + Join(",\n ", RenderAll(s.expressions)) + "\nFROM " + Render(s.fromStatement.value) + ";"
    ensures |s.expressions| == 1 && s.fromStatement.None? ==>
      RenderStatement(s) == "SELECT " + Render(s.expressions[0]) + ";"
    ensures |s.expressions| != 1 && s.fromStatement.None? ==>
      RenderStatement(s) == "SELECT\n " + Join(",\n ", RenderAll(s.expressions)) + ";"
  {
  }

  /** A call with one column argument prints its upper-cased name. */
  lemma RenderCallOfColumn(f: string, a: string)
    ensures Render(FunctionCall(f, [Column(a)])) == Upper(f) + "(" + a + ")"
  {
    assert RenderAll([Column(a)]) == [a];
  }

  lemma RenderAliasOfColumn(c: string, a: string, withAs: bool)
    ensures Render(Alias(Column(c), a, withAs)) == c + (if withAs then " AS " else " ") + a
  {
  }

  /** Two columns, one per line. */
  lemma RenderTwoColumns(c: string, d: string)
    ensures Join(",\n ", RenderAll([Column(c), Column(d)])) == c + ",\n " + d
  {
    assert RenderAll([Column(c), Column(d)]) == [c, d] by {
      assert [Column(c), Column(d)][1..] == [Column(d)];
      assert [Column(d)][1..] == [];
      assert RenderAll([Column(d)]) == [d];
    }
    assert [c, d][1..] == [d];
  }

  /** `IFNULL(SUM(col), 'NOTHING')`: call names are upper-cased, the text of a
      string literal and its quotes are kept as they are. */
  lemma RenderCallWithString(f: string, g: string, c: string, v: string, q: string)
    ensures Render(FunctionCall(f, [FunctionCall(g, [Column(c)]), String(v, q)])) ==
      Upper(f) + "(" + (Upper(g) + "(" + c + ")") + ", " + (q + v + q) + ")"
  {
    RenderCallOfColumn(g, c);
    var args := [FunctionCall(g, [Column(c)]), String(v, q)];
    assert args[1..] == [String(v, q)];
    assert [String(v, q)][1..] == [];
    assert RenderAll([String(v, q)]) == [q + v + q];
    assert RenderAll(args) == [Upper(g) + "(" + c + ")", q + v + q];
    var x, y := Upper(g) + "(" + c + ")", q + v + q;
    assert [x, y][1..] == [y];
    assert Join(", ", [x, y]) == x + ", " + y;
    assert Upper(f) + "(" + (x + ", " + y) + ")" == Upper(f) + "(" + x + ", " + y + ")";
  }

  // ================================================================ __eq__

  /**
   * The outcome of `a == b` with the `__eq__` methods of sql.py: a boolean,
   * or the AttributeError Python raises when the other operand lacks the
   * attribute being compared, or `NotShown` when a class without a shown
   * `__eq__` is involved.
   */
  datatype EqOutcome = Decided(result: bool) | MissingAttribute | NotShown

  /** The node kinds whose `__eq__` sql.py defines. */
  predicate ShownKind(e: Expr)
  {
    e.Column? || e.String? || e.FunctionCall? || e.Alias?
  }

  /** Nodes with a `value` attribute (`Expression.__init__`). */
  predicate HasValue(e: Expr)
  {
    e.Column? || e.String?
  }

  /**
   * `a == b`: `Expression.__eq__` compares only `value` (so the quotes of a
   * String are ignored and a Column equals a String of the same text);
   * `FunctionCall.__eq__` compares the name, the argument count and then the
   * arguments pairwise, stopping at the first difference; `Alias.__eq__`
   * compares the expression and then the alias, ignoring `with_as`.
   */
  function Eq(a: Expr, b: Expr): EqOutcome
  {
    if !ShownKind(a) || !ShownKind(b) then NotShown
    else if HasValue(a) then
      if HasValue(b) then Decided(a.value == b.value) else MissingAttribute
    else if a.FunctionCall? then
      if !b.FunctionCall? then MissingAttribute
      else if a.functionName != b.functionName || |a.args| != |b.args| then Decided(false)
      else EqAll(a.args, b.args)
    else
      if !b.Alias? then MissingAttribute
      else
        var inner := Eq(a.expression, b.expression);
        if inner == Decided(true) then Decided(a.alias == b.alias) else inner
  }

  /** `all(a == o for a, o in zip(xs, ys))`, stopping at the first `False` or error. */
  function EqAll(xs: seq<Expr>, ys: seq<Expr>): EqOutcome
    requires |xs| == |ys|
  {
    if xs == [] then Decided(true)
    else
      var first := Eq(xs[0], ys[0]);
      if first == Decided(true) then EqAll(xs[1..], ys[1..]) else first
  }

  /** A tree made only of the shown node kinds. */
  predicate Shown(e: Expr)
  {
    match e
    case Column(_) => true
    case String(_, _) => true
    case FunctionCall(_, args) => ShownAll(args)
    case Alias(inner, _, _) => Shown(inner)
    case _ => false
  }

  predicate ShownAll(es: seq<Expr>)
  {
    es == [] || (Shown(es[0]) && ShownAll(es[1..]))
  }

  /** What the equality looks at: a String is compared as a Column with its
      value, and an Alias without its `with_as` flag. */
  function Erase(e: Expr): Expr
  {
    match e
    case String(v, _) => Column(v)
    case FunctionCall(name, args) => FunctionCall(name, EraseAll(args))
    case Alias(inner, alias, _) => Alias(Erase(inner), alias, false)
    case _ => e
  }

  function EraseAll(es: seq<Expr>): (r: seq<Expr>)
    ensures |r| == |es|
  {
    if es == [] then [] else [Erase(es[0])] + EraseAll(es[1..])
  }

  /** The equality is symmetric, errors included. */
  lemma {:induction false} EqSymmetric(a: Expr, b: Expr)
    ensures Eq(a, b) == Eq(b, a)
    decreases a
  {
    if ShownKind(a) && ShownKind(b) {
      if a.FunctionCall? && b.FunctionCall? && a.functionName == b.functionName && |a.args| == |b.args| {
        EqAllSymmetric(a.args, b.args);
      } else if a.Alias? && b.Alias? {
        EqSymmetric(a.expression, b.expression);
      }
    }
  }

  lemma {:induction false} EqAllSymmetric(xs: seq<Expr>, ys: seq<Expr>)
    requires |xs| == |ys|
    ensures EqAll(xs, ys) == EqAll(ys, xs)
    decreases xs
  {
    if xs != [] {
      EqSymmetric(xs[0], ys[0]);
      EqAllSymmetric(xs[1..], ys[1..]);
    }
  }

  /**
   * Over the shown node kinds, `a == b` is `True` exactly when the two trees
   * agree once quotes and `with_as` flags are ignored.
   */
  lemma {:induction false} EqIsErasedEquality(a: Expr, b: Expr)
    ensures Eq(a, b) == Decided(true) <==> Shown(a) && Erase(a) == Erase(b)
    decreases a
  {
    match a
    case Column(_) =>
    case String(_, _) =>
    case FunctionCall(name, args) =>
      if b.FunctionCall? && b.functionName == name && |args| == |b.args| {
        EqAllIsErasedEquality(args, b.args);
      }
    case Alias(inner, alias, _) =>
      if b.Alias? {
        EqIsErasedEquality(inner, b.expression);
      }
    case _ =>
  }

  lemma {:induction false} EqAllIsErasedEquality(xs: seq<Expr>, ys: seq<Expr>)
    requires |xs| == |ys|
    ensures EqAll(xs, ys) == Decided(true) <==> ShownAll(xs) && EraseAll(xs) == EraseAll(ys)
    decreases xs
  {
    if xs != [] {
      EqIsErasedEquality(xs[0], ys[0]);
      EqAllIsErasedEquality(xs[1..], ys[1..]);
      assert EraseAll(xs) == [Erase(xs[0])] + EraseAll(xs[1..]);
      assert EraseAll(ys) == [Erase(ys[0])] + EraseAll(ys[1..]);
      if EraseAll(xs) == EraseAll(ys) {
        assert EraseAll(xs)[0] == Erase(xs[0]);
        assert EraseAll(ys)[0] == Erase(ys[0]);
        assert EraseAll(xs)[1..] == EraseAll(xs[1..]);
        assert EraseAll(ys)[1..] == EraseAll(ys[1..]);
      }
    }
  }

  /** Every tree of shown kinds equals itself; a String equals a Column of the
      same text whatever its quotes; an Alias equals itself with the other flag. */
  lemma EqExamples(e: Expr, v: string, q: string, alias: string, withAs: bool)
    requires Shown(e)
    ensures Eq(e, e) == Decided(true)
    ensures Eq(String(v, q), Column(v)) == Decided(true)
    ensures Eq(Alias(e, alias, withAs), Alias(e, alias, !withAs)) == Decided(true)
  {
    EqIsErasedEquality(e, e);
    EqIsErasedEquality(Alias(e, alias, withAs), Alias(e, alias, !withAs));
  }
}
