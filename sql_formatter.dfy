/**
 * `format_sql`: tokenise the text, parse it as a statement and print the
 * statement back in canonical form (upper-case SELECT, FROM and function
 * names, one select item per line when there are several, a final `;`).
 */
module SqlFormatter {
  import opened Basics
  import opened Tokeniser
  import opened Sql
  import opened Lexer
  import opened LexerProperties

  /** `format_sql(sql_string)`; a parse error is returned instead of raised. */
  function FormatSql(sql: string): (r: Result<string, ParseError>)
    ensures r.Ok? <==> ParseStatement(ToTokens(sql)).Ok?
    ensures r.Err? ==> r.error == ParseStatement(ToTokens(sql)).error
    ensures r.Ok? ==> StartsWith(r.value, "SELECT") && EndsWith(r.value, ";")
  {
    var statement :- ParseStatement(ToTokens(sql));
    RenderStatementShape(statement);
    Ok(RenderStatement(statement))
  }

  /** Text that yields no token at all is not a statement. */
  lemma FormatNoTokens(sql: string)
    requires ToTokens(sql) == []
    ensures FormatSql(sql) == Err(EndOfTokens)
  {
  }

  /** Text whose first token is not `select` is rejected with an empty message. */
  lemma FormatNotSelect(sql: string)
    requires ToTokens(sql) != [] && ToTokens(sql)[0] != "select"
    ensures FormatSql(sql) == Err(ParsingError(""))
  {
  }

  // ------------------------------------------------ words of plain text

  /** A word the tokeniser yields unchanged as one token: lower-case, free of
      spaces and quotes, and either one punctuation character or free of
      punctuation. */
  predicate Plain(w: string)
  {
    WordToken(w) && QuoteFree(w)
  }

  /** A plain word with no punctuation at all. */
  predicate Name(w: string)
  {
    Plain(w) && forall i :: 0 <= i < |w| ==> w[i] !in PunctuationSet
  }

  /** The words that mean something to the parser. */
  const Reserved: seq<Token> :=
    SelectKeywords + BooleanValues + ConditionPredicates + BooleanPredicates + ["as", "all", "distinct"]

  /** A lower-case identifier: letters, digits and underscores, not starting
      with a digit. */
  predicate Identifier(w: string)
  {
    && w != [] && !IsDigitChar(w[0])
    && forall i :: 0 <= i < |w| ==> IsLowerChar(w[i]) || IsDigitChar(w[i]) || w[i] == '_'
  }

  /** What the parser needs to know about an identifier that is not reserved. */
  lemma IdentifierFacts(w: string)
    requires Identifier(w) && w !in Reserved
    ensures Name(w) && PlainWord(w) && ListWord(w)
    ensures w != "(" && w != ")" && w != "," && w != "as" && !IsQuote(w)
    ensures w !in FromStops && w !in SelectKeywords && w !in AliasStops && w !in ArithmeticSymbols
    ensures w !in ConditionPredicates && w !in BooleanPredicates
  {
    assert !IsDigits(w);
    assert w[0] !in PunctuationSet && w[0] != '\'' && w[0] != '"' && w[0] != '`';
  }

  lemma ScanOfPlain(w: string)
    requires Plain(w)
    ensures Scan(w, PunctuationSet, {}) == [w]
    ensures Lower(w) == w
  {
    LowerOfLowerCase(w);
    if |w| == 1 && w[0] in PunctuationSet {
      assert w[1..] == [];
      assert [w[0]] == w;
    } else {
      ScanPlain(w, PunctuationSet, {});
    }
  }

  /** A name followed by one punctuation character is two tokens. */
  lemma ScanNameThen(w: string, c: char)
    requires Name(w) && c in PunctuationSet
    ensures Scan(w + [c], PunctuationSet, {}) == [w, [c]]
  {
    ScanConcat(w, [c], PunctuationSet, {});
    ScanPlain(w, PunctuationSet, {});
    assert [c][1..] == [];
  }

  /** `f(a)` written without spaces is four tokens. */
  lemma ScanCall(f: string, a: string)
    requires Name(f) && Name(a)
    ensures Scan(f + "(" + a + ")", PunctuationSet, {}) == [f, "(", a, ")"]
  {
    CallText(f, a);
    ScanWordsAround(f, '(', a, ')', PunctuationSet);
  }

  lemma CallText(f: string, a: string)
    ensures f + "(" + a + ")" == f + (['('] + (a + [')']))
  {
  }

  /** A word, a separator, a word and a separator are four tokens, for any set
      of separators the two words avoid. */
  lemma ScanWordsAround(f: string, c: char, a: string, d: char, keep: set<char>)
    requires f != [] && a != [] && c in keep && d in keep
    requires forall i :: 0 <= i < |f| ==> f[i] !in keep
    requires forall i :: 0 <= i < |a| ==> a[i] !in keep
    ensures Scan(f + ([c] + (a + [d])), keep, {}) == [f, [c], a, [d]]
  {
    var inner := a + [d];
    assert Scan(inner, keep, {}) == [a, [d]] by {
      ScanKept(d, [], keep, {});
      assert [d] + [] == [d];
      ScanWordThen(a, [d], keep, [[d]]);
    }
    assert Scan([c] + inner, keep, {}) == [[c], a, [d]] by {
      ScanKept(c, inner, keep, {});
    }
    assert Scan(f + ([c] + inner), keep, {}) == [f, [c], a, [d]] by {
      ScanWordThen(f, [c] + inner, keep, [[c], a, [d]]);
    }
  }

  /** A word followed by text that starts with a separator: the word is one token
      and the scan goes on from the separator. */
  lemma ScanWordThen(w: string, q: string, keep: set<char>, sq: seq<string>)
    requires w != [] && q != [] && q[0] in keep
    requires forall i :: 0 <= i < |w| ==> w[i] !in keep
    requires Scan(q, keep, {}) == sq
    ensures Scan(w + q, keep, {}) == [w] + sq
  {
    ScanConcat(w, q, keep, {});
    ScanPlain(w, keep, {});
  }

  lemma IdentifierName(w: string)
    requires Identifier(w)
    ensures Name(w)
  {
  }

  lemma KeywordsArePlain()
    ensures Name("select") && Name("from") && Name("as")
  {
    IdentifierName("select");
    IdentifierName("from");
    IdentifierName("as");
  }

  lemma SemicolonIsPlain()
    ensures Plain(";") && ';' in PunctuationSet && QuoteFree(";")
  {
  }

  lemma QuoteFreeConcat(a: string, b: string)
    requires QuoteFree(a) && QuoteFree(b)
    ensures QuoteFree(a + b)
  {
    forall i | 0 <= i < |a + b| ensures (a + b)[i] != '\'' && (a + b)[i] != '"' && (a + b)[i] != '`' {
      if i >= |a| { assert (a + b)[i] == b[i - |a|]; }
    }
  }

  lemma ScanAllCons(x: string, xs: seq<string>, keep: set<char>, drop: set<char>)
    ensures ScanAll([x] + xs, keep, drop) == Scan(x, keep, drop) + ScanAll(xs, keep, drop)
  {
    assert ([x] + xs)[1..] == xs;
  }

  /** Plain words are their own tokens. */
  lemma {:induction false} ScanAllPlain(ws: seq<string>)
    requires forall i :: 0 <= i < |ws| ==> Plain(ws[i])
    ensures ScanAll(ws, PunctuationSet, {}) == ws
  {
    if ws != [] {
      ScanAllPlain(ws[1..]);
      ScanOfPlain(ws[0]);
      ScanAllCons(ws[0], ws[1..], PunctuationSet, {});
      assert [ws[0]] + ws[1..] == ws;
    }
  }

  lemma MapLowerOfLowerCase(ts: seq<string>)
    requires forall i :: 0 <= i < |ts| ==> IsLowerCase(ts[i])
    ensures MapLower(ts) == ts
  {
    forall i | 0 <= i < |ts| ensures MapLower(ts)[i] == ts[i] {
      LowerOfLowerCase(ts[i]);
    }
  }

  lemma WordsEnding(ws: seq<string>, t: string)
    requires forall i :: 0 <= i < |ws| ==> ' ' !in ws[i] && QuoteFree(ws[i])
    requires Name(t)
    ensures forall i :: 0 <= i < |ws + [t + ";"]| ==> ' ' !in (ws + [t + ";"])[i] && QuoteFree((ws + [t + ";"])[i])
  {
    SemicolonIsPlain();
    QuoteFreeConcat(t, ";");
    var all := ws + [t + ";"];
    forall i | 0 <= i < |all| ensures ' ' !in all[i] && QuoteFree(all[i]) {
      if i < |ws| { assert all[i] == ws[i]; } else { assert all[i] == t + ";"; }
    }
  }

  /** Words joined by spaces, the last one followed by `;`. */
  lemma TokensEnding(ws: seq<string>, t: string)
    requires forall i :: 0 <= i < |ws| ==> ' ' !in ws[i] && QuoteFree(ws[i])
    requires Name(t)
    ensures ToTokens(Join(" ", ws + [t + ";"])) == MapLower(ScanAll(ws, PunctuationSet, {}) + [t, ";"])
  {
    var all := ws + [t + ";"];
    WordsEnding(ws, t);
    ToTokensSentence(all);
    ScanAllAppend(ws, [t + ";"], PunctuationSet, {});
    ScanAllCons(t + ";", [], PunctuationSet, {});
    assert [t + ";"] + [] == [t + ";"];
    SemicolonIsPlain();
    ScanNameThen(t, ';');
    assert ScanAll([], PunctuationSet, {}) == [];
    assert ScanAll([t + ";"], PunctuationSet, {}) == [t, ";"];
    assert ScanAll(all, PunctuationSet, {}) == ScanAll(ws, PunctuationSet, {}) + [t, ";"];
  }

  lemma LowerEnding(ws: seq<string>, t: string)
    requires forall i :: 0 <= i < |ws| ==> Plain(ws[i])
    requires Name(t)
    ensures MapLower(ws + [t, ";"]) == ws + [t, ";"]
  {
    SemicolonIsPlain();
    var ts := ws + [t, ";"];
    assert IsLowerCase(t) && IsLowerCase(";");
    forall i | 0 <= i < |ts| ensures IsLowerCase(ts[i]) {
      if i < |ws| { assert ts[i] == ws[i]; }
      else if i == |ws| { assert ts[i] == t; }
      else { assert ts[i] == ";"; }
    }
    MapLowerOfLowerCase(ts);
  }

  /** Words that are each one plain token, then `t;`. */
  lemma TokensPlainEnding(ws: seq<string>, t: string)
    requires forall i :: 0 <= i < |ws| ==> Plain(ws[i])
    requires Name(t)
    ensures ToTokens(Join(" ", ws + [t + ";"])) == ws + [t, ";"]
  {
    TokensEnding(ws, t);
    ScanAllPlain(ws);
    LowerEnding(ws, t);
  }

  // ------------------------------------------------ formatting statements

  /** `format_sql` once the tokens and the statement are known. */
  lemma FormatOf(sql: string, ts: seq<Token>, statement: SelectStatement, text: string)
    requires ToTokens(sql) == ts && ParseStatement(ts) == Ok(statement)
    requires RenderStatement(statement) == text
    ensures FormatSql(sql) == Ok(text)
  {
  }

  lemma NameIsWord(t: string)
    requires Name(t)
    ensures t != "(" && t != ")" && t != "," && !IsQuote(t)
  {
    assert t[0] !in PunctuationSet && t[0] != '\'' && t[0] != '"' && t[0] != '`';
  }

  /** The statement `select c from t;` and its text. */
  lemma StatementSelectFrom(c: string, t: string) returns (statement: SelectStatement)
    requires ListWord(c) && Name(t) && t !in FromStops
    ensures ParseStatement(["select", c, "from", t, ";"]) == Ok(statement)
    ensures RenderStatement(statement) == "SELECT " + c + "\nFROM " + t + ";"
  {
    NameIsWord(t);
    SelectFrom(c, t);
    statement := SelectStatement(false, false, None, [Column(c)], Some(Table(Bare(t))), None, None, None, None, None, None, true);
    RenderParts(statement);
    RenderNames(c, t);
  }

  /** `select c from t;` formats as `SELECT c`, a new line, `FROM t;`. */
  lemma FormatSelectFrom(c: string, t: string)
    requires Plain(c) && ListWord(c)
    requires Name(t) && t !in FromStops
    ensures FormatSql(Join(" ", ["select", c, "from", t + ";"])) == Ok("SELECT " + c + "\nFROM " + t + ";")
  {
    KeywordsArePlain();
    TokensPlainEnding(["select", c, "from"], t);
    assert ["select", c, "from"] + [t + ";"] == ["select", c, "from", t + ";"];
    assert ["select", c, "from"] + [t, ";"] == ["select", c, "from", t, ";"];
    var statement := StatementSelectFrom(c, t);
    FormatOf(Join(" ", ["select", c, "from", t + ";"]), ["select", c, "from", t, ";"], statement,
             "SELECT " + c + "\nFROM " + t + ";");
  }

  lemma StarIsPlain()
    ensures Plain("*") && ListWord("*")
  {
    assert !IsDigitChar('*');
    assert "*"[0] in PunctuationSet;
    assert IsLowerCase("*");
  }

  /** `select * from table;` gives `SELECT *` and `FROM table;` on two lines. */
  lemma FormatSelectStar(t: string)
    requires Name(t) && t !in FromStops
    ensures FormatSql(Join(" ", ["select", "*", "from", t + ";"])) == Ok("SELECT *\nFROM " + t + ";")
  {
    StarIsPlain();
    FormatSelectFrom("*", t);
    StarText(t);
  }

  lemma StarText(t: string)
    ensures "SELECT " + "*" + "\nFROM " + t + ";" == "SELECT *\nFROM " + t + ";"
  {
  }

  /** `select col from table_stmt;` for any identifiers. */
  lemma FormatColumn(c: string, t: string)
    requires Identifier(c) && c !in Reserved && Identifier(t) && t !in Reserved
    ensures FormatSql(Join(" ", ["select", c, "from", t + ";"])) == Ok("SELECT " + c + "\nFROM " + t + ";")
  {
    IdentifierFacts(c);
    IdentifierFacts(t);
    FormatSelectFrom(c, t);
  }

  lemma ConcatAssoc(a: string, b: string, c: string)
    ensures a + (b + c) == a + b + c
  {
  }

  /** The select list is a run of words that are not keywords. */
  lemma FreeOfKeywords(list: seq<Token>)
    requires forall i :: 0 <= i < |list| ==> list[i] !in SelectKeywords
    ensures FreeOf(list, SelectKeywords)
  {
  }

  /** The statement `select c a from t;` and its text. */
  lemma StatementAlias(c: string, a: string, t: string, withAs: bool) returns (statement: SelectStatement)
    requires Identifier(c) && c !in Reserved && Identifier(a) && a !in Reserved && Identifier(t) && t !in Reserved
    ensures ParseStatement(["select"] + ((if withAs then [c, "as", a] else [c, a]) + ["from", t, ";"])) == Ok(statement)
    ensures RenderStatement(statement) == "SELECT " + c + (if withAs then " AS " else " ") + a + "\nFROM " + t + ";"
  {
    IdentifierFacts(c);
    IdentifierFacts(a);
    IdentifierFacts(t);
    var list := if withAs then [c, "as", a] else [c, a];
    var e := Alias(Column(c), a, withAs);
    if withAs {
      ListAliasAs(c, a);
    } else {
      ListAlias(c, a);
    }
    FreeOfKeywords(list);
    SelectListFrom(list, t, [e]);
    statement := SelectStatement(false, false, None, [e], Some(Table(Bare(t))), None, None, None, None, None, None, true);
    RenderParts(statement);
    RenderNames(c, t);
    RenderAliasOfColumn(c, a, withAs);
    var sep := if withAs then " AS " else " ";
    ConcatAssoc("SELECT ", c + sep, a);
    ConcatAssoc("SELECT ", c, sep);
  }

  /** `select col alias from table_stmt;`: the alias follows the column. */
  lemma FormatAlias(c: string, a: string, t: string)
    requires Identifier(c) && c !in Reserved && Identifier(a) && a !in Reserved && Identifier(t) && t !in Reserved
    ensures FormatSql(Join(" ", ["select", c, a, "from", t + ";"])) == Ok("SELECT " + c + " " + a + "\nFROM " + t + ";")
  {
    FormatAliasWith(c, a, t, false);
    assert ["select"] + [c, a] + ["from", t + ";"] == ["select", c, a, "from", t + ";"];
  }

  /** `select col as alias from table_stmt;`: AS is printed in upper case. */
  lemma FormatAliasAs(c: string, a: string, t: string)
    requires Identifier(c) && c !in Reserved && Identifier(a) && a !in Reserved && Identifier(t) && t !in Reserved
    ensures FormatSql(Join(" ", ["select", c, "as", a, "from", t + ";"])) == Ok("SELECT " + c + " AS " + a + "\nFROM " + t + ";")
  {
    FormatAliasWith(c, a, t, true);
    assert ["select"] + [c, "as", a] + ["from", t + ";"] == ["select", c, "as", a, "from", t + ";"];
  }

  lemma FormatAliasWith(c: string, a: string, t: string, withAs: bool)
    requires Identifier(c) && c !in Reserved && Identifier(a) && a !in Reserved && Identifier(t) && t !in Reserved
    ensures var list := if withAs then [c, "as", a] else [c, a];
      FormatSql(Join(" ", ["select"] + list + ["from", t + ";"]))
        == Ok("SELECT " + c + (if withAs then " AS " else " ") + a + "\nFROM " + t + ";")
  {
    IdentifierName(c);
    IdentifierName(a);
    IdentifierName(t);
    KeywordsArePlain();
    var list := if withAs then [c, "as", a] else [c, a];
    var words := ["select"] + list + ["from"];
    forall i | 0 <= i < |words| ensures Plain(words[i]) {
      if i == 0 { assert words[i] == "select"; }
      else if i == |words| - 1 { assert words[i] == "from"; }
      else { assert words[i] == list[i - 1]; }
    }
    TokensPlainEnding(words, t);
    var sql := Join(" ", words + [t + ";"]);
    assert words + [t + ";"] == ["select"] + list + ["from", t + ";"];
    var ts := words + [t, ";"];
    assert ts == ["select"] + (list + ["from", t, ";"]);
    var statement := StatementAlias(c, a, t, withAs);
    FormatOf(sql, ts, statement, "SELECT " + c + (if withAs then " AS " else " ") + a + "\nFROM " + t + ";");
  }

  /** A word made of ASCII letters only, in either case. */
  predicate Letters(k: string)
  {
    k != [] && forall i :: 0 <= i < |k| ==> IsUpperChar(k[i]) || IsLowerChar(k[i])
  }

  /** A word of letters has no space, quote or punctuation. */
  lemma LettersWord(k: string)
    requires Letters(k)
    ensures ' ' !in k && QuoteFree(k)
    ensures forall i :: 0 <= i < |k| ==> k[i] !in PunctuationSet
  {
  }

  lemma PunctuationIsPlain()
    ensures Plain("(") && Plain(")") && Plain(",")
    ensures '(' in PunctuationSet && ')' in PunctuationSet && ',' in PunctuationSet
  {
  }

  /** The word `f(a)` has no space and no quote. */
  lemma CallWord(f: string, a: string)
    requires Name(f) && Name(a)
    ensures ' ' !in f + "(" + a + ")" && QuoteFree(f + "(" + a + ")")
  {
    PunctuationIsPlain();
    QuoteFreeConcat(f, "(");
    QuoteFreeConcat(f + "(", a);
    QuoteFreeConcat(f + "(" + a, ")");
  }

  lemma ScanCallWords(s: string, f: string, a: string, k: string)
    requires Plain(s) && Name(f) && Name(a) && Letters(k)
    ensures ScanAll([s, f + "(" + a + ")", k], PunctuationSet, {}) == [s, f, "(", a, ")", k]
  {
    var call := f + "(" + a + ")";
    LettersWord(k);
    ScanAllCons(k, [], PunctuationSet, {});
    ScanAllCons(call, [k], PunctuationSet, {});
    ScanAllCons(s, [call, k], PunctuationSet, {});
    assert [k] + [] == [k] && [call] + [k] == [call, k] && [s] + [call, k] == [s, call, k];
    ScanOfPlain(s);
    ScanCall(f, a);
    ScanPlain(k, PunctuationSet, {});
  }

  lemma LowerCallWords(s: string, f: string, a: string, k: string, t: string)
    requires Plain(s) && Name(f) && Name(a) && Name(t)
    ensures MapLower([s, f, "(", a, ")", k, t, ";"]) == [s, f, "(", a, ")", Lower(k), t, ";"]
  {
    PunctuationIsPlain();
    SemicolonIsPlain();
    var ts := [s, f, "(", a, ")", k, t, ";"];
    var r := MapLower(ts);
    forall i | 0 <= i < |ts| && i != 5 ensures r[i] == ts[i] {
      LowerOfLowerCase(ts[i]);
    }
  }

  /** `s f(a) k t;` tokenises into the call's pieces, with `k` lower-cased. */
  lemma TokensCall(s: string, f: string, a: string, k: string, t: string)
    requires Plain(s) && Name(f) && Name(a) && Name(t) && Letters(k)
    ensures ToTokens(Join(" ", [s, f + "(" + a + ")", k, t + ";"])) == [s, f, "(", a, ")", Lower(k), t, ";"]
  {
    var call := f + "(" + a + ")";
    LettersWord(k);
    CallWord(f, a);
    TokensEnding([s, call, k], t);
    assert [s, call, k] + [t + ";"] == [s, call, k, t + ";"];
    ScanCallWords(s, f, a, k);
    assert [s, f, "(", a, ")", k] + [t, ";"] == [s, f, "(", a, ")", k, t, ";"];
    LowerCallWords(s, f, a, k, t);
  }

  /** The statement `select f(a) from t;` and its text. */
  lemma StatementCall(f: string, a: string, t: string) returns (statement: SelectStatement)
    requires Identifier(f) && f !in Reserved && Identifier(a) && a !in Reserved && Identifier(t) && t !in Reserved
    ensures ParseStatement(["select"] + ([f, "(", a, ")"] + ["from", t, ";"])) == Ok(statement)
    ensures RenderStatement(statement) == "SELECT " + Upper(f) + "(" + a + ")" + "\nFROM " + t + ";"
  {
    IdentifierFacts(f);
    IdentifierFacts(a);
    IdentifierFacts(t);
    var e := FunctionCall(f, [Column(a)]);
    ListCall(f, a);
    assert "(" !in SelectKeywords && ")" !in SelectKeywords;
    FreeOfKeywords([f, "(", a, ")"]);
    SelectListFrom([f, "(", a, ")"], t, [e]);
    statement := SelectStatement(false, false, None, [e], Some(Table(Bare(t))), None, None, None, None, None, None, true);
    RenderParts(statement);
    RenderNames(a, t);
    RenderCallOfColumn(f, a);
    ConcatAssoc("SELECT ", Upper(f) + "(" + a, ")");
    ConcatAssoc("SELECT ", Upper(f) + "(", a);
    ConcatAssoc("SELECT ", Upper(f), "(");
  }

  /** `select sum(column) FROM table;`: the function name is upper-cased and
      FROM may be written in any case. */
  lemma FormatCall(f: string, a: string, k: string, t: string)
    requires Identifier(f) && f !in Reserved && Identifier(a) && a !in Reserved && Identifier(t) && t !in Reserved
    requires Letters(k) && Lower(k) == "from"
    ensures FormatSql(Join(" ", ["select", f + "(" + a + ")", k, t + ";"])) ==
      Ok("SELECT " + Upper(f) + "(" + a + ")" + "\nFROM " + t + ";")
  {
    IdentifierName(f);
    IdentifierName(a);
    IdentifierName(t);
    KeywordsArePlain();
    TokensCall("select", f, a, k, t);
    assert ["select", f, "(", a, ")", "from", t, ";"] == ["select"] + ([f, "(", a, ")"] + ["from", t, ";"]);
    var statement := StatementCall(f, a, t);
    FormatOf(Join(" ", ["select", f + "(" + a + ")", k, t + ";"]), ["select", f, "(", a, ")", "from", t, ";"], statement,
             "SELECT " + Upper(f) + "(" + a + ")" + "\nFROM " + t + ";");
  }

  lemma ScanColumnWords(s: string, c: string, d: string, f: string)
    requires Plain(s) && Plain(f) && Name(c) && Name(d)
    ensures ScanAll([s, c + ",", d, f], PunctuationSet, {}) == [s, c, ",", d, f]
  {
    PunctuationIsPlain();
    ScanAllPlain([d, f]);
    ScanAllCons(c + ",", [d, f], PunctuationSet, {});
    ScanAllCons(s, [c + ",", d, f], PunctuationSet, {});
    Displays(s, c + ",", d, f);
    ScanOfPlain(s);
    ScanNameThen(c, ',');
  }

  lemma Displays(s: string, x: string, d: string, f: string)
    ensures [x] + [d, f] == [x, d, f] && [s] + [x, d, f] == [s, x, d, f]
  {
  }

  /** `s c, d f t;` tokenises the comma on its own. */
  lemma TokensColumns(s: string, c: string, d: string, f: string, t: string)
    requires Plain(s) && Plain(f) && Name(c) && Name(d) && Name(t)
    ensures ToTokens(Join(" ", [s, c + ",", d, f, t + ";"])) == [s, c, ",", d, f, t, ";"]
  {
    PunctuationIsPlain();
    QuoteFreeConcat(c, ",");
    var ws := [s, c + ",", d, f];
    assert ' ' !in c + "," by {
      forall i | 0 <= i < |c + ","| ensures (c + ",")[i] != ' ' {
        if i < |c| { assert (c + ",")[i] == c[i]; }
      }
    }
    forall i | 0 <= i < |ws| ensures ' ' !in ws[i] && QuoteFree(ws[i]) {
      if i == 0 { assert ws[i] == s; }
      else if i == 1 { assert ws[i] == c + ","; }
      else if i == 2 { assert ws[i] == d; }
      else { assert ws[i] == f; }
    }
    TokensEnding(ws, t);
    assert ws + [t + ";"] == [s, c + ",", d, f, t + ";"];
    ScanColumnWords(s, c, d, f);
    var xs := [s, c, ",", d, f];
    forall i | 0 <= i < |xs| ensures Plain(xs[i]) {
      if i == 0 { assert xs[i] == s; }
      else if i == 1 { assert xs[i] == c; }
      else if i == 2 { assert xs[i] == ","; }
      else if i == 3 { assert xs[i] == d; }
      else { assert xs[i] == f; }
    }
    LowerEnding(xs, t);
    assert xs + [t, ";"] == [s, c, ",", d, f, t, ";"];
  }

  /** The statement `select c, d from t;` and its text. */
  lemma StatementColumns(c: string, d: string, t: string) returns (statement: SelectStatement)
    requires Identifier(c) && c !in Reserved && Identifier(d) && d !in Reserved && Identifier(t) && t !in Reserved
    ensures ParseStatement(["select"] + ([c, ",", d] + ["from", t, ";"])) == Ok(statement)
    ensures RenderStatement(statement) == "SELECT\n " + c + ",\n " + d + "\nFROM " + t + ";"
  {
    IdentifierFacts(c);
    IdentifierFacts(d);
    IdentifierFacts(t);
    ListTwo(c, d);
    assert "," !in SelectKeywords;
    FreeOfKeywords([c, ",", d]);
    SelectListFrom([c, ",", d], t, [Column(c), Column(d)]);
    statement := SelectStatement(false, false, None, [Column(c), Column(d)], Some(Table(Bare(t))), None, None, None, None, None, None, true);
    RenderParts(statement);
    RenderNames(c, t);
    RenderTwoColumns(c, d);
    ConcatAssoc("SELECT\n ", c + ",\n ", d);
    ConcatAssoc("SELECT\n ", c, ",\n ");
  }

  /** `select col, col2 from table_stmt;`: several items go one per line. */
  lemma FormatColumns(c: string, d: string, t: string)
    requires Identifier(c) && c !in Reserved && Identifier(d) && d !in Reserved && Identifier(t) && t !in Reserved
    ensures FormatSql(Join(" ", ["select", c + ",", d, "from", t + ";"])) ==
      Ok("SELECT\n " + c + ",\n " + d + "\nFROM " + t + ";")
  {
    IdentifierName(c);
    IdentifierName(d);
    IdentifierName(t);
    KeywordsArePlain();
    TokensColumns("select", c, d, "from", t);
    assert ["select", c, ",", d, "from", t, ";"] == ["select"] + ([c, ",", d] + ["from", t, ";"]);
    var statement := StatementColumns(c, d, t);
    FormatOf(Join(" ", ["select", c + ",", d, "from", t + ";"]), ["select", c, ",", d, "from", t, ";"], statement,
             "SELECT\n " + c + ",\n " + d + "\nFROM " + t + ";");
  }

  lemma DigitsName(d: string)
    requires IsDigits(d)
    ensures Name(d) && d !in SelectKeywords && d != "all" && d != "distinct"
  {
    assert IsDigitChar(d[0]);
  }

  /** `select 1;`: a statement without FROM. */
  lemma FormatNumber(d: string)
    requires IsDigits(d)
    ensures FormatSql(Join(" ", ["select", d + ";"])) == Ok("SELECT " + d + ";")
  {
    DigitsName(d);
    KeywordsArePlain();
    TokensPlainEnding(["select"], d);
    assert ["select"] + [d + ";"] == ["select", d + ";"];
    assert ["select"] + [d, ";"] == ["select"] + ([d] + [";"]);
    ListNumber(d);
    FreeOfKeywords([d]);
    SelectListEnd([d], [Integer(DigitText(d))]);
    var statement := SelectStatement(false, false, None, [Integer(DigitText(d))], None, None, None, None, None, None, None, true);
    RenderParts(statement);
    FormatOf(Join(" ", ["select", d + ";"]), ["select", d, ";"], statement, "SELECT " + d + ";");
  }
}
