/**
 * sqlvalidator/file_formatter.py: re-formatting the SQL string literals of a
 * Python file. A literal is recognised by its quotes (and an optional string
 * prefix such as `r` or `f`), its content is handed to the SQL formatter, and
 * the result is put back between the same quotes, upgraded to triple quotes
 * when the formatted text spans several lines. The file itself is seen as
 * the token sequence Python's `tokenize` produces, each token reduced to its
 * kind, its text and its first row.
 */
module FileFormatter {
  import opened Basics
  import Lexer
  import SqlFormatter

  const NoSqlFormatComment := "nosqlformat"

  /** Tried in this order: the first that both starts and ends the literal wins. */
  const PossibleQuotes: seq<string> := ["\"\"\"", "'''", "\"", "'"]

  const StringPrefixes: seq<string> := [
    "r", "u", "ur", "R", "U", "UR", "Ur", "uR",
    "f", "F", "fr", "Fr", "fR", "FR", "rf", "rF", "Rf", "RF",
    "b", "B", "br", "Br", "bR", "BR", "rb", "rB", "Rb", "RB"]

  /** What can go wrong with one literal: the `assert quotes is not None`
      fails, or the SQL formatter raises. */
  datatype StringError = QuotesNotFound | FormatFailed(error: Lexer.ParseError)

  /** The SQL formatter, `sql_formatter.format_sql`, as a parameter. */
  type Formatter = string -> Result<string, Lexer.ParseError>

  // ================================================================ quotes

  /** `s.startswith(p + q) and s.endswith(q)`. */
  predicate Encloses(s: string, p: string, q: string)
  {
    StartsWith(s, p + q) && EndsWith(s, q)
  }

  /** The first quote of `qs`, from index `from` on, that encloses `s` with
      the prefix `p`. */
  function FirstQuote(s: string, p: string, qs: seq<string>, from: nat): (r: Option<nat>)
    requires from <= |qs|
    ensures r.Some? ==> from <= r.value < |qs| && Encloses(s, p, qs[r.value])
    ensures r.Some? ==> forall j :: from <= j < r.value ==> !Encloses(s, p, qs[j])
    ensures r.None? ==> forall j :: from <= j < |qs| ==> !Encloses(s, p, qs[j])
    decreases |qs| - from
  {
    if from == |qs| then None
    else if Encloses(s, p, qs[from]) then Some(from)
    else FirstQuote(s, p, qs, from + 1)
  }

  /** The first prefix of `ps`, from index `from` on, with which `q` encloses `s`. */
  function FirstPrefix(s: string, q: string, ps: seq<string>, from: nat): (r: Option<nat>)
    requires from <= |ps|
    ensures r.Some? ==> from <= r.value < |ps| && Encloses(s, ps[r.value], q)
    ensures r.Some? ==> forall j :: from <= j < r.value ==> !Encloses(s, ps[j], q)
    ensures r.None? ==> forall j :: from <= j < |ps| ==> !Encloses(s, ps[j], q)
    decreases |ps| - from
  {
    if from == |ps| then None
    else if Encloses(s, ps[from], q) then Some(from)
    else FirstPrefix(s, q, ps, from + 1)
  }

  /** The nested loop over quotes (outer) and prefixes (inner): the first
      quote for which some prefix works, with the first such prefix. */
  function FirstPrefixed(s: string, qs: seq<string>, ps: seq<string>, from: nat): (r: Option<(nat, nat)>)
    requires from <= |qs|
    ensures r.Some? ==> from <= r.value.0 < |qs| && r.value.1 < |ps| && Encloses(s, ps[r.value.1], qs[r.value.0])
    ensures r.Some? ==> forall j :: 0 <= j < r.value.1 ==> !Encloses(s, ps[j], qs[r.value.0])
    ensures r.Some? ==> forall i, j :: from <= i < r.value.0 && 0 <= j < |ps| ==> !Encloses(s, ps[j], qs[i])
    ensures r.None? ==> forall i, j :: from <= i < |qs| && 0 <= j < |ps| ==> !Encloses(s, ps[j], qs[i])
    decreases |qs| - from
  {
    if from == |qs| then None
    else match FirstPrefix(s, qs[from], ps, 0)
      case Some(j) => Some((from, j))
      case None => FirstPrefixed(s, qs, ps, from + 1)
  }

  /** The prefix ("" for none) and the quotes of a string literal. */
  datatype Delimiters = Delimiters(prefix: string, quotes: string)

  /** The detection loops of `format_sql_string`: a bare quote first, then
      prefixed quotes; `None` is the failing `assert`. */
  function DetectQuotes(s: string): (r: Option<Delimiters>)
    ensures r.Some? ==> r.value.quotes in PossibleQuotes && Encloses(s, r.value.prefix, r.value.quotes)
    ensures r.Some? ==> r.value.prefix == "" || r.value.prefix in StringPrefixes
    ensures r.Some? && r.value.prefix != "" ==> forall q :: q in PossibleQuotes ==> !Encloses(s, "", q)
    ensures r.None? <==>
      (forall q :: q in PossibleQuotes ==> !Encloses(s, "", q)) &&
      (forall q, p :: q in PossibleQuotes && p in StringPrefixes ==> !Encloses(s, p, q))
  {
    match FirstQuote(s, "", PossibleQuotes, 0)
    case Some(i) => Some(Delimiters("", PossibleQuotes[i]))
    case None =>
      match FirstPrefixed(s, PossibleQuotes, StringPrefixes, 0)
      case Some((i, j)) => Some(Delimiters(StringPrefixes[j], PossibleQuotes[i]))
      case None => None
  }

  /** `sql_string[len(prefix):][len(quotes):-len(quotes)]`: the text strictly
      between the delimiters (empty when they overlap, as in `"`). */
  function Inner(s: string, d: Delimiters): string
    requires Encloses(s, d.prefix, d.quotes)
  {
    var t := s[|d.prefix|..];
    PySlice(t, |d.quotes|, |t| - |d.quotes|)
  }

  /** Wrapping a text in delimiters and taking it out again gives it back. */
  lemma InnerOfEnclosed(p: string, q: string, x: string)
    ensures Encloses(p + q + x + q, p, q)
    ensures Inner(p + q + x + q, Delimiters(p, q)) == x
  {
    var s := p + q + x + q;
    assert s[..|p + q|] == p + q;
    assert s[|s| - |q|..] == q;
    var t := s[|p|..];
    assert t == q + x + q;
    assert t[|q|..|t| - |q|] == x;
  }

  // ================================================================ re-quoting

  /** A single quote is upgraded to the triple form of the same character
      when the formatted text has a newline; otherwise the quotes stay. */
  function NewQuotes(q: string, f: string): (r: string)
    requires q in PossibleQuotes
    ensures |q| == 1 && '\n' in f ==> r == q + q + q
    ensures !(|q| == 1 && '\n' in f) ==> r == q
    ensures r in PossibleQuotes
  {
    if |q| == 1 && '\n' in f then
      if q == "'" then "'''" else "\"\"\""
    else q
  }

  /** The literal written back: with triple quotes and a multi-line text,
      the text goes on lines of its own. */
  function Quoted(p: string, q: string, f: string): string
  {
    if |q| == 3 && '\n' in f then p + q + "\n" + f + "\n" + q else p + q + f + q
  }

  /** `format_sql_string` with the SQL formatter `format`. */
  function FormatSqlString(s: string, format: Formatter): (r: Result<string, StringError>)
    ensures DetectQuotes(s).None? <==> r == Err(QuotesNotFound)
  {
    match DetectQuotes(s)
    case None => Err(QuotesNotFound)
    case Some(d) =>
      match format(Inner(s, d))
      case Err(e) => Err(FormatFailed(e))
      case Ok(f) => Ok(Quoted(d.prefix, NewQuotes(d.quotes, f), f))
  }

  /** The literal written back is enclosed by its delimiters and holds the
      text, on lines of its own when it is put there. */
  lemma QuotedEncloses(p: string, q: string, f: string)
    ensures StartsWith(Quoted(p, q, f), p)
    ensures Encloses(Quoted(p, q, f), p, q)
    ensures Inner(Quoted(p, q, f), Delimiters(p, q)) == (if |q| == 3 && '\n' in f then "\n" + f + "\n" else f)
  {
    var x := if |q| == 3 && '\n' in f then "\n" + f + "\n" else f;
    assert Quoted(p, q, f) == p + q + x + q;
    InnerOfEnclosed(p, q, x);
    assert (p + q + x + q)[..|p|] == p;
  }

  /** The formatter is given exactly the text between the delimiters; its
      error is passed on; otherwise the output starts with the same prefix,
      is enclosed by the (possibly upgraded) quotes, and holds the formatted
      text, on lines of its own when it spans several lines. */
  lemma FormatSqlStringSpec(s: string, format: Formatter, d: Delimiters)
    requires DetectQuotes(s) == Some(d)
    ensures format(Inner(s, d)).Err? ==> FormatSqlString(s, format) == Err(FormatFailed(format(Inner(s, d)).error))
    ensures format(Inner(s, d)).Ok? ==>
      var f := format(Inner(s, d)).value;
      var q := NewQuotes(d.quotes, f);
      var r := FormatSqlString(s, format);
      && r.Ok? && StartsWith(r.value, d.prefix)
      && Encloses(r.value, d.prefix, q)
      && Inner(r.value, Delimiters(d.prefix, q)) == (if |q| == 3 && '\n' in f then "\n" + f + "\n" else f)
  {
    if format(Inner(s, d)).Ok? {
      var f := format(Inner(s, d)).value;
      QuotedEncloses(d.prefix, NewQuotes(d.quotes, f), f);
    }
  }

  /** A one-line result keeps the original quotes; a multi-line result of a
      single-quoted literal gets the triple form of that quote. */
  lemma FormatSqlStringQuotes(s: string, format: Formatter, d: Delimiters)
    requires DetectQuotes(s) == Some(d) && format(Inner(s, d)).Ok?
    ensures var f := format(Inner(s, d)).value;
      '\n' !in f ==> FormatSqlString(s, format) == Ok(d.prefix + d.quotes + f + d.quotes)
    ensures var f := format(Inner(s, d)).value;
      '\n' in f ==>
        FormatSqlString(s, format) == Ok(d.prefix + NewQuotes(d.quotes, f) + "\n" + f + "\n" + NewQuotes(d.quotes, f))
  {
    var f := format(Inner(s, d)).value;
    if '\n' in f {
      var q := NewQuotes(d.quotes, f);
      assert |d.quotes| == 1 || |d.quotes| == 3;
      assert |q| == 3;
    }
  }

  // ================================================================ is_select_string

  /** The characters `is_select_string` strips from the front. */
  const SelectStripChars := " \n'\"`ufbr"

  /** `s.lstrip(cs)`: the longest suffix not starting with a character of `cs`
      that only drops characters of `cs`. */
  function LStrip(s: string, cs: string): (r: string)
    ensures IsSuffix(r, s)
    ensures r == [] || r[0] !in cs
    ensures forall i :: 0 <= i < |s| - |r| ==> s[i] in cs
  {
    if s != [] && s[0] in cs then LStrip(s[1..], cs) else s
  }

  /** The characters `str.splitlines` ends a line at (a carriage return
      followed by a line feed ends it at the carriage return). */
  const LineBreaks: set<char> := {'\n', '\r', '\U{000B}', '\U{000C}', '\U{001C}', '\U{001D}', '\U{001E}', '\U{0085}', '\U{2028}', '\U{2029}'}

  /** The part of `s` before the first character of `stop` (all of it when
      there is none): with `stop` the blank, `s.split(" ", maxsplit=1)[0]`;
      with `stop` the line breaks, the first of `s.splitlines()`. */
  function UpTo(s: string, stop: set<char>): (r: string)
    ensures |r| <= |s| && r == s[..|r|]
    ensures forall i :: 0 <= i < |r| ==> r[i] !in stop
    ensures |r| < |s| ==> s[|r|] in stop
  {
    if s == [] || s[0] in stop then [] else [s[0]] + UpTo(s[1..], stop)
  }

  /** `is_select_string`: lower-case, strip the leading quotes, prefixes and
      blanks, and compare the first word of the first line with `select`. An
      empty remainder has no lines and is not a select string. */
  predicate IsSelectString(v: string)
  {
    var cleaned := LStrip(Lower(v), SelectStripChars);
    cleaned != [] && UpTo(UpTo(cleaned, LineBreaks), {' '}) == "select"
  }

  /** The first word of the first line is `w`, for a word without blanks or
      line breaks, exactly when the text starts with `w` followed by the
      end, a space or a line break. */
  lemma {:induction false} FirstWordIs(c: string, w: string, nl: set<char>)
    requires forall i :: 0 <= i < |w| ==> w[i] != ' ' && w[i] !in nl
    ensures UpTo(UpTo(c, nl), {' '}) == w <==>
      StartsWith(c, w) && (|c| == |w| || c[|w|] == ' ' || c[|w|] in nl)
  {
    var line := UpTo(c, nl);
    var word := UpTo(line, {' '});
    if word == w {
      assert c[..|w|] == line[..|w|];
    }
    if StartsWith(c, w) && (|c| == |w| || c[|w|] == ' ' || c[|w|] in nl) {
      FirstWordOfPrefix(c, w, nl);
    }
  }

  lemma {:induction false} FirstWordOfPrefix(c: string, w: string, nl: set<char>)
    requires forall i :: 0 <= i < |w| ==> w[i] != ' ' && w[i] !in nl
    requires StartsWith(c, w) && (|c| == |w| || c[|w|] == ' ' || c[|w|] in nl)
    ensures UpTo(UpTo(c, nl), {' '}) == w
    decreases |w|
  {
    if w != [] {
      assert c[0] == w[0];
      assert c[1..][..|w| - 1] == w[1..];
      FirstWordOfPrefix(c[1..], w[1..], nl);
      assert UpTo(c, nl) == [c[0]] + UpTo(c[1..], nl);
      assert UpTo(UpTo(c, nl), {' '}) == [c[0]] + UpTo(UpTo(c[1..], nl), {' '});
    } else if c != [] {
      if c[0] in nl {
        assert UpTo(c, nl) == [];
      } else {
        assert UpTo(c, nl)[0] == ' ';
      }
    }
  }

  lemma SelectHasNoBlank()
    ensures |"select"| == 6
    ensures forall i :: 0 <= i < 6 ==> "select"[i] != ' ' && "select"[i] !in LineBreaks
  {
  }

  /** `is_select_string` in plain words: after cleaning, the text starts with
      `select` and the word ends there. So `'selected string'` is not one. */
  lemma IsSelectStringSpec(v: string)
    ensures var c := LStrip(Lower(v), SelectStripChars);
      IsSelectString(v) <==> StartsWith(c, "select") && (|c| == 6 || c[6] == ' ' || c[6] in LineBreaks)
  {
    SelectHasNoBlank();
    FirstWordIs(LStrip(Lower(v), SelectStripChars), "select", LineBreaks);
  }

  // ================================================================ the token pass

  /** The token kinds the pass tells apart; `EndMarker` has type code 0 and is
      the only falsy kind. */
  datatype Kind = StringToken | CommentToken | EndMarker | OtherToken

  /** A token of `tokenize`: its kind, its text and the row it starts on. */
  datatype PyToken = PyToken(kind: Kind, value: string, row: nat)

  /** How the pass treats string literals: which ones hold a select
      statement (`is_select_string`), and what it does to the text of those
      (`format_sql_string`). */
  datatype Literals = Literals(select: string -> bool, rewrite: string -> Result<string, StringError>)

  /** Index in `ts` of the token that ends the look-ahead: the first one that
      is a comment, a string or the end marker. */
  function StopIndex(ts: seq<PyToken>): (r: Option<nat>)
    ensures r.Some? ==> r.value < |ts| && ts[r.value].kind != OtherToken
    ensures r.Some? ==> forall j :: 0 <= j < r.value ==> ts[j].kind == OtherToken
    ensures r.None? ==> forall j :: 0 <= j < |ts| ==> ts[j].kind == OtherToken
  {
    if ts == [] then None
    else if ts[0].kind != OtherToken then Some(0)
    else match StopIndex(ts[1..])
      case None => None
      case Some(k) => Some(k + 1)
  }

  /** The string token with its literal re-formatted. */
  function FormatToken(t: PyToken, lits: Literals): (r: Result<PyToken, StringError>)
    ensures r.Ok? ==> r.value == t.(value := r.value.value) && lits.rewrite(t.value) == Ok(r.value.value)
    ensures r.Err? ==> lits.rewrite(t.value) == Err(r.error)
  {
    var f :- lits.rewrite(t.value);
    Ok(t.(value := f))
  }

  /** `after` is `before`, or a select string literal replaced by its
      re-formatted text. */
  predicate Replaces(before: PyToken, after: PyToken, lits: Literals)
  {
    && after.kind == before.kind && after.row == before.row
    && (after.value == before.value ||
        (before.kind == StringToken && lits.select(before.value) &&
         lits.rewrite(before.value) == Ok(after.value)))
  }

  /** The output is the input token for token, in order, with only select
      string literals re-formatted. */
  predicate Related(before: seq<PyToken>, after: seq<PyToken>, lits: Literals)
  {
    |before| == |after| && forall i :: 0 <= i < |before| ==> Replaces(before[i], after[i], lits)
  }

  /** How many tokens changed their text. */
  function Changed(before: seq<PyToken>, after: seq<PyToken>): nat
    requires |before| == |after|
  {
    if before == [] then 0
    else (if before[0].value != after[0].value then 1 else 0) + Changed(before[1..], after[1..])
  }

  lemma {:induction false} ChangedAppend(a: seq<PyToken>, b: seq<PyToken>, c: seq<PyToken>, d: seq<PyToken>)
    requires |a| == |b| && |c| == |d|
    ensures Changed(a + c, b + d) == Changed(a, b) + Changed(c, d)
    decreases |a|
  {
    if a != [] {
      assert (a + c)[1..] == a[1..] + c;
      assert (b + d)[1..] == b[1..] + d;
      ChangedAppend(a[1..], b[1..], c, d);
    } else {
      assert a + c == c && b + d == d;
    }
  }

  lemma {:induction false} ChangedSame(a: seq<PyToken>)
    ensures Changed(a, a) == 0
    decreases |a|
  {
    if a != [] {
      ChangedSame(a[1..]);
    }
  }

  /** A token followed by tokens left as they are. */
  lemma HeadChanged(t: PyToken, t2: PyToken, rest: seq<PyToken>)
    ensures Changed([t] + rest, [t2] + rest) == (if t.value != t2.value then 1 else 0)
  {
    ChangedAppend([t], [t2], rest, rest);
    ChangedSame(rest);
    assert [t][1..] == [];
  }

  /** What one step of the pass produced: the tokens it emitted, how many of
      them changed, and the tokens still to read. */
  datatype Stepped = Stepped(emitted: seq<PyToken>, changed: nat, remaining: seq<PyToken>)

  /** One step of the pass: a token that is not a select string is copied;
      a select string is re-formatted, unless the first comment, string or
      end marker after it is a `nosqlformat` comment, and the tokens read
      while looking for that one are copied. When the look-ahead stopped on a
      string, that string is left to the next step (`handle_string_token`
      calls itself on it). When the file ends during the look-ahead the
      literal is kept as it is; when it ends right after the literal, the
      literal is re-formatted. */
  function Step(ts: seq<PyToken>, lits: Literals): (r: Result<Stepped, StringError>)
    requires ts != []
  {
    var t := ts[0];
    if t.kind != StringToken || !lits.select(t.value) then Ok(Stepped([t], 0, ts[1..]))
    else if |ts| == 1 then
      var t2 :- FormatToken(t, lits);
      Ok(Stepped([t2], if t2.value != t.value then 1 else 0, []))
    else
      match StopIndex(ts[1..])
      case None => Ok(Stepped(ts, 0, []))
      case Some(k) =>
        var next := ts[1 + k];
        var t2 :- if next.kind == CommentToken && Contains(next.value, NoSqlFormatComment) then Ok(t)
                  else FormatToken(t, lits);
        var changed := if t2.value != t.value then 1 else 0;
        if next.kind == StringToken then Ok(Stepped([t2] + ts[1..1 + k], changed, ts[1 + k..]))
        else Ok(Stepped([t2] + ts[1..2 + k], changed, ts[2 + k..]))
  }

  /** The first token replaced, the others copied. */
  lemma HeadReplaced(ts: seq<PyToken>, t2: PyToken, n: nat, lits: Literals)
    requires 1 <= n <= |ts| && Replaces(ts[0], t2, lits)
    ensures Related(ts[..n], [t2] + ts[1..n], lits)
    ensures Changed(ts[..n], [t2] + ts[1..n]) == (if t2.value != ts[0].value then 1 else 0)
  {
    assert ts[..n] == [ts[0]] + ts[1..n];
    HeadChanged(ts[0], t2, ts[1..n]);
  }

  lemma {:induction false} RelatedAppend(a: seq<PyToken>, b: seq<PyToken>, c: seq<PyToken>, d: seq<PyToken>, lits: Literals)
    requires Related(a, b, lits) && Related(c, d, lits)
    ensures Related(a + c, b + d, lits)
  {
    forall i | 0 <= i < |a + c| ensures Replaces((a + c)[i], (b + d)[i], lits) {
      if i >= |a| {
        assert (a + c)[i] == c[i - |a|] && (b + d)[i] == d[i - |a|];
      }
    }
  }

  lemma FormatTokenReplaces(t: PyToken, lits: Literals)
    requires t.kind == StringToken && lits.select(t.value) && FormatToken(t, lits).Ok?
    ensures Replaces(t, FormatToken(t, lits).value, lits)
  {
  }

  /** A step reads at least one token, emits what it read with only the first
      token possibly re-formatted, and counts that change. */
  lemma StepSpec(ts: seq<PyToken>, lits: Literals)
    requires ts != [] && Step(ts, lits).Ok?
    ensures var s := Step(ts, lits).value;
      && 0 < |s.emitted| <= |ts| && s.remaining == ts[|s.emitted|..]
      && Related(ts[..|s.emitted|], s.emitted, lits)
      && s.changed == Changed(ts[..|s.emitted|], s.emitted)
  {
    var s := Step(ts, lits).value;
    var t := ts[0];
    if t.kind != StringToken || !lits.select(t.value) {
      HeadReplaced(ts, t, 1, lits);
    } else if |ts| == 1 {
      FormatTokenReplaces(t, lits);
      HeadReplaced(ts, FormatToken(t, lits).value, 1, lits);
    } else {
      match StopIndex(ts[1..])
      case None =>
        HeadReplaced(ts, t, |ts|, lits);
        assert ts[..|ts|] == ts == [t] + ts[1..|ts|];
      case Some(k) =>
        var next := ts[1 + k];
        var t2 := s.emitted[0];
        if !(next.kind == CommentToken && Contains(next.value, NoSqlFormatComment)) {
          FormatTokenReplaces(t, lits);
        }
        var n := if next.kind == StringToken then 1 + k else 2 + k;
        assert s.emitted == [t2] + ts[1..n];
        HeadReplaced(ts, t2, n, lits);
    }
  }

  lemma StepShrinks(ts: seq<PyToken>, lits: Literals)
    requires ts != [] && Step(ts, lits).Ok?
    ensures |Step(ts, lits).value.remaining| < |ts|
  {
    StepSpec(ts, lits);
  }

  /** The result of the pass: the new token sequence and `count_changed_sql`. */
  datatype PassResult = PassResult(tokens: seq<PyToken>, changed: nat)

  /** `get_formatted_file_content` on a token sequence; a failing literal
      makes the whole file fail, as the exception does. */
  function Pass(ts: seq<PyToken>, lits: Literals): (r: Result<PassResult, StringError>)
    decreases |ts|
  {
    if ts == [] then Ok(PassResult([], 0))
    else
      var s :- Step(ts, lits);
      StepShrinks(ts, lits);
      var p :- Pass(s.remaining, lits);
      Ok(PassResult(s.emitted + p.tokens, s.changed + p.changed))
  }

  /** Every token comes out once, in order, with only select string literals
      re-formatted, and the count is the number of tokens whose text changed. */
  lemma {:induction false} PassSpec(ts: seq<PyToken>, lits: Literals)
    requires Pass(ts, lits).Ok?
    ensures var p := Pass(ts, lits).value;
      Related(ts, p.tokens, lits) && p.changed == Changed(ts, p.tokens)
    decreases |ts|
  {
    if ts != [] {
      assert Step(ts, lits).Ok?;
      var s := Step(ts, lits).value;
      assert Pass(s.remaining, lits).Ok?;
      var p := Pass(s.remaining, lits).value;
      assert Pass(ts, lits).value == PassResult(s.emitted + p.tokens, s.changed + p.changed);
      StepSpec(ts, lits);
      PassSpec(s.remaining, lits);
      var head := ts[..|s.emitted|];
      assert head + s.remaining == ts;
      ChangedAppend(head, s.emitted, s.remaining, p.tokens);
      RelatedAppend(head, s.emitted, s.remaining, p.tokens, lits);
    }
  }

  /** A select string whose look-ahead ends on a `nosqlformat` comment is
      kept as it is, with the tokens up to that comment, and counts nothing. */
  lemma PragmaKeepsLiteral(ts: seq<PyToken>, k: nat, lits: Literals)
    requires 2 + k <= |ts| && ts[0].kind == StringToken && lits.select(ts[0].value)
    requires forall j :: 1 <= j < 1 + k ==> ts[j].kind == OtherToken
    requires ts[1 + k].kind == CommentToken && Contains(ts[1 + k].value, NoSqlFormatComment)
    ensures Step(ts, lits) == Ok(Stepped(ts[..2 + k], 0, ts[2 + k..]))
  {
    assert ts[1..][k] == ts[1 + k];
    forall j | 0 <= j < k ensures ts[1..][j].kind == OtherToken {
      assert ts[1..][j] == ts[1 + j];
    }
    assert StopIndex(ts[1..]) == Some(k);
    assert [ts[0]] + ts[1..2 + k] == ts[..2 + k];
  }

  /** Any other end of the look-ahead (a plain comment, a string or the end
      marker, after any number of other tokens) re-formats the literal; the
      tokens read are copied, and a string that ended the look-ahead is left
      to the next step. A formatter error is passed on. */
  lemma StopReformatsLiteral(ts: seq<PyToken>, k: nat, lits: Literals)
    requires 2 + k <= |ts| && ts[0].kind == StringToken && lits.select(ts[0].value)
    requires forall j :: 1 <= j < 1 + k ==> ts[j].kind == OtherToken
    requires ts[1 + k].kind != OtherToken
    requires !(ts[1 + k].kind == CommentToken && Contains(ts[1 + k].value, NoSqlFormatComment))
    ensures var n := if ts[1 + k].kind == StringToken then 1 + k else 2 + k;
      match FormatToken(ts[0], lits)
      case Ok(t2) => Step(ts, lits) == Ok(Stepped([t2] + ts[1..n], if t2.value != ts[0].value then 1 else 0, ts[n..]))
      case Err(e) => Step(ts, lits) == Err(e)
  {
    assert ts[1..][k] == ts[1 + k];
    forall j | 0 <= j < k ensures ts[1..][j].kind == OtherToken {
      assert ts[1..][j] == ts[1 + j];
    }
    assert StopIndex(ts[1..]) == Some(k);
  }

  /** A select string at the very end is re-formatted. */
  lemma StepLast(b: PyToken, lits: Literals)
    requires b.kind == StringToken && lits.select(b.value) && FormatToken(b, lits).Ok?
    ensures var b2 := FormatToken(b, lits).value;
      Step([b], lits) == Ok(Stepped([b2], if b2.value != b.value then 1 else 0, []))
  {
  }

  /** A select string right before another string is re-formatted, and the
      other string is left to the next step. */
  lemma StepBeforeString(a: PyToken, rest: seq<PyToken>, lits: Literals)
    requires a.kind == StringToken && lits.select(a.value) && FormatToken(a, lits).Ok?
    requires rest != [] && rest[0].kind == StringToken
    ensures var a2 := FormatToken(a, lits).value;
      Step([a] + rest, lits) == Ok(Stepped([a2], if a2.value != a.value then 1 else 0, rest))
  {
    var ts := [a] + rest;
    var a2 := FormatToken(a, lits).value;
    assert ts[1..] == rest && ts[0] == a;
    assert StopIndex(rest) == Some(0);
    assert [a2] + ts[1..1] == [a2];
  }

  /** Two select strings in a row: the first one's look-ahead stops on the
      second, and both are re-formatted and counted. */
  lemma TwoSelectStrings(a: PyToken, b: PyToken, lits: Literals)
    requires a.kind == StringToken && lits.select(a.value)
    requires b.kind == StringToken && lits.select(b.value)
    requires FormatToken(a, lits).Ok? && FormatToken(b, lits).Ok?
    ensures var a2, b2 := FormatToken(a, lits).value, FormatToken(b, lits).value;
      Pass([a, b], lits) ==
        Ok(PassResult([a2, b2], (if a2.value != a.value then 1 else 0) + (if b2.value != b.value then 1 else 0)))
  {
    var a2, b2 := FormatToken(a, lits).value, FormatToken(b, lits).value;
    var ca, cb := (if a2.value != a.value then 1 else 0), (if b2.value != b.value then 1 else 0);
    StepBeforeString(a, [b], lits);
    assert [a] + [b] == [a, b];
    StepLast(b, lits);
    PassUnfold([b], lits, Stepped([b2], cb, []));
    assert Pass([b], lits) == Ok(PassResult([b2], cb)) by {
      assert [b2] + [] == [b2];
    }
    PassUnfold([a, b], lits, Stepped([a2], ca, [b]));
    assert [a2] + [b2] == [a2, b2];
  }

  /** Tokens that are not strings pass unchanged. */
  lemma {:induction false} PassWithoutStrings(ts: seq<PyToken>, lits: Literals)
    requires forall i :: 0 <= i < |ts| ==> ts[i].kind != StringToken
    ensures Pass(ts, lits) == Ok(PassResult(ts, 0))
    decreases |ts|
  {
    if ts != [] {
      PassWithoutStrings(ts[1..], lits);
      assert [ts[0]] + ts[1..] == ts;
    }
  }

  /** The rest of the pass after what was already emitted. */
  function Prepend(tokens: seq<PyToken>, count: nat, r: Result<PassResult, StringError>): Result<PassResult, StringError>
  {
    match r
    case Err(e) => Err(e)
    case Ok(p) => Ok(PassResult(tokens + p.tokens, count + p.changed))
  }

  lemma PrependNothing(r: Result<PassResult, StringError>)
    ensures Prepend([], 0, r) == r
  {
    if r.Ok? {
      assert [] + r.value.tokens == r.value.tokens;
    }
  }

  /** `Pass` unfolded once. */
  lemma PassUnfold(ts: seq<PyToken>, lits: Literals, s: Stepped)
    requires ts != [] && Step(ts, lits) == Ok(s)
    ensures Pass(ts, lits) == Prepend(s.emitted, s.changed, Pass(s.remaining, lits))
  {
  }

  lemma PrependTwice(a: seq<PyToken>, m: nat, b: seq<PyToken>, n: nat, r: Result<PassResult, StringError>)
    ensures Prepend(a, m, Prepend(b, n, r)) == Prepend(a + b, m + n, r)
  {
    if r.Ok? {
      assert a + (b + r.value.tokens) == a + b + r.value.tokens;
    }
  }

  /** Running one step moves its output in front of the rest of the pass. */
  lemma PrependStep(tokens: seq<PyToken>, count: nat, rest: seq<PyToken>, lits: Literals, s: Stepped)
    requires rest != [] && Step(rest, lits) == Ok(s)
    ensures |s.remaining| < |rest|
    ensures Prepend(tokens, count, Pass(rest, lits)) == Prepend(tokens + s.emitted, count + s.changed, Pass(s.remaining, lits))
  {
    StepShrinks(rest, lits);
    PassUnfold(rest, lits, s);
    PrependTwice(tokens, count, s.emitted, s.changed, Pass(s.remaining, lits));
  }

  lemma PassOfFailedStep(tokens: seq<PyToken>, count: nat, rest: seq<PyToken>, lits: Literals)
    requires rest != [] && Step(rest, lits).Err?
    ensures Prepend(tokens, count, Pass(rest, lits)) == Err(Step(rest, lits).error)
  {
  }

  /** The loop of `get_formatted_file_content`: a token is handed to one
      step (`handle_string_token` for a string, a copy otherwise), and the
      loop goes on after what that step read. */
  method GetFormattedFileContent(ts: seq<PyToken>, lits: Literals) returns (r: Result<PassResult, StringError>)
    ensures r == Pass(ts, lits)
    ensures r.Ok? ==> Related(ts, r.value.tokens, lits) && r.value.changed == Changed(ts, r.value.tokens)
  {
    var tokens: seq<PyToken> := [];
    var count: nat := 0;
    var rest := ts;
    PrependNothing(Pass(ts, lits));
    while rest != []
      invariant Pass(ts, lits) == Prepend(tokens, count, Pass(rest, lits))
      decreases |rest|
    {
      match Step(rest, lits)
      case Err(e) =>
        PassOfFailedStep(tokens, count, rest, lits);
        r := Err(e);
        return;
      case Ok(s) =>
        PrependStep(tokens, count, rest, lits, s);
        tokens := tokens + s.emitted;
        count := count + s.changed;
        rest := s.remaining;
    }
    assert tokens + [] == tokens;
    r := Ok(PassResult(tokens, count));
    if r.Ok? {
      PassSpec(ts, lits);
    }
  }

  /** `format_sql_string` with the SQL formatter of this model. */
  function SqlLiteral(s: string): Result<string, StringError>
  {
    FormatSqlString(s, SqlFormatter.FormatSql)
  }

  const SqlLiterals := Literals(IsSelectString, SqlLiteral)

  /** `get_formatted_file_content` itself, with the SQL formatter of this model. */
  function FormatFileTokens(ts: seq<PyToken>): (r: Result<PassResult, StringError>)
    ensures r.Ok? ==> Related(ts, r.value.tokens, SqlLiterals) && r.value.changed == Changed(ts, r.value.tokens)
  {
    var r := Pass(ts, SqlLiterals);
    if r.Ok? then PassSpec(ts, SqlLiterals); r else r
  }
}
