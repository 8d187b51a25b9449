/**
 * sqlvalidator/file_handler.py: the combined format-and-validate pass over
 * the string literals of a Python file, the per-file result it builds, and
 * the counters (`InputSQLAnalyseInfo`) that are summed over files.
 *
 * The literal handling is the one of the file formatter; the text of a
 * literal goes to `SQLQuery.format()`, which sql_validator.py does not
 * define, so the formatter is a parameter here, and so is the answer of
 * `SQLQuery.is_valid()`, which the query handle of this model shows to be
 * always true (`SqlValidator.ParseIsValid`).
 */
module FileHandler {
  import opened Basics
  import opened FileFormatter

  const NoSqlValidationComment := "nosqlvalidation"

  // ================================================================ handle_sql_string

  /** The rewritten literal and the text of the query built from it. */
  datatype Handled = Handled(text: string, query: string)

  /** `handle_sql_string` with `SQLQuery.format()` given as `format`. */
  function HandleSqlString(s: string, format: string -> string): (r: Result<Handled, StringError>)
    ensures DetectQuotes(s).None? <==> r.Err?
    ensures r.Err? ==> r.error == QuotesNotFound
  {
    match DetectQuotes(s)
    case None => Err(QuotesNotFound)
    case Some(d) =>
      var inner := Inner(s, d);
      var f := format(inner);
      Ok(Handled(Quoted(d.prefix, NewQuotes(d.quotes, f), f), inner))
  }

  /** `handle_sql_string` detects, strips, upgrades and wraps exactly as
      `format_sql_string` does, and its query holds the stripped text. */
  lemma HandleIsFormat(s: string, format: string -> string)
    ensures var r := HandleSqlString(s, format);
      var fs := FormatSqlString(s, x => Ok(format(x)));
      && (r.Err? <==> fs.Err?)
      && (r.Ok? ==> fs == Ok(r.value.text))
      && (r.Ok? ==> r.value.query == Inner(s, DetectQuotes(s).value))
  {
  }

  /** What `compute_file_content` is asked to do and the functions it
      calls: whether to format and to validate, which literals hold a select
      statement (`is_select_string`), how one is handled
      (`handle_sql_string`), and whether a query is valid
      (`SQLQuery.is_valid()`). */
  datatype Options = Options(
    shouldFormat: bool,
    shouldValidate: bool,
    select: string -> bool,
    handle: string -> Result<Handled, StringError>,
    valid: string -> bool)

  /** The options of a run of the source, with `SQLQuery.format()` given as
      `format`. */
  function SqlOptions(shouldFormat: bool, shouldValidate: bool, format: string -> string, valid: string -> bool): (o: Options)
    ensures o.select == IsSelectString && o.valid == valid
    ensures o.shouldFormat == shouldFormat && o.shouldValidate == shouldValidate
    ensures forall s :: o.handle(s) == HandleSqlString(s, format)
  {
    Options(shouldFormat, shouldValidate, IsSelectString, s => HandleSqlString(s, format), valid)
  }

  /** The literal's token as written back, whether it counts as changed,
      and the rows of the invalid queries it adds (none or its own row). */
  datatype Verdict = Verdict(token: PyToken, changed: nat, errorRows: seq<nat>)

  /** A select string at the very end of the stream: formatted, counted when
      its text differs, and reported when its query is invalid. */
  function AnalyseLast(t: PyToken, o: Options): (r: Result<Verdict, StringError>)
    ensures r.Ok? ==> |r.value.errorRows| <= 1 && r.value.changed <= 1
  {
    var h :- o.handle(t.value);
    Ok(Verdict(t.(value := h.text), if h.text != t.value then 1 else 0, if !o.valid(h.query) then [t.row] else []))
  }

  /** A select string whose look-ahead ended on `next`: it is analysed unless
      `next` is a comment that asks for neither formatting nor validation;
      it is replaced only when its text changed and `next` does not contain
      `nosqlformat`, and reported only when invalid and `next` does not
      contain `nosqlvalidation`. */
  function AnalyseBefore(t: PyToken, next: PyToken, o: Options): (r: Result<Verdict, StringError>)
    ensures r.Ok? ==> |r.value.errorRows| <= 1 && r.value.changed <= 1
    ensures r.Ok? && Contains(next.value, NoSqlFormatComment) ==> r.value.token == t && r.value.changed == 0
    ensures r.Ok? && Contains(next.value, NoSqlValidationComment) ==> r.value.errorRows == []
  {
    var needsFormat := o.shouldFormat && !Contains(next.value, NoSqlFormatComment);
    var needsValidate := o.shouldValidate && !Contains(next.value, NoSqlValidationComment);
    if next.kind != CommentToken || needsFormat || needsValidate then
      var h :- o.handle(t.value);
      var replace := h.text != t.value && !Contains(next.value, NoSqlFormatComment);
      var report := !o.valid(h.query) && !Contains(next.value, NoSqlValidationComment);
      Ok(Verdict(if replace then t.(value := h.text) else t, if replace then 1 else 0, if report then [t.row] else []))
    else
      Ok(Verdict(t, 0, []))
  }

  /** What one step produced: the tokens emitted, the changed-literal count,
      the rows of invalid queries, and the tokens still to read. */
  datatype HStepped = HStepped(emitted: seq<PyToken>, changed: nat, errorRows: seq<nat>, remaining: seq<PyToken>)

  /** One step of the pass of `compute_file_content`: the same look-ahead as
      in the file formatter, with the analysis above. */
  function HStep(ts: seq<PyToken>, o: Options): (r: Result<HStepped, StringError>)
    requires ts != []
  {
    var t := ts[0];
    if t.kind != StringToken || !o.select(t.value) then Ok(HStepped([t], 0, [], ts[1..]))
    else if |ts| == 1 then
      var v :- AnalyseLast(t, o);
      Ok(HStepped([v.token], v.changed, v.errorRows, []))
    else
      match StopIndex(ts[1..])
      case None => Ok(HStepped(ts, 0, [], []))
      case Some(k) =>
        var next := ts[1 + k];
        var v :- AnalyseBefore(t, next, o);
        if next.kind == StringToken then Ok(HStepped([v.token] + ts[1..1 + k], v.changed, v.errorRows, ts[1 + k..]))
        else Ok(HStepped([v.token] + ts[1..2 + k], v.changed, v.errorRows, ts[2 + k..]))
  }

  /** The literal rewriting `compute_file_content` may apply, in the terms of
      the file formatter's pass. */
  function HandlerLiterals(o: Options): Literals
  {
    Literals(o.select, s => match o.handle(s) {
      case Err(e) => Err(e)
      case Ok(h) => Ok(h.text)
    })
  }

  lemma AnalyseReplaces(t: PyToken, v: Verdict, o: Options, h: Handled)
    requires t.kind == StringToken && o.select(t.value)
    requires o.handle(t.value) == Ok(h)
    requires v.token == t || v.token == t.(value := h.text)
    ensures Replaces(t, v.token, HandlerLiterals(o))
  {
  }

  /** A verdict keeps the literal or rewrites it as handled, counts the
      change, and reports at most the literal's own row. */
  predicate Sound(t: PyToken, v: Verdict, o: Options)
  {
    && Replaces(t, v.token, HandlerLiterals(o))
    && v.changed == (if v.token.value != t.value then 1 else 0)
    && |v.errorRows| <= 1 && (v.errorRows != [] ==> v.errorRows == [t.row])
  }

  lemma AnalyseLastSound(t: PyToken, o: Options, v: Verdict)
    requires t.kind == StringToken && o.select(t.value) && AnalyseLast(t, o) == Ok(v)
    ensures Sound(t, v, o)
  {
    AnalyseReplaces(t, v, o, o.handle(t.value).value);
  }

  lemma AnalyseBeforeSound(t: PyToken, next: PyToken, o: Options, v: Verdict)
    requires t.kind == StringToken && o.select(t.value) && AnalyseBefore(t, next, o) == Ok(v)
    ensures Sound(t, v, o)
  {
    if v.token != t {
      AnalyseReplaces(t, v, o, o.handle(t.value).value);
    }
  }

  /** The first token of a step is the literal, possibly rewritten. */
  lemma HStepHead(ts: seq<PyToken>, o: Options, s: HStepped)
    requires ts != [] && HStep(ts, o) == Ok(s)
    ensures 0 < |s.emitted| <= |ts| && s.remaining == ts[|s.emitted|..]
    ensures s.emitted == [s.emitted[0]] + ts[1..|s.emitted|]
    ensures Replaces(ts[0], s.emitted[0], HandlerLiterals(o))
    ensures s.changed == (if s.emitted[0].value != ts[0].value then 1 else 0)
    ensures |s.errorRows| <= 1 && (s.errorRows != [] ==> s.errorRows == [ts[0].row])
  {
    var t := ts[0];
    if t.kind != StringToken || !o.select(t.value) {
      assert s == HStepped([t], 0, [], ts[1..]);
    } else if |ts| == 1 {
      var v := AnalyseLast(t, o).value;
      assert s == HStepped([v.token], v.changed, v.errorRows, []);
      AnalyseLastSound(t, o, v);
    } else {
      match StopIndex(ts[1..])
      case None =>
        assert s == HStepped(ts, 0, [], []);
        assert ts == [t] + ts[1..|ts|];
      case Some(k) =>
        HStepBefore(ts, o, s, k);
    }
  }

  lemma HStepBefore(ts: seq<PyToken>, o: Options, s: HStepped, k: nat)
    requires |ts| > 1 && ts[0].kind == StringToken && o.select(ts[0].value)
    requires StopIndex(ts[1..]) == Some(k) && HStep(ts, o) == Ok(s)
    ensures 0 < |s.emitted| <= |ts| && s.remaining == ts[|s.emitted|..]
    ensures s.emitted == [s.emitted[0]] + ts[1..|s.emitted|]
    ensures Replaces(ts[0], s.emitted[0], HandlerLiterals(o))
    ensures s.changed == (if s.emitted[0].value != ts[0].value then 1 else 0)
    ensures |s.errorRows| <= 1 && (s.errorRows != [] ==> s.errorRows == [ts[0].row])
  {
    var t := ts[0];
    var next := ts[1 + k];
    var v := AnalyseBefore(t, next, o).value;
    AnalyseBeforeSound(t, next, o, v);
    var n := if next.kind == StringToken then 1 + k else 2 + k;
    assert s == HStepped([v.token] + ts[1..n], v.changed, v.errorRows, ts[n..]);
  }

  /** A step emits what it read, with only the literal possibly rewritten,
      and counts that change. */
  lemma HStepSpec(ts: seq<PyToken>, o: Options, s: HStepped)
    requires ts != [] && HStep(ts, o) == Ok(s)
    ensures 0 < |s.emitted| <= |ts| && s.remaining == ts[|s.emitted|..]
    ensures Related(ts[..|s.emitted|], s.emitted, HandlerLiterals(o))
    ensures s.changed == Changed(ts[..|s.emitted|], s.emitted)
    ensures |s.errorRows| <= 1
  {
    HStepHead(ts, o, s);
    HeadReplaced(ts, s.emitted[0], |s.emitted|, HandlerLiterals(o));
  }

  /** The result of `compute_file_content`: the new tokens,
      `count_changed_sql`, `count_has_errors` and the rows of
      `errors_locations`. */
  datatype Content = Content(tokens: seq<PyToken>, changed: nat, hasErrors: nat, errorRows: seq<nat>)

  /** The rest of the pass after what was already emitted. */
  function PrependContent(tokens: seq<PyToken>, changed: nat, rows: seq<nat>, r: Result<Content, StringError>): Result<Content, StringError>
  {
    match r
    case Err(e) => Err(e)
    case Ok(c) => Ok(Content(tokens + c.tokens, changed + c.changed, |rows| + c.hasErrors, rows + c.errorRows))
  }

  /** `compute_file_content` on a token sequence; a literal without quotes
      makes the whole file fail, as the failing `assert` does. */
  function HPass(ts: seq<PyToken>, o: Options): (r: Result<Content, StringError>)
    decreases |ts|
  {
    if ts == [] then Ok(Content([], 0, 0, []))
    else
      match HStep(ts, o)
      case Err(e) => Err(e)
      case Ok(s) =>
        HStepSpec(ts, o, s);
        PrependContent(s.emitted, s.changed, s.errorRows, HPass(s.remaining, o))
  }

  /** Every token comes out once, in order, only select literals rewritten;
      `count_changed_sql` counts the tokens whose text changed, and
      `count_has_errors` the recorded error locations. */
  lemma {:induction false} HPassSpec(ts: seq<PyToken>, o: Options)
    requires HPass(ts, o).Ok?
    ensures var c := HPass(ts, o).value;
      && Related(ts, c.tokens, HandlerLiterals(o))
      && c.changed == Changed(ts, c.tokens)
      && c.hasErrors == |c.errorRows|
    decreases |ts|
  {
    if ts != [] {
      assert HStep(ts, o).Ok?;
      var s := HStep(ts, o).value;
      HStepSpec(ts, o, s);
      assert HPass(s.remaining, o).Ok?;
      var c := HPass(s.remaining, o).value;
      assert HPass(ts, o).value == Content(s.emitted + c.tokens, s.changed + c.changed,
                                           |s.errorRows| + c.hasErrors, s.errorRows + c.errorRows);
      HPassSpec(s.remaining, o);
      var head := ts[..|s.emitted|];
      assert head + s.remaining == ts;
      ChangedAppend(head, s.emitted, s.remaining, c.tokens);
      RelatedAppend(head, s.emitted, s.remaining, c.tokens, HandlerLiterals(o));
    }
  }

  /** When every query is valid, as with the query handle of this model, no
      error is ever counted. */
  lemma {:induction false} NoErrorsWhenAllValid(ts: seq<PyToken>, o: Options)
    requires forall q :: o.valid(q)
    requires HPass(ts, o).Ok?
    ensures HPass(ts, o).value.hasErrors == 0 && HPass(ts, o).value.errorRows == []
    decreases |ts|
  {
    if ts != [] {
      var s := HStep(ts, o).value;
      HStepSpec(ts, o, s);
      NoErrorsWhenAllValid(s.remaining, o);
      assert s.errorRows == [] by {
        var t := ts[0];
        if t.kind == StringToken && o.select(t.value) && |ts| > 1 && StopIndex(ts[1..]).Some? {
          var k := StopIndex(ts[1..]).value;
          assert s.errorRows == AnalyseBefore(t, ts[1 + k], o).value.errorRows;
        }
      }
    }
  }

  /** A select string followed by a `nosqlformat` comment is left unchanged
      and not counted, whatever is asked for. */
  lemma NoFormatPragma(ts: seq<PyToken>, k: nat, o: Options)
    requires 2 + k <= |ts| && ts[0].kind == StringToken && o.select(ts[0].value)
    requires forall j :: 1 <= j < 1 + k ==> ts[j].kind == OtherToken
    requires ts[1 + k].kind == CommentToken && Contains(ts[1 + k].value, NoSqlFormatComment)
    requires HStep(ts, o).Ok?
    ensures HStep(ts, o).value.emitted == ts[..2 + k] && HStep(ts, o).value.changed == 0
  {
    assert ts[1..][k] == ts[1 + k];
    forall j | 0 <= j < k ensures ts[1..][j].kind == OtherToken {
      assert ts[1..][j] == ts[1 + j];
    }
    assert StopIndex(ts[1..]) == Some(k);
    assert [ts[0]] + ts[1..2 + k] == ts[..2 + k];
  }

  /** `count_has_errors` grows only for an invalid query whose look-ahead
      token does not contain `nosqlvalidation`, and records the literal's row. */
  lemma ErrorCounted(ts: seq<PyToken>, k: nat, o: Options)
    requires 2 + k <= |ts| && ts[0].kind == StringToken && o.select(ts[0].value)
    requires forall j :: 1 <= j < 1 + k ==> ts[j].kind == OtherToken
    requires ts[1 + k].kind != OtherToken
    requires HStep(ts, o).Ok?
    ensures var h := o.handle(ts[0].value);
      HStep(ts, o).value.errorRows != [] <==>
        h.Ok? && !o.valid(h.value.query) && !Contains(ts[1 + k].value, NoSqlValidationComment) &&
        (ts[1 + k].kind != CommentToken || (o.shouldFormat && !Contains(ts[1 + k].value, NoSqlFormatComment)) || o.shouldValidate)
    ensures HStep(ts, o).value.errorRows != [] ==> HStep(ts, o).value.errorRows == [ts[0].row]
  {
    assert ts[1..][k] == ts[1 + k];
    forall j | 0 <= j < k ensures ts[1..][j].kind == OtherToken {
      assert ts[1..][j] == ts[1 + j];
    }
    assert StopIndex(ts[1..]) == Some(k);
  }

  lemma HPassUnfold(ts: seq<PyToken>, o: Options, s: HStepped)
    requires ts != [] && HStep(ts, o) == Ok(s)
    ensures HPass(ts, o) == PrependContent(s.emitted, s.changed, s.errorRows, HPass(s.remaining, o))
  {
  }

  lemma PrependContentTwice(a: seq<PyToken>, m: nat, x: seq<nat>, b: seq<PyToken>, n: nat, y: seq<nat>, r: Result<Content, StringError>)
    ensures PrependContent(a, m, x, PrependContent(b, n, y, r)) == PrependContent(a + b, m + n, x + y, r)
  {
    if r.Ok? {
      assert a + (b + r.value.tokens) == a + b + r.value.tokens;
      assert x + (y + r.value.errorRows) == x + y + r.value.errorRows;
    }
  }

  lemma HPrependStep(tokens: seq<PyToken>, changed: nat, rows: seq<nat>, rest: seq<PyToken>, o: Options, s: HStepped)
    requires rest != [] && HStep(rest, o) == Ok(s)
    ensures |s.remaining| < |rest|
    ensures PrependContent(tokens, changed, rows, HPass(rest, o)) ==
            PrependContent(tokens + s.emitted, changed + s.changed, rows + s.errorRows, HPass(s.remaining, o))
  {
    HStepSpec(rest, o, s);
    HPassUnfold(rest, o, s);
    PrependContentTwice(tokens, changed, rows, s.emitted, s.changed, s.errorRows, HPass(s.remaining, o));
  }

  /** The loop of `compute_file_content`, with its counters kept in
      variables as the source keeps them in `nonlocal` names. */
  method ComputeFileContent(ts: seq<PyToken>, o: Options) returns (r: Result<Content, StringError>)
    ensures r == HPass(ts, o)
    ensures r.Ok? ==> Related(ts, r.value.tokens, HandlerLiterals(o)) && r.value.changed == Changed(ts, r.value.tokens)
  {
    var tokens: seq<PyToken> := [];
    var changed: nat := 0;
    var hasErrors: nat := 0;
    var rows: seq<nat> := [];
    var rest := ts;
    assert PrependContent([], 0, [], HPass(ts, o)) == HPass(ts, o) by {
      if HPass(ts, o).Ok? {
        assert [] + HPass(ts, o).value.tokens == HPass(ts, o).value.tokens;
        assert [] + HPass(ts, o).value.errorRows == HPass(ts, o).value.errorRows;
      }
    }
    while rest != []
      invariant hasErrors == |rows|
      invariant HPass(ts, o) == PrependContent(tokens, changed, rows, HPass(rest, o))
      decreases |rest|
    {
      match HStep(rest, o)
      case Err(e) =>
        r := Err(e);
        return;
      case Ok(s) =>
        HPrependStep(tokens, changed, rows, rest, o, s);
        tokens := tokens + s.emitted;
        changed := changed + s.changed;
        hasErrors := hasErrors + |s.errorRows|;
        rows := rows + s.errorRows;
        rest := s.remaining;
    }
    assert tokens + [] == tokens && rows + [] == rows;
    r := Ok(Content(tokens, changed, hasErrors, rows));
    HPassSpec(ts, o);
  }

  // ================================================================ agreement with the file formatter

  /** A handler step seen as a formatter step: its tokens and its count. */
  function AsStepped(r: Result<HStepped, StringError>): Result<Stepped, StringError>
  {
    match r
    case Err(e) => Err(e)
    case Ok(s) => Ok(Stepped(s.emitted, s.changed, s.remaining))
  }

  /** A handler result seen as a formatter result. */
  function AsPassResult(r: Result<Content, StringError>): Result<PassResult, StringError>
  {
    match r
    case Err(e) => Err(e)
    case Ok(c) => Ok(PassResult(c.tokens, c.changed))
  }

  /** Only comments mention `nosqlformat`. The handler also keeps a literal
      as it is when the string that ends its look-ahead mentions it; the
      formatter looks at comments only. */
  predicate PragmaOnlyInComments(ts: seq<PyToken>)
  {
    forall i :: 0 <= i < |ts| && ts[i].kind != CommentToken ==> !Contains(ts[i].value, NoSqlFormatComment)
  }

  /** Formatting without validating, a handler step does what a formatter
      step does, failures included. */
  lemma HStepIsStep(ts: seq<PyToken>, o: Options)
    requires ts != [] && o.shouldFormat && !o.shouldValidate && PragmaOnlyInComments(ts)
    ensures Step(ts, HandlerLiterals(o)) == AsStepped(HStep(ts, o))
  {
    var t := ts[0];
    if t.kind == StringToken && o.select(t.value) && |ts| > 1 {
      match StopIndex(ts[1..])
      case None =>
      case Some(k) =>
        var next := ts[1 + k];
        if next.kind == CommentToken && Contains(next.value, NoSqlFormatComment) {
          assert AnalyseBefore(t, next, o) == Ok(Verdict(t, 0, []));
        } else {
          match o.handle(t.value)
          case Err(e) =>
            assert FormatToken(t, HandlerLiterals(o)) == Err(e);
            assert AnalyseBefore(t, next, o) == Err(e);
          case Ok(h) =>
            assert FormatToken(t, HandlerLiterals(o)) == Ok(t.(value := h.text));
            assert h.text == t.value ==> t.(value := h.text) == t;
        }
    }
  }

  lemma AsPassResultPrepend(tokens: seq<PyToken>, changed: nat, rows: seq<nat>, r: Result<Content, StringError>)
    ensures AsPassResult(PrependContent(tokens, changed, rows, r)) == Prepend(tokens, changed, AsPassResult(r))
  {
  }

  /** `compute_file_content` asked only to format rewrites the file exactly
      as `get_formatted_file_content` does and counts the same changes; one
      fails exactly when the other does. */
  lemma {:induction false} HPassIsPass(ts: seq<PyToken>, o: Options)
    requires o.shouldFormat && !o.shouldValidate && PragmaOnlyInComments(ts)
    ensures Pass(ts, HandlerLiterals(o)) == AsPassResult(HPass(ts, o))
    decreases |ts|
  {
    if ts != [] {
      HStepIsStep(ts, o);
      match HStep(ts, o)
      case Err(e) =>
        PassOfFailedStep([], 0, ts, HandlerLiterals(o));
        PrependNothing(Pass(ts, HandlerLiterals(o)));
      case Ok(s) =>
        HStepSpec(ts, o, s);
        PassUnfold(ts, HandlerLiterals(o), Stepped(s.emitted, s.changed, s.remaining));
        HPassUnfold(ts, o, s);
        forall i | 0 <= i < |s.remaining| && s.remaining[i].kind != CommentToken
          ensures !Contains(s.remaining[i].value, NoSqlFormatComment)
        {
          assert s.remaining[i] == ts[|s.emitted| + i];
        }
        HPassIsPass(s.remaining, o);
        AsPassResultPrepend(s.emitted, s.changed, s.errorRows, HPass(s.remaining, o));
    }
  }

  // ================================================================ InputSQLAnalyseInfo

  /** The counters of one input, summed over files by `update`. */
  class InputSQLAnalyseInfo {
    var numChangedFiles: int
    var numChangedSql: int
    var numInvalidFiles: int
    var numInvalidSql: int
    var seenFiles: set<string>

    /** `InputSQLAnalyseInfo()`: every counter 0, no file seen. */
    constructor Empty()
      ensures numChangedFiles == 0 && numChangedSql == 0 && numInvalidFiles == 0 && numInvalidSql == 0
      ensures seenFiles == {}
    {
      numChangedFiles, numChangedSql, numInvalidFiles, numInvalidSql := 0, 0, 0, 0;
      seenFiles := {};
    }

    /** `InputSQLAnalyseInfo(...)` with every argument given. */
    constructor (changedFiles: int, changedSql: int, invalidFiles: int, invalidSql: int, seen: set<string>)
      ensures numChangedFiles == changedFiles && numChangedSql == changedSql
      ensures numInvalidFiles == invalidFiles && numInvalidSql == invalidSql
      ensures seenFiles == seen
    {
      numChangedFiles, numChangedSql, numInvalidFiles, numInvalidSql := changedFiles, changedSql, invalidFiles, invalidSql;
      seenFiles := seen;
    }

    /** `update(other)`: adds the other's counters and takes the union of the
        seen files; the other object is not changed (unless it is this one). */
    method Update(other: InputSQLAnalyseInfo)
      modifies this
      ensures numChangedFiles == old(numChangedFiles) + old(other.numChangedFiles)
      ensures numChangedSql == old(numChangedSql) + old(other.numChangedSql)
      ensures numInvalidFiles == old(numInvalidFiles) + old(other.numInvalidFiles)
      ensures numInvalidSql == old(numInvalidSql) + old(other.numInvalidSql)
      ensures seenFiles == old(seenFiles) + old(other.seenFiles)
      ensures other != this ==> unchanged(other)
    {
      numChangedFiles := numChangedFiles + other.numChangedFiles;
      numChangedSql := numChangedSql + other.numChangedSql;
      numInvalidFiles := numInvalidFiles + other.numInvalidFiles;
      numInvalidSql := numInvalidSql + other.numInvalidSql;
      seenFiles := seenFiles + other.seenFiles;
    }
  }

  /** `analyse_file` without the file reading and writing: a file already
      seen gives empty counters; otherwise it is marked seen, its tokens go
      through the pass (formatting when formatting or checking, validating
      when validating, verbosely or not), and the counters say whether it
      changed and whether it had invalid queries. A failing literal fails the
      file, after it was marked seen. */
  method AnalyseFile(absName: string, seen: set<string>, ts: seq<PyToken>,
                     formatInput: bool, check: bool, validate: bool, verboseValidate: bool,
                     format: string -> string, valid: string -> bool)
    returns (r: Result<InputSQLAnalyseInfo, StringError>, seenAfter: set<string>)
    ensures absName in seen ==> seenAfter == seen
    ensures absName in seen ==>
      (r.Ok? && fresh(r.value) &&
       r.value.numChangedFiles == 0 && r.value.numChangedSql == 0 &&
       r.value.numInvalidFiles == 0 && r.value.numInvalidSql == 0 && r.value.seenFiles == {})
    ensures absName !in seen ==> seenAfter == seen + {absName}
    ensures absName !in seen ==>
      var c := HPass(ts, SqlOptions(formatInput || check, validate || verboseValidate, format, valid));
      && (c.Err? ==> r == Err(c.error))
      && (c.Ok? ==> (r.Ok? && fresh(r.value)
                 && r.value.numChangedFiles == (if c.value.changed > 0 then 1 else 0)
                 && r.value.numChangedSql == c.value.changed
                 && r.value.numInvalidFiles == (if c.value.hasErrors > 0 then 1 else 0)
                 && r.value.numInvalidSql == c.value.hasErrors
                 && r.value.seenFiles == seenAfter))
  {
    if absName in seen {
      var info := new InputSQLAnalyseInfo.Empty();
      return Ok(info), seen;
    }
    seenAfter := seen + {absName};
    var content := ComputeFileContent(ts, SqlOptions(formatInput || check, validate || verboseValidate, format, valid));
    if content.Err? {
      return Err(content.error), seenAfter;
    }
    var c := content.value;
    var info := new InputSQLAnalyseInfo(if c.changed > 0 then 1 else 0, c.changed,
                                         if c.hasErrors > 0 then 1 else 0, c.hasErrors, seenAfter);
    r := Ok(info);
  }
}
