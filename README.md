# sqlvalidator, modelled in Dafny

`sqlvalidator` formats SQL `SELECT` statements and is meant to validate them. Its pipeline has four stages:

1. A tokeniser cuts the SQL text into lower-cased words, punctuation and quote characters.
2. A recursive-descent lexer builds a `SelectStatement` tree from those tokens.
3. The tree's string form is the formatted SQL: upper-case keywords, one column per line, and `FROM` on its own line.
4. Two file-level passes walk the tokens of a Python source file.
   - They find the string literals that hold a select statement.
   - They re-format each such literal in place, upgrading its quotes to triple quotes when the result spans several lines.
   - A `# nosqlformat` comment after a literal keeps it as written; `# nosqlvalidation` keeps an invalid one from being reported.
   - The second pass also counts changed and invalid queries per file, and `InputSQLAnalyseInfo` adds those counts up over files.

The project has one module per source file:

| module | models |
|---|---|
| `Basics` | string helpers Python provides: `lower`, `upper`, `startswith`, `endswith`, `in`, slicing, `join`, `isdigit` |
| `Tokeniser` | `sqlvalidator/grammar/tokeniser.py` |
| `Sql` | `sqlvalidator/grammar/sql.py` |
| `Lexer`, `LexerProperties` | `sqlvalidator/grammar/lexer.py` |
| `SqlFormatter` | `sqlvalidator/sql_formatter.py` |
| `SqlValidator` | `sqlvalidator/sql_validator.py` |
| `FileFormatter` | `sqlvalidator/file_formatter.py` |
| `FileHandler` | `sqlvalidator/file_handler.py` |

How the Python maps onto Dafny:

- **Token streams.** The source consumes Python iterators with `next`. The model works on `seq<Token>`, and every parser returns what it built together with the tokens it did not consume.
- **Errors.** Which exception is raised becomes a `Result` error:
  - `ParsingError(msg)` is `ParsingError`;
  - `StopIteration` from an exhausted `next(tokens)` is `EndOfTokens`;
  - the `ValueError` of the string parser is `MissingEndQuote`;
  - the failing `assert` of the quote detection is `QuotesNotFound`.
- **Loops.** Loops that build lists become `while` loops in methods, each proved equal to a recursive function that then carries the properties:
  - `get_tokens_until_closing_parenthesis` and `get_tokens_until_one_of`;
  - `ExpressionListParser.parse` and `OrderByParser.parse`;
  - the two file passes.
- **`SQLQuery`** is a class, because its `validated` flag and `errors` list change in place. So is `InputSQLAnalyseInfo`.

A Python file is given to the file passes as its token sequence. `tokenize`/`untokenize` and the file I/O are not part of this model. A token has:
- a kind: string, comment, the end marker, or anything else;
- a text;
- the row it starts on.

## Model

| member | source | states |
|---|---|---|
| Basics.Lower | sqlvalidator/grammar/tokeniser.py:82 | `str.lower` on ASCII: same length, each character lower-cased and nothing else changed |
| Basics.Upper | sqlvalidator/grammar/sql.py:37 | `str.upper` on ASCII: same length, each character upper-cased and nothing else changed |
| Basics.LowerOfLowerCase | sqlvalidator/grammar/tokeniser.py:82 | lower-casing a text without upper-case letters leaves it unchanged |
| Basics.LowerConcat | sqlvalidator/grammar/tokeniser.py:82 | lower-casing distributes over concatenation |
| Basics.DigitsRoundTrip | sqlvalidator/grammar/lexer.py:290-291 | a natural number's decimal digits read back as that number |
| Basics.PySlice | sqlvalidator/file_formatter.py:70 | Python slicing `s[i:j]`: the sub-sequence when `i <= j <= len`, empty when `j < i` |
| Tokeniser.SplitPieces | sqlvalidator/grammar/tokeniser.py:27 | no piece of `str.split(c)` contains `c` |
| Tokeniser.SplitJoin | sqlvalidator/grammar/tokeniser.py:27 | joining the pieces of `str.split(c)` with `c` gives back the text |
| Tokeniser.SplitOfJoin | sqlvalidator/grammar/tokeniser.py:64 | splitting words joined by `c` gives back the words, when no word contains `c` |
| Tokeniser.SplitWithSepIsScan | sqlvalidator/grammar/tokeniser.py:26-33 | `split_with_sep` equals the single-pass scan that emits every separator and every non-empty run between separators |
| Tokeniser.SplitWithSepConcat | sqlvalidator/grammar/tokeniser.py:26-33 | the pieces of `split_with_sep` concatenate back to the input: nothing is lost or added |
| Tokeniser.SplitWithSepPieces | sqlvalidator/grammar/tokeniser.py:26-33 | every piece is non-empty and is either the separator or free of it |
| Tokeniser.SplitWithSepCount | sqlvalidator/grammar/tokeniser.py:26-33 | the separator is emitted once per occurrence in the input |
| Tokeniser.SplitWithSepCons | sqlvalidator/grammar/tokeniser.py:28-31 | a text starting with a separator-free word, then the separator, splits into the word (if non-empty), the separator, and the split of the rest |
| Tokeniser.ScanShape | sqlvalidator/grammar/tokeniser.py:26-33 | every scanned token is a kept character or a non-empty run free of kept and dropped characters, and the tokens concatenate to the input minus the dropped characters |
| Tokeniser.ScanConcat | sqlvalidator/grammar/tokeniser.py:26-33 | scanning distributes over concatenation when the second part starts at a token boundary |
| Tokeniser.ScanAbsent | sqlvalidator/grammar/tokeniser.py:65-81 | separators that do not occur in a text do not change how it is scanned |
| Tokeniser.ScanPlain | sqlvalidator/grammar/tokeniser.py:26-33 | a non-empty text with no separator scans to itself |
| Tokeniser.SplitThenScan | sqlvalidator/grammar/tokeniser.py:64-65 | splitting on blanks and then scanning each word equals one scan that drops blanks |
| Tokeniser.ScanRefine | sqlvalidator/grammar/tokeniser.py:65-81 | re-splitting every piece on further separators equals one scan on all the separators |
| Tokeniser.ChainIsScan | sqlvalidator/grammar/tokeniser.py:65-82 | the nested `split_with_sep` loops on `, ; ( ) + - * / =` followed by `lower()` equal one scan on those characters, lower-cased |
| Tokeniser.ChainAllIsScan | sqlvalidator/grammar/tokeniser.py:64-82 | the same, over a list of words |
| Tokeniser.WordsIsScan | sqlvalidator/grammar/tokeniser.py:64-82 | the text outside quotes becomes the lower-cased scan that drops blanks and keeps punctuation |
| Tokeniser.MapLower | sqlvalidator/grammar/tokeniser.py:82 | every token lower-cased, in order |
| Tokeniser.ToTokensNoEmpty | sqlvalidator/grammar/tokeniser.py:36-82 | `to_tokens` never yields an empty token |
| Tokeniser.ToTokensQuoteFree | sqlvalidator/grammar/tokeniser.py:36-82 | without quote characters, `to_tokens` is the lower-cased punctuation scan |
| Tokeniser.ToTokensOutsideQuotes | sqlvalidator/grammar/tokeniser.py:64-82 | without quotes, every token is a lower-case word or punctuation mark, and the tokens spell the lower-cased input with blanks removed |
| Tokeniser.ToTokensPunctuationCount | sqlvalidator/grammar/tokeniser.py:65-81 | without quotes, each punctuation mark becomes a token once per occurrence |
| Tokeniser.ToTokensSentence | sqlvalidator/grammar/tokeniser.py:64-82 | blank-separated quote-free words tokenise to the scan of each word, lower-cased |
| Tokeniser.ToTokensSingleQuoted | sqlvalidator/grammar/tokeniser.py:37-45 | a single-quoted run becomes the quote, the run verbatim and not lower-cased, and the quote; the rest is tokenised around it |
| Tokeniser.ToTokensDoubleQuoted | sqlvalidator/grammar/tokeniser.py:46-54 | the same for a double-quoted run |
| Tokeniser.ToTokensBackQuoted | sqlvalidator/grammar/tokeniser.py:55-62 | the same for a backquoted run between quote-free text |
| Tokeniser.LayerWithoutQuote | sqlvalidator/grammar/tokeniser.py:37-62 | a quoting layer whose quote character does not occur hands the whole text to the inner layer |
| Tokeniser.ClosingShape | sqlvalidator/grammar/tokeniser.py:1-13 | the scan stops at a `)` that closes depth 0, and the tokens before it are balanced; otherwise it takes everything |
| Tokeniser.ClosingBalanced | sqlvalidator/grammar/tokeniser.py:4-10 | the parenthesis depth never goes below its starting value inside the arguments |
| Tokeniser.UntilClosingParenthesis | sqlvalidator/grammar/tokeniser.py:1-13 | split at the first unmatched `)`: the arguments are balanced, never dip below depth 0, and the `)` is consumed; with no such `)`, every token is taken |
| Tokeniser.GetTokensUntilClosingParenthesis | sqlvalidator/grammar/tokeniser.py:1-13 | the counting loop returns exactly `UntilClosingParenthesis` |
| Tokeniser.CutShape | sqlvalidator/grammar/tokeniser.py:16-23 | the input is the taken tokens, the stop word and the rest; no taken token is a stop word; no stop word means the input ran out |
| Tokeniser.UntilOneOf | sqlvalidator/grammar/tokeniser.py:16-23 | same split, as the contract of the function itself |
| Tokeniser.UntilOneOfSeeded | sqlvalidator/grammar/lexer.py:67-69 | the lexer's calls with `first_token=`, consistent with tests/unit/test_tokeniser.py:104-109 (whose seed is not a stop word): the seed is put in front of the stream and, by the model's choice, tested against the stop words like any other token (see "## Left out") |
| Tokeniser.GetTokensUntilOneOf | sqlvalidator/grammar/tokeniser.py:16-23 | the loop, run over the seed followed by the stream, returns exactly `UntilOneOfSeeded`; with no seed it is the loop of lines 16-23 as written |
| Sql.RenderAll | sqlvalidator/grammar/sql.py:11 | `map(str, …)` keeps the length |
| Sql.RenderStatementShape | sqlvalidator/grammar/sql.py:6-16 | the rendered statement starts with `SELECT` and ends with `;`; `SELECT ` is followed by the expression exactly when there is one expression, and by a newline otherwise |
| Sql.RenderParts | sqlvalidator/grammar/sql.py:6-16 | one expression goes on the `SELECT` line; several go one per line, each indented by one blank and separated by commas; the `FROM` line follows exactly when there is a from part; all four combinations are stated |
| Sql.RenderFunctionCallNoArgs | sqlvalidator/grammar/sql.py:35-38 | a call without arguments renders as the upper-cased name and `()` |
| Sql.RenderNames | sqlvalidator/grammar/sql.py:23-24 | a column and a table render as their names |
| Sql.RenderCallOfColumn | sqlvalidator/grammar/sql.py:35-38 | `f(c)` renders as `F(c)`: only the function name is upper-cased |
| Sql.RenderAliasOfColumn | sqlvalidator/grammar/sql.py:72-75 | an alias renders as the expression, ` AS ` or a blank, and the alias |
| Sql.RenderTwoColumns | sqlvalidator/grammar/sql.py:10-12 | two columns are joined by a comma, a newline and a blank |
| Sql.RenderCallWithString | sqlvalidator/grammar/sql.py:35-38 | a nested call with a string argument renders both calls upper-cased and the string inside its own quotes; this is the expected output at tests/test_formatting.py:22-28 |
| Sql.EqSymmetric | sqlvalidator/grammar/sql.py:26-27 | `__eq__` answers the same both ways, including the cases where it would raise |
| Sql.EqIsErasedEquality | sqlvalidator/grammar/sql.py:26-27 | `__eq__` holds exactly when both trees are equal after forgetting what it ignores (string quotes, `with_as`, the node kind of value nodes) |
| Sql.EqAllIsErasedEquality | sqlvalidator/grammar/sql.py:45-50 | the same for argument lists, compared pairwise |
| Sql.EqExamples | sqlvalidator/grammar/sql.py:26-27 | equality is reflexive on supported trees; a string equals a column with the same text; aliases differing only in `AS` are equal |
| Lexer.Pull | sqlvalidator/grammar/lexer.py:301 | `next(tokens, None)`: the token read followed by what is left is the input |
| Lexer.ParseString | sqlvalidator/grammar/lexer.py:355-363 | a string parses when the token after its content is the same quote; fewer than two tokens is `EndOfTokens`; a different closing token is the missing-quote error |
| Lexer.ParseLeaf | sqlvalidator/grammar/lexer.py:286-299 | a leaf never consumes more than it was given; what each leaf is, is stated by `OperandString`, `LeafOfDigits`, `LeafOfBoolean`, `LeafOfParenthesis`, `OperandCallBalanced`, `OperandNegative` and `OperandColumn` |
| Lexer.ParseOperand | sqlvalidator/grammar/lexer.py:283-320 | an operand consumes at least one token; no tokens is `EndOfTokens` |
| Lexer.ContinueArithmetic | sqlvalidator/grammar/lexer.py:316-320 | without a following `+ - * /`, the expression is returned unchanged |
| Lexer.WithAlias | sqlvalidator/grammar/lexer.py:337-352 | a following `None`, `)`, a quote or `;` leaves the expression alone; any other token makes an alias of it, with `AS` exactly when the token is `as`; a trailing `as` is `EndOfTokens` |
| Lexer.ParseExpr | sqlvalidator/grammar/lexer.py:283-352 | an expression consumes at least one token; no tokens is `EndOfTokens`; the condition, boolean-condition and alias branches are stated by the `Expr…` lemmas of `LexerProperties` |
| Lexer.ParseItems | sqlvalidator/grammar/lexer.py:277 | one expression per item |
| Lexer.ParseItemsAppend | sqlvalidator/grammar/lexer.py:269-280 | parsing items one after another: the results concatenate, and the first error wins |
| Lexer.ParseExpressionList | sqlvalidator/grammar/lexer.py:261-280 | an empty list parses to no expressions |
| Lexer.ExpressionListParse | sqlvalidator/grammar/lexer.py:261-280 | the splitting loop returns exactly `ParseExpressionList` |
| Lexer.ParseWhere | sqlvalidator/grammar/lexer.py:174-178 | `WHERE` wraps exactly the parsed expression and fails exactly when it does; what the expression is, is stated by the `Expr…` lemmas of `LexerProperties` |
| Lexer.ParseHaving | sqlvalidator/grammar/lexer.py:197-201 | the same for `HAVING`; the expression is stated by the `Expr…` lemmas |
| Lexer.ParseOffset | sqlvalidator/grammar/lexer.py:254-258 | the same for `OFFSET`; the expression is stated by the `Expr…` lemmas |
| Lexer.ParseGroupBy | sqlvalidator/grammar/lexer.py:181-194 | no tokens is `EndOfTokens`; `rollup` is set exactly when the first token is `rollup` |
| Lexer.ParseOrderByItem | sqlvalidator/grammar/lexer.py:220-235 | never both `ASC` and `DESC`; each is set exactly when it is the word that ended the expression |
| Lexer.ParseOrderByItems | sqlvalidator/grammar/lexer.py:204-217 | one item per comma, plus one |
| Lexer.ParseOrderBy | sqlvalidator/grammar/lexer.py:204-217 | `ORDER BY` has one item per comma, plus one |
| Lexer.OrderByParse | sqlvalidator/grammar/lexer.py:204-217 | the `while next_token` loop returns exactly `ParseOrderBy` |
| Lexer.ParseLimit | sqlvalidator/grammar/lexer.py:238-251 | no tokens is `EndOfTokens`; `all` gives `LIMIT ALL` without an expression; otherwise there is an expression |
| Lexer.ParseFrom | sqlvalidator/grammar/lexer.py:149-171 | no tokens is `EndOfTokens`; the other forms are the `From…` lemmas of `LexerProperties` |
| LexerProperties.FromAliasAs | sqlvalidator/grammar/lexer.py:162-170 | `t as a` is the table `t` aliased to `a` with `AS` |
| LexerProperties.FromAliasBare | sqlvalidator/grammar/lexer.py:162-170 | `t a`, for `a` other than `as`, is the table aliased to `a` without `AS` |
| LexerProperties.FromQuoted | sqlvalidator/grammar/lexer.py:157-158 | a quoted table name is a table holding the string literal, with its quote |
| LexerProperties.FromQuotedMismatch | sqlvalidator/grammar/lexer.py:157-158 | a quoted table name closed by another token is the missing-quote error |
| LexerProperties.FromSubquery | sqlvalidator/grammar/lexer.py:154-157 | balanced tokens in parentheses are parsed as a statement and wrapped in `Parenthesis`; the statement's error is the from part's error |
| LexerProperties.SelectFromOpen | sqlvalidator/grammar/lexer.py:72-78 | `select c from t` without `;` is one column of table `t` with no semicolon |
| LexerProperties.FromSubqueryColumn | tests/unit/test_lexer.py:175-183 | `(select c from t)` is the parenthesised sub-query of one column of `t`, without semicolon |
| Lexer.ParseSelectHead | sqlvalidator/grammar/lexer.py:46-65 | never both `ALL` and `DISTINCT`; `DISTINCT ON` implies `DISTINCT`; no tokens is `EndOfTokens` |
| Lexer.SelectHeadAdvances | sqlvalidator/grammar/lexer.py:46-65 | what the head leaves to read is a suffix of its input |
| Lexer.FromPart | sqlvalidator/grammar/lexer.py:72-78 | a from part only when the keyword is `from`; otherwise nothing is consumed; the rest is a suffix |
| Lexer.WherePart | sqlvalidator/grammar/lexer.py:80-86 | the same for `where` |
| Lexer.GroupByPart | sqlvalidator/grammar/lexer.py:88-97 | the same for `group`, and `group` not followed by `by` is the error `Missing BY after GROUP` |
| Lexer.HavingPart | sqlvalidator/grammar/lexer.py:99-105 | the same for `having` |
| Lexer.OrderByPart | sqlvalidator/grammar/lexer.py:107-116 | the same for `order`, and `order` not followed by `by` is the error `Missing BY after ORDER` |
| Lexer.LimitPart | sqlvalidator/grammar/lexer.py:118-124 | the same for `limit` |
| Lexer.OffsetPart | sqlvalidator/grammar/lexer.py:126-130 | the same for `offset` |
| Lexer.ParseClauses | sqlvalidator/grammar/lexer.py:72-130 | the clause chain only ever moves forward through the tokens |
| Lexer.ParseSelect | sqlvalidator/grammar/lexer.py:41-146 | no tokens is `EndOfTokens`; a statement marked as ending in `;` had a `;` token |
| Lexer.FromClauses | sqlvalidator/grammar/lexer.py:132-146 | `semi_colon` is set exactly when the last token read is `;` |
| Lexer.ParseStatement | sqlvalidator/grammar/lexer.py:32-38 | no tokens is `EndOfTokens`; a first token other than `select` is a `ParsingError` |
| LexerProperties.CutAtStop | sqlvalidator/grammar/tokeniser.py:19 | a stop word in front stops the cut at once |
| LexerProperties.CutPast | sqlvalidator/grammar/tokeniser.py:19-21 | any other token is taken and the cut goes on |
| LexerProperties.CutNoStops | sqlvalidator/grammar/lexer.py:190-192 | with no stop words, everything is taken |
| LexerProperties.CutAfter | sqlvalidator/grammar/tokeniser.py:16-23 | tokens free of stop words, then a stop word: the cut is exactly there |
| LexerProperties.ClosingOfBalanced | sqlvalidator/grammar/tokeniser.py:1-13 | balanced arguments followed by `)` are returned whole, and the `)` is consumed; this is the converse of `UntilClosingParenthesis` |
| LexerProperties.ItemsUnsplit | sqlvalidator/grammar/lexer.py:269-280 | with no comma at depth 0, the whole list is one item |
| LexerProperties.ItemsSplit | sqlvalidator/grammar/lexer.py:276-279 | the first comma at depth 0 ends the first item, and the list after it starts again at depth 0 |
| LexerProperties.ItemsNonEmpty | sqlvalidator/grammar/lexer.py:269-280 | no item is empty |
| LexerProperties.ItemsNestedComma | sqlvalidator/grammar/lexer.py:271-276 | a comma inside parentheses does not split; the one after them does |
| LexerProperties.ItemsAfterComma | sqlvalidator/grammar/lexer.py:273-279 | the separating comma is dropped and the token after it always starts the next item, even a comma; a trailing comma adds no item |
| LexerProperties.LeafOfDigits | sqlvalidator/grammar/lexer.py:290-291 | a digit token is an `Integer` |
| LexerProperties.OperandNegative | sqlvalidator/grammar/lexer.py:310-312 | `-` followed by digits is a negative integer |
| LexerProperties.OperandColumn | sqlvalidator/grammar/lexer.py:313-314 | a plain word not followed by `(` is a column |
| LexerProperties.OperandCallBalanced | sqlvalidator/grammar/lexer.py:305-309 | a word, `(`, balanced arguments and `)` is a call with the parsed arguments |
| LexerProperties.OperandString | sqlvalidator/grammar/lexer.py:288-289 | a quote starts a string literal |
| LexerProperties.LeafOfBoolean | sqlvalidator/grammar/lexer.py:292-293 | `true` and `false` are `Boolean` leaves that consume nothing more |
| LexerProperties.LeafOfParenthesis | sqlvalidator/grammar/lexer.py:294-297 | `(`, balanced contents and `)` are a `Parenthesis` of the parsed contents, and the list's error is the leaf's error |
| LexerProperties.ExprCondition | sqlvalidator/grammar/lexer.py:325-328 | a condition keyword after the operand makes a `Condition` with the next operand on its right, then the alias check |
| LexerProperties.ExprConditionErr | sqlvalidator/grammar/lexer.py:325-328 | a failing right operand of a condition is the expression's error |
| LexerProperties.ExprConditionThenBoolean | sqlvalidator/grammar/lexer.py:325-335 | a condition followed by `and`/`or` is the left side of a `BooleanCondition` over the whole expression after it |
| LexerProperties.ExprBooleanCondition | sqlvalidator/grammar/lexer.py:330-335 | `and`/`or` after the operand takes a whole expression on its right and reads the next token afresh |
| LexerProperties.ExprBooleanConditionErr | sqlvalidator/grammar/lexer.py:330-335 | a failing right side of a boolean condition is the expression's error |
| LexerProperties.ArithmeticStep | sqlvalidator/grammar/lexer.py:316-320 | an arithmetic symbol takes the left operand and parses the right one recursively |
| LexerProperties.ArithmeticRightNested | sqlvalidator/grammar/lexer.py:316-320 | `a op b op c` groups to the right: `a op (b op c)` |
| LexerProperties.ColumnAlone | sqlvalidator/grammar/lexer.py:313-314 | a single word is the column of that name, both as an expression and as a list |
| LexerProperties.ExprAliasAs | sqlvalidator/grammar/lexer.py:345-347 | `c as a` is an alias with `AS` |
| LexerProperties.ExprAliasBare | sqlvalidator/grammar/lexer.py:348-350 | `c a` is an alias without `AS` |
| LexerProperties.ExprStops | sqlvalidator/grammar/lexer.py:337-344 | `)`, a quote or `;` after an expression ends it without an alias |
| LexerProperties.ExprAsAtEnd | sqlvalidator/grammar/lexer.py:345-347 | a trailing `as` runs out of tokens |
| LexerProperties.ExprString | sqlvalidator/grammar/lexer.py:355-363 | a quoted value parses to a string with its quote character |
| LexerProperties.ExprStringAlias | sqlvalidator/grammar/lexer.py:337-352 | a string literal can carry an alias |
| LexerProperties.ExprStringUnterminated | sqlvalidator/grammar/lexer.py:360 | a string without its closing token runs out of tokens |
| LexerProperties.ExprStringMismatch | sqlvalidator/grammar/lexer.py:361-362 | a different closing token raises the missing-quote error |
| LexerProperties.ExprCall | sqlvalidator/grammar/lexer.py:305-309 | `f ( a )` is the call of `f` on column `a` |
| LexerProperties.ListCall | sqlvalidator/grammar/lexer.py:261-280 | the same as a one-element list |
| LexerProperties.ListAlias | sqlvalidator/grammar/lexer.py:261-280 | `c a` as a list is one aliased column |
| LexerProperties.ListAliasAs | sqlvalidator/grammar/lexer.py:261-280 | `c as a` as a list is one aliased column with `AS` |
| LexerProperties.ListTwo | sqlvalidator/grammar/lexer.py:261-280 | `c , d` is two columns |
| LexerProperties.ListNumber | sqlvalidator/grammar/lexer.py:290-291 | a number as a list is one integer |
| LexerProperties.HeadOfWord | sqlvalidator/grammar/lexer.py:64-65 | a first word other than `all` and `distinct` becomes the first expression token |
| LexerProperties.StatementOfSelect | sqlvalidator/grammar/lexer.py:36-37 | after `select`, the statement is the select parser's result |
| LexerProperties.SelectOf | sqlvalidator/grammar/lexer.py:45-146 | a select statement is its head, then its expression list up to the first keyword, then its clauses |
| LexerProperties.ClausesNone | sqlvalidator/grammar/lexer.py:72-132 | with the input ended or a `;`, there are no clauses |
| LexerProperties.ClausesGroupNoBy | sqlvalidator/grammar/lexer.py:88-91 | `group` without `by` fails with `Missing BY after GROUP` |
| LexerProperties.ClausesOrderNoBy | sqlvalidator/grammar/lexer.py:107-110 | `order` without `by` fails with `Missing BY after ORDER` |
| LexerProperties.ClausesFrom | sqlvalidator/grammar/lexer.py:72-78 | `from t ;` is the table `t` and nothing else |
| LexerProperties.SelectColumn | sqlvalidator/grammar/lexer.py:41-146 | `select c` is one column, no clauses and no semicolon |
| LexerProperties.SelectColumnSemicolon | sqlvalidator/grammar/lexer.py:132 | `select c ;` is the same statement marked as ending in `;` |
| LexerProperties.GroupWithoutBy | sqlvalidator/grammar/lexer.py:88-91 | a whole statement with `group` not followed by `by` fails with that message, after any keyword-free select list that parses |
| LexerProperties.OrderWithoutBy | sqlvalidator/grammar/lexer.py:107-110 | a whole statement with `order` not followed by `by` fails with that message, after any keyword-free select list that parses |
| LexerProperties.SelectFrom | sqlvalidator/grammar/lexer.py:41-146 | `select c from t ;` is one column of table `t`, ending in `;` |
| LexerProperties.SelectListFrom | sqlvalidator/grammar/lexer.py:41-146 | any keyword-free expression list followed by `from t ;` gives that list, table `t` and `;` |
| LexerProperties.SelectListEnd | sqlvalidator/grammar/lexer.py:41-146 | a keyword-free list followed by `;` gives that list, no from part, and `;` |
| SqlFormatter.FormatSql | sqlvalidator/sql_formatter.py:5-6 | `format_sql` fails exactly when parsing the tokens fails, with the same error, and otherwise starts with `SELECT` and ends with `;` |
| SqlFormatter.FormatNoTokens | sqlvalidator/grammar/lexer.py:35 | a text with no tokens runs out of tokens |
| SqlFormatter.FormatNotSelect | sqlvalidator/grammar/lexer.py:36-38 | a text whose first token is not `select` is a `ParsingError` |
| SqlFormatter.FormatOf | sqlvalidator/sql_formatter.py:5-6 | formatting is tokenise, parse, render |
| SqlFormatter.TokensPlainEnding | sqlvalidator/grammar/tokeniser.py:36-82 | plain lower-case words and a final `t;` tokenise to those words, `t` and `;` |
| SqlFormatter.TokensCall | sqlvalidator/grammar/tokeniser.py:64-82 | `s f(a) k t;` tokenises to `s f ( a ) k t ;`, with `k` lower-cased |
| SqlFormatter.TokensColumns | sqlvalidator/grammar/tokeniser.py:64-82 | `s c, d f t;` tokenises to `s c , d f t ;` |
| SqlFormatter.FormatSelectFrom | tests/test_formatting.py:31-37 | `select c from t;` formats to `SELECT c` and `FROM t;` on two lines, for any plain column and table |
| SqlFormatter.FormatSelectStar | tests/test_formatting.py:4-10 | `select * from t;` formats to `SELECT *` and `FROM t;` for any table |
| SqlFormatter.FormatColumn | tests/test_formatting.py:31-37 | the same for any identifier column and table |
| SqlFormatter.FormatAlias | tests/test_formatting.py:40-46 | `select c a from t;` keeps the bare alias: `SELECT c a` |
| SqlFormatter.FormatAliasAs | tests/test_formatting.py:49-55 | `select c as a from t;` upper-cases the keyword: `SELECT c AS a` |
| SqlFormatter.FormatCall | tests/test_formatting.py:13-19 | `select f(a) FROM t;`, with the keyword in any case, upper-cases the function name: `SELECT F(a)` |
| SqlFormatter.FormatColumns | tests/test_formatting.py:58-66 | `select c, d from t;` puts each column on its own indented line |
| SqlFormatter.FormatNumber | tests/integration/test_formatting.py:40-43 | `select d;`, for any digits `d`, formats to `SELECT d;` without a `FROM` line |
| SqlValidator.SQLQuery.constructor | sqlvalidator/sql_validator.py:2-5 | a new query holds its text, is not validated, and has no errors |
| SqlValidator.SQLQuery.Validate | sqlvalidator/sql_validator.py:12-14 | validating sets the flag and records no error |
| SqlValidator.SQLQuery.IsValid | sqlvalidator/sql_validator.py:7-10 | validates on first use, keeps the errors, and answers whether there are none |
| SqlValidator.Parse | sqlvalidator/sql_validator.py:17-19 | a fresh, unvalidated query over the given text |
| SqlValidator.ParseIsValid | tests/test_validation.py:16-28 | every parsed query is valid, since no validation rule exists |
| SqlValidator.IsValidTwice | sqlvalidator/sql_validator.py:7-10 | asking twice gives the same answer |
| FileFormatter.FirstQuote | sqlvalidator/file_formatter.py:47-52 | the first of the candidate quotes that encloses the text, and none before it does |
| FileFormatter.FirstPrefix | sqlvalidator/file_formatter.py:56-62 | the first prefix with which a quote encloses the text |
| FileFormatter.FirstPrefixed | sqlvalidator/file_formatter.py:54-64 | the first quote, in `POSSIBLE_QUOTES` order, that encloses the text with some prefix, and the first such prefix |
| FileFormatter.DetectQuotes | sqlvalidator/file_formatter.py:43-66 | the detected quotes are one of `POSSIBLE_QUOTES` and enclose the text after the prefix; the prefix is empty or one of `STRING_PREFIXES`; a prefix is used only when no bare quote matches; nothing is detected exactly when no quote matches with or without a prefix |
| FileFormatter.InnerOfEnclosed | sqlvalidator/file_formatter.py:68-70 | stripping the prefix and quotes from `p q x q` gives back `x` |
| FileFormatter.NewQuotes | sqlvalidator/file_formatter.py:73-80 | a one-character quote becomes the same quote tripled when the formatted text has a newline; otherwise it stays; the result is always one of `POSSIBLE_QUOTES` |
| FileFormatter.FormatSqlString | sqlvalidator/file_formatter.py:43-90 | fails with `QuotesNotFound` exactly when no quotes are detected |
| FileFormatter.QuotedEncloses | sqlvalidator/file_formatter.py:82-90 | the re-quoted literal starts with the prefix, is enclosed by the new quotes, and holds the formatted text, with a newline added on each side for a multi-line text in triple quotes |
| FileFormatter.FormatSqlStringSpec | sqlvalidator/file_formatter.py:43-90 | a formatter failure is passed on; on success, the result keeps the prefix, is enclosed by the upgraded quotes, and holds the formatted text |
| FileFormatter.FormatSqlStringQuotes | sqlvalidator/file_formatter.py:73-90 | a one-line result is the prefix, the old quotes and the text; a multi-line one is placed on its own lines between triple quotes |
| FileFormatter.LStrip | sqlvalidator/file_formatter.py:94 | `lstrip`: a suffix of the text that does not start with a stripped character, and only stripped characters were removed |
| FileFormatter.UpTo | sqlvalidator/file_formatter.py:95-98 | the part before the first stop character: a prefix of the text, free of stop characters, and followed, if anything follows, by a stop character |
| FileFormatter.FirstWordIs | sqlvalidator/file_formatter.py:95-98 | the first word of the first line is `w` exactly when the text starts with `w`, followed by nothing, a blank or a line break |
| FileFormatter.IsSelectStringSpec | sqlvalidator/file_formatter.py:93-98 | `is_select_string` holds exactly when the cleaned text starts with the whole word `select`, so `'selected string'` does not count (tests/integration/test_file_handler.py:114-121) |
| FileFormatter.StopIndex | sqlvalidator/file_formatter.py:128-140 | the look-ahead after a literal stops at the first comment, string or end marker, and only other tokens come before it; with no such token it reads to the end |
| FileFormatter.FormatToken | sqlvalidator/file_formatter.py:142-144 | only the token's text changes, and it becomes the re-formatted literal |
| FileFormatter.ChangedAppend | sqlvalidator/file_formatter.py:145-146 | the change count adds up over concatenation |
| FileFormatter.StepSpec | sqlvalidator/file_formatter.py:105-168 | a step reads at least one token, emits as many tokens as it read with only the first possibly re-formatted (and only if it is a select string), and counts that change |
| FileFormatter.PassSpec | sqlvalidator/file_formatter.py:101-180 | the pass emits every token once and in order, rewrites only select string literals, and `count_changed_sql` is the number of tokens whose text changed |
| FileFormatter.StopReformatsLiteral | sqlvalidator/file_formatter.py:131-158 | a look-ahead over any other tokens that ends on a string, the end marker or a comment without `nosqlformat` re-formats the literal, counts the change, copies what it read and leaves a following string to the next step; a formatter error is passed on |
| FileFormatter.PragmaKeepsLiteral | sqlvalidator/file_formatter.py:142-149 | a select string whose look-ahead ends on a `nosqlformat` comment is copied with everything up to the comment and not counted |
| FileFormatter.StepLast | sqlvalidator/file_formatter.py:122-128 | a select string at the very end is re-formatted |
| FileFormatter.StepBeforeString | sqlvalidator/file_formatter.py:151-160 | a select string directly followed by a string is re-formatted, and the next string is left to the next step |
| FileFormatter.TwoSelectStrings | tests/integration/test_file_handler.py:78-89 | two select strings in a row are both re-formatted and both counted |
| FileFormatter.PassWithoutStrings | sqlvalidator/file_formatter.py:170-177 | a file without string tokens comes out unchanged with a count of 0 |
| FileFormatter.GetFormattedFileContent | sqlvalidator/file_formatter.py:101-180 | the token loop equals the pass, so it carries the pass's properties |
| FileFormatter.FormatFileTokens | sqlvalidator/file_formatter.py:101-180 | with the SQL formatter, every token comes out once and in order, only select literals are re-formatted, and the count is right |
| FileHandler.HandleSqlString | sqlvalidator/file_handler.py:344-397 | fails with `QuotesNotFound` exactly when no quotes are detected |
| FileHandler.HandleIsFormat | sqlvalidator/file_handler.py:344-397 | `handle_sql_string` rewrites a literal exactly as `format_sql_string` does, and its query holds the literal's text without prefix and quotes |
| FileHandler.SqlOptions | sqlvalidator/file_handler.py:239-246 | the pass of the source uses `is_select_string`, `handle_sql_string` and the given validity test |
| FileHandler.AnalyseLast | sqlvalidator/file_handler.py:264-274 | a literal at the end of the file adds at most one change and at most one error |
| FileHandler.AnalyseBefore | sqlvalidator/file_handler.py:294-318 | at most one change and one error; a following `nosqlformat` keeps the literal and counts no change; a following `nosqlvalidation` records no error |
| FileHandler.HStepSpec | sqlvalidator/file_handler.py:247-329 | a step emits as many tokens as it read, with only the literal possibly rewritten, counts that change, and records at most one error |
| FileHandler.HPassSpec | sqlvalidator/file_handler.py:239-341 | every token comes out once and in order, only select literals are rewritten, `count_changed_sql` counts the changed tokens, and `count_has_errors` equals the number of error locations |
| FileHandler.NoErrorsWhenAllValid | sqlvalidator/file_handler.py:308-313 | when every query is valid, as with this `SQLQuery`, no error is counted or located |
| FileHandler.NoFormatPragma | tests/integration/test_file_handler.py:58-75 | a select string followed by a `nosqlformat` comment is kept as written and not counted |
| FileHandler.ErrorCounted | sqlvalidator/file_handler.py:294-313 | an error is recorded, at the literal's row, exactly when the query is handled, invalid, and not followed by `nosqlvalidation` |
| FileHandler.ComputeFileContent | sqlvalidator/file_handler.py:239-341 | the token loop equals the pass, so it carries the pass's properties |
| FileHandler.HStepIsStep | sqlvalidator/file_handler.py:294-313 | when only formatting, a handler step is a file-formatter step, failures included, provided only comments mention `nosqlformat` |
| FileHandler.HPassIsPass | sqlvalidator/file_handler.py:239-341 | under the same conditions, `compute_file_content` rewrites the file like `get_formatted_file_content` and counts the same changes |
| FileHandler.InputSQLAnalyseInfo.Empty | sqlvalidator/file_handler.py:45-57 | the default counters are 0 and no file is seen |
| FileHandler.InputSQLAnalyseInfo.constructor | sqlvalidator/file_handler.py:45-57 | the counters and seen files are as given |
| FileHandler.InputSQLAnalyseInfo.Update | sqlvalidator/file_handler.py:59-64 | each counter gains the other's, the seen files become the union, and the other object is not changed |
| FileHandler.AnalyseFile | sqlvalidator/file_handler.py:181-236 | a file already seen gives empty counters and is not analysed again; otherwise it is marked seen; it counts as changed when its pass changed a literal and as invalid when an error was counted; the SQL counts are the pass's counts; a failing literal fails the file |

## Left out

**Not modelled as effects:**
- **File I/O and printing.** The model does not open, read or write files, print, walk directories (`main.py`, the rest of `file_handler.py`), or parse command-line options. `AnalyseFile` takes the file's absolute name and its tokens as parameters; the rewritten text would go back to the file.
- **Python tokenising.** `tokenize.generate_tokens` and `tokenize.untokenize` are not part of this model. A file is its token sequence, and a token keeps only its kind, text and starting row. The column positions that `untokenize` uses to lay the text out again are not modelled.
- **`RecursionError`.** The model's recursion is unbounded. Very long token passes or deeply nested expressions, which Python would abort, are not distinguished.

**Where the model follows the code:**
- **`SelectStatement` arguments.** `sqlvalidator/grammar/sql.py` defines `SelectStatement` with two arguments, but the lexer calls it with twelve keyword arguments. The model builds the full twelve-field record, and renders the expressions and the from part as `__str__` does.
- **Node classes missing from `sql.py`.** `Integer`, `Parenthesis`, `Table`, `ArithmaticOperator`, `Condition`, `BooleanCondition`, `Boolean` and the clause classes are imported by the lexer but not defined there. The model gives them fields from the lexer's calls. They are rendered as their value (value-like nodes), as `(…)` (`Parenthesis`), or as `left OP right` (binary nodes). Their `__eq__` is reported as not shown (`NotShown`) rather than guessed.
- **`format_sql`** calls `.transform()`, which no class defines; the model takes the `__str__` text. The constants `Boolean.BOOLEAN_VALUES` (`true`, `false`), `Condition.PREDICATES` (`=`, `<>`, `!=`, `<`, `>`, `<=`, `>=`, `like`, `in`, `is`) and `BooleanCondition.PREDICATES` (`and`, `or`) are assumed.
- **`SQLQuery.format()`** is called by `handle_sql_string` but not defined in `sql_validator.py`. `HandleSqlString` therefore takes the formatter as a parameter, and the answer of `is_valid` is a parameter of the pass.
- **`nosqlformat` in a string token.** `compute_file_content` checks for `nosqlformat` in whatever token ends the look-ahead, while `get_formatted_file_content` checks comments only. `HPassIsPass` therefore assumes only comments contain the word.
- **`is_select_string` duplicates.** `file_handler.py` has its own copy of `is_select_string`, with the same text as the one in `file_formatter.py`; one definition serves both.

**Narrowed or stated on other terms:**
- **Character handling.**
  - `Basics.Lower` and `Basics.Upper` map ASCII letters only; Python's Unicode case mapping is not modelled.
  - `str.isdigit` is modelled as ASCII digits.
  - `str.splitlines` is modelled by its line-break characters (`FileFormatter.LineBreaks`).
- **Tokeniser.UntilOneOfSeeded:** `get_tokens_until_one_of` (`sqlvalidator/grammar/tokeniser.py:16-23`) has no `first_token` parameter. The lexer's calls at `sqlvalidator/grammar/lexer.py:67-69`, 190-192 and 247-249 pass one, so as written they raise `TypeError`, and every `select`, every `GROUP BY` and every `LIMIT` other than `LIMIT ALL` fails. The model takes a reading consistent with `tests/unit/test_tokeniser.py:104-109`: the seed is read first. That test's seed is not a stop word, so testing the seed against the stop words like any other token is the model's own choice.
- **`split_with_sep`** is modelled for one-character separators, the only ones its callers use.
- **Lexer iterator sharing.** The lexer's recursion shares one iterator between nested parsers. It is modelled by passing the unconsumed tokens back, and the failing `next(tokens)` calls are the `EndOfTokens` error.
- **Idempotence.** Formatting is not claimed idempotent. The tokeniser splits on blanks, not newlines, so a multi-line result such as `SELECT\n c,\n d\nFROM t;` does not tokenise back to `select` first.
- **Formatter tests as general lemmas.** The expected outputs of `tests/test_formatting.py` are proved for all identifiers of the same shape rather than for the literal test strings. The nested-call test (lines 22-28) is stated at the rendering level only (`Sql.RenderCallWithString`).
- **`tests/integration/test_file_formatting.py`** was written for an earlier version.
  - Lines 41-45 expect a select string with no comment after it to stay as written. In the code, its look-ahead ends at the end marker, which is not a `nosqlformat` comment, so the literal is formatted.
  - Lines 15-20 expect no `;` to be added. `__str__` always adds one (`sqlvalidator/grammar/sql.py:16`).
  - The model follows the code in both cases.
- **`FileFormatter.StopIndex`** models the look-ahead loop of `handle_string_token` as a function over the token sequence. The recursive call on a following string is a new step of the pass.
- **`AnalyseFile`** models the set of seen files as a value that goes in and comes out. The source mutates one shared set and stores that same set in the result; that aliasing is not modelled.
- **`FileHandler.SqlOptions`** leaves `SQLQuery.format()` as a parameter, because its definition is not part of the source. The file handler's formatting is therefore related to the file formatter's only through `HandleIsFormat`.
- **`FileHandler.InputSQLAnalyseInfo.Update`:** `update` adds counters. When `other` is the object itself, the model doubles the counters, as Python does.
