# NL-to-SQL string core of the home-value explorer

The application answers English questions about a PostgreSQL database of regional
home values. It asks a language model for SQL and runs what comes back. Around the
database and the model call sits a small core of pure string and sequence
transformations, and this project models that core and proves what it does:

- **Introspection** — `get_time_columns`: the catalog rows of a table, filtered
  down to the names that begin with a `DDDD-DD-DD` date (`re.match` anchors at
  the start only, so any suffix is allowed; the data type is ignored).
- **AvgExpression** — the `col_expr`/`avg_expr` fragment
  `(ROUND(("home_value_index"."c1" + ...)::numeric / n, 2)) AS avg_home_value`,
  built with `" + ".join` and `str(len(...))`.
- **SchemaText** — the schema description: one `table: c1, c2, ...` line per
  table, joined by newlines, with the column types dropped.
- **SqlCleanup** — the fence cleanup
  `strip().removeprefix("```sql").removesuffix("```").strip()` of the query mode,
  and the statement each mode hands to the database driver (the Create, Update
  and Delete modes hand over the reply with only the `strip()` of `nl_to_sql`).
- **Prompt** — the translation prompt: the fixed template with `avg_expr`, the
  schema description and the question spliced in, unescaped.
- **Text** — the Python string operations these need: `str.isspace`, `strip`,
  `removeprefix`, `removesuffix`, `sep.join`, `split` on one character, `str(n)`.

Everything is modelled as functions over values. The database catalog queries
(`list_tables`, `describe_table`) become parameters: a list of
`(column_name, data_type)` rows, or a list of tables each with its rows.

Zero time columns: `AvgExpression.AvgExpr` models the code as written. With no
date-named column it emits `/ 0` (`AvgExpression.AvgExprNoColumns`). The corrected
builders `AvgExpression.CheckedAvgExpr` and `Prompt.NlToSqlPrompt` make that case
an explicit failure instead (see Findings).

The cleanup is not idempotent: it removes at most one opening and one closing
fence, so a doubly fenced reply changes again on a second cleanup
(`SqlCleanup.CleanSqlNotIdempotent`).

## Model

| member | source | states |
|---|---|---|
| `Introspection.MatchesAtStartIff` | v2app_noAPIkeys.py:84 | `re.match` with a pattern of single-character atoms holds iff the first `|p|` characters match atom by atom; nothing after them is looked at |
| `Introspection.DatePatternIff` | v2app_noAPIkeys.py:84 | `\d{4}-\d{2}-\d{2}` matches at the start of a name iff its first ten characters are four digits, '-', two digits, '-', two digits; any suffix is allowed |
| `Introspection.TimeColumns` | v2app_noAPIkeys.py:80-85 | the filter returns no more names than there are rows, and every name it returns has a date prefix |
| `Introspection.KeptPositions` | v2app_noAPIkeys.py:82-85 | the kept catalog positions are in range and strictly increasing, and a position is kept iff the name there has a date prefix |
| `Introspection.TimeColumnsAtKeptPositions` | v2app_noAPIkeys.py:82-85 | the k-th time column is the name at the k-th kept position: an order-preserving subsequence that drops no qualifying name |
| `Introspection.TimeColumnsIgnoreTypes` | v2app_noAPIkeys.py:83 | two catalogs with the same names in the same order give the same time columns, whatever the data types |
| `Introspection.TimeColumnsSnoc` | v2app_noAPIkeys.py:82-85 | one more catalog row adds its name at the end exactly when the name has a date prefix |
| `Introspection.RegionsExample` | v2app_noAPIkeys.py:80-85 | for rows RegionID, City, State, 2024-01-31, 2024-02-29 the time columns are the two dates, in order |
| `AvgExpression.QualifiedColumn` | v2app_noAPIkeys.py:95 | the term `"home_value_index"."c"`; its contract is stated by `AvgExpression.QualifiedColumnReadBack` |
| `AvgExpression.QualifiedColumnReadBack` | v2app_noAPIkeys.py:95 | the column name reads back from between `"home_value_index"."` and the closing quote |
| `AvgExpression.SumExpr` | v2app_noAPIkeys.py:95 | `col_expr`; its contract is stated by `AvgExpression.SumExprReadBack`, `AvgExpression.SumExprAppend` and `AvgExpression.SumExprSeparatorCount` |
| `AvgExpression.SumExprReadBack` | v2app_noAPIkeys.py:95 | for n >= 1 columns whose names contain no '+', splitting the sum on '+' and removing the blanks around each piece gives exactly n terms, the i-th being `"home_value_index"."c_i"` and naming the i-th column |
| `AvgExpression.SumExprAppend` | v2app_noAPIkeys.py:95 | one more column adds `" + "` and its qualified term at the right end of the sum |
| `AvgExpression.SumExprSeparatorCount` | v2app_noAPIkeys.py:95 | for n >= 1 columns whose names contain no '+', the sum contains exactly n - 1 plus signs |
| `AvgExpression.AvgExpr` | v2app_noAPIkeys.py:96 | `avg_expr` as written; its contract is stated by `AvgExpression.AvgExprRoundTrip` and `AvgExpression.AvgExprNoColumns` |
| `AvgExpression.AvgExprRoundTrip` | v2app_noAPIkeys.py:96 | reading the fragment back gives the sum expression and a divisor equal to the number of time columns; the fixed head and tail (two decimal places, alias avg_home_value) are present |
| `AvgExpression.AvgExprNoColumns` | v2app_noAPIkeys.py:96 | with no time columns the fragment as written is `(ROUND(()::numeric / 0, 2)) AS avg_home_value` |
| `AvgExpression.CheckedAvgExpr` | v2app_noAPIkeys.py:93-96 | the corrected builder fails iff there are no time columns; otherwise it returns the source's fragment, whose divisor is at least 1 |
| `SchemaText.SchemaLine` | v2app_noAPIkeys.py:302 | one `table: c1, c2, ...` line; its contract is stated by `SchemaText.ParseSchemaLine` |
| `SchemaText.SchemaDescription` | v2app_noAPIkeys.py:301-304 | `schema_desc`; its contract is stated by `SchemaText.SchemaDescriptionRoundTrip` |
| `SchemaText.ParseSchemaLine` | v2app_noAPIkeys.py:302 | a line reads back as the table name before ": " and the column names, in the order `describe_table` returned them and without types, when names hold no separator |
| `SchemaText.ParseColumnList` | v2app_noAPIkeys.py:302 | a nonempty list of comma-free column names joined by ", " splits back into exactly those names, in order |
| `SchemaText.SchemaDescriptionRoundTrip` | v2app_noAPIkeys.py:301-304 | the description reads back as one (table, column names) entry per table, in `list_tables` order, when names hold no separator |
| `SchemaText.SplitDescription` | v2app_noAPIkeys.py:301 | a description of at least one table whose lines hold no newline is nonempty and splits on newlines back into its lines |
| `SqlCleanup.CleanSql` | v2app_noAPIkeys.py:309 | the cleaned statement has no whitespace at either end |
| `SqlCleanup.CleanSqlIsInfix` | v2app_noAPIkeys.py:309 | the cleaned statement is a contiguous piece of the reply |
| `SqlCleanup.CleanSqlFenced` | v2app_noAPIkeys.py:309 | a reply that is whitespace, "```sql", a body, "```", whitespace comes out as the stripped body; fences inside the body stay |
| `SqlCleanup.CleanSqlFencedBare` | v2app_noAPIkeys.py:309 | a reply that is exactly one fence pair around a body comes out as the stripped body |
| `SqlCleanup.CleanSqlUnfenced` | v2app_noAPIkeys.py:309 | a reply with neither fence after stripping is only stripped |
| `SqlCleanup.CleanSqlAfterStrip` | v2app_noAPIkeys.py:309 | cleaning the already stripped reply of `nl_to_sql` gives the same result as cleaning the raw reply |
| `SqlCleanup.CleanSqlExample` | v2app_noAPIkeys.py:309 | "```sql\nSELECT 1\n```" becomes "SELECT 1" |
| `SqlCleanup.CleanSqlCaseSensitive` | v2app_noAPIkeys.py:309 | an upper-case "```SQL" opening is not removed; only the closing fence and the whitespace before it go |
| `SqlCleanup.CleanSqlNotIdempotent` | v2app_noAPIkeys.py:309 | one fence pair is removed per cleanup: a doubly fenced reply keeps its inner fences and a second cleanup changes it again |
| `SqlCleanup.ExecutedStatement` | v2app_noAPIkeys.py:305-331 | the statement each mode hands to the driver has no whitespace at either end |
| `SqlCleanup.ExecutedStatementIsInfix` | v2app_noAPIkeys.py:305-331 | in every mode the statement handed to the driver is a contiguous piece of the model's reply |
| `SqlCleanup.FencedReplyByIntent` | v2app_noAPIkeys.py:305-331 | a fenced reply is unwrapped in the query mode and handed over with its fences in the Create, Update and Delete modes |
| `SqlCleanup.UnfencedReplyVerbatim` | v2app_noAPIkeys.py:305-331 | a trimmed, unfenced reply is handed to the driver verbatim in every mode; no mode checks the kind of statement |
| `Prompt.PromptText` | v2app_noAPIkeys.py:100-119 | the prompt f-string; its contract is stated by `Prompt.PromptCarriesInputs` and `Prompt.PromptQuestionUnescaped` |
| `Prompt.SourcePrompt` | v2app_noAPIkeys.py:93-119 | the prompt `nl_to_sql` builds from the catalog rows of `home_value_index`; its contract is stated by `Prompt.SourcePromptDividesByZero` and `Prompt.NlToSqlPrompt` |
| `Prompt.PromptCarriesInputs` | v2app_noAPIkeys.py:100-119 | the average fragment, the schema description and `User question: "<nl>"` occur verbatim in the prompt at fixed offsets |
| `Prompt.PromptQuestionUnescaped` | v2app_noAPIkeys.py:114-117 | a question containing the question heading gives the same prompt as a different schema with a shorter question: the question is not escaped |
| `Introspection.NoTimeColumnsIff` | v2app_noAPIkeys.py:82-85 | there are no time columns iff no catalog name has a date prefix |
| `Prompt.SourcePromptDividesByZero` | v2app_noAPIkeys.py:93-119 | as written, a `home_value_index` with no date-named column puts `/ 0` into the prompt |
| `Prompt.NlToSqlPrompt` | v2app_noAPIkeys.py:91-119 | the corrected prompt builder fails iff no catalog name has a date prefix, and otherwise builds the source's prompt |
| `Text.RemovePrefix` | v2app_noAPIkeys.py:309 | `removeprefix` splits off the prefix when present and otherwise returns its input |
| `Text.RemoveSuffix` | v2app_noAPIkeys.py:309 | `removesuffix` splits off the suffix when present and otherwise returns its input |
| `Text.Strip` | v2app_noAPIkeys.py:309 | `strip()` returns the piece after the leading whitespace, with no whitespace at either end |
| `Text.StripSpec` | v2app_noAPIkeys.py:309 | only whitespace lies around what `strip()` keeps |
| `Text.StripUnique` | v2app_noAPIkeys.py:309 | any trimmed core padded by whitespace is what `strip()` returns |
| `Text.StripIdempotent` | v2app_noAPIkeys.py:309 | `strip()` applied twice equals `strip()` applied once |
| `Text.Join` | v2app_noAPIkeys.py:95 | `sep.join` of no parts is "", and otherwise starts with the first part |
| `Text.JoinLength` | v2app_noAPIkeys.py:95 | a join is as long as its parts together plus one separator per gap between neighbours |
| `Text.JoinAppend` | v2app_noAPIkeys.py:95 | joining one more part appends the separator and the part |
| `Text.JoinCountChar` | v2app_noAPIkeys.py:95 | a character occurs in a join as often as in the parts plus its count in the separator once per gap |
| `Text.JoinRegroup` | v2app_noAPIkeys.py:95 | joining on `pad + sep` is joining on `sep` after appending `pad` to every part but the last |
| `Text.SplitJoin` | v2app_noAPIkeys.py:301-304 | `split` on the separator's first character gives back the parts, every part after the first still carrying the rest of the separator, when that character occurs in no part and not in the rest of the separator |
| `Text.SplitJoinSingle` | v2app_noAPIkeys.py:301-304 | with a one-character separator that occurs in no part, `split` gives back exactly the joined parts |
| `Text.NatToDecimal` | v2app_noAPIkeys.py:96 | `str(n)` is a nonempty digit string without a superfluous leading zero |
| `Text.DecimalOfNat` | v2app_noAPIkeys.py:96 | reading `str(n)` back gives n |
| `Text.NatOfDecimal` | v2app_noAPIkeys.py:96 | every canonical numeral is `str` of its value |

## Left out

- The database connection, the cursor and every query through them (`list_tables`, `describe_table`, `sample_rows`, `run_sql`): I/O and driver behaviour. Their results become parameters.
- The OpenAI client and the completion call: a foreign network call. Only the prompt it receives and the reply text it returns are modelled; the reply is a parameter.
- The Streamlit UI, the mode dispatch, the widgets and the DataFrame rendering: presentation. `SqlCleanup.Intent` stands for the four modes that call the model.
- The canned sample-query strings: literal SQL text with no logic.
- The execute-and-commit blocks of the Create, Update and Delete modes and the query mode's `run_sql`: database side effects. The model stops at the statement string handed to the driver verbatim.
- `SqlCleanup.ExecutedStatement`: the query mode passes an empty parameter tuple with the statement (`run_sql`, v2app_noAPIkeys.py:68), so the driver treats each `%` in it as a placeholder marker (a `LIKE 'Los%'` pattern fails, `%%` reaches the server as `%`); the Create, Update and Delete modes pass no parameters. What the server finally receives is not modelled.
- The schema description is modelled once, from its first copy; the three later copies in the Create, Update and Delete modes are the same expression.
- `Introspection.DatePatternIff`: `\d` is modelled as the ASCII digits '0' to '9'. Python's `re` on `str` also accepts other Unicode decimal digits, such as Arabic-Indic digits.
- `Text.Strip`: whitespace is the exact set of code points for which Python's `str.isspace()` holds; strings are sequences of Unicode scalar values, so lone surrogates cannot be represented.
- `AvgExpression.QualifiedColumn`: a double quote inside a table or column name is not escaped, as in the source; the model does not state what PostgreSQL makes of such a term.
- `SchemaText.SchemaDescriptionRoundTrip`: the read-back holds only for names without the separators ':', ',' and newline and for nonempty column names; the source puts any name into the text unescaped.

## Findings

| source | as written | input that shows it | evidently intended | confidence | as-written member | corrected member |
|---|---|---|---|---|---|---|
| v2app_noAPIkeys.py:96 | the divisor is `len(time_cols)` with no guard, so no time columns give `(ROUND(()::numeric / 0, 2)) AS avg_home_value` in the prompt | a `home_value_index` whose catalog has no column name starting with `DDDD-DD-DD`, e.g. only RegionID, City, State | refuse to build the fragment and the prompt when there are no time columns | not executed | `Prompt.SourcePromptDividesByZero` | `Prompt.NlToSqlPrompt` |
