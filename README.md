# sql-creator: the query pipeline, modelled in Dafny

sql-creator turns a question in English into SQL. The language model is given the warehouse schema and the question, and returns SQL. The app then does the following:

- It runs the SQL through a rewriter of five regular-expression steps (`optimize_sql`).
- It strips code fences, comment lines and every statement after the first.
- It runs the query on Snowflake.
- It renames repeated result columns before showing the rows.
- It keeps a semantic cache that maps the vector of each question asked to the SQL generated for it.

This project models those computations and proves what they promise.

Modules and files:

- `PyStr` (`py_str.dfy`): the Python `str` operations the code relies on. These are `strip`, `split`, `join`, `replace(p, "")`, `upper` and `in`. It also defines the character classes `\w`, `\d` and `\s`.
- `PyRe` (`py_re.dfy`): `re.sub` and `re.search`.
  - A pattern is given by its matcher: the length of its match at each position, with 0 for no match.
  - `Sub` scans left to right. It replaces each match and resumes after it, as Python does.
- `SqlOptimizer` (`optimize_sql.dfy`): the five steps of `optimize_sql` and two versions of the whole rewriter.
  - `OptimizeSqlAsWritten` is the code as written.
  - `OptimizeSql` uses the intended STRFTIME replacement; see Findings.
  - `app.py:29-51` is a verbatim copy of the same function, so both places are covered.
- `SqlOptimizerExamples` (`optimize_sql_examples.dfy`): what the rewriter does to whole families of queries.
  - A STRFTIME call over any whitespace, table and column.
  - `AS` inside a longer word.
  - `ORDER BY` on a dotted sort key.
  - A grouped query, optimised once and then twice.
  - A query with an alias and a grouping, where steps 2 and 5 both act.
- `App` (`app.dfy`): cleaning the query before it runs (`app.py:96-109`) and renaming duplicate columns (`app.py:122-129`).
- `QueryCache` (`query_cache.dfy`): the FAISS index and `query_dict` as a class, `Cache`.
  - `Store` appends a vector and one entry.
  - `Retrieve` runs a one-nearest-neighbour scan and applies the threshold test.
- `SqlRunner` (`sql_runner.dfy`): `run_sql`, `analyze_query`, `fetch_table_columns` and `fetch_schema`.
  - The connection and cursor together are one value, `Warehouse`. It records whether connecting succeeds and what executing a statement returns. `None` stands for an exception.
  - The grouping loop of `fetch_schema` is a method, `GroupRows`, proved against the function `Grouped`.
- `TextToSql` (`text_to_sql.dfy`): the schema prompt, the prompt, and `generate_sql`. The API key and the language model are parameters.

## Model

| member | source | states |
|---|---|---|
| PyStr.Strip | app.py:96 | `strip()`: the result is a slice of the input with only whitespace removed from each side. A non-empty result begins and ends with a non-whitespace character. |
| PyStr.StripIdempotent | app.py:104 | Stripping twice gives the same text as stripping once. |
| PyStr.StripSurrounded | app.py:96 | Whitespace around a text that neither starts nor ends with whitespace is exactly what `strip()` removes. |
| PyStr.Split | app.py:99 | `split(sep)` gives at least one piece and no piece contains `sep`. Joining the pieces with `sep` gives back the input. The first piece is the text before the first `sep`. |
| PyStr.SplitJoin | app.py:99-104 | Splitting a join of separator-free pieces gives back exactly those pieces. |
| PyStr.RemoveAll | app.py:96 | `replace(p, "")` gives a subsequence of the text: it only deletes characters. It leaves the text unchanged when `p` does not occur; `RemoveAllAt` gives the other case. |
| PyStr.RemoveAllKeepsOthers | app.py:96 | Only characters of `p` are deleted: every other character occurs in the result exactly as often as in the text. |
| PyStr.RemoveAllCopies | app.py:96 | The text before the first occurrence of `p` is copied unchanged, and the rest is processed from there. |
| PyStr.RemoveAllAt | app.py:96 | At the first occurrence of `p`, the text before it is copied, the occurrence is deleted and the scan resumes right after it. With the no-occurrence case, this determines `replace(p, "")` on every string. |
| PyStr.UpperMeaning | optimize_sql.py:48 | `upper()` keeps the length and leaves no lower-case letter. It turns each lower-case letter into the capital at the same place in the alphabet and keeps every other character. A second call changes nothing. |
| PyRe.Search | optimize_sql.py:60 | `re.search` reports the leftmost match, or none exactly when no position matches. |
| PyRe.Sub | optimize_sql.py:45-56 | `re.sub`: a left-to-right scan that replaces each match and resumes after it, and copies one character elsewhere. Its behaviour is stated by the lemmas below. |
| PyRe.SubNoMatch | optimize_sql.py:45-56 | With no match anywhere, `re.sub` returns the text unchanged. |
| PyRe.SubAtFirstMatch | optimize_sql.py:45-56 | The text before the leftmost match is copied, that match is replaced, and the scan goes on after it. |
| PyRe.SubOneMatch | optimize_sql.py:45-56 | With a single match, the result is the text before it, its replacement and the text after it. |
| PyRe.SubFromLength | optimize_sql.py:48 | When every replacement is as long as its match, the result is as long as the text. |
| PyRe.SubKeeps | optimize_sql.py:48 | With length-keeping replacements, a character that no match reaches is unchanged in the result. |
| PyRe.SubReplacesAt | optimize_sql.py:48 | With length-keeping replacements, every match the scan reaches is replaced in place, at its own position. |
| PyRe.SubEraseIsSubsequence | optimize_sql.py:52-56 | Substituting the empty string gives a subsequence of the text. |
| SqlOptimizer.DottedAt | optimize_sql.py:60 | A match of `(\w+)\.(\w+)` has two word groups, occurs at its position, and is not followed by a word character. |
| SqlOptimizer.DottedAtIndex | optimize_sql.py:60 | Conversely, a word, a dot and a word that are not continued form a match whose groups are those two words. |
| SqlOptimizer.StrftimeAt | optimize_sql.py:45 | A STRFTIME match is non-empty, lies within the query, starts with `STRFTIME("%Y",` and has word groups. |
| SqlOptimizer.StrftimeAtLayout | optimize_sql.py:45 | Every match has the pattern's layout: the head, whitespace, the dotted name it reports as its groups, and the `)` that ends the match. |
| SqlOptimizer.StrftimeAtIndex | optimize_sql.py:45 | Conversely, `STRFTIME("%Y",`, whitespace, a dotted name and `)` form one match whose groups are that name. |
| SqlOptimizer.NoDoubleQuoteNoMatch | optimize_sql.py:45 | Without a `"` there is no STRFTIME match. The single-quoted form is never rewritten. |
| SqlOptimizer.ReplaceStrftime | optimize_sql.py:45 | Step 1 as intended leaves a query without `"` unchanged. |
| SqlOptimizer.ReplaceStrftimeAsWritten | optimize_sql.py:45 | Step 1 as written leaves a query without `"` unchanged. |
| SqlOptimizer.ReplaceStrftimeNoBackslash | optimize_sql.py:45 | Step 1 as intended adds no backslash to a query that has none. |
| SqlOptimizer.ReplaceStrftimeAsWrittenBackslash | optimize_sql.py:45 | Step 1 as written puts a backslash in the output whenever there is a STRFTIME match. |
| SqlOptimizer.StrftimeVersionsDiffer | optimize_sql.py:45 | The two versions of step 1 differ on every query that has a match and no backslash. |
| SqlOptimizer.AsLen | optimize_sql.py:48 | An `AS\s+\w+` match starts with `AS` and lies within the query. |
| SqlOptimizer.AsLenLayout | optimize_sql.py:48 | Every match is `AS`, then whitespace, then a word that runs to the end of the match and is not continued. |
| SqlOptimizer.AsLenIndex | optimize_sql.py:48 | Conversely, `AS`, whitespace and a word that is not continued form one match, ending after the word. |
| SqlOptimizer.UpperAliases | optimize_sql.py:48 | Step 2 only upper-cases letters. Without `AS` it changes nothing. |
| SqlOptimizer.UpperIsCaseOnly | optimize_sql.py:48 | The text of a match is changed only in the case of its letters. |
| SqlOptimizer.UpperMatchKeepsLength | optimize_sql.py:48 | Upper-casing a match keeps its length. |
| SqlOptimizer.UpperAliasesKeeps | optimize_sql.py:48 | A character inside no `AS` match keeps its case. A lower-case `as x` stays as it is. |
| SqlOptimizer.UpperAliasesAt | optimize_sql.py:48 | Every match the scan reaches, the leftmost one in particular, is upper-cased in place. |
| SqlOptimizer.OrderByLen | optimize_sql.py:52 | An `ORDER BY` match starts with `ORDER BY` and lies within the query. |
| SqlOptimizer.OrderByLenLayout | optimize_sql.py:52 | Every match is `ORDER BY`, whitespace, a word that is not continued, and whitespace that is not continued. It is followed by `ASC`, `DESC` or nothing up to the end of the match. |
| SqlOptimizer.SpacedRunIndex | optimize_sql.py:52-56 | `\s+` followed by a run of `\w` or `\d` that is not continued matches exactly those two runs. |
| SqlOptimizer.OrderByLenIndex | optimize_sql.py:52 | Conversely, `ORDER BY`, whitespace, a word that is not continued and optional whitespace form one match. An `ASC` or `DESC` right after it belongs to the match. |
| SqlOptimizer.DropOrderBy | optimize_sql.py:51-52 | Step 3 only deletes characters. It equals the bare substitution, so the `in` guard does not change the outcome. |
| SqlOptimizer.LimitOffsetLen | optimize_sql.py:56 | A `LIMIT ... OFFSET ...` match starts with `LIMIT`, lies within the query, and can only exist when `OFFSET` occurs. |
| SqlOptimizer.OffsetLen | optimize_sql.py:56 | The `\s+OFFSET\s+\d+` tail of a match lies within the query, and there is one only when `OFFSET` occurs. |
| SqlOptimizer.LimitOffsetLenLayout | optimize_sql.py:56 | Every match is `LIMIT`, whitespace and digits, followed by an `OFFSET` tail that ends the match. |
| SqlOptimizer.OffsetLenLayout | optimize_sql.py:56 | Every tail is whitespace, `OFFSET`, whitespace, and digits that run to the end of the match and are not continued. |
| SqlOptimizer.LimitOffsetLenIndex | optimize_sql.py:56 | Conversely, `LIMIT`, whitespace, digits, whitespace, `OFFSET`, whitespace and digits that are not continued form one match. |
| SqlOptimizer.DropLimitOffset | optimize_sql.py:55-56 | Step 4 only deletes characters. It equals the bare substitution, so the guard does not change the outcome. |
| SqlOptimizer.DottedMatch | optimize_sql.py:60 | The dotted pattern matches at a position exactly when a dotted name is found there. |
| SqlOptimizer.AppendOrderBy | optimize_sql.py:59-63 | Step 5 changes the query exactly when it has `GROUP BY`, no `ORDER BY` and some dotted name. It then appends `\nORDER BY t.c` for the leftmost dotted name. |
| SqlOptimizer.AppendOrderByKeeps | optimize_sql.py:59 | A query that already has `ORDER BY` is left alone by step 5. |
| SqlOptimizer.ClauseHasOrderBy | optimize_sql.py:63 | The appended clause contains `ORDER BY`. |
| SqlOptimizer.AppendOrderByIdempotent | optimize_sql.py:59-63 | Applying step 5 twice gives the same result as applying it once. |
| SqlOptimizer.OptimizeSql | optimize_sql.py:43-65 | The five steps in the source's order, with step 1 as intended. What it does to whole families of queries is stated by the `SqlOptimizerExamples` lemmas. |
| SqlOptimizer.OptimizeSqlAsWritten | optimize_sql.py:43-65 | The five steps in the source's order, with step 1 as written. `OptimizeSqlVersionsAgree` and `StrftimeRewritten` relate it to `OptimizeSql`. |
| SqlOptimizer.OptimizeSqlVersionsAgree | optimize_sql.py:43-65 | Without a `"` the as-written and the intended rewriter agree. |
| SqlOptimizerExamples.StrftimeCallMatch | optimize_sql.py:45 | `STRFTIME("%Y",` followed by any whitespace, `t.c` and `)` is one match whose groups are `t` and `c`. |
| SqlOptimizerExamples.StrftimeCallReplaced | optimize_sql.py:45 | Step 1 turns such a call into `DATE_TRUNC('YEAR', t.c)` as intended, and into `DATE_TRUNC(\'YEAR\', t.c)` as written. |
| SqlOptimizerExamples.StrftimeRewritten | optimize_sql.py:43-65 | The whole rewriter gives the same two results for such a call, when the names leave steps 2 to 5 nothing to do. |
| SqlOptimizerExamples.UntouchedAfterStep1 | optimize_sql.py:48-63 | Text without `S`, `B`, `L` and `G` passes steps 2 to 5 unchanged. |
| SqlOptimizerExamples.OptimizeSqlIdentity | optimize_sql.py:43-65 | A query with none of the triggers (`"`, `AS`, `ORDER BY`, both `LIMIT` and `OFFSET`, `GROUP BY`) comes back unchanged. |
| SqlOptimizerExamples.KeepsWithoutLimitOffset | optimize_sql.py:55-56 | Without both `LIMIT` and `OFFSET`, step 4 changes nothing. |
| SqlOptimizerExamples.LoneLimitKept | optimize_sql.py:55-56 | `SELECT a LIMIT 5` keeps its `LIMIT`. |
| SqlOptimizerExamples.LimitOffsetDropped | optimize_sql.py:56 | `LIMIT 5 OFFSET 10` is deleted whole. |
| SqlOptimizerExamples.AsInsideWordUpperCased | optimize_sql.py:48 | With no word boundary before `AS`, a trailing `AS`, whitespace and word are upper-cased even inside a longer word (`CANVAS x` becomes `CANVAS X`). |
| SqlOptimizerExamples.UpperAliasesLastMatch | optimize_sql.py:48 | When the first match runs to the end of the query, step 2 upper-cases exactly that suffix. |
| SqlOptimizerExamples.AliasUpperCased | optimize_sql.py:48 | In `p AS alias GROUP BY t.c`, with no `AS` in `p`, step 2 upper-cases the alias and nothing else. |
| SqlOptimizerExamples.UpperAliasesOneMatch | optimize_sql.py:48 | With a single `AS` match, step 2 upper-cases that match and copies the rest. |
| SqlOptimizerExamples.AppendOrderByAt | optimize_sql.py:59-63 | Given `GROUP BY`, no `ORDER BY` and a leftmost dotted name `d`, step 5 appends the clause for `d`. |
| SqlOptimizerExamples.KeepsWithoutDI | optimize_sql.py:51-56 | Text without `D` and `I` passes steps 3 and 4 unchanged. |
| SqlOptimizerExamples.PlainGroupedOptimized | optimize_sql.py:43-65 | A grouped query without `"`, `S`, `D` and `I` is optimised to itself plus the clause for its leftmost dotted name. |
| SqlOptimizerExamples.DropOrderByDotted | optimize_sql.py:52 | `ORDER BY t.c` loses only `ORDER BY t`. Because `\w+` stops at the dot, `.c` stays in the query. |
| SqlOptimizerExamples.OrderByStopsAtDot | optimize_sql.py:52 | After `ORDER BY ` and a table name, the match stops at the dot. |
| SqlOptimizerExamples.GroupFirstDotted | optimize_sql.py:60 | In `GROUP BY t.c` the leftmost dotted name is `t.c`, at position 9. |
| SqlOptimizerExamples.GroupQueryOptimized | optimize_sql.py:43-65 | `GROUP BY t.c` is optimised to `GROUP BY t.c\nORDER BY t.c`. |
| SqlOptimizerExamples.SecondPass | optimize_sql.py:43-65 | Optimising `GROUP BY t.c\nORDER BY t.c` leaves `GROUP BY t.c\n.c`, then step 5 appends `ORDER BY t.c` again. |
| SqlOptimizerExamples.OptimizeSqlNotIdempotent | optimize_sql.py:43-65 | The rewriter is not idempotent: optimising `GROUP BY t.c` twice differs from optimising it once. |
| SqlOptimizerExamples.GroupedAfter | optimize_sql.py:59-63 | When nothing before `GROUP BY t.c` has a dot or a `D`, step 5 appends `\nORDER BY t.c`. |
| SqlOptimizerExamples.AliasedGroupOptimized | optimize_sql.py:43-65 | Steps 2 and 5 on one query: `p AS alias GROUP BY t.c` becomes `p AS ALIAS GROUP BY t.c\nORDER BY t.c`. |
| SqlOptimizerExamples.AliasedExampleOptimized | optimize_sql.py:43-65 | `SELECT a FROM t AS x GROUP BY t.a` becomes `SELECT a FROM t AS X GROUP BY t.a\nORDER BY t.a`. |
| App.NoFenceLeft | app.py:96 | After ``replace("```", "")`` no ```` ``` ```` is left in the text. |
| App.StripContains | app.py:96 | Stripping never creates an occurrence that was not already in the text. |
| App.StripHasNoNewChar | app.py:96 | Stripping never introduces a character. |
| App.StripFences | app.py:96 | The fence-cleaned query contains no code fence. |
| App.StripFencedBody | app.py:96 | An answer fenced as "```sql" + body + "```", with no backtick in the body, comes out as the stripped body. |
| App.FencedAnswerExample | app.py:96 | "```sql\nselect sales\n```" becomes "select sales": the letters `s`, `q` and `l` of the query survive. |
| App.FenceDeletionKeepsOthers | app.py:96 | The two `replace` calls delete only fence characters: every other character occurs as often as in the query. |
| App.FilterLines | app.py:100-103 | The kept lines are a subsequence of the lines, in order. Each kept line passes the comment test, and every line that passes is kept. |
| App.DropComments | app.py:99-104 | Split at newlines, keep the lines `FilterLines` keeps, join with newlines and strip. Its properties are those of `Split`, `FilterLines` and `Strip`. |
| App.FirstStatement | app.py:107-109 | With a `;`, the result is the stripped text before the first `;`; without one, the query itself. It never contains `;`. |
| App.CleanQuery | app.py:96-109 | The query sent to the warehouse never contains a `;`. |
| App.RenamedFromAt | app.py:124-129 | A name is renamed exactly when it was seen before, and then it gets `_dup` appended. |
| App.RenameDuplicates | app.py:122-129 | The loop with its list and seen-set computes `Renamed(cols)`. |
| App.RenamedIff | app.py:124-129 | A column is renamed exactly when its name occurs earlier in the list, and a renamed column is the name plus `_dup`. |
| App.RenamedKeepsEveryName | app.py:122-129 | Every original name is still present after renaming. |
| App.RenamedDistinct | app.py:122-129 | A list without repeated names is left unchanged. |
| App.RenamedNotUnique | app.py:125-126 | Three columns named `a` become `a`, `a_dup`, `a_dup`, so the result still has a repeat. |
| App.RenameUnique | app.py:122-129 | The intended renaming gives pairwise distinct names. Each new name starts with its original, and a list without repeats is left unchanged. |
| QueryCache.KeysBelowCard | query_cache.py:27 | The positions of an index holding `n` vectors are exactly `0` to `n - 1`, and there are `n` of them. |
| QueryCache.NearestIsFirst | query_cache.py:35 | No position before the nearest one is nearest. |
| QueryCache.NearestUnique | query_cache.py:35 | The one-nearest-neighbour answer is unique. |
| QueryCache.StoredIsRecalled | query_cache.py:32-38 | With a stored copy of the vector, the nearest vector is at distance 0, below the default threshold 0.5. |
| QueryCache.Cache.constructor | query_cache.py:12-16 | The cache starts with an empty index and an empty dictionary. |
| QueryCache.Cache.Store | query_cache.py:22-29 | `store_query` appends the vector and adds one entry keyed by the previous dictionary size. No earlier entry changes. If encoding fails, nothing changes. Each vector always has exactly one entry. The SQL stored may be `None`, since the page stores a failed generation too (app.py:74-75). |
| QueryCache.Cache.Nearest | query_cache.py:35-36 | `index.search(v, 1)` finds the nearest vector, the first of equally near ones, and nothing on an empty index. |
| QueryCache.Cache.Retrieve | query_cache.py:32-44 | `retrieve_query` answers exactly when encoding succeeds, the nearest vector is strictly closer than the threshold and its position has an entry. The answer is that entry. |
| QueryCache.RecallAfterStore | query_cache.py:22-38 | A question asked again after it was stored is answered from the cache with the default threshold. |
| SqlRunner.RunSql | sql_runner.py:27-45 | The result is the warehouse's answer to the text as given, with no parameters. It is `None` when there is no connection or execution raises. |
| SqlRunner.AnalyzeQuery | sql_runner.py:48-55 | The warehouse is asked exactly `EXPLAIN <query>`, and its answer is returned. |
| SqlRunner.FirstValues | sql_runner.py:72 | `[row[0] for row in rows]` succeeds exactly when no row is empty, and gives each row's first value. |
| SqlRunner.FetchTableColumns | sql_runner.py:58-82 | The result is empty without a connection, when execution raises, or when a row is empty. Otherwise it is the first value of each row returned for the upper-cased table name. |
| SqlRunner.GroupRows | sql_runner.py:102-107 | The loop builds `Grouped(rows)`: the tables in order of first appearance, each with its columns in row order. |
| SqlRunner.TableOrderMembers | sql_runner.py:105-106 | A table is a key exactly when some row names it. |
| SqlRunner.TableOrderDistinct | sql_runner.py:105-106 | Each table is a key once. |
| SqlRunner.GroupedIsDict | sql_runner.py:102-107 | The grouped schema is a dictionary: distinct keys, listed in insertion order. |
| SqlRunner.ColumnsOfNonEmpty | sql_runner.py:105-107 | A table's column list is non-empty exactly when the table is a key. |
| SqlRunner.ColumnsOfComplete | sql_runner.py:107 | Every row's column is in its table's list. |
| SqlRunner.ColumnsOfSound | sql_runner.py:107 | Every listed column comes from a row of that table. |
| SqlRunner.GroupedCountsEveryRow | sql_runner.py:102-107 | The lists together hold exactly one column per row. |
| SqlRunner.Unpack | sql_runner.py:104 | Unpacking succeeds exactly when every row has three values, and keeps them in order. |
| SqlRunner.FetchSchema | sql_runner.py:85-115 | With `os` imported, the result is `{}` without a connection or schema name, when execution raises, or when a row does not unpack. Otherwise it is the grouped rows of the schema query for the upper-cased schema name. |
| SqlRunner.FetchSchemaAsWritten | sql_runner.py:99 | As written, the result is always `{}`. |
| SqlRunner.FetchSchemaAsWrittenLosesSchema | sql_runner.py:99 | On a warehouse with one table, the as-written code returns `{}`, while the intended code returns that table. |
| SqlRunner.FetchSchemaAsWrittenDiffers | sql_runner.py:99 | On every connected warehouse whose schema query returns a well-formed row, the intended code lists a table and the code as written lists none. |
| TextToSql.SchemaPrompt | text_to_sql.py:23-26 | One `Table: t, Columns: c1, c2` line per table, joined with newlines. `SchemaPromptLines` and `EmptySchemaPrompt` state its properties. |
| TextToSql.SchemaPromptLines | text_to_sql.py:23-26 | Splitting the schema prompt at newlines gives back one line per table, in order, when names have no newline. |
| TextToSql.EmptySchemaPrompt | text_to_sql.py:23-26 | An empty schema gives an empty schema prompt. |
| TextToSql.Prompt | text_to_sql.py:28-34 | The f-string prompt: fixed text around the schema prompt and the question. `PromptHolds` states where they sit. |
| TextToSql.PromptHolds | text_to_sql.py:28-34 | The schema prompt and the question appear verbatim in the prompt, at fixed offsets. |
| TextToSql.GenerateSql | text_to_sql.py:17-45 | Without a non-empty API key the result is `None`. A result is the model's answer to the prompt and is never empty. With a key, a non-empty answer is always returned. |

## Left out

- The Streamlit page itself is not modelled: widgets, `st.*` output and session flow.
- Snowflake, FAISS, the sentence-transformer and Gemini are not modelled. Each is a parameter: a `Warehouse` value, the `embed` and `dist` functions of `Cache`, and the `llm` function. Exceptions from these calls appear as `None`.
- Environment variables are parameters: `schemaEnv` of `FetchSchema` and `apiKey` of `GenerateSql`.
- Logging is not modelled.
- `connect_snowflake` and its credentials are not modelled; the `connects` field stands for the call.
- `install_packages.py` is not part of this model.
- The `get_snowflake_connection`, `get_valid_columns` and `execute_query` helpers in `optimize_sql.py` are not part of this model. They are a second connection and executor used only by that file's own script.
- The module-level scripts of `optimize_sql.py`, `query_cache.py` and `sql_runner.py` are not part of this model. They are demonstration code outside the query pipeline.
- Concurrency between Streamlit sessions sharing the module-level cache is not modelled.
- `QueryCache.Cache.Nearest`: float32 vectors and FAISS's L2 arithmetic are replaced by an exact `real` distance. Ties go to the lowest position, which FAISS does not promise.
- `QueryCache.Cache.Retrieve`: does not model FAISS returning position -1 on an empty index. The model returns `None` there, which matches what the source returns.
- `PyStr.IsWordChar`: `\w` and `\d` are taken over ASCII, where Python's `str` patterns also match other Unicode letters and digits. `upper()` is likewise ASCII only.
- Result values are modelled as text; Snowflake's typed values and pandas DataFrames are not modelled.

## Findings

| source | as written | input that shows it | evidently intended | confidence | as-written member | corrected member |
|---|---|---|---|---|---|---|
| optimize_sql.py:45 | The replacement is the raw string `r'DATE_TRUNC(\'YEAR\', \1.\2)'`. `re` keeps the unknown escape `\'` as written, so each quote comes out with a backslash before it. | `STRFTIME("%Y", o.d)` becomes `DATE_TRUNC(\'YEAR\', o.d)` | `DATE_TRUNC('YEAR', o.d)` | medium, not executed | SqlOptimizer.ReplaceStrftimeAsWrittenBackslash | SqlOptimizer.ReplaceStrftimeNoBackslash |
| sql_runner.py:99 | `os.getenv` is used but `os` is never imported in this file. Once connected, `fetch_schema` raises `NameError`, and the handler returns `{}`. | A warehouse with one table `ORDERS` gives `{}` | `{"ORDERS": [("ID", "NUMBER")]}` | high, not executed | SqlRunner.FetchSchemaAsWrittenLosesSchema | SqlRunner.FetchSchema |
| app.py:125-126 | The seen-set holds only original names, so a third repeat gets the same `_dup` name as the second. | Columns `a, a, a` become `a, a_dup, a_dup` | Pairwise distinct names | medium, not executed | App.RenamedNotUnique | App.RenameUnique |
