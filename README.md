# Snowflake-to-DuckDB extract-load pipeline, modelled in Dafny

This project models the `DataPipeline` class of `data_pipeline.py`. The class
copies one table, or the result of one custom query, from a Snowflake
warehouse into a local DuckDB file. A run does these steps in order:

1. Connect to Snowflake. It tries a secure connection first and retries once
   in `insecure_mode` only if that fails.
2. Open the DuckDB file.
3. Decide what to read. A custom query comes first, then an explicit table
   name, then the first table that `SHOW TABLES` lists.
4. Send the query. A ` LIMIT <n>` clause is appended unless the upper-cased
   text already contains `LIMIT`.
5. Load the rows. The target table is dropped and created again from a
   staging binding, then its rows are counted.
6. Close both connections. This runs on every exit path.

The two databases are abstract state:

- **Remote warehouse** (`Remote.Warehouse`): its tables and its answers to
  other SQL text. It also holds the `SHOW TABLES` listing and a script that
  says whether each connection attempt succeeds. It logs every connection
  attempt with its `insecure_mode` flag and every statement sent to it.
- **Local store** (`Local.LocalStore`): a map from table name to rows, the
  registered staging bindings, and a script of which load statements raise.
  It counts how often it was opened and closed. The store outlives a
  pipeline object, as the DuckDB file does.

The warehouse reads back the `SELECT * FROM <t> LIMIT <n>` statements the
pipeline builds. `Remote.ParseSelectRoundTrip` proves that this parse
recovers the table and the limit. Any other SQL text is looked up among the
scripted answers. Text that is not found there raises.

Modules:

- `Text`: ASCII case mapping, substring search, `rstrip`, `replace`, and the
  decimal form of an integer.
- `Records`: the result set, the load statements, and the errors.
- `Queries`: the pure decisions of `data_pipeline.py`, with their lemmas.
- `Remote`: the warehouse.
- `Local`: the store, and `AfterLoad`, the effect of one load on its catalog.
- `Pipeline`: the `DataPipeline` class.
- `Scenarios`: an end-to-end run against a warehouse that holds `ORDERS`.

`run_pipeline`'s `try`/`finally` is modelled as two calls. `RunStages` is the
`try` body. `Cleanup` is the `finally`, and `RunPipeline` calls it
unconditionally afterwards. The outcome of the stages, a value or the error
they raised, is returned unchanged. No close failure can alter it.
`StagesEffect`, `ExtractLoadEffect` and `ReadLoadOutcome` state the whole effect
of the stages.

Three places where the code behaves differently from what a reader might
expect. The model follows the code in each:

- The LIMIT check is a plain substring test on the upper-cased query. It is
  not a real clause check, so a column such as `limit_x` also suppresses the
  clause (`Queries.LimitSuppressedByColumnName`).
- "Empty" is pandas' `DataFrame.empty`: zero rows **or** zero columns.
- The `raise Exception("Failed to write data to DuckDB")` branch at
  data_pipeline.py:194 cannot be reached. The writer returns `False` only for
  an empty frame, and `run_pipeline` has already returned on one. The model
  proves this with `assert false` in `ReadAndLoad`.

## Model

| member | source | states |
|---|---|---|
| `Text.ContainsIffOccurs` | data_pipeline.py:90 | The `'LIMIT' in …` test holds exactly when the pattern occurs at some index of the text. |
| `Text.Upper` | data_pipeline.py:90 | `str.upper` on ASCII text: the length is kept, each lower-case letter becomes its capital, and every other character is unchanged. |
| `Text.Lower` | data_pipeline.py:166 | `str.lower` on ASCII text: the length is kept, each capital becomes its lower-case letter, and every other character is unchanged. |
| `Text.RStrip` | data_pipeline.py:91 | `rstrip(';')` gives a prefix of the query that does not end in `;`. Everything it cut off is `;`. |
| `Text.NatDecimal` | data_pipeline.py:91 | The number rendered into the clause is a non-empty run of digits with no leading zero. |
| `Text.IntDecimal` | data_pipeline.py:91 | The f-string rendering of the limit: a minus sign exactly for a negative limit, then digits with no leading zero that read back to its magnitude. |
| `Text.DecimalRoundTrip` | data_pipeline.py:91 | Reading the rendered digits back gives the limit that was rendered. |
| `Queries.WithLimit` | data_pipeline.py:89-91 | The statement sent always starts with the query up to its trailing semicolons. After that comes either those semicolons, with the query kept, or ` LIMIT ` and the limit. |
| `Queries.WithLimitSends` | data_pipeline.py:89-91 | A query that mentions LIMIT in any case is sent unchanged. Otherwise it is sent without its trailing semicolons, followed by ` LIMIT ` and the limit. |
| `Queries.SentHasLimit` | data_pipeline.py:89-91 | Every statement sent mentions LIMIT. |
| `Queries.WithLimitIdempotent` | data_pipeline.py:89-91 | Rewriting a rewritten statement again, with any limit, changes nothing. |
| `Queries.SelectLimitDependsOnTable` | data_pipeline.py:90 | For a generated `SELECT * FROM t`, the LIMIT test depends only on `t`. No occurrence straddles the prefix. |
| `Queries.WithLimitSelect` | data_pipeline.py:89-91 | Reading a table whose name neither mentions LIMIT nor ends in `;` sends `SELECT * FROM t LIMIT n`. |
| `Queries.LimitAppendedExample` | data_pipeline.py:89-91 | `SELECT * FROM T` with limit 50 becomes `SELECT * FROM T LIMIT 50`. |
| `Queries.LimitKeptExample` | data_pipeline.py:89-91 | `SELECT * FROM T LIMIT 10` is sent unchanged with limit 50. |
| `Queries.LimitSuppressedByColumnName` | data_pipeline.py:90 | A query that selects a column `limit_x` is sent without a LIMIT clause. |
| `Queries.Sanitize` | data_pipeline.py:128 | Keeps the length. Each `-`, space and `.` becomes `_` and every other character is kept, so no `-`, space or `.` remains. |
| `Queries.SanitizeIdempotent` | data_pipeline.py:128 | Cleaning a cleaned name changes nothing. |
| `Queries.SanitizeExample` | data_pipeline.py:128 | `My-Table.v2` becomes `My_Table_v2`. |
| `Queries.SanitizeCollides` | data_pipeline.py:128 | Names that differ only in which of `-`, space or `.` they use go to the same local table. |
| `Queries.Resolve` | data_pipeline.py:160-176 | Fails, with NoTablesFound, exactly when neither input is given and the listing is empty. A custom query is used verbatim into `custom_query_result`. Otherwise the query is `SELECT * FROM <name>` and the target is that name lower-cased. |
| `Queries.CustomQueryWins` | data_pipeline.py:161-163 | A non-empty custom query decides the result whatever the table name and the listing. |
| `Queries.ExplicitTableNext` | data_pipeline.py:164-166 | With no custom query, a table name gives its SELECT and its lower-cased target. The listing is ignored. |
| `Queries.FirstListedLast` | data_pipeline.py:167-175 | With neither input, the first listed table is read, in the order listed. |
| `Queries.EmptyIsAbsent` | data_pipeline.py:161-164 | An empty string behaves exactly like None (Python truthiness). |
| `Queries.TargetIsLowerCase` | data_pipeline.py:166 | A resolved target contains no ASCII capital letter. |
| `Queries.SecondColumn` | data_pipeline.py:73 | The names are the second column of each row, in order. There is no result when some row is too short. |
| `Queries.ListedTables` | data_pipeline.py:67-81 | A readable listing whose rows all have a second column gives exactly those names, in order. A listing that raised, or a row too short for the projection, gives `[]`. |
| `Queries.DiscoveryReadsFirstListed` | data_pipeline.py:167-176 | With neither input and a readable, non-empty listing, the run reads the table named in the second column of the first listed row, into that name lower-cased. |
| `Local.AfterLoad` | data_pipeline.py:130-139 | A load touches only the target and its `_temp` binding. A failed DROP changes nothing. A failure between DROP and CREATE leaves the target absent. After CREATE the target holds exactly the frame. A completed load leaves no binding behind. |
| `Local.LoadReplaces` | data_pipeline.py:131-136 | A completed load sets the target to the frame and removes the staging binding. |
| `Local.LoadIdempotent` | data_pipeline.py:131-136 | Loading the same frame twice gives the same catalog as loading it once: replace, not append. |
| `Pipeline.Tried` | data_pipeline.py:37-49 | The secure attempt is always made. The insecure one is made only when the secure one failed. |
| `Pipeline.LoadReport` | data_pipeline.py:130-146 | The writer returns True exactly when every load statement ran. Otherwise it re-raises the error of the statement that failed. |
| `Pipeline.Materialize` | data_pipeline.py:100-107 | No rows gives the empty frame with no columns. A frame that is not empty is the fetched result itself. |
| `Pipeline.ClosedRemote` | data_pipeline.py:205-210 | After closing, a held Snowflake session is closed unless close raised. An absent session stays absent. |
| `Pipeline.ClosedLocal` | data_pipeline.py:211-216 | The same for the DuckDB session. |
| `Pipeline.DataPipeline.constructor` | data_pipeline.py:15-17 | A new pipeline holds no sessions. |
| `Pipeline.DataPipeline.ConnectSnowflake` | data_pipeline.py:19-53 | Returns true iff the secure or the single insecure attempt succeeds. It logs exactly those attempts. The session is assigned only on success. |
| `Pipeline.DataPipeline.ConnectDuckdb` | data_pipeline.py:55-63 | Opens the store once. The session is assigned only on success. |
| `Pipeline.DataPipeline.GetSnowflakeTables` | data_pipeline.py:65-81 | With a live session, sends SHOW TABLES and returns the listed names. Otherwise it returns `[]` and sends nothing. |
| `Pipeline.DataPipeline.ReadSnowflakeData` | data_pipeline.py:83-115 | Without a session it raises. Otherwise it sends the LIMIT-rewritten query and returns the materialised answer, with no rows being a valid empty frame. A failing query raises. |
| `Pipeline.DataPipeline.WriteToDuckdb` | data_pipeline.py:117-146 | With no session it raises. An empty frame returns false and leaves the store unchanged. Otherwise the catalog becomes `AfterLoad` of the cleaned name, the result reports the first failing statement, and on success the count equals the frame's row count. |
| `Pipeline.DataPipeline.Cleanup` | data_pipeline.py:203-216 | Closes each held session exactly once. A failing close is swallowed and leaves that session as it was. |
| `Pipeline.DataPipeline.OpenSessions` | data_pipeline.py:154-158 | Snowflake comes first. DuckDB is opened only once Snowflake is connected, and each failure gives its own error. |
| `Pipeline.DataPipeline.ExtractAndLoad` | data_pipeline.py:160-194 | Discovery happens only with neither input. No tables means no read and no write. A failed or empty read leaves the store unchanged. Otherwise the resolved target is replaced. |
| `Pipeline.DataPipeline.ReadAndLoad` | data_pipeline.py:178-194 | The rewritten query is the one statement sent. A failed read raises and an empty one returns None, and both leave the store unchanged. Otherwise the cleaned target becomes `AfterLoad` of the answer, and the result is the rows or the first failing load statement. |
| `Pipeline.DataPipeline.RunStages` | data_pipeline.py:150-198 | The stages run strictly in order and any failure stops the later ones (`StagesEffect`). |
| `Pipeline.DataPipeline.RunPipeline` | data_pipeline.py:148-201 | The effect of the stages with their outcome passed on unchanged. Afterwards every session held has been closed exactly once, on every path. |
| `Scenarios.OrdersResolved` | data_pipeline.py:164-166 | Table `ORDERS` is read whole into local table `orders`. |
| `Scenarios.OrdersAnswered` | data_pipeline.py:89-97 | The statement sent for `ORDERS` with the default limit is answered with the whole three-row table. |
| `Scenarios.OrdersLoaded` | data_pipeline.py:160-194 | Once both sessions are open, the extract and load stages for `ORDERS` return its rows and set `orders` to exactly them. |
| `Scenarios.RunOrders` | data_pipeline.py:148-201 | One run for `ORDERS` returns its rows and sets local `orders` to exactly those rows. |
| `Scenarios.OrdersTwice` | data_pipeline.py:148-201 | Two runs give 3 rows and 2 columns each. `orders` counts 3 after each run, not 6. |
| `Scenarios.OrdersAfterFallback` | data_pipeline.py:37-49 | The secure attempt fails and the insecure one succeeds. The run completes after exactly those two attempts. |

## Left out

- Connection parameters, SSL and what `insecure_mode` means, and the login and network timeouts (data_pipeline.py:23-34) are not modelled. Each attempt is a scripted success or failure. Only its `insecure_mode` flag is recorded.
- Real SQL execution is not modelled. The warehouse evaluates only the `SELECT * FROM <t> [LIMIT <n>]` form. It matches table names exactly, without Snowflake's case folding of unquoted identifiers. Any other text is answered from a script.
- DuckDB statements are modelled as operations on a catalog map with scripted failures. `register` bindings are a namespace separate from tables.
- Local.LocalStore.DropIfExists: table names are matched exactly. DuckDB identifiers are case-insensitive, so `DROP TABLE IF EXISTS orders` (data_pipeline.py:131) also drops an existing `ORDERS`. For such a store, the promise of `Local.AfterLoad` that every other table is unchanged does not hold in DuckDB.
- Local.LocalStore.Close: `register` bindings (data_pipeline.py:134) belong to a connection and vanish when it closes. In the model, a binding left by a failed CREATE or UNREGISTER survives `Cleanup` and later runs.
- Cursor objects are not modelled, and neither is `cursor.close()` (data_pipeline.py:74, 108), including the cursor left unclosed on the empty-result path.
- `DictCursor` and pandas type inference and column ordering are not modelled. A result is column names plus rows of cells. Floating-point cells are opaque values.
- The `SHOW TABLES` listing is modelled as rows of text cells.
- `str.upper` and `str.lower` are modelled for ASCII only.
- Logging is not modelled, including the row count `write_to_duckdb` logs. `WriteToDuckdb` returns that count as a second output so that it can be stated.
- Identifiers are interpolated into SQL unescaped, as in the source (data_pipeline.py:72, 131-139, 165). Injection through them is a known gap and is not modelled.
- config.py is not part of this model. The database and schema are the constants `DEMO_DB` and `PUBLIC`. The DuckDB file is the one `LocalStore` object.
- The environment is passed to the constructor. Python reaches the connectors through module globals instead.
- `limit` is an explicit argument. `Queries.DefaultLimit` (1000) is its default.
- streamlit_app.py and test_connection.py (UI and a manual connectivity check) are not modelled.
- Concurrent runs against one store file are not modelled.
