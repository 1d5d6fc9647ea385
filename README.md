# Hotel-chain database manager: SQL extraction and CRUD statement builders

This project is a Dafny model of the logic inside a small command-line tool that manages a hotel-chain schema in PostgreSQL. The tool has two versions: `TrabalhoFinal.py` and `old/TrabalhoFinal_v2.py`. The model covers:

- **Natural-language queries** (`old/TrabalhoFinal_v2.py`). `_extrair_sql_da_resposta` picks one SQL statement out of the free-form answer of a language model. `text2sql` checks its configuration, asks the model, extracts a statement and executes it. The extractor is a pure function, `SqlExtraction.Extract`. The code's two loops are `SqlExtraction.ExtractSqlFromResponse`, proved equal to it. `text2sql` is `Text2Sql.Plan` plus a `Session` class that records model calls and executed statements.
- **CRUD statement builders** in both versions. v2 normalises the typed table name, rejects names that are not catalog keys, checks the tuple shape for `insert`, and lower-cases the table name in the statement (`CrudV2`). `TrabalhoFinal.py` looks the name up with a for-else loop, keeps it upper-case, and uses the inserted value exactly as typed (`CrudV1`).
- **The menu loop of `main`** (`Menu`). Both versions share it.

`PyStr` models the Python string builtins the code relies on: `strip`, `lower`, `upper`, `isupper`, `startswith`, `endswith`, `in`, `find`, `splitlines` and `"".join`. `Wrappers` holds `Option` and `Result`.

The docstring of `_extrair_sql_da_resposta` (old/TrabalhoFinal_v2.py:583-587) says it takes the last line that starts with SELECT or WITH or contains those words. The code does one backward pass: it stops at the first line from the end that contains "select" or "with" anywhere, whether or not an earlier line starts with a keyword. This model follows the code. As a result:
- a later line that merely contains "with" (for example "without") hides an earlier line that starts with SELECT (`SqlExtraction.LaterWithoutShadowsEarlierSelect`);
- inside the chosen line, "select" wins over an earlier "with" (`SqlExtraction.SelectPreferredOverEarlierWith`).

## Model

| member | source | states |
|---|---|---|
| `PyStr.StripSlice` | old/TrabalhoFinal_v2.py:592 | `strip()` returns one contiguous slice of its input, starting after the leading whitespace |
| `PyStr.StripTrims` | old/TrabalhoFinal_v2.py:592 | everything `strip()` cuts off on either side is whitespace, and a non-empty result neither starts nor ends with whitespace |
| `PyStr.LeadingSpaceRun` | old/TrabalhoFinal_v2.py:592 | the leading run counted is all whitespace and is followed by a non-whitespace character or the end |
| `PyStr.TrailingSpaceRun` | old/TrabalhoFinal_v2.py:592 | the trailing run counted is all whitespace and is preceded by a non-whitespace character or the start |
| `PyStr.Find` | old/TrabalhoFinal_v2.py:606-608 | `find` returns -1 exactly when the pattern does not occur, and otherwise the index of its first occurrence |
| `PyStr.SplitLines` | old/TrabalhoFinal_v2.py:588 | no line produced by `splitlines()` contains a line break |
| `SqlExtraction.Cut` | old/TrabalhoFinal_v2.py:601-609 | the statement taken from a chosen line is a non-empty suffix of it whose lower-case form starts with "select" or "with"; it is the whole line, in its original case, when the line starts with a keyword; otherwise it starts at the first "select", or at the first "with" when the line has no "select" |
| `SqlExtraction.ExtractSqlFromResponse` | old/TrabalhoFinal_v2.py:582-612 | the cleaning loop and the reversed scan with `break` return exactly `Extract(fullText)`, so the result is a deterministic function of the text |
| `SqlExtraction.ScanSnocRaw` | old/TrabalhoFinal_v2.py:591-610 | a last raw line that is blank, a fence, or free of keywords is skipped; any other last line decides the result |
| `SqlExtraction.ScanNoneIff` | old/TrabalhoFinal_v2.py:591-612 | over raw lines, the scan finds nothing exactly when no stripped, non-blank, non-fence line mentions "select" or "with" |
| `SqlExtraction.ScanPicksLastCandidate` | old/TrabalhoFinal_v2.py:600-610 | the last stripped, non-blank, non-fence line that mentions a keyword decides the result, whatever the lines before it say |
| `SqlExtraction.ScanSomeHasLastCandidate` | old/TrabalhoFinal_v2.py:599-612 | when something is found, there is such a last candidate line |
| `SqlExtraction.LastCandidateSnoc` | old/TrabalhoFinal_v2.py:600-610 | appending a line that cannot be chosen keeps the last candidate line |
| `SqlExtraction.ExtractNoneIff` | old/TrabalhoFinal_v2.py:588-612 | extraction returns None exactly when no remaining line contains "select" or "with" in any case |
| `SqlExtraction.ExtractFromLastCandidate` | old/TrabalhoFinal_v2.py:588-610 | the result is the cut of the last remaining line that mentions a keyword, even when an earlier line starts with SELECT |
| `SqlExtraction.ExtractShape` | old/TrabalhoFinal_v2.py:588-612 | any result is non-empty, has no line break, starts with "select" or "with" in some case, and is a suffix of one stripped input line that is neither blank nor a code fence |
| `SqlExtraction.CutOfLineIsLine` | old/TrabalhoFinal_v2.py:588-609 | the cut of a chosen line stays on one line |
| `SqlExtraction.SelectPreferredOverEarlierWith` | old/TrabalhoFinal_v2.py:605-609 | in a line that does not start with a keyword but contains "select", the result starts with "select" and begins no later than any "select", whatever "with" comes before it |
| `SqlExtraction.LaterWithoutShadowsEarlierSelect` | old/TrabalhoFinal_v2.py:600-610 | for the lines "SELECT nome FROM hotel" then "without filter", the result is "without filter" |
| `SqlExtraction.FencedAnswer` | old/TrabalhoFinal_v2.py:591-604 | an explanation, a fence, "SELECT nome FROM hotel" and a fence give "SELECT nome FROM hotel" |
| `SqlExtraction.FencedResponse` | old/TrabalhoFinal_v2.py:582-612 | from the whole answer text, with `\n` between its four lines, extraction returns "SELECT nome FROM hotel" |
| `SqlExtraction.FencedLines` | old/TrabalhoFinal_v2.py:588 | any one-line explanation and one-line statement between fences split into exactly those four lines |
| `SqlExtraction.StatementLine` | old/TrabalhoFinal_v2.py:592-604 | the line "SELECT nome FROM hotel" is kept unchanged by stripping, can be chosen, and is returned whole |
| `SqlExtraction.FenceLine` | old/TrabalhoFinal_v2.py:595-596 | a line whose stripped form starts with "```" (a bare fence or one like "```sql") is never chosen |
| `PyStr.SplitLinesCons` | old/TrabalhoFinal_v2.py:588 | a line without breaks followed by `\n` comes out of `splitlines()` as that line, followed by the lines of the rest |
| `PyStr.SplitLinesSingle` | old/TrabalhoFinal_v2.py:588 | a non-empty text without breaks is a single line |
| `PyStr.StripNoLineBreak` | old/TrabalhoFinal_v2.py:592 | stripping a line without line breaks gives a line without line breaks |
| `Text2Sql.Plan` | old/TrabalhoFinal_v2.py:615-674 | each outcome holds exactly in its case: a missing or empty API key, else a missing or empty model id, else a failed model call (carrying its message), else no statement extracted from the stripped answer, else execution of the extracted statement, which is non-empty and starts with a keyword |
| `Text2Sql.FencedReplyExecuted` | old/TrabalhoFinal_v2.py:615-674 | with both settings present, an answer "Explanation...", fence, "SELECT nome FROM hotel", fence executes exactly "SELECT nome FROM hotel" |
| `Text2Sql.Session.Text2Sql` | old/TrabalhoFinal_v2.py:615-674 | the model is called only when both settings are set; exactly the extracted statement is appended to the executed statements, and nothing when there is none |
| `Catalog.TableName` | old/TrabalhoFinal_v2.py:355 | the normalised table name contains no lower-case letter |
| `CrudV2.SelectAll` | old/TrabalhoFinal_v2.py:324-334 | a name that is not a catalog key is rejected; otherwise the statement is `SELECT * FROM` followed by the lower-cased name, in both branches of the `isupper()` test |
| `CrudV2.Insert` | old/TrabalhoFinal_v2.py:355-368 | an unknown name is rejected first; then a stripped value that does not both start with "(" and end with ")" is rejected; otherwise the statement is exactly "INSERT INTO " + lower(name) + " VALUES " + value |
| `CrudV2.Update` | old/TrabalhoFinal_v2.py:387-399 | an unknown name is rejected; otherwise the statement is exactly "UPDATE " + lower(name) + " SET " + a + " = " + v + " WHERE " + k + " = " + c over the stripped fields |
| `CrudV2.Delete` | old/TrabalhoFinal_v2.py:418-428 | an unknown name is rejected; otherwise the statement is exactly "DELETE FROM " + lower(name) + " WHERE " + k + " = " + c over the stripped fields |
| `CrudV1.FindTable` | TrabalhoFinal.py:317-328 | the for-else loop reaches its `else` exactly when the name is not a key; otherwise it stops at the first position holding the name |
| `PyStr.ConcatAppend` | TrabalhoFinal.py:322 | `"".join` of two lists placed one after the other is the join of the first followed by the join of the second |
| `CrudV1.Concat4` | TrabalhoFinal.py:321-322 | `"".join` of a four-part list is the concatenation of its parts |
| `CrudV1.Concat6` | TrabalhoFinal.py:383-387 | `"".join` of a six-part list is the concatenation of its parts |
| `CrudV1.Concat10` | TrabalhoFinal.py:351-356 | `"".join` of a ten-part list is the concatenation of its parts |
| `CrudV1.Insert` | TrabalhoFinal.py:316-328 | a statement is built exactly when the upper-cased, stripped name is a key; it is "INSERT INTO " + NAME + " VALUES " + the value as typed, unstripped and unchecked |
| `CrudV1.Update` | TrabalhoFinal.py:343-362 | a statement is built exactly when the name is a key; it is "UPDATE " + NAME + " SET " + a + " = " + v + " WHERE " + k + " = " + c over the stripped fields |
| `CrudV1.Delete` | TrabalhoFinal.py:377-393 | a statement is built exactly when the name is a key; it is "DELETE FROM " + NAME + " WHERE " + k + " = " + c over the stripped fields |
| `Menu.SmallDecimals` | TrabalhoFinal.py:548 | `str(i)` for 0 to 12 gives "0" to "12" |
| `Menu.ValidOptionsAreZeroToTwelve` | TrabalhoFinal.py:548 | `{str(i) for i in range(13)}` is exactly the thirteen strings "0" to "12", the set the loop tests against |
| `Menu.ActionOfNumber` | TrabalhoFinal.py:561-584 | a valid choice other than "0" dispatches the menu entry printed under that number |
| `Menu.DispatchStep` | TrabalhoFinal.py:552-559 | one turn of the loop: an invalid choice is skipped, "0" stops, any other choice dispatches its action; only "0" is an exit |
| `Menu.NoExitBeforeIff` | TrabalhoFinal.py:557-559 | the lines read so far hold no exit exactly when none of them strips to "0" |
| `Menu.DispatchesFromSuffix` | TrabalhoFinal.py:550-559 | what is dispatched from a position depends only on the lines from there on |
| `Menu.MainLoop` | TrabalhoFinal.py:550-559 | the loop dispatches exactly `Dispatches(inputs)`, and it ends by "0" exactly when some typed line strips to "0" |
| `Menu.ZeroEndsTheLoop` | TrabalhoFinal.py:557-559 | nothing typed after a "0" is dispatched |
| `Menu.InvalidChoiceIgnored` | TrabalhoFinal.py:552-555 | a line that is not "0" to "12" after stripping is re-prompted: the run dispatches the same actions as if it had not been typed |

## Left out

- Database access (psycopg2): connecting, cursors, `execute`, `fetchall`, commit and rollback, and the batch loops over the DDL, seed-data and drop dictionaries. This is driver I/O. A built statement is the point where the model stops.
- The language-model client and the prompt text in both versions. The model's answer, or the message of the exception it raised, is a parameter of `Text2Sql.Plan`. The `str(response)` fallback for an answer without a `text` attribute is not modelled.
- `text2sql` in TrabalhoFinal.py executes the model's text verbatim and has no logic of its own.
- `consulta01`, `consulta02` and `consulta03`: fixed report queries, matplotlib charts and a numpy pivot with floating-point arithmetic.
- `consulta_individual` in TrabalhoFinal.py (TrabalhoFinal.py:290-308) is not part of this model. The v2 version is modelled as `CrudV2.SelectAll`.
- The DDL, seed-data and drop dictionaries are static strings. The catalog is passed to the builders as the ordered list of its keys.
- `.env` loading, `input()` and `print`. Typed lines are parameters, and messages are represented by `Rejection`/`Outcome` values. Running out of typed lines ends `Menu.MainLoop`; the program would raise at end of input and close the connection.
- teste.py is not part of this model. Its builders and menu check are the same as TrabalhoFinal.py's.
- Unicode case mapping. `lower()`, `upper()` and `isupper()` act on ASCII letters only, so lower-casing keeps every index in place. `strip()` and `splitlines()` use CPython's whitespace and line-break sets.
- Menu.MainLoop: every dispatched action is taken to return, and every typed line is taken to be a menu choice. In the program, an exception other than `psycopg2.Error` inside an action leaves the loop through `main`'s `except Exception` (TrabalhoFinal.py:589-591; old/TrabalhoFinal_v2.py:762-764). One example is the KeyError from `tables[name]` in TrabalhoFinal.py:296. Nothing after that choice is dispatched, and `quit` would be false. The actions also read their own lines (table name, values) from the same input. The model leaves both out because the actions themselves are outside the loop.
- PyStr.SplitLines: its contract states only that no line contains a line break. How the text is divided, including `\r\n` and a trailing break, is given by its definition.
- Catalog.TableName: its contract states only that the result has no lower-case letter. The normalisation itself is its definition.
