# Neuroquery query assistant — a Dafny model of its core

Neuroquery turns an English question about an employee database into SQL,
runs it on SQLite and shows the rows in a React table. This project models
the deterministic core of that pipeline and proves properties about it:

- **Entity extraction** (`NlpEntities`, `entities.dfy`). `ExtractEntities`
  scans the department vocabulary in order and breaks at the first hit. It
  reads the salary with the regular expression `\d+(?:,\d{3})*`, and only
  when `salary` or `paid` is mentioned. It reads the year with `20\d{2}`.
  The method is proved equal to the reference definition `EntitiesOf`. The
  salary scan is proved to be the leftmost-longest match of the pattern.
- **Intent fallback** (`NlpIntent`, `intent.dfy`). `ClassifyIntent` maps the
  classifier's outcome to a label. Any outcome that is missing, failed or at
  or below the 0.3 confidence floor becomes `unknown`.
- **SQL synthesis** (`NlpQueries`, `queries.dfy`).
  - `BuildConditionalQuery` appends one predicate per entity to a list and
    joins them after `WHERE`.
  - `AggregateQuery` picks an aggregate by keyword precedence.
  - `TextToSql` dispatches on the intent label.
  - Each of these is proved against a specification function. Precedence,
    order, presence and the "no dangling `WHERE`" property are separate
    lemmas.
- **Query execution** (`Database`, `database.dfy`). `ExecuteSqlQuery` builds
  one column-to-value record per fetched row with two nested loops. It also
  wraps the rows, or the error, in the result record.
- **Request validation** (`Routes`, `routes.dfy`). These model the decisions
  of `/api/query`, `/api/voice` and `/api/sql`: which requests are refused,
  with which message, and which text is passed on. The keyword denylist of
  direct SQL is proved to be sound in both directions:
  - whatever reaches execution contains no listed keyword in any letter
    case;
  - any occurrence of a keyword, even inside a word, is refused.
- **Result display** (`ResultsTable`, `results_table.dfy`). This covers row
  and column selection, cell formatting, snake_case-to-title headings, the
  pluralised summary line and the whole rendered view.
- **Column badges** (`DatabaseSchema`, `database_schema.dfy`). This is the
  ordered, case-insensitive type-to-colour test.

`text.dfy` models the string built-ins these rely on:
- Python's `str.strip()`, `upper()`/`lower()` and `in`;
- JavaScript's `split`/`join` on one separator;
- decimal rendering and parsing.

All text is taken to be ASCII. Case mapping touches only `a`-`z` and
`A`-`Z`, `\d` is `[0-9]`, and one character is one JavaScript code unit.

## Model

| member | source | states |
|---|---|---|
| NlpEntities.DepartmentOf | backend/app/nlp_processor.py:203-208 | no department exactly when no vocabulary word occurs; otherwise the upper-cased first vocabulary word that occurs, with none before it occurring |
| NlpEntities.SalaryMatchIsLeftmostLongest | backend/app/nlp_processor.py:211 | the salary token exists exactly when the text has a digit; it is a number token (`\d+(?:,\d{3})*`) occurring in the text with no digit before it, and no longer stretch from the same start is a number token |
| NlpEntities.SalaryOf | backend/app/nlp_processor.py:210-213 | a salary is present exactly when the text has a digit and mentions `salary` or `paid`; its value is the written value (`NumberValue`) of the matched number token |
| NlpEntities.SalaryMatchReadable | backend/app/nlp_processor.py:211-213 | the matched token without its commas is a digit string, so `int()` accepts it |
| NlpEntities.RemoveCommas | backend/app/nlp_processor.py:213 | `replace(',', '')` leaves no comma, is never longer, changes nothing in a comma-free string, and leaves only digits when the input has only digits and commas |
| NlpEntities.RemoveCommasSnoc | backend/app/nlp_processor.py:213 | one more character is dropped exactly when it is a comma and kept otherwise |
| NlpEntities.RemoveCommasAppend | backend/app/nlp_processor.py:213 | removing commas from a concatenation concatenates the pieces' results |
| NlpEntities.RemoveCommasGroup | backend/app/nlp_processor.py:211-213 | a comma group `,ddd` contributes exactly its three digits |
| NlpEntities.RemoveCommasReadsNumber | backend/app/nlp_processor.py:211-213 | for every number token, `int(token.replace(',', ''))` equals the token's written value: the leading digit run, then a factor of a thousand and three more digits per comma group |
| NlpEntities.YearOf | backend/app/nlp_processor.py:215-218 | no year exactly when no `20dd` occurs; otherwise four characters starting `20`, all digits, taken from an occurrence in the text |
| NlpEntities.ExtractEntities | backend/app/nlp_processor.py:194-220 | the loop with `break` yields exactly the reference entities (first department, salary, year) and `limit` stays unset |
| NlpIntent.TrainedIntent.Label | backend/app/nlp_processor.py:27-77 | no trained label is `unknown` |
| NlpIntent.ClassifyIntent | backend/app/nlp_processor.py:137-149 | the result is one of the six labels; it is `unknown` exactly when there is no pipeline, prediction raised, or confidence is at most 0.3; otherwise it is the predicted label |
| NlpQueries.SalaryComparison | backend/app/nlp_processor.py:230-236 | `>` exactly when a "greater" phrase occurs; `<` exactly when no "greater" phrase but a "less" phrase occurs; `>=` otherwise |
| NlpQueries.YearComparison | backend/app/nlp_processor.py:238-242 | `>` (after) exactly for `after`/`since`; `<` (before) exactly for `before` without those; no comparison, and so no year predicate, exactly when none of the three words occurs |
| NlpQueries.ConditionsAscending | backend/app/nlp_processor.py:227-245 | the predicates come in the fixed order department, salary, year, recency, so each kind occurs at most once |
| NlpQueries.ConditionsPresent | backend/app/nlp_processor.py:227-245 | each predicate is present exactly when its entity is truthy (the year also needs a direction word) and it carries that entity's value and the chosen comparison |
| NlpQueries.TextsRenderConditions | backend/app/nlp_processor.py:228-245 | the SQL fragments appended are exactly the predicates rendered one by one, in order |
| NlpQueries.NoDanglingWhere | backend/app/nlp_processor.py:247-250 | the plain join comes back exactly when no predicate applies; otherwise the query starts with the `WHERE` prefix and has a predicate after it |
| NlpQueries.BuildConditionalQuery | backend/app/nlp_processor.py:222-250 | the method that appends to a list returns the specified conditional query |
| NlpQueries.AggregateQuery | backend/app/nlp_processor.py:252-263 | each of the five templates is returned exactly when its keyword test is the first one to hold (average, maximum, minimum, total, none) |
| NlpQueries.AggregateTemplatesDistinct | backend/app/nlp_processor.py:255-263 | the five aggregate templates are pairwise different, so the answer identifies the branch taken |
| NlpQueries.TextToSql | backend/app/nlp_processor.py:151-192 | the dispatch returns the specified query for the label and the lower-cased text; it is empty exactly for `count` when no table word occurs |
| NlpQueries.NonEmptyUnlessUnmatchedCount | backend/app/nlp_processor.py:159-180 | only a `count` question naming none of employee/department/project yields the empty query |
| NlpQueries.SelectAllPicksFirstMentioned | backend/app/nlp_processor.py:161-169 | `select_all` lists the table of the first table word mentioned, and all employees when none is |
| NlpQueries.CountPicksFirstMentioned | backend/app/nlp_processor.py:174-180 | `count` counts the table of the first table word mentioned, and gives no query when none is |
| NlpQueries.OtherLabelsFallBack | backend/app/nlp_processor.py:188-190 | any label outside the five trained ones gets the `LIMIT 10` fallback |
| NlpQueries.UnknownIntentFallsBack | backend/app/nlp_processor.py:139-149 | an `unknown` classification always leads to the `LIMIT 10` fallback |
| Database.RowDictKeys | backend/app/database.py:129-131 | a row record has exactly the column names as keys; duplicate names collapse |
| Database.RowDictValue | backend/app/database.py:130-131 | under each name is the row value at the last position with that name, or `None` when the row is too short |
| Database.ExecuteSqlQuery | backend/app/database.py:117-149 | on an exception the failure record carries the message and nothing else; otherwise there is one record per fetched row in order, the columns are the result's keys (or none), the row count equals the number of records, and the error is unset |
| Routes.QueryDecision | backend/app/routes.py:26-43 | "required" exactly when the body or `query` is missing; "cannot be empty" exactly when the stripped query is empty; the query goes on exactly when it is present and not blank, as its stripped text, which has no whitespace at its ends; every rejection is a 400 |
| Routes.VoiceDecision | backend/app/routes.py:73-100 | a missing file, then an empty file name, then a failed transcription (with the service's own error) are refused in that order; the transcript goes on unchanged exactly when all checks pass |
| Routes.UploadCheckedBeforeTranscription | backend/app/routes.py:73-91 | a request refused for its upload is refused whatever transcription would give |
| Routes.DirectSqlDecision | backend/app/routes.py:148-176 | "required" and "cannot be empty" as for queries; the stripped SQL goes on exactly when its upper-cased form contains none of the six keywords; every rejection is a 400, and a non-blank SQL text is refused only as dangerous, naming a keyword it contains |
| Routes.RefusalNamesFirstKeyword | backend/app/routes.py:165-173 | for any body with a non-blank `sql` field, the 400 refusal names the first listed keyword that occurs |
| Routes.ExecutedSqlHasNoKeyword | backend/app/routes.py:165-176 | no stretch of executed SQL upper-cases to a listed keyword |
| Routes.KeywordsAreWords | backend/app/routes.py:165 | every keyword starts and ends with a capital letter |
| Routes.KeywordAnywhereRefused | backend/app/routes.py:156-173 | for any body whose raw `sql` field contains a keyword, in any letter case, the answer is a 400 "dangerous" refusal; stripping never removes the keyword |
| Routes.CreatedAtRefused | backend/app/routes.py:165-169 | SQL that mentions a `created_at` column is refused as dangerous, because it contains `CREATE` |
| Text.Strip | backend/app/routes.py:34 | `strip()` is empty exactly when all characters are whitespace; otherwise it is the stretch between leading and trailing whitespace and neither starts nor ends with whitespace |
| Text.StripEmpty | backend/app/routes.py:34-36 | the stripped text is empty exactly when the input is all whitespace |
| Text.UpperOccurrenceSurvivesStrip | backend/app/routes.py:156-169 | an upper-cased occurrence that starts and ends with non-whitespace is still contained after `strip()` and `upper()` |
| Text.FirstContained | backend/app/nlp_processor.py:205-208 | the index of the first word that occurs, with none before it occurring; none exactly when no word occurs |
| Text.ParseDecimalSnoc | backend/app/nlp_processor.py:213 | `int()` of digits with one more digit appended is ten times the value plus that digit |
| Text.ParseDecimalGroup | backend/app/nlp_processor.py:213 | `int()` of digits followed by three more digits is a thousand times the value plus the three digits' value |
| Text.ParseNatToString | backend/app/nlp_processor.py:213 | reading back a rendered number gives the number |
| Text.IntToString | frontend/src/components/ResultsTable.js:46 | a minus sign exactly for negatives, followed by digits that read back as the magnitude and have no leading zero |
| Text.JoinSplit | frontend/src/components/ResultsTable.js:65-68 | joining the pieces of a split with the separator gives back the text |
| Text.SplitJoin | frontend/src/components/ResultsTable.js:65-68 | splitting a join of separator-free pieces gives back the pieces |
| ResultsTable.TableData | frontend/src/components/ResultsTable.js:5-10 | no rows exactly when `data` is missing, not an array or empty; otherwise the rows themselves |
| ResultsTable.TableColumns | frontend/src/components/ResultsTable.js:12-21 | given non-empty columns win; otherwise the keys of the first row; empty exactly when neither gives any |
| ResultsTable.Lookup | frontend/src/components/ResultsTable.js:88 | the value of the first property of that name, whenever there is one; a defined value comes from a property of that name; with no such property the value is `undefined` |
| ResultsTable.FormatCellValue | frontend/src/components/ResultsTable.js:32-61 | the placeholder exactly for `null`/`undefined`; ✓/✗ for booleans; safe integers up to 999 render as at least one decimal digit, without a leading zero (a minus sign first for negatives) and read back as the number; larger ones go to the locale; strings over 100 characters show their first 97 and `...` with the full text as tooltip; others show themselves |
| ResultsTable.Capitalize | frontend/src/components/ResultsTable.js:67 | the first character is upper-cased and the rest is unchanged |
| ResultsTable.TitleCaseIsJoin | frontend/src/components/ResultsTable.js:65-68 | the character-by-character heading equals split, capitalize and join |
| ResultsTable.FormatColumnName | frontend/src/components/ResultsTable.js:63-69 | the split-capitalize-join heading equals the heading built character by character (`TitleCase`): underscores become spaces, and the first character of each piece is upper-cased |
| ResultsTable.FormatColumnNameChars | frontend/src/components/ResultsTable.js:63-69 | the heading keeps the name's length, turns exactly the underscores into spaces, upper-cases the first character of every piece and keeps every other character |
| ResultsTable.FormatColumnNamePieces | frontend/src/components/ResultsTable.js:63-69 | for a name without spaces, the heading's space-separated pieces are the capitalized underscore-separated pieces, one for one |
| ResultsTable.Counted | frontend/src/components/ResultsTable.js:98-99 | the count, a space and the noun, with a trailing `s` exactly when the count is not 1 and nothing else after the noun; the leading digits read back as the count |
| ResultsTable.Summary | frontend/src/components/ResultsTable.js:96-101 | "Showing N result(s)", followed by " with C column(s)" exactly when there is at least one column |
| ResultsTable.Render | frontend/src/components/ResultsTable.js:23-101 | the "no results" notice exactly when there are no rows; otherwise one heading per column, one line of formatted cells per row, and the summary |
| DatabaseSchema.ColumnTypeColor | frontend/src/components/DatabaseSchema.js:30-37 | each of the five variants is returned exactly when its fragment test on the upper-cased type is the first to hold (`INT`, `VARCHAR`/`TEXT`, `DATE`/`TIME`, `FLOAT`/`DECIMAL`, none) |
| DatabaseSchema.ColumnTypeColorIgnoresCase | frontend/src/components/DatabaseSchema.js:31 | two type names that upper-case alike get the same colour |
| DatabaseSchema.IntegerFragmentWins | frontend/src/components/DatabaseSchema.js:32 | any type containing `int` in any case is primary, whatever else it contains |
| DatabaseSchema.PointIsPrimary | frontend/src/components/DatabaseSchema.js:32 | `point` is primary, because it contains `int` |

## Left out

- The intent classifier itself is out of scope: the NLTK preprocessing, the TF-IDF/naive Bayes pipeline, training and model files. Its outcome is an input (`NlpIntent.Prediction`), and `text_to_sql` takes the classified label as a parameter.
- Database access is not modelled: SQLAlchemy sessions, SQLite evaluation of the generated SQL, schema introspection and seed data. The statement's outcome (an exception message, or column names and rows) is an input of `ExecuteSqlQuery`.
- The speech service, file reading, Flask request parsing and JSON response envelopes are not modelled. A request body is `Option<map<string, string>>`, and the upload is only its file name.
- Routes.QueryDecision: a `query` field that is not a string makes `.strip()` raise, which the handler answers with a 500. That path, and every other `Internal server error` path, is not modelled.
- Routes.DirectSqlDecision: same restriction for a non-string `sql` field.
- Database.ExecuteSqlQuery: records are Dafny maps, so the key order of the Python dictionaries is not captured. SQL values are restricted to `NULL`, integers and text.
- ResultsTable.FormatCellValue: numbers above 999 go to `toLocaleString()`, whose output depends on the locale; the model only records that branch (`LocaleNumber`). Numbers are restricted to safe integers (magnitude at most 2^53 - 1): a larger integer is not held exactly by a JavaScript number, and from -1e21 down `toString()` switches to exponent notation (`-1e+21`), which the model does not produce. Non-integral numbers and other JavaScript types (objects, arrays) are not modelled.
- ResultsTable.Lookup: a row is a list of properties, so it may repeat a name (the first one wins), which a JavaScript object cannot; and `row[column]` on a real object also finds inherited properties such as `constructor` or `toString`, which the model treats as missing (`undefined`).
- NlpEntities.SalaryOf: Python's `int()` refuses strings of more than 4300 digits (CPython 3.11 and later, and security releases of earlier versions) with `ValueError`; `text_to_sql` then raises for every intent and the request ends in a 500. The model reads numbers of any length.
- React rendering, memoisation, CSS classes and the `title` attribute markup are reduced to the `View`/`Cell` values.
- Unicode is not modelled: case mapping, `\d` and whitespace are restricted to ASCII, and JavaScript code units equal characters.
- The `limit` entity is never set by the source, and the model keeps it `None`.
