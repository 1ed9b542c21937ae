# Resume screening: a verified model of the evaluation core

This project models the core of a Flask resume-screening service in Dafny. A
logged-in user uploads a job description and a batch of resumes. Each resume
with an allowed extension is sent to a generative model. The model's reply is
parsed leniently into a JSON result, and any failure is replaced by a fixed
fallback result. Each result is tagged with the file's secured name and saved
as one row of an `evaluations` table. The batch is then ranked by overall
score, highest first. Saved results can be read back three ways: as a
`history` list, as a `dashboard` of scores, and as a downloadable report
whose elements are modelled here.

The modules follow the program:

- `Py` holds Python's `None`-or-value and its exceptions, as a `Result`.
- `Json` holds JSON values, Python truthiness, `dict.get`, and the
  `json.loads`/`json.dumps` parameters.
- `Text` holds `str.strip` (with Python's whitespace set), `find`, `rfind`
  and `lower`.
- `Rows` holds the SQL `WHERE` and `ORDER BY id DESC LIMIT 1` queries over
  a table's rows.
- `Ranking` holds a stable descending sort, proved sorted, a permutation
  and stable.
- `Engine` holds `safe_parse_json`, `allowed_file` and `evaluate_resume`.
- `Report` holds the elements `generate_pdf_report` lays out.
- `AppStore` holds app.py's `evaluations` table, which is owned by users.
  It is a class whose methods update its rows.
- `Batch` holds the `POST` branch of `index`: the upload loop, the rows it
  saves, the ranking and the top score.
- `Views` holds the `download`, `history` and `dashboard` routes.
- `Db` holds db.py's store: an `evaluations` table without owners and a
  `users` table with hashed passwords and unique usernames.

Some collaborators are parameters of the model, and assumptions about them
are stated as predicates where a proof needs them:

- `json.loads` is a `Decoder`. `RejectsEmpty` says it rejects `""`.
- `json.dumps` is an `Encoder`. `RoundTrips` says it round-trips with the
  decoder.
- Werkzeug's `secure_filename` is a parameter.
- The `ALLOWED_EXTENSIONS` set is a parameter.
- Werkzeug's password hashing is a `Hasher`. `Sound` says a hash checks
  against its own password.
- The model's reply for each upload is a parameter.
- The insert time is a parameter.

Where the code does something a reader might not expect, the model follows the code:

- A reply that parses to a truthy value that is not a JSON object (such as
  `[1]`) is not replaced by the fallback (`Engine.ArrayReplyPassesThrough`).
  The next line then raises `TypeError` when it sets the filename. That
  aborts the rest of the batch, and the rows already saved stay saved
  (`Batch.SaveUploads`, `Batch.Index`).
- The report falls back to defaults only for missing keys. A `sub_scores`
  that is not an object raises `AttributeError` (`Report.ReportElements`).
- `top_score` raises `KeyError` when the top result has no `overall_score`
  (see Findings). The model's `Index` uses the corrected reading.

## Model

| member | source | states |
|---|---|---|
| Text.StripKeepsNonSpace | app.py:82 | stripping removes only whitespace: a non-space character occurs in the stripped text exactly when it occurs in the original |
| Text.FindSpec | app.py:83 | `find` gives -1 exactly when the character is absent; otherwise it gives an index holding the character with no earlier occurrence |
| Text.RFindSpec | app.py:84 | `rfind` gives -1 exactly when the character is absent; otherwise it gives an index holding the character with no later occurrence |
| Text.FindIsFirst | app.py:83 | the first occurrence of a character is what `find` returns |
| Text.RFindIsLast | app.py:84 | the last occurrence of a character is what `rfind` returns |
| Engine.CandidateBetweenBraces | app.py:80-87 | with a first `{` before a last `}` in the stripped reply, the decoder receives exactly the stretch between them, which starts with `{` and ends with `}` |
| Engine.CandidateWithoutBraces | app.py:82-87 | a reply lacking `{` or `}` reaches the decoder stripped and otherwise unchanged |
| Engine.ReversedBracesGiveNone | app.py:85-89 | when the last `}` precedes the first `{`, the slice is empty and, for a decoder that rejects empty text, `safe_parse_json` returns `None` |
| Text.LowerSpec | app.py:93 | same length; each ASCII capital becomes its lower-case letter, no ASCII capital remains, and every other character is unchanged |
| Engine.AllowedFileIff | app.py:92-93 | `allowed_file` holds exactly when the name has a last `.` and the lower-cased text after it is an allowed extension |
| Engine.EvaluateResume | app.py:135-150 | the result is always truthy; a truthy parse is returned unchanged; a failed call, a failed parse or a falsy parse gives the fixed fallback result |
| Engine.ArrayReplyPassesThrough | app.py:142-150 | a truthy non-object reply such as `[1]` is returned as it is: the shape of the result is not checked |
| Report.TableShape | app.py:173-180 | the table is five rows of two cells, in the fixed criterion order |
| Report.ReportElements | app.py:153-201 | a non-object result or a non-object `sub_scores` raises `AttributeError`; otherwise the elements are title, info (filename and overall score, "N/A" defaults), criteria table and summary (default "No summary available.") |
| Report.GeneratePdfReport | app.py:153-201 | appending the elements one by one yields exactly `ReportElements` |
| Report.PartialResultReport | app.py:164-197 | a result with score 8, skills 9 and a summary reports score 8, skills 9 and "N/A" for the other three criteria |
| Rows.WhereMultiset | app.py:72 | filtering keeps every matching row as often as the table holds it, and no other row |
| Rows.LastWhereAppend | app.py:62-67 | appending a row moves the latest match onto it exactly when it matches, and keeps the earlier answer otherwise |
| Rows.LastWhereHasHighestId | app.py:238 | when ids grow along the table, the last matching row has the highest id among matching rows: the row `ORDER BY id DESC LIMIT 1` selects |
| Ranking.SortDescSorted | app.py:229 | the sort yields a sequence of the same length whose keys do not increase |
| Ranking.SortDescPermutation | app.py:229 | the sort yields a permutation of its input |
| Ranking.SortDescStable | app.py:229 | for every key value, the results with that key keep their submission order |
| AppStore.EvaluationTable.constructor | app.py:51-60 | a new table is empty and valid |
| AppStore.EvaluationTable.Save | app.py:62-67 | appends exactly one row with the given columns and a fresh id above all earlier ids; that row becomes the latest for its user and filename, and the latest row for every other user and filename is unchanged |
| AppStore.EvaluationTable.FetchAll | app.py:69-74 | exactly the user's rows (as a multiset), newest first by date |
| AppStore.EvaluationTable.LatestResult | app.py:236-241 | `None` exactly when the user has no row for the filename; otherwise the payload of the matching row with the highest id |
| Batch.WithFilename | app.py:226 | only an object accepts the filename key (others raise `TypeError`); the key is set, every other key is kept, and no other key is added |
| Batch.CollectStep | app.py:219-228 | one iteration processes the next upload: a rejected upload changes nothing, a raising one stops the loop, and a successful one appends its result |
| Batch.CrashPersists | app.py:219-228 | once an upload raises, later uploads change nothing |
| Batch.OneResultPerAccepted | app.py:219-228 | without a raising analysis, the loop yields one result per allowed upload, in upload order, each being that upload's analysis |
| Batch.CrashesIff | app.py:219-228 | the loop raises exactly when some allowed upload's analysis raises |
| Batch.Rank | app.py:229 | for two or more results with some score that is not a number, it raises `TypeError`; otherwise it gives a permutation of the results with non-increasing scores (absent meaning 0), stable on equal scores |
| Batch.TopScoreRaisesOnMissingScore | app.py:229-230 | a one-result batch without `overall_score` ranks without error, yet reading its top score as written raises `KeyError` |
| Batch.TopScoreIsHighest | app.py:229-230 | the corrected top score is 0 for an empty batch, and otherwise the score of a result whose key is the largest in the batch |
| Batch.AppendedStep | app.py:226-228 | saving one more tagged result extends the rows gained by one row holding it |
| Batch.SaveUploads | app.py:218-228 | the results and the crash flag are the loop's; the table gains one row per result, in order, each holding the user, secured filename, job description, serialised result and time, and earlier rows are unchanged |
| Batch.Index | app.py:213-231 | an empty stripped job description or no uploads gives the error page and leaves the table unchanged; otherwise rows are saved as the loop goes, a raise surfaces as the error, and a complete batch is ranked with its top score |
| Views.Download | app.py:233-246 | not found exactly when the user has no row for the filename; otherwise the latest payload is decoded (a failed decode raises) and its report is sent as `<filename>_report.pdf`, or its error is raised |
| Views.FallbackReport | app.py:142-197 | the report of a failed evaluation shows the filename, score 0, "N/A" for every criterion and the fallback summary |
| Views.History | app.py:250-253 | succeeds exactly when every row `fetch_all` returns for the user decodes; yields one entry per fetched row, in order, with its filename, date and decoded result; otherwise `DecodeError` |
| Views.HistoryEntries | app.py:252 | succeeds exactly when every row decodes (else `DecodeError`); yields one entry per row, in order, with its filename, date and decoded result |
| Views.HistoryRecoversSaved | app.py:252 | rows serialised by an encoder that round-trips with the decoder come back, each with the value that was saved |
| Views.FallbackDashboardEntry | app.py:261-269 | a row holding a failed evaluation shows 0 for the overall score and for every criterion |
| Views.Dashboard | app.py:257-270 | one entry per fetched row, in order, each the row's projection with 0 defaults; otherwise the error of the first row that cannot be projected (`DecodeError` or `AttributeError`) |
| Db.Database.constructor | db.py:11-32 | a new database has both tables empty and valid |
| Db.Database.SaveEvaluation | db.py:37-43 | appends exactly one row with the next id and leaves the users table alone; that row becomes the latest for its filename, and every other filename's latest is unchanged |
| Db.Database.FetchAll | db.py:45-50 | exactly the table's rows (as a multiset), newest first by date |
| Db.Database.FetchLatestByFilename | db.py:52-59 | `None` exactly when no row has the filename; otherwise the payload of the matching row with the highest id |
| Db.Database.CreateUser | db.py:64-78 | succeeds exactly when the username is new; on success it appends the user with the hashed password and a fresh id, and under a sound hasher that user then verifies; on failure both tables are unchanged |
| Db.Database.FindUserById | db.py:80-90 | `None` exactly when no user has the id; otherwise the record of the one user with that id |
| Db.Database.FindUserByUsername | db.py:92-101 | `None` exactly when no user has the username; otherwise the record of the one user with that username |
| Db.Database.VerifyUserPassword | db.py:103-109 | true exactly when a user with that username exists and the password checks against that user's stored hash |
| Db.DuplicateRegistration | db.py:70-78 | registering a username twice: the first `create_user` succeeds and the second reports `False` |
| Db.UnknownUserRejected | db.py:103-107 | an example: with only `ann` registered, `bob` does not verify, whatever the password and the hasher |

## Left out

- The login, registration, logout and home routes are not modelled. Neither are the user loader and app.py's own plaintext `users` table: they are session and authentication plumbing outside the evaluation core.
- The `GET` branch of `index` only renders a form, so it is not modelled.
- Rendering the HTML templates is not modelled. Each route's result is the data handed to its template.
- PDF text extraction (`extract_text_from_pdf`) is I/O and is not modelled. So is PyPDF2 raising on a corrupt file with an allowed extension, which aborts the rest of the batch with the rows saved so far kept.
- Saving uploads to the upload folder is I/O and is not modelled. So is a save that fails, for example when `secure_filename` returns an empty name.
- The prompt text is not modelled, and neither is the call to the generative model. The model's reply is a parameter of each upload, and any exception the call raises is a `CallFailed` reply.
- Logging the evaluation error is I/O and is not modelled.
- The PDF layout is not modelled: styles, spacers, column widths and the byte stream reportlab produces. The report is the sequence of elements, carrying the JSON values the f-strings would format.
- `Json` numbers are integers. Floating-point scores are not modelled.
- `json.loads`, `json.dumps`, `secure_filename`, `ALLOWED_EXTENSIONS` and Werkzeug's hash functions are parameters. config.py is not part of this model.
- `Text.Lower` lower-cases ASCII letters only. Python's full Unicode case mapping is not modelled.
- `CURRENT_TIMESTAMP` is a `now` parameter: one time for all rows of a batch, and the creation time for a user.
- When dates are equal, SQLite may return rows in any order. The `FetchAll` functions promise only a date-ordered permutation. Their bodies return one such order, table order.
- `Batch.Rank`: it raises `TypeError` for every batch of two or more results with a score that is not a number. Python sorts a batch whose scores are all strings, or all lists; no result parsed from the expected format has such scores.
- SQLite connections, concurrency, constraint errors other than duplicate usernames, and exhaustion of `AUTOINCREMENT` ids are not modelled.
- Both files create an `evaluations` table in the same database file, with different columns. The two stores are modelled separately, and the schema clash is not modelled.

## Findings

| source | as written | input that shows it | evidently intended | confidence | as-written member | corrected member |
|---|---|---|---|---|---|---|
| app.py:229-230 | the sort key treats a missing `overall_score` as 0, but `top_score` reads `results[0]["overall_score"]` and raises `KeyError` | one allowed upload whose reply parses to `{"summary": "x"}` | the top score uses the same default as the sort key: 0 when the top result has no score | medium; not executed | Batch.TopScoreAsWritten (shown by Batch.TopScoreRaisesOnMissingScore) | Batch.TopScore (proved by Batch.TopScoreIsHighest, used by Batch.Index) |
