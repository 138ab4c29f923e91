# CockroachDB exercise test helpers, in Dafny

This project models the helper library that the CockroachDB data-modelling
exercises use to check a learner's SQL scripts. The library lives in
`tests/util/helpers.py` and, in the exercises that need them, in inline
checks of `tests/test_solutions.py`. It has three parts.

- **Verifying checks.** These work on the rows the database returns.
  - `check_table` runs a script, asserts that `SHOW TABLES` lists the table and calls `check_columns`.
  - `check_columns` matches `SHOW COLUMNS` rows by name against four parallel expectation lists.
  - `check_table_contents_by_id`, `check_table_contents` and `check_foreign_key` first run the answer script, as `check_table` does; a script that is missing or refused raises before anything is checked.
  - `check_table_contents_by_id` looks up the first row carrying each expected key.
  - `check_table_contents` runs one filtered `SELECT` per expected record; the filter is built as `field = 'value'` terms joined by `AND`.
  - `check_foreign_key` looks the canonical `FOREIGN KEY (...) REFERENCES ...` text up among the foreign-key constraints.
  - The tests' primary-key checks come in two forms: a single `id` key, and a composite key compared as a dictionary.
- **Script plumbing.**
  - `read_answer_file` returns a file's lines; `run_sql_script` sends them joined by single spaces as one statement.
  - `run_command` and `create_database` send one statement each.
  - `create_table` and `set_up_db_and_table` build and send the setup statements.
  - A loop in the tests runs the setup scripts in order.
- **Server life cycle.**
  - `is_port_26257_free` scans a process listing.
  - `spawn_cockroach_single_node_background` probes for a connection with back-off 1, 2, 4, 8 seconds, then makes one last attempt.
  - `CockroachSingleNodeInsecure` starts the server and connects; its `stop()` kills the server, waits for the port to be free and removes the data directory.

How the outside world is modelled:

- The database is an input. Rows are `map<string, Value>`.
- An ordered Python dictionary literal is a sequence of (name, value) pairs.
- A Python `KeyError` or `IndexError` raised by a lookup becomes a `Fail` or `Err` value naming the field or the index.
- The file system and the server's acceptance of statements form an `Env`.
- Connection attempts come from a list of outcomes; an attempt past the end of the list fails.
- Each read of `ps` is a list of lines.
- Waiting is recorded as `Sleep` events.

The module layout follows the library:

- `values.dfy`: values, rows, records, failures.
- `text.dfy`: `join`, `in`, ASCII `upper()`, decimal rendering.
- `schema.dfy`: columns and foreign keys.
- `contents.dfy`: row contents.
- `primary_key.dfy`: the primary-key checks.
- `ports.dfy`: the port heuristic.
- `scripts.dfy`: scripts and setup.
- `lifecycle.dfy`: the probe loop, the server class and `stop()`.

Where the code's own text promises more than the code does, the model follows the code:

- **`stop()` timeout.** The `tries > 3` branch of `stop()` raises a "process not terminating" error (`solutions/05-foreign-key-actions/vehicles/tests/util/helpers.py:427-429`), and the startup probe loop, which has the same shape, counts `tries` up with the comment `# 1s, 2s, 4s, 8s` (`solutions/05-foreign-key-actions/vehicles/tests/util/helpers.py:232-239`). The loop in `stop()` never increments `tries`, so it waits one second at a time without bound and the error is never raised. `Lifecycle.SingleNodeInsecure.Stop` models the code; see Findings.
- **Startup failure.** After the probe loop, one last connection attempt is made with no handler around it (`solutions/05-foreign-key-actions/vehicles/tests/util/helpers.py:240-242`), so its driver error propagates to the caller. The model calls that failure `ConnectionRefused`.
- **Removing the data directory.** `rm -r cockroach-data` runs with its output captured and its result ignored (`solutions/05-foreign-key-actions/vehicles/tests/util/helpers.py:430`). The model records the removal and never fails on it.

## Model

| member | source | states |
|---|---|---|
| Values.IndexOf | solutions/05-foreign-key-actions/vehicles/tests/util/helpers.py:275 | `list.index`: the result is an index holding the value, and no earlier index holds it |
| Text.JoinPartAt | solutions/05-foreign-key-actions/vehicles/tests/util/helpers.py:346 | in `sep.join(parts)` every part appears intact at its computed offset, in order |
| Text.JoinSepAt | solutions/05-foreign-key-actions/vehicles/tests/util/helpers.py:346 | exactly one separator lies between neighbouring parts of a join |
| Text.JoinAppend | solutions/05-foreign-key-actions/vehicles/tests/util/helpers.py:346 | joining two non-empty lists gives the two joins with one separator between them |
| Text.ContainsIff | solutions/05-foreign-key-actions/vehicles/tests/util/helpers.py:254-259 | Python's `sub in s` holds exactly when `sub` occurs at some position of `s` |
| Text.MissingCharNotContained | solutions/05-foreign-key-actions/vehicles/tests/util/helpers.py:254-259 | a character of `sub` absent from `s` makes `sub in s` false |
| Text.Upper | solutions/05-foreign-key-actions/vehicles/tests/util/helpers.py:368 | `upper()` keeps the length, turns every lower-case ASCII letter into its capital (32 code points lower), leaves no lower-case letter and keeps every other character |
| Text.UpperEqualIff | solutions/05-foreign-key-actions/vehicles/tests/util/helpers.py:368 | two texts upper-case alike exactly when they have the same length and agree letter by letter up to upper-casing |
| Text.UpperIdempotent | solutions/05-foreign-key-actions/vehicles/tests/util/helpers.py:368 | upper-casing twice equals upper-casing once |
| Text.NatToString | solutions/05-foreign-key-actions/vehicles/tests/util/helpers.py:346 | `str(n)` is a non-empty string of decimal digits with no leading zero; it is `0` exactly for zero |
| Text.NatToStringRoundTrip | solutions/05-foreign-key-actions/vehicles/tests/util/helpers.py:346 | reading the digits of `str(n)` back gives `n` |
| Text.ZeroPad | solutions/05-foreign-key-actions/vehicles/tests/util/helpers.py:346 | the padded text is exactly as long as the larger of the width and the text, ends with the text and has only `0` before it |
| Schema.TableNames | solutions/05-foreign-key-actions/vehicles/tests/util/helpers.py:112-117 | `show_tables` yields the second field of every row, in order, and raises `IndexError` exactly when some row has fewer than two fields |
| Schema.TableListedIff | solutions/05-foreign-key-actions/vehicles/tests/util/helpers.py:298 | on well-formed rows the table is found exactly when some row names it in its second field; otherwise the failure names the table |
| Schema.CheckTableIff | solutions/05-foreign-key-actions/vehicles/tests/util/helpers.py:283-305 | check_table passes exactly when the script exists and is accepted, the table is listed and the live columns equal the expected ones as a set; a missing script is reported first |
| Schema.CheckColumnIff | solutions/05-foreign-key-actions/vehicles/tests/util/helpers.py:270-280 | with distinct expected names, a live column passes exactly when its (name, type, default, nullable) tuple is an expected tuple |
| Schema.CheckColumnsIff | solutions/05-foreign-key-actions/vehicles/tests/util/helpers.py:268-280 | check_columns passes exactly when the counts agree and every live column's tuple is expected |
| Schema.EachColumnIff | solutions/05-foreign-key-actions/vehicles/tests/util/helpers.py:270-280 | the loop passes exactly when every live column's tuple is an expected tuple |
| Schema.CheckColumnsIsSetEquality | solutions/05-foreign-key-actions/vehicles/tests/util/helpers.py:268-280 | with distinct names on both sides, check_columns passes exactly when the live and expected tuples are equal as sets, whatever the order |
| Schema.AlteredDefaultIsReported | solutions/05-foreign-key-actions/vehicles/tests/util/helpers.py:278 | a changed default on `id` fails with a default mismatch naming `id` |
| Schema.ForeignKeyDetails | solutions/05-foreign-key-actions/vehicles/tests/util/helpers.py:364 | the comprehension succeeds exactly on rows that carry the fields it reads; it yields exactly the details of the foreign-key constraints |
| Schema.ForeignKeyIff | solutions/05-foreign-key-actions/vehicles/tests/util/helpers.py:364-370 | once the script has run, check_foreign_key passes exactly when some foreign-key constraint carries the expected text verbatim |
| Schema.ForeignKeyAfterScriptIff | solutions/05-foreign-key-actions/vehicles/tests/util/helpers.py:353-372 | check_foreign_key as a whole passes exactly when the script exists and is accepted and some foreign-key constraint carries the expected text; a missing script is reported before the constraints are read |
| Schema.OtherConstraintsIgnored | solutions/05-foreign-key-actions/vehicles/tests/util/helpers.py:364 | a constraint that is not a foreign key changes nothing |
| Schema.ForeignKeyActionsSuffix | solutions/05-foreign-key-actions/vehicles/tests/util/helpers.py:366-368 | with actions, the expected text is the action-less text, one space and the upper-cased join of the actions |
| Schema.ForeignKeyActionsCase | solutions/05-foreign-key-actions/vehicles/tests/util/helpers.py:366-368 | the actions are upper-cased as a whole, so two non-empty action lists whose joins agree letter by letter up to upper-casing expect the same text |
| Schema.CascadeSpelledEitherWay | solutions/05-foreign-key-actions/vehicles/tests/util/helpers.py:366-368 | `on delete cascade` and `ON DELETE CASCADE` expect the same constraint text |
| Contents.Ids | solutions/05-foreign-key-actions/vehicles/tests/util/helpers.py:324 | the id list has one entry per row, the row's search field |
| Contents.CompareFields | solutions/05-foreign-key-actions/vehicles/tests/util/helpers.py:329-330 | the field loop passes exactly when the row carries every listed field with the listed value; a failure names a listed field |
| Contents.FirstIndexIsFirstWith | solutions/05-foreign-key-actions/vehicles/tests/util/helpers.py:323-327 | `ids.index(record)` is the first row whose search field holds the key |
| Contents.CheckByIdIff | solutions/05-foreign-key-actions/vehicles/tests/util/helpers.py:323-330 | once the script has run, the keyed check passes exactly when every row has the search field (for a non-empty expectation) and, for every key, the first row carrying it exists and agrees on the listed fields |
| Contents.ByIdAfterScriptIff | solutions/05-foreign-key-actions/vehicles/tests/util/helpers.py:307-330 | check_table_contents_by_id as a whole passes exactly when the script exists and is accepted and the keyed check passes; a missing script is reported before any row is read |
| Contents.ExtraRowsIgnoredById | solutions/05-foreign-key-actions/vehicles/tests/util/helpers.py:323-330 | rows added after the existing ones never make a passing keyed check fail, provided each added row carries the search field (a row without it raises `KeyError` when the ids are collected) |
| Contents.RowWithoutSearchFieldRaises | solutions/05-foreign-key-actions/vehicles/tests/util/helpers.py:323-324 | a row lacking the search field, anywhere in the table, makes a non-empty keyed check raise `KeyError` on that field |
| Contents.ConditionEmptyIff | solutions/05-foreign-key-actions/vehicles/tests/util/helpers.py:346 | the condition is empty exactly for an empty record |
| Contents.ConditionSingle | solutions/05-foreign-key-actions/vehicles/tests/util/helpers.py:346 | a one-field record gives `field = 'value'` |
| Contents.ConditionAppend | solutions/05-foreign-key-actions/vehicles/tests/util/helpers.py:346 | the terms follow the record's key order, joined by ` AND ` |
| Contents.Filter | solutions/05-foreign-key-actions/vehicles/tests/util/helpers.py:89-91 | the filtered select keeps exactly the rows that agree with the record, and no more rows than the table has |
| Contents.SelectNonEmptyIff | solutions/05-foreign-key-actions/vehicles/tests/util/helpers.py:89-94 | select_condition returns a row exactly when some row agrees with the record |
| Contents.CheckContentsIff | solutions/05-foreign-key-actions/vehicles/tests/util/helpers.py:345-350 | once the script has run, check_table_contents passes exactly when every expected record agrees with some row |
| Contents.ContentsAfterScriptIff | solutions/05-foreign-key-actions/vehicles/tests/util/helpers.py:332-350 | check_table_contents as a whole passes exactly when the script exists and is accepted and every expected record agrees with some row; a missing script is reported before any query |
| Contents.CheckContentsFailure | solutions/05-foreign-key-actions/vehicles/tests/util/helpers.py:345-350 | a failure names an expected record that no row agrees with |
| Contents.SurplusRowsTolerated | solutions/05-foreign-key-actions/vehicles/tests/util/helpers.py:345-350 | a passing check still passes on any table holding those rows and more |
| PrimaryKey.InPrimaryKey | solutions/03-many-to-one-second-table/vehicles/tests/test_solutions.py:195-196 | the filter condition is decided as "primary index and direction not N/A"; it always succeeds on well-formed rows |
| PrimaryKey.PrimaryKeyRows | solutions/03-many-to-one-second-table/vehicles/tests/test_solutions.py:193-196 | the filter keeps exactly the key-column rows of the primary index |
| PrimaryKey.CheckIdKeyRowsIff | solutions/03-many-to-one-second-table/vehicles/tests/test_solutions.py:197-201 | the assert loop passes exactly when every kept row is `id`, position 1, `ASC`, not stored |
| PrimaryKey.IdPrimaryKeyIff | solutions/03-many-to-one-second-table/vehicles/tests/test_solutions.py:193-201 | the single-key check passes exactly when every key column of the primary index is `id`, position 1, `ASC`, not stored |
| PrimaryKey.IdPrimaryKeyVacuous | solutions/03-many-to-one-second-table/vehicles/tests/test_solutions.py:193-201 | with no key column the single-key check passes vacuously |
| PrimaryKey.KeyColumns | solutions/03-many-to-one-second-table/vehicles/tests/test_solutions.py:155-158 | the dict comprehension holds exactly the names of the key columns, each mapped to the position of its last key column |
| PrimaryKey.LastIndexNamed | solutions/03-many-to-one-second-table/vehicles/tests/test_solutions.py:155-158 | every name of a key column has a last key column carrying it |
| PrimaryKey.CompositeKeyIff | solutions/03-many-to-one-second-table/vehicles/tests/test_solutions.py:153-160 | the composite check passes exactly when the key columns carry exactly the expected names, each at its expected position |
| PrimaryKey.CompositeKeyEmptyFails | solutions/03-many-to-one-second-table/vehicles/tests/test_solutions.py:153-160 | an empty filter result fails against a non-empty expectation |
| PrimaryKey.CompositeKeyExtraColumnFails | solutions/03-many-to-one-second-table/vehicles/tests/test_solutions.py:153-160 | an extra key column fails |
| PrimaryKey.CompositeKeyMissingColumnFails | solutions/03-many-to-one-second-table/vehicles/tests/test_solutions.py:153-160 | a missing key column fails |
| Ports.PortBusyIff | solutions/05-foreign-key-actions/vehicles/tests/util/helpers.py:252-261 | the port reads busy exactly when some line is a `cockroach start` or `cockroach demo` daemon that names no port or mentions 26257 |
| Ports.MoreLinesStayBusy | solutions/02-many-to-one-single-table/vehicles/tests/util/helpers.py:299-308 | more lines, before or after, never free a busy port |
| Ports.SingleLineListing | solutions/02-many-to-one-single-table/vehicles/tests/util/helpers.py:299-308 | a one-line listing reads free exactly when that line does not hold the port |
| Ports.EmptyListingFree | solutions/05-foreign-key-actions/vehicles/tests/util/helpers.py:261 | an empty listing reads free |
| Ports.DefaultDaemonBusy | solutions/05-foreign-key-actions/vehicles/tests/util/helpers.py:255-257 | a single-node daemon without a port flag holds the port |
| Ports.OtherPortDaemonFree | solutions/05-foreign-key-actions/vehicles/tests/util/helpers.py:255-259 | a daemon started with `--port=26258` does not hold the port |
| Ports.GrepLineFree | solutions/05-foreign-key-actions/vehicles/tests/util/helpers.py:253-255 | the `grep cockroach` line is no daemon |
| Scripts.Lines | solutions/02-many-to-one-single-table/vehicles/tests/util/helpers.py:32-33 | `list(file)`: the lines put back together give the text, and an empty file has no lines |
| Scripts.LinesShape | solutions/02-many-to-one-single-table/vehicles/tests/util/helpers.py:32-33 | the file is cut exactly at its newlines: no line is empty, a newline only ends a line, and every line but the last ends with one |
| Scripts.ScriptTextIsSpaced | solutions/02-many-to-one-single-table/vehicles/tests/util/helpers.py:22 | the joined script is the file text with one space added after each newline that more text follows |
| Scripts.SingleLineScript | solutions/02-many-to-one-single-table/vehicles/tests/util/helpers.py:22 | a file without newlines is sent as it is |
| Scripts.ReadAnswerFile | solutions/02-many-to-one-single-table/vehicles/tests/util/helpers.py:28-33 | reading succeeds exactly for an existing file; the result is the file's lines, each keeping its line break, and they give back the file's text |
| Scripts.RunCommand | solutions/02-many-to-one-single-table/vehicles/tests/util/helpers.py:46-54 | one statement is sent; the result is True unless the server refuses it, and then the failure is that statement's error |
| Scripts.RunSqlScript | solutions/02-many-to-one-single-table/vehicles/tests/util/helpers.py:18-25 | a missing file sends nothing and raises; otherwise the spaced file text is sent once, the call succeeds exactly when the server accepts that text, a refusal raises with that statement, and a success returns True |
| Scripts.AfterScript | solutions/05-foreign-key-actions/vehicles/tests/util/helpers.py:316 | a helper that runs its answer script first passes exactly when the script exists and is accepted and the check after it passes; a missing file reports the script's name and a refused one the refused statement |
| Scripts.CreateTableColumnAt | solutions/02-many-to-one-single-table/vehicles/tests/util/helpers.py:130-131 | every column definition appears intact in `CREATE TABLE db.table (...)`, in the given order |
| Scripts.CreateTableSeparatorAt | solutions/02-many-to-one-single-table/vehicles/tests/util/helpers.py:130-131 | exactly `, ` separates neighbouring column definitions |
| Scripts.SetUpDbAndTableOrder | solutions/02-many-to-one-single-table/vehicles/tests/util/helpers.py:137-142 | the table statement is sent only after an accepted database statement; the result is True exactly when both are accepted |
| Scripts.RunScriptsInOrder | solutions/03-many-to-one-second-table/vehicles/tests/test_solutions.py:138-139 | runnable setup scripts are sent one by one in list order |
| Scripts.RunScriptsStopsAt | solutions/03-many-to-one-second-table/vehicles/tests/test_solutions.py:138-139 | the first script that cannot run raises, and no later script is sent |
| Scripts.SetupRunsFirst | solutions/03-many-to-one-second-table/vehicles/tests/test_solutions.py:138-146 | the script under test is sent after all setup scripts |
| Lifecycle.Backoff | solutions/05-foreign-key-actions/vehicles/tests/util/helpers.py:238 | the schedule has one entry per failure, entry `i` being `2**(from + i)` |
| Lifecycle.BackoffBound | solutions/05-foreign-key-actions/vehicles/tests/util/helpers.py:238 | the full schedule is 1, 2, 4, 8 seconds, and any prefix of it totals at most 15 seconds |
| Lifecycle.Failures | solutions/05-foreign-key-actions/vehicles/tests/util/helpers.py:232-239 | the failures before the loop ends are consecutive failed attempts, at most four, followed by a success when fewer |
| Lifecycle.ProbeTraceSleeps | solutions/05-foreign-key-actions/vehicles/tests/util/helpers.py:232-239 | the probe loop's waits are the back-off schedule, one per failure |
| Lifecycle.SpawnSingleNodeBackground | solutions/05-foreign-key-actions/vehicles/tests/util/helpers.py:224-243 | at most four looped attempts; all but the last failed; fewer than four means the last succeeded; waits 1, 2, 4, 8 after failures; one more attempt always follows and decides success |
| Lifecycle.FirstFree | solutions/05-foreign-key-actions/vehicles/tests/util/helpers.py:425 | the first poll that reads free; every earlier poll reads busy |
| Lifecycle.PollAsWrittenSleeps | solutions/05-foreign-key-actions/vehicles/tests/util/helpers.py:424-426 | the loop as written waits one second per busy reading however many there are, and ends only on a free reading |
| Lifecycle.RetryBudgetOutcome | solutions/05-foreign-key-actions/vehicles/tests/util/helpers.py:424-429 | with `tries` counted, the poll succeeds exactly when one of the first four readings is free; otherwise it times out; its waits follow the back-off schedule |
| Lifecycle.SlowShutdownDiffers | solutions/05-foreign-key-actions/vehicles/tests/util/helpers.py:423-430 | five busy readings then a free one: the code waits five times and succeeds, while the budgeted loop times out |
| Lifecycle.DefaultDaemonSlowShutdown | solutions/05-foreign-key-actions/vehicles/tests/util/helpers.py:423-430 | a default single-node daemon left in the listing makes the code wait five times |
| Lifecycle.SingleNodeInsecure.constructor | solutions/05-foreign-key-actions/vehicles/tests/util/helpers.py:405 | a handle starts with no process, no connection, the data directory present and nothing done |
| Lifecycle.SingleNodeInsecure.Init | solutions/05-foreign-key-actions/vehicles/tests/util/helpers.py:405-417 | a busy port fails with an environment conflict, without spawning or connecting; otherwise the server is spawned and probed; a failed last probe or a failed connection to `defaultdb` fails; success sets autocommit |
| Lifecycle.SingleNodeInsecure.Stop | solutions/05-foreign-key-actions/vehicles/tests/util/helpers.py:419-430 | kills the servers, polls until the port reads free (one-second waits, never a timeout), then removes the data directory; success is the only outcome |
| Lifecycle.SingleNodeInsecure.StopWithRetryBudget | solutions/05-foreign-key-actions/vehicles/tests/util/helpers.py:419-430 | the corrected stop: it removes the data directory exactly when the budgeted poll succeeds, and otherwise times out |

## Left out

- Database I/O is not modelled: psycopg2 connections, cursors, `run_query`, the `select_star`/`show_*` queries and `set_session`. The rows they would return are inputs.
- Process control is not modelled: `multiprocessing.Process`, `subprocess.run`, `check_output`, `killall -9`, `rm -r` and `process.join()`. Their effects are recorded as events.
- `sleep` is not taken; the requested delays are recorded.
- Interactive input is not modelled: `capture_stdin`, `get_sql_statement`, `prompt_for_input`, `find_correct_input_source`, `start_cockroach_demo` and `spawn_cockroach_demo_background` are terminal or process I/O.
- The pytest fixtures are not modelled. `crdb` chains `Init`, `Stop` and the process join; `spawn_cursor` opens a cursor on a connection and closes it after the test, which is driver I/O.
- `insert_two_rows`, its literal SQL and the exercise expectation literals are not modelled.
- `check_query_result` and `get_script_result` are not part of this model: their definitions lie outside the helper files modelled here.
- The `print` calls in `check_table_contents` only write to the console and are not modelled.
- The probe loop of `spawn_cockroach_single_node_background` catches only `OperationalError`. A probe here either succeeds or fails, so another exception escaping from a probe is not modelled.
- SQL meaning is not modelled. The `WHERE` clause that `check_table_contents` builds is evaluated as per-field equality of values. The database's coercion of the quoted text to column types is not modelled; the text itself is modelled, as `Contents.Condition`.
- Value equality is structural. Python's cross-type equalities, such as `True == 1`, are not modelled.
- Text handling is limited. `upper()` is modelled on ASCII letters only, and the universal-newline translation of text-mode files is not modelled.
- Lifecycle.SingleNodeInsecure.Stop: requires that some listing in the list it is given reads free. The code polls forever otherwise, and a loop that may not end cannot be proved here.
- Lifecycle.SingleNodeInsecure.Init: a Python constructor that raises leaves no object. The model returns the failure from a separate `Init` step and keeps the fields it had set.

## Findings

| source | as written | input that shows it | evidently intended | confidence | as-written member | corrected member |
|---|---|---|---|---|---|---|
| solutions/05-foreign-key-actions/vehicles/tests/util/helpers.py:423-430 | `tries` is never incremented in the poll loop (the same code is at lines 361-368 of the exercise 02 copy). Every wait is one second, the loop has no retry budget, and the `tries > 3` timeout can never be raised. | five process listings showing a default `cockroach start-single-node --insecure` daemon, then an empty listing: the code waits five times and removes the data directory | increment `tries` after each wait, so the waits are 1, 2, 4, 8 seconds and the stop fails with the timeout when four readings show the port busy | not executed | Lifecycle.PollAsWrittenSleeps, Lifecycle.SlowShutdownDiffers | Lifecycle.RetryBudgetOutcome, Lifecycle.SingleNodeInsecure.StopWithRetryBudget |
