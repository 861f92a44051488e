# busstats in Dafny

A model of the core of `busstats`, a small system that collects bus-arrival
samples at a few stops of one city's bus network and merges them into a
database:

- **Producer** (`busdatagenerator.py`): scrapes the rows of a stop's page into
  `Register`s (`analyse_stop`). It stages them in a CSV file (`save_registers`
  / `load_registers`). A merge step (`update_database`) inserts them into the
  `busstats` table, keyed by a SHA-1 identifier of `(line, actual_datetime,
  stop_id)`, and a gate in `main_update_database` then decides whether the
  staging file may be deleted. `get_auto` fetches the file from the server and
  only then asks for its deletion.
- **Transfer server** (`rest_server.py`): serves the staged file on `GET /`
  and deletes it on a `DELETE` that carries a token for today's date. A
  deletion waits until the wall-clock second is in [10, 45].
- **Retrying downloader** (`downloader.py`): the bounded retry loop that all
  four HTTP verbs share.
- **Statistics side**:
  - `input_interface.py`: the minute-precision `BSRegister`, its order and
    distance, its `repr`, and `get_data`.
  - `data_mangement.py`: `DataManager`, a list of registers that is
    concatenated, filtered by time of day in place, and grouped greedily
    within `epsilon` minutes.
- **Warner** (`warner.py`): maps a stop choice to a stop and lines, and builds
  the message `"<line> llegará a las HH:MM (<delay> mins)"`, one line per
  register.

## Layout

One module per source component; every file lives directly in this directory.

| file | module | models |
|---|---|---|
| `wrappers.dfy` | `Wrappers` | `Option` and `Result` |
| `builtins.dfy` | `Builtins` | the Python built-ins the core relies on: `str()`, `int()`, `strip`, `split`, `repr` of a string |
| `datetimes.dfy` | `DateTimes` | naive `datetime` values, their order, `strftime`/`strptime` of `%Y-%m-%d %H:%M:%S`, minutes since 0001-01-01 |
| `registers.dfy` | `Registers` | `Register` and its identifier |
| `staging_csv.dfy` | `StagingCsv` | the staging file, `save_registers`, `load_registers`, the csv writer and reader |
| `database.dfy` | `Database` | the `busstats` table as a `map<Id, Register>` field of the `DataBase` class |
| `merge.dfy` | `Merge` | `update_database`, `main_update_database`, `get_auto` |
| `scraper.dfy` | `Scraper` | the row handling of `analyse_stop` |
| `downloader.dfy` | `Downloading` | `Downloader.get/post/put/delete` |
| `rest_server.dfy` | `RestServer` | `get_bus_data`, `parse_post_data`, `do_GET`, `do_DELETE` |
| `input_interface.dfy` | `InputInterface` | `BSRegister`, `get_data` |
| `data_management.dfy` | `DataManagement` | `DataManager` and its operations |
| `warner.dfy` | `Warner` | the choice mapping and the message loop |

Modelling choices:

- **Side effects become state or inputs.**
  - The staging file and the server's copy of it are objects with an
    `Option<string>` field: `None` means the file does not exist.
  - The database table is a `map` field.
  - SHA-1 is a function parameter `sha1: IdKey -> Id`, so the model assumes
    nothing about it except that it is a function.
- **External values come in as parameters.**
  - The wall clock: a sequence of second readings, one datetime per scraped
    row, or today's date.
  - Token decryption followed by `eval`: a function from the token to an
    optional date.
  - HTTP attempts: a function from attempt number to outcome.
- **Datetimes** are civil records. Their order agrees with a count of minutes
  since 0001-01-01 (`DateTimes.BeforeIffFewerMinutes`). `distance` is the
  absolute difference of those counts.
- **Methods and loops.** Wherever the source loops or mutates, the model is a
  method with a loop. It is proved equal to a recursive function, and the
  properties are proved as lemmas about that function. Examples:
  `insert_multiple_registers`, `load_registers`, `analyse_stop`, the polling
  loop and estimate of `get_bus_data`, `parse_post_data`, the retry loop,
  `filter_times`, `group` and the warner loop.
- **Generic sorting and grouping.** `group` sorts with a key function and cuts
  the sorted list into runs. Both are written once, generically over a key
  `T -> int`, and then used with the register's minute count.

Behaviour the model follows as written, though a reader might expect otherwise:

- A `DELETE` that finds the file already gone answers **500** with
  `Result: False` (`rest_server.py:168-171`), not a success-like status.
- A `GET` of a path other than `/` sends a 400 and then goes on to serve the
  file (see Findings).
- The staging round trip loses the first register (see Findings).
- A space in a form value reaches the server as `+`. The client form-encodes
  with `quote_plus`, and the server decodes with `unquote`, which leaves `+`
  alone (`RestServer.SpaceArrivesAsPlus`). A Fernet token holds no space, so
  the token itself arrives intact (`RestServer.TokenBody`).
- The client writes whatever a 200 response carries, including an empty body,
  before it asks for the deletion (`busdatagenerator.py:350-360`).
- The merge gate's token is the `True` that `update_database` returns
  (`busdatagenerator.py:289`, `busdatagenerator.py:317`). It is not a check
  of today's capability token.

## Model

| member | source | states |
|---|---|---|
| `Registers.NewRegister` | busdatagenerator.py:117-129 | Construction succeeds exactly when `int()` of the delay and of the stop succeed; when the delay's conversion fails, its error is the one raised |
| `Registers.NewRegisterOfFields` | busdatagenerator.py:125-129 | Normalising the fields of a register again gives the same register |
| `Registers.NewRegisterFromText` | busdatagenerator.py:125-129 | A register rebuilt from the text of its fields, as a CSV row gives them, is the register itself |
| `Registers.IdIgnoresDelay` | busdatagenerator.py:131-135 | Two registers that differ only in `delay_minutes` have the same id |
| `Registers.IdDeterminedByKey` | busdatagenerator.py:131-135 | Registers that agree on line, datetime text and stop have the same id |
| `StagingCsv.StagingFile.constructor` | busdatagenerator.py:30 | The staging file starts with the given content, or absent |
| `StagingCsv.CsvText` | busdatagenerator.py:162-170 | The text `save_registers` writes: the header row, then one `DictWriter` row per register, fields quoted with `|` where needed, each row ended by `\n`; `RecordsOfCsvText` reads it back |
| `StagingCsv.SaveRegisters` | busdatagenerator.py:162-170 | The file is rewritten in full as the header row followed by one row per register, in input order |
| `StagingCsv.Read` | busdatagenerator.py:145-151 | The records the csv reader yields, and whether it raises `csv.Error`; it raises exactly when the text, after universal newlines, holds a NUL, and then only the records completed before that NUL come out |
| `StagingCsv.Emitted` | busdatagenerator.py:145-151 | The records the reader has completed over a text, leaving an unterminated last record unyielded; `Read` uses it for the records before a NUL |
| `StagingCsv.BeforeNul` | busdatagenerator.py:145-151 | The text up to the first NUL: a prefix holding no NUL, followed in the text by a NUL when there is one |
| `StagingCsv.Finished` | busdatagenerator.py:145-153 | Once the rows are converted, the load raises `csv.Error` exactly when the reader raised |
| `StagingCsv.ToDict` | busdatagenerator.py:145-152 | The dictionary `DictReader` yields: a short row fills the missing names with `None`, a long row adds the `None` rest-key; `FromDictOfFields` covers a row as written |
| `StagingCsv.FromDict` | busdatagenerator.py:152 | `Register(**row)`: the `None` rest-key, a missing or an unexpected name raise `TypeError`, otherwise the constructor runs; `FromDictOfFields` shows it inverts the writer |
| `StagingCsv.ZipMap` | busdatagenerator.py:147-152 | The row dictionary has exactly the header names as keys |
| `StagingCsv.NonEmpty` | busdatagenerator.py:147-151 | The reader's empty records are skipped; no more rows than records come out |
| `StagingCsv.NonEmptyMembers` | busdatagenerator.py:147-151 | A record comes out exactly when it was read and is not empty |
| `StagingCsv.NonEmptyAppend` | busdatagenerator.py:147-151 | Skipping empty records keeps the others in order: it distributes over concatenation |
| `StagingCsv.ConvertRows` | busdatagenerator.py:150-152 | When no row raises, there is one register per row |
| `StagingCsv.ConvertRowsEach` | busdatagenerator.py:150-152 | When no row raises, the k-th register is `Register(**row)` of the k-th row |
| `StagingCsv.ConvertRowsSucceeds` | busdatagenerator.py:150-152 | The loop completes exactly when every row converts on its own |
| `StagingCsv.ConvertRowsFirstError` | busdatagenerator.py:150-152 | A loop that raises raises the error of some row, and every row before that one converts |
| `StagingCsv.LoadedRegisters` | busdatagenerator.py:138-159 | `load_registers` as written, including the extra `next()`: a missing file or no data row gives `[]`; `LoadAfterSaveRest` and `LoadAfterSaveDropsFirst` state what it returns for a saved list |
| `StagingCsv.LoadRegisters` | busdatagenerator.py:138-159 | The method returns `LoadedRegisters` of the file. That is `[]` for a missing file, a file with no header, or a file whose only row is the header; otherwise every data row but the first. Errors come in reading order: a row that raises before the reader meets a NUL gives its error; otherwise the NUL gives `csv.Error` |
| `StagingCsv.AppendRegisters` | busdatagenerator.py:150-153 | The loop appends one register per row, and the first row that raises decides the result |
| `StagingCsv.ConvertRowsFailure` | busdatagenerator.py:151-152 | Once a prefix of the rows raises, the whole conversion raises the same error |
| `StagingCsv.RecordsOfCsvText` | busdatagenerator.py:164-170 | Reading back a saved file gives the header record followed by each register's four fields, in order, and the reader does not raise |
| `StagingCsv.LoadNulInHeader` | busdatagenerator.py:145-153 | A file that starts with a NUL makes the load raise `csv.Error`, whatever follows |
| `StagingCsv.FromDictOfFields` | busdatagenerator.py:152 | `Register(**row)` of a written row gives the register back |
| `StagingCsv.ConvertAllFields` | busdatagenerator.py:150-152 | Converting all written rows gives the registers back, in order |
| `StagingCsv.LoadAfterSaveDropsFirst` | busdatagenerator.py:146-153 | As written, loading a saved list gives it back without its first register |
| `StagingCsv.LoadAfterSaveRest` | busdatagenerator.py:146-153 | For a non-empty saved list, the load is exactly its tail |
| `StagingCsv.LoadAfterSaveLosesOnlyRegister` | busdatagenerator.py:146-153 | A single saved register never comes back |
| `StagingCsv.LoadAfterSaveHeaderOnly` | busdatagenerator.py:158-159 | A file holding only the header loads as no registers |
| `StagingCsv.LoadedRegistersIntended` | busdatagenerator.py:145-153 | `load_registers` without the extra `next()`; `LoadIntendedAfterSave` proves it inverts `save_registers` |
| `StagingCsv.LoadIntendedAfterSave` | busdatagenerator.py:146-153 | Without the extra `next()`, loading inverts saving |
| `StagingCsv.LoadMissingOrEmpty` | busdatagenerator.py:154-159 | A missing file, an empty file and a header-only file all load as `[]` |
| `Database.NewRegisters` | busdatagenerator.py:82-85 | The kept registers come from the data and none of their ids is stored; order and repeats are stated by `NewRegistersAppend` and `NewRegistersOne` |
| `Database.NewRegistersAppend` | busdatagenerator.py:82-85 | The filter distributes over concatenation, so it keeps the data's order and its repeats |
| `Database.NewRegistersOne` | busdatagenerator.py:82-85 | A single register is kept exactly when its id is not stored |
| `Database.NewRegistersComplete` | busdatagenerator.py:82-85 | Every register of the data whose id is not stored is kept |
| `Database.NewRegistersNone` | busdatagenerator.py:82-85 | When every id is stored, nothing is kept |
| `Database.CollectNew` | busdatagenerator.py:79-87 | The loop collects exactly `NewRegisters` of the data against the ids read before it |
| `Database.ExecuteMany` | busdatagenerator.py:89 | `executemany`: rows go in one by one and the first identifier already present raises `IntegrityError`; `ExecuteManyOk`, `ExecuteManyFailure` and `ExecuteManyRepeated` state its outcome |
| `Database.Insert` | busdatagenerator.py:73-91 | `insert_multiple_registers` on the table: `NewRegisters` of the data, then `executemany`, returning the table and the count; `InsertCount`, `InsertOnlyAbsent`, `InsertFailsIffRepeatedNewId` and `InsertIdempotent` state its outcome |
| `Database.ExecuteAll` | busdatagenerator.py:89 | `executemany` inserts the rows one by one, and the first id already present raises `IntegrityError` |
| `Database.DataBase.constructor` | busdatagenerator.py:49-52 | A new handle is not connected and sees the stored table |
| `Database.DataBase.Use` | busdatagenerator.py:54-71 | `use()` connects and leaves the stored table as it is |
| `Database.DataBase.GetIds` | busdatagenerator.py:93-102 | `get_ids()` returns exactly the stored ids |
| `Database.DataBase.InsertMultipleRegisters` | busdatagenerator.py:73-91 | Needs the cursor `use()` opens. On success, the new table and count are those of `Insert`. On `IntegrityError`, nothing is committed. The connection state is unchanged |
| `Database.ExecuteManyFailure` | busdatagenerator.py:89 | Once a prefix of the batch raises, the whole batch raises |
| `Database.ExecuteManyOk` | busdatagenerator.py:89 | Over absent ids, the batch succeeds exactly when its ids are pairwise distinct, and then adds one row per register |
| `Database.ExecuteManyDistinct` | busdatagenerator.py:89 | A batch of distinct absent ids adds exactly their rows |
| `Database.ExecuteManyRepeated` | busdatagenerator.py:66-89 | A batch that repeats an absent id violates the primary key and raises |
| `Database.InsertCount` | busdatagenerator.py:79-91 | The count returned is the number of registers whose id was absent, and is at most `len(data)` |
| `Database.InsertOnlyAbsent` | busdatagenerator.py:79-91 | Stored rows are kept unchanged; every new row comes from the data and had an absent id |
| `Database.InsertFailsIffRepeatedNewId` | busdatagenerator.py:80-89 | The insert fails exactly when two kept registers share a new id, because the ids are read once before the loop |
| `Database.SameKeyInOneBatchRaises` | busdatagenerator.py:80-89 | Two registers with the same new id in one batch, even with different delays, make the insert raise |
| `Database.InsertIdempotent` | busdatagenerator.py:79-91 | Inserting the same data again inserts nothing and returns 0 |
| `Database.InsertPair` | busdatagenerator.py:79-91 | Two registers with different ids go into an empty table together, with count 2 |
| `Database.InsertOneNew` | busdatagenerator.py:79-91 | Of a stored and a new register, only the new one goes in, with count 1 |
| `Database.InsertOverlapping` | busdatagenerator.py:79-91 | After storing `{A, B}`, inserting `[A, C]` stores only `C` and returns 1 |
| `Merge.UpdateDatabase` | busdatagenerator.py:270-289 | Returns `(ids not yet stored, count saved, True)` or the error raised; the table becomes the table after the insert |
| `Merge.MergeLoaded` | busdatagenerator.py:278-289 | The same, once the staged registers are loaded |
| `Merge.UpdateCountsAgree` | busdatagenerator.py:276-289 | Whenever `update_database` returns, its two counts are equal and the token is `True` |
| `Merge.RemovesStaging` | busdatagenerator.py:317-325 | The staging file is removed only when the two counts agree and the token is `True`; `UpdateCountsAgree` shows that holds whenever `update_database` returns |
| `Merge.MainUpdateDatabase` | busdatagenerator.py:292-325 | The file is removed exactly when the update returned without interrupt; otherwise the counts stay 0, the token stays `False`, and the file is kept. The table is as after the update, unless the interrupt came before it. An error escapes exactly when the update raised |
| `Merge.MergeLosesFirstRegister` | busdatagenerator.py:270-289 | Merging a saved file of new, distinct registers reports `n - 1` and `n - 1` and lets the file go, yet the first register never reaches the table |
| `Merge.MergeIntendedKeepsAll` | busdatagenerator.py:270-289 | With the corrected load, the same merge reports `n` and `n` and stores every register |
| `Merge.UpdatedAllNew` | busdatagenerator.py:276-289 | Merging distinct new registers reports and stores all of them |
| `Merge.InsertAllNew` | busdatagenerator.py:79-91 | A batch of distinct absent ids is inserted whole |
| `Merge.NewRegistersAllAbsent` | busdatagenerator.py:82-85 | When no id is stored, every register is kept |
| `Merge.GetAuto` | busdatagenerator.py:328-364 | A download that raises leaves the file alone. On 200 with a successful write, the file holds the fetched bytes and a delete with today's date is sent. Otherwise the file is unchanged and no delete is sent |
| `Scraper.StrAll` | busdatagenerator.py:187 | `str()` of every item, in order |
| `Scraper.NormaliseLines` | busdatagenerator.py:180-187 | `None` stays no filter; an int, a string or an iterable become a tuple of strings |
| `Scraper.RowRegister` | busdatagenerator.py:202-209 | A row yields a register exactly when its last cell holds `'+'` or `int()` accepts it (sign, surrounding whitespace, single underscores between digits). Its line is the first cell, its time is the clock's formatted reading, its stop is the one asked for, and its delay is 999 for `'+'`, else the integer. Otherwise it is `ValueError` |
| `Builtins.DigitsUnderscore` | busdatagenerator.py:206 | `int()` accepts one underscore between digits: `1_0` is 10 |
| `Builtins.DigitsBadUnderscores` | busdatagenerator.py:206 | `int()` refuses a doubled, a leading or a trailing underscore |
| `Scraper.RowOutcome` | busdatagenerator.py:196-209 | An empty row or a row that raises gives nothing; otherwise the row's register |
| `Scraper.Outcomes` | busdatagenerator.py:196-209 | One outcome per row, in order |
| `Scraper.Analysed` | busdatagenerator.py:173-217 | The registers `analyse_stop` collects, each row read at its own clock reading; `AnalysedMembers`, `AnalysedBound` and `AnalysedRegisters` state what they are |
| `Scraper.AnalyseStop` | busdatagenerator.py:173-217 | The loop returns exactly the registers of `Analysed` for the normalised filter |
| `Scraper.CollectedNext` | busdatagenerator.py:211-215 | One more row appends its register exactly when it has one that the filter keeps |
| `Scraper.CollectedMembers` | busdatagenerator.py:211-215 | A register is collected exactly when some row gives it and the filter keeps it |
| `Scraper.CollectedBound` | busdatagenerator.py:196-217 | No row gives more than one register |
| `Scraper.CollectedSkip` | busdatagenerator.py:198-209 | Removing an outcome that gives nothing leaves the collected registers unchanged |
| `Scraper.AnalysedMembers` | busdatagenerator.py:196-217 | The result holds exactly the kept registers of the rows that yield one |
| `Scraper.AnalysedBound` | busdatagenerator.py:196-217 | At most one register per row |
| `Scraper.AnalysedRegisters` | busdatagenerator.py:180-215 | Every result has the stop asked for and a line the filter names. It comes from a non-empty row: its first cell, that row's time, and a delay of 999 or the cell's integer |
| `Scraper.OutcomeFields` | busdatagenerator.py:202-207 | A register given by a row is made from that row |
| `Scraper.KeptLine` | busdatagenerator.py:180-213 | A kept register's line is one of the lines asked for |
| `Scraper.SkipRow` | busdatagenerator.py:198-209 | An empty row, or one whose delay is neither an integer nor holds `'+'`, can be removed without changing the result |
| `Scraper.OutcomesSkip` | busdatagenerator.py:196-209 | Removing a row removes its outcome and keeps the others in order |
| `Downloading.Run` | downloader.py:29-41 | The retry loop: a response ends it, a connection error spends one try, any other error propagates, and an exhausted budget raises `DownloaderError`; `RunSpec` states its outcome |
| `Downloading.RunSpec` | downloader.py:29-41 | At most `retries` attempts are made, and all but the last failed to connect. A response is that of the last attempt. `DownloaderError` comes exactly when all `retries` attempts failed to connect. Another error is the one the last attempt raised |
| `Downloading.RunAfterConnectionError` | downloader.py:36-38 | A connection error spends exactly one unit of the budget |
| `Downloading.RunWithoutBudget` | downloader.py:33-41 | With `retries <= 0` no attempt is made and `DownloaderError` is raised |
| `Downloading.Downloader.constructor` | downloader.py:20-27 | The session keeps its retry budget |
| `Downloading.Downloader.Send` | downloader.py:29-83 | Each of the four verbs runs the loop `Run` describes, with the guarantees of `RunSpec` |
| `RestServer.SourceFile.constructor` | rest_server.py:18 | The served file starts with the given content, or absent |
| `RestServer.FirstInWindow` | rest_server.py:50-61 | The polling stops at the first reading in [10, 45]; no earlier reading is in it |
| `RestServer.WaitEstimate` | rest_server.py:52-55 | The estimate is `10 - seconds` raised by 60 until it is not negative, i.e. `(10 - seconds) mod 60` |
| `RestServer.GetBusData` | rest_server.py:28-70 | Both modes raise `ValueError` before touching the file. Get returns the file unchanged, or raises `FileNotFoundError` or the read's error. Delete waits for the first reading in the window, logs the estimate only when it had to wait, removes the file, and returns whether it existed |
| `RestServer.Quote` | busdatagenerator.py:360 | The form encoding `requests` applies (`quote_plus`) never produces `&`, `=` or a space |
| `RestServer.Unquote` | rest_server.py:91 | `unquote`: each `%XX` escape of an ASCII character is decoded and everything else, `+` included, is kept; `UnquoteQuote` relates it to `quote_plus` |
| `RestServer.PlusForSpace` | rest_server.py:91 | Each space becomes `+` and every other character is kept |
| `RestServer.UnquoteQuote` | rest_server.py:91 | `unquote` of what `quote_plus` produced is the value with each space turned into `+`, because `unquote` does not decode `+` |
| `RestServer.SpaceArrivesAsPlus` | rest_server.py:82-96 | `data={'token': 'a b'}` is read by the server as the token `a+b` |
| `RestServer.PostData` | rest_server.py:82-96 | `parse_post_data` of the body: split on `&`, then on `=`; the lemmas `ParsedStops`, `ParsedLastWins`, `ParsedSkips`, `ParsedSingle` and `FieldBody` state its outcome |
| `RestServer.ParsePostData` | rest_server.py:82-96 | The loop returns exactly `PostData` of the body |
| `RestServer.ParsedStops` | rest_server.py:86-94 | The first pair with two or more `=` ends the parse with what was collected before it |
| `RestServer.ParsedLastWins` | rest_server.py:87-91 | A later `key=value` pair overwrites the key with the decoded value |
| `RestServer.ParsedSkips` | rest_server.py:88-89 | A pair without `=` changes nothing |
| `RestServer.ParsedSingle` | rest_server.py:87-91 | A single `key=value` pair sets just that key to the decoded value |
| `RestServer.FieldBody` | rest_server.py:82-96 | A one-field form body parses back to that single field, with each space of its value as `+` |
| `RestServer.TokenBody` | rest_server.py:141-147 | The body the client sends gives the token back under `"token"`, exactly when it holds no space (as a Fernet token never does) |
| `RestServer.CaughtPage` | rest_server.py:121-128 | An exception out of `get_bus_data` is answered 404 exactly when it is `FileNotFoundError`, otherwise 500 naming the exception |
| `RestServer.Served` | rest_server.py:119-135 | 404 exactly when the file is absent or its read raises `FileNotFoundError`; 200 with the bytes unchanged and `text/plain` exactly when it exists and reads; otherwise 500 |
| `RestServer.GetReplies` | rest_server.py:112-135 | The replies `do_GET` writes as written: the icon for `favicon.ico`, the 400 error followed by the file for any other path but `/`; `GetAnswersTwice` and `GetFirstReplyIntended` compare it with the intended version |
| `RestServer.GetRepliesIntended` | rest_server.py:112-135 | With a `return` after the 400: one reply, 400 for any path other than `/` and the icon, the file for `/` |
| `RestServer.DoGet` | rest_server.py:112-135 | The replies written are those of `GetReplies`, and the file is left as it was |
| `RestServer.GetAnswersTwice` | rest_server.py:116-117 | As written, `GET /x` answers twice: the 400 error, then the file |
| `RestServer.GetFirstReplyIntended` | rest_server.py:112-135 | The first reply is always the intended one; a second reply follows exactly for paths other than `/` and the icon |
| `RestServer.GetFavicon` | rest_server.py:113-114 | `GET /favicon.ico` is answered with the PNG icon |
| `RestServer.DeleteReply` | rest_server.py:140-176 | The reply of `do_DELETE`: 403 for a missing token, 403 where decryption raises `InvalidToken` or evaluation `NameError` or the date is not today, then 200 or 500 as the file was there; `DeleteStatus` states it |
| `RestServer.DoDelete` | rest_server.py:140-176 | The reply is that of `DeleteReply` for the parsed body; the file is removed exactly when the token is today's date |
| `RestServer.DeleteStatus` | rest_server.py:140-176 | 403 exactly when the token is missing, does not decode, or is not today's date. Otherwise 200 if the file was there, and 500 if it was already gone |
| `RestServer.DeleteWithoutToken` | rest_server.py:141-145 | An empty body gets 403 `Missing token`, whatever the path |
| `RestServer.DeleteTwice` | rest_server.py:166-171 | Two deletes whose token, as the server reads it, decodes to today: 200 `Result: True`, then 500 `Result: False` |
| `DateTimes.BeforeIffFewerMinutes` | input_interface.py:17-19 | The datetime order is the order of minute counts, for datetimes without seconds |
| `DateTimes.ParseDateTime` | input_interface.py:24-25 | `strptime(text, '%Y-%m-%d %H:%M:%S')` on zero-padded text: a valid datetime without microseconds, or `ValueError`; `ParseFormat` shows it inverts `strftime` |
| `DateTimes.ParseFormat` | input_interface.py:24-25 | `strptime` of the `strftime` text gives back a datetime without microseconds |
| `DateTimes.Format` | busdatagenerator.py:206 | `strftime('%Y-%m-%d %H:%M:%S')` is 19 characters |
| `InputInterface.Truncate` | input_interface.py:27 | Keeps the date, hour and minute; zeroes seconds and microseconds; never later and the same minute count |
| `InputInterface.NewBSRegister` | input_interface.py:21-30 | The line becomes `str(line)`. Text is parsed, and `ValueError` is raised exactly when it is no datetime. The result is the truncated datetime |
| `InputInterface.NewBSRegisterOfText` | input_interface.py:24-27 | A datetime given as text or as a value makes the same register |
| `InputInterface.NewBSRegisterNormal` | input_interface.py:21-30 | Normalising a normal register changes nothing |
| `InputInterface.Less` | input_interface.py:17-19 | `a < b` compares only the datetimes; `LessIffEarlier` and `LessStrictOrder` state its properties |
| `InputInterface.Distance` | input_interface.py:37-40 | The minutes between the two datetimes, never negative; `DistanceMetric` shows it is a metric |
| `InputInterface.LessThan` | input_interface.py:17-19 | `<` compares only the datetimes; a non-register operand fails the assertion |
| `InputInterface.DistanceTo` | input_interface.py:37-40 | `distance` is the register distance; a non-register operand fails the assertion |
| `InputInterface.LessIffEarlier` | input_interface.py:17-19 | `a < b` exactly when `a` has fewer minutes |
| `InputInterface.LessStrictOrder` | input_interface.py:17-19 | `<` is irreflexive, transitive and total up to equal datetimes |
| `InputInterface.DistanceMetric` | input_interface.py:37-40 | `distance` is symmetric, zero exactly on equal datetimes, and obeys the triangle inequality |
| `InputInterface.DistanceMinMax` | input_interface.py:37-40 | `datetime.min` and `datetime.max` are 5258964959 minutes apart |
| `InputInterface.DistanceSameDay` | input_interface.py:37-40 | 12:15:03 and 11:16:03 on one day are 59 minutes apart, either way round |
| `InputInterface.Repr` | input_interface.py:42-43 | `BSRegister(line=<repr of line>, date='YYYY-MM-DD', time='HH:MM:SS')`; `ReprShape`, `ReprForm` and `ReprDates` state its form |
| `InputInterface.ReprShape` | input_interface.py:42-43 | `repr` is 53 characters plus the quoted line, starts `BSRegister(line=` and ends `:00')` |
| `InputInterface.ReprForm` | input_interface.py:42-43 | For a line of printable ASCII without quotes or backslashes, `repr` is `BSRegister(line='L', date='YYYY-MM-DD', time='HH:MM:00')` |
| `InputInterface.ReprDates` | input_interface.py:42-43 | `datetime.min` and `datetime.max` print as `0001-01-01` and `9999-12-31`, at `23:59` for the latter |
| `InputInterface.Selected` | input_interface.py:72-79 | Exactly the stored rows with no delay, the line and the stop asked for, and no more of them than stored rows |
| `InputInterface.SelectedAppend` | input_interface.py:72-79 | Selection keeps storage order: selecting from two runs of rows is selecting from each and concatenating |
| `InputInterface.Cap` | input_interface.py:72-79 | A falsy `n` means no limit; a positive `n` limits the rows to `n` |
| `InputInterface.Build` | input_interface.py:80 | Succeeds exactly when every row's datetime parses. Then there is one normal register per row, with that row's line and its parsed datetime truncated to the minute |
| `InputInterface.GetData` | input_interface.py:59-80 | A stop that `int()` rejects raises its `ValueError`, then an invalid `n` raises its error; a success holds registers of the line asked for. `GetDataResult` states which rows come out, `GetDataSucceeds` when it returns |
| `InputInterface.Limit` | input_interface.py:76-79 | The `limit ?` of the query: the first `n` elements, or all of them when there are fewer or no limit |
| `InputInterface.GetDataIsBuild` | input_interface.py:72-80 | Once the stop and `n` convert, the answer is `BSRegister` built over the first `n` selected rows |
| `InputInterface.GetDataSucceeds` | input_interface.py:59-80 | `get_data` returns exactly when `n` converts and every selected row within the limit has a datetime `strptime` accepts |
| `InputInterface.GetDataError` | input_interface.py:59-80 | Once `n` converts, the only error raised is the `ValueError` of a datetime that does not parse |
| `InputInterface.GetDataWhenAllParse` | input_interface.py:59-80 | `get_data` returns whenever `n` converts and every row of the table with that line and stop has a parsable datetime |
| `InputInterface.LimitParses` | input_interface.py:76-80 | Every row of the limited list parses exactly when every selected row before the limit does |
| `InputInterface.BuildError` | input_interface.py:24-25 | Building the registers fails only with the `ValueError` of `strptime` |
| `InputInterface.GetDataResult` | input_interface.py:59-80 | The result is the first selected rows in storage order: the k-th register has the line asked for and the k-th selected row's truncated datetime. All selected rows come back when `n` is falsy, and `min(n, selected)` of them for positive `n` |
| `InputInterface.GetDataZeroIsNone` | input_interface.py:72-79 | `n = 0` and `n = None` give the same answer |
| `DataManagement.InsertBy` | data_mangement.py:49 | Inserting keeps the elements as a multiset and adds one |
| `DataManagement.SortBy` | data_mangement.py:49 | The sort is a permutation of its input |
| `DataManagement.SortBySorted` | data_mangement.py:49 | The sort's result is sorted by the key |
| `DataManagement.KeyOrder` | data_mangement.py:49 | Sorting by minute count is sorting by `(date, time)`: a smaller count exactly when earlier |
| `DataManagement.DistanceIsGap` | data_mangement.py:57 | The distance of two registers is the gap of their minute counts |
| `DataManagement.FilteredByTime` | data_mangement.py:21-33 | The registers `filter_times` keeps, in order; `FilterTimesMembers`, `FilterTimesAppend`, `FilterTimesShrinks` and `FilterTimesIdempotent` state its properties |
| `DataManagement.FilterTimesMembers` | data_mangement.py:28-33 | A register is kept exactly when it is in the list and `time1 <= time <= time2` |
| `DataManagement.FilterTimesAppend` | data_mangement.py:28-33 | Filtering a concatenation filters each part, so order is kept |
| `DataManagement.FilterTimesShrinks` | data_mangement.py:28-33 | Filtering never grows the list |
| `DataManagement.FilterTimesIdempotent` | data_mangement.py:28-33 | A second filter with the same bounds changes nothing |
| `DataManagement.GroupEnd` | data_mangement.py:56-61 | The inner loop stops at the first register at distance `>= epsilon` from the group's first, or at the end; everything before it is closer |
| `DataManagement.GroupsFrom` | data_mangement.py:55-65 | With `epsilon > 0` the outer loop ends with non-empty groups, no more of them than registers |
| `DataManagement.GroupsCover` | data_mangement.py:55-65 | The groups, concatenated, are the list itself: contiguous runs in order |
| `DataManagement.GroupsClose` | data_mangement.py:55-65 | Every member is within `< epsilon` of its group's first register; the next group's first is `>= epsilon` away |
| `DataManagement.GroupEndMaximal` | data_mangement.py:49-61 | On the sorted list, everything after a group is `>= epsilon` from its first register |
| `DataManagement.GroupMember` | data_mangement.py:55-65 | Each grouped register comes from the list |
| `DataManagement.Picks` | data_mangement.py:67 | One `selector` pick per group, in order |
| `DataManagement.Grouped` | data_mangement.py:35-68 | The list `group(epsilon, selector)` leaves: the sorted list cut into runs by `GroupsFrom`, one pick per run, sorted again; `GroupedShape` and `GroupedByMax` state its properties |
| `DataManagement.GroupedShape` | data_mangement.py:49-68 | The result of `group` is sorted, normal, with one pick per group and no longer than the input |
| `DataManagement.MaxFrom` | data_mangement.py:35 | `max` returns one of the elements it scanned |
| `DataManagement.MaxOf` | data_mangement.py:35 | `max` of a group is one of its registers; `MaxOfIsLatest` shows none is later and `MaxOfFirst` that it is the first of the latest |
| `DataManagement.MaxFromIsLatest` | data_mangement.py:35 | No scanned register is later than the `max` |
| `DataManagement.MaxOfIsLatest` | data_mangement.py:35 | No register of the group is later than its `max` |
| `DataManagement.MaxFromFirst` | data_mangement.py:35 | The scan only replaces its pick by a strictly later register, so every scanned register at least as late as the pick has the pick at or before it |
| `DataManagement.MaxOfFirst` | data_mangement.py:35 | Of equally late registers, `max` returns the first |
| `DataManagement.GroupedByMax` | data_mangement.py:35-68 | With the default selector each pick is a register of the input and the latest of its group |
| `DataManagement.DataManager.constructor` | data_mangement.py:8-10 | A manager holds the given registers, which are normal, as every `BSRegister` is after `__post_init__` |
| `DataManagement.DataManager.Load` | data_mangement.py:8-10 | `DataManager(line, stop_id, n)` holds exactly what `get_data` returns, or raises its error |
| `DataManagement.DataManager.Add` | data_mangement.py:12-16 | `a + b` is a new valid manager of `a`'s registers then `b`'s, of length `len(a) + len(b)`; the operands are unchanged |
| `DataManagement.DataManager.Repr` | data_mangement.py:18-19 | `repr` starts with `DataManager(` and a newline and ends with `)` |
| `DataManagement.DataManager.FilterTimes` | data_mangement.py:21-33 | The list becomes, in place, exactly the registers with `time1 <= time <= time2`, in order |
| `DataManagement.DataManager.Group` | data_mangement.py:35-68 | The list becomes `Grouped` of the old list: sorted, cut into runs within `epsilon`, one pick per run, sorted again |
| `DataManagement.CutGroups` | data_mangement.py:51-65 | The outer loop builds exactly `GroupsFrom` of the sorted list |
| `DataManagement.GatherGroup` | data_mangement.py:56-61 | The inner loop stops at `GroupEnd` and the temporary group is the run it passed over |
| `DataManagement.ReprAll` | data_mangement.py:19 | The k-th text is the `repr` of the k-th register |
| `DataManagement.GetDataNormal` | input_interface.py:80 | `get_data` builds only normal registers |
| `Warner.StopFor` | warner.py:33-38 | `GAMAZO` and `CLINICO` are accepted; any other choice raises the invalid-option error naming it |
| `Warner.Watched` | warner.py:33-38 | The scrape succeeds exactly for the two known choices |
| `Warner.WatchedLines` | warner.py:33-36 | `GAMAZO` gives stop 686 and line 2; `CLINICO` gives stop 833 and line 2 or 8 |
| `Warner.Arrival` | warner.py:42-43 | The arrival is a valid time of day. It raises exactly when the shifted datetime leaves the range of `datetime` |
| `Warner.ArrivalIsTimeOfSum` | warner.py:42-43 | The arrival's minute of day is the observed minute count plus the delay, modulo 1440 |
| `Warner.ArrivalWithoutDelay` | warner.py:42-43 | With no delay the arrival is the observed time |
| `Warner.ArrivalWrapsDaily` | warner.py:42-43 | A delay one day longer gives the same time of day |
| `Warner.ArrivalLine` | warner.py:44-45 | A message line starts with the line and ends with `)` and a newline |
| `Warner.RegisterLine` | warner.py:41-45 | A line starts with the register's line and ends `)\n`; among the errors, `BadDatetime` is raised exactly when the datetime text does not parse |
| `Warner.RegisterLineOutcome` | warner.py:41-45 | A datetime that does not parse raises `BadDatetime`; otherwise the line is written exactly when the arrival is in range, as `ArrivalLine` of the `Arrival` time, and `OutOfRange` is raised when it is not |
| `Warner.LineResults` | warner.py:41-45 | One line per register, in data order |
| `Warner.Message` | warner.py:40-47 | The message: the lines of all registers, stripped, or the first error raised; `MessageOfNothing`, `MessageTrimmed`, `MessageOfOne` and `GatheredFailure` state its properties |
| `Warner.BuildMessage` | warner.py:40-47 | The loop builds exactly `Message` of the data |
| `Warner.GatheredFailure` | warner.py:41-45 | The first register that raises decides the outcome |
| `Warner.GatheredAppend` | warner.py:40-45 | Accumulating two runs concatenates their texts |
| `Warner.LinesAppend` | warner.py:40-45 | The lines of two data sets concatenated are their lines concatenated |
| `Warner.MessageOfNothing` | warner.py:40-47 | No data gives the empty message |
| `Warner.MessageTrimmed` | warner.py:47 | The message neither starts nor ends with whitespace |
| `Warner.MessageOfOne` | warner.py:40-47 | For one register, the message is its line without the final newline |

## Left out

- Real I/O is not modelled. The staging file and the server's file are
  object fields. SQLite is a map. Reading the favicon, `open`, `os.remove`
  and `os.path.isfile` become field reads and writes. Logging and printing
  are gone.
- SHA-1, Fernet decryption, `eval` of the decrypted token, HTTP, the HTML
  parsing of a stop's page, `time.sleep` and the clock are all inputs: an
  id function, a token decoder, an attempt oracle, given cell strings, and
  given clock readings.
- The `LINUX` platform branches and `InvalidPlatformError` are not modelled.
  The model takes the non-Linux path where it matters: the database is
  usable.
- `generate_data`, `to_excel_main`, `bus_stats_interface`, `get_length_database`,
  `analyser.py`, `BSRegister.hours` (float), the server's `start_server` loop,
  argparse and `Connections` are outside the modelled core.
- Removal failures other than a missing file are not modelled; in the source
  they propagate out of `do_DELETE`.
- In `get_auto`, the regular-expression extraction of an error page is left
  out, and so is a write that fails after `open` has truncated the file. A
  failed write leaves the old content.
- Text is Unicode code points. `unquote` decodes `%XX` escapes below 0x80 and
  leaves the others as written, so no UTF-8 decoding is modelled.
- `RestServer.Quote`: requires an ASCII value. `quote_plus` percent-encodes the
  UTF-8 bytes of any other character, and UTF-8 is not modelled.
- `RestServer.DeleteReply`: only `InvalidToken` from decryption and `NameError`
  from `eval` become a 403. Any other error of either propagates out of
  `do_DELETE` with no reply written; `decode` has no outcome for that.
- The csv reader is that of CPython before 3.11. On a NUL it raises
  `csv.Error` after yielding the records completed before the NUL. From 3.11
  on the reader accepts NUL; that reader is not modelled. Nor are
  `field_size_limit` and UTF-8 decoding errors of the file.
- `Scraper.RowRegister`: `int()` is modelled for ASCII digits. Python also
  accepts other Unicode decimal digits (full-width, Arabic-Indic and so on);
  the model rejects text holding them.
- `Builtins.EscapeChar`: escapes only control characters, U+007F to U+00A0
  and U+00AD. `repr` also escapes non-printable characters above U+00FF, as
  `\u` or `\U` escapes; those are kept as written.
- The csv round trip is proved for registers whose fields hold no delimiter,
  quote character, line break or NUL (`AllPlain`). Other text is modelled by
  the reader's state machine but not proved to round-trip.
- `strptime` is modelled for zero-padded `YYYY-MM-DD HH:MM:SS` text only.
  Python also accepts unpadded fields, and the format's space matches any
  run of whitespace. The model gives `ValueError` for such text.
- `DataManagement.DataManager.Group`: requires `epsilon > 0`. With
  `epsilon <= 0` the source's inner loop never advances `k`, so `group` does
  not terminate. It also requires a selector that accepts every non-empty
  group and returns a normal register. `max` does both.
- `DataManagement.SortBy`: stability is not stated. The model's insertion
  sort is stable, as Python's sort is.
- `DataManagement.DataManager.Add`: the `isinstance` assertion is enforced by
  the parameter's type.
- `DataManagement.DataManager.Repr`: states only the text's frame. The text
  between is the registers' `repr`s joined by `,\n`; `InputInterface.ReprForm`
  describes each of them.
- `Warner.ArrivalLine`: states the line's frame. The `HH:MM` in it is `Pad2` of
  the `Arrival` time, and `Warner.ArrivalIsTimeOfSum` describes that time.
- The `OverflowError` that `datetime + timedelta` raises past year 9999 (or
  before year 1) is the `OutOfRange` error of `Warner.Arrival`; Python's
  exception type and message are not modelled.
- `Downloading.Downloader.Send`: the four verbs differ only in the session call
  and its arguments, so they are modelled as one method taking the verb.
- `distance` returns an integer: minutes between minute-truncated datetimes
  are whole, where Python returns an equal float.

## Findings

| source | as written | input that shows it | evidently intended | confidence | as-written member | corrected member |
|---|---|---|---|---|---|---|
| busdatagenerator.py:146-153 | `load_registers` calls `next()` on a `DictReader` that has already consumed the header, so the first data row is discarded | save `[r1, r2]`, then load: `[r2]`; save `[r]`, then load: `[]`; the merge then deletes the file although `r1` never reached the database | load returns every saved register | high, not executed | `StagingCsv.LoadAfterSaveDropsFirst` | `StagingCsv.LoadIntendedAfterSave` |
| rest_server.py:116-117 | `do_GET` sends a 400 for a path other than `/` but does not return, so it goes on to serve the file on the same connection | `GET /x` with the file present: replies 400, then 200 with the file | one 400 reply and nothing else | high, not executed | `RestServer.GetAnswersTwice` | `RestServer.GetFirstReplyIntended` |

The methods (`StagingCsv.LoadRegisters`, `RestServer.DoGet`) follow the code as
written. The corrected definitions are `StagingCsv.LoadedRegistersIntended` and
`RestServer.GetRepliesIntended`. Their intended properties are proved by
`StagingCsv.LoadIntendedAfterSave` and `Merge.MergeIntendedKeepsAll` (every
saved register is stored) and by `RestServer.GetFirstReplyIntended` and
`RestServer.GetFavicon`.
