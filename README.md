# Letterboxd film sync: the data-shaping core

The update script `scripts/films/update.js` logs into Letterboxd with a
scripted browser, downloads the account's data export (a zip archive
returned as a `data:` URL), parses `diary.csv` and `watchlist.csv`, and
replaces the `films` table with the result. This project models the part
of that script that shapes data, and proves what it does:

- `js.dfy` (module `Js`): the JavaScript values the script handles
  (`undefined`, `null`, strings), truthiness and `||`.
- `films.dfy` (module `Films`): `transformFilms`, which maps every CSV row
  to a film record and filters out records without a name, a year or a
  link, and the merge `[...watched, ...towatch]` in `main`.
- `sql.dfy` (module `Sql`): statements built with the `SQL` template tag,
  as text chunks plus bound values, and `append`.
- `insert.dfy` (module `Insert`): `insertRecords`, the loop that grows one
  multi-row `INSERT` statement, skips records whose fragment fails to
  append, and logs but swallows the failure to run the statement.
- `data_url.dfy` (module `DataUrl`): the `url.split(',')[1]` that extracts
  the payload of the `data:` URL (section 3 of RFC 2397).

Modelling choices:

- A CSV row is a `map<string, string>`; a missing column reads as
  `undefined`. A cell counts as truthy exactly when it is a non-empty string.
- `year` and `rating` stay CSV strings (or `null`): nothing in the script
  converts them to numbers.
- Each record keeps the `status` string it was given. The script passes
  `"watched"` for the diary and `"towatch"` for the watchlist.
- A statement is `Statement(strings, values)`. `append` fuses the last text
  chunk of the statement with the first chunk of the fragment and
  concatenates the bound values. `Text` renders the chunks with a `?`
  placeholder for each value.
- Whether appending the fragment of record `i` throws is the input
  `appendOk(i)`. Whether the database accepts the final statement is the
  input `runQuery(query)`. `InsertRecords` returns the statement it hands to
  the database (`None` when `query` is still `undefined`) and the error log.
- The variable `last` in `insertRecords` (scripts/films/update.js:24) is
  never read, so the model has no counterpart for it. Inside the loop it is
  always false.
- `transformFilms` is a function of its arguments alone. Two calls on the
  same rows and status therefore give the same list, as with every Dafny
  function. What is proved on top of that is that filtering its output
  again changes nothing (`TransformStable`).

## Model

| member | source | states |
|---|---|---|
| Films.TransformFilms | scripts/films/update.js:140-151 | the output is never longer than the input rows; every record in it has a truthy name, year and link and carries exactly the status passed to the call |
| Films.FilterKept | scripts/films/update.js:148-150 | the filter never lengthens its input, and every record it keeps passes `name && year && link` |
| Films.ToFilmFields | scripts/films/update.js:141-147 | `date_updated` is `Watched Date` when that is present and non-empty, and `Date` (possibly missing) otherwise; `year` and `rating` are their column's text when non-empty, and null otherwise; `name` and `link` are the `Name` and `Letterboxd URI` cells unchanged; `status` is the argument |
| Films.RowKeptIff | scripts/films/update.js:141-150 | a row's record survives the filter if and only if its `Name`, `Year` and `Letterboxd URI` columns are present and non-empty, and the surviving record holds exactly that text |
| Films.FilterKeptAt | scripts/films/update.js:148-150 | the k-th kept record is the input record at the k-th kept position |
| Films.KeptPositionsIncrease | scripts/films/update.js:148-150 | the kept positions are in range and strictly increasing, so the filter keeps input order |
| Films.KeptPositionsExactly | scripts/films/update.js:148-150 | a position is kept if and only if its record passes the filter: no valid record is lost and no invalid one kept |
| Films.TransformKeepsOrder | scripts/films/update.js:140-151 | `transformFilms` returns, in row order, the records of exactly those rows whose record passes the filter |
| Films.FilterKeptAppend | scripts/films/update.js:148-150 | filtering a concatenation is concatenating the filtered parts |
| Films.TransformAppend | scripts/films/update.js:140-151 | transforming two blocks of rows is transforming each block and concatenating the results |
| Films.FilterKeptAllKept | scripts/films/update.js:148-150 | a list whose records all pass the filter comes through it unchanged |
| Films.TransformStable | scripts/films/update.js:140-151 | filtering the output of `transformFilms` again returns it unchanged |
| Films.TransformSingle | scripts/films/update.js:140-151 | one row gives a one-record list when its record passes the filter, and an empty list otherwise |
| Films.Merge | scripts/films/update.js:171 | the merged list has the length of both lists together, starts with all watched records and ends with all to-watch records |
| Films.MergedRecordsOrdered | scripts/films/update.js:153-171 | the list handed to `insertRecords` holds the transformed diary first and the transformed watchlist after it; every record is valid; a record has status `watched` exactly when it lies in the first part, so no `watched` record follows a `towatch` one; it is no longer than both row lists together |
| Films.DateFallbackExamples | scripts/films/update.js:142 | a diary row with only `Watched Date = 2021-05-01` and a watchlist row with only `Date = 2021-06-01` get that date; an empty `Watched Date` falls back to `Date`; a row with neither gives `undefined` |
| Films.DiaryExample | scripts/films/update.js:156-159 | of three diary rows, the one without a year is dropped and the other two stay in order |
| Films.MergeExample | scripts/films/update.js:153-171 | three diary rows, one without a year, and two valid watchlist rows merge into four records: two watched, then two to watch, in row order |
| Sql.Append | scripts/films/update.js:32 | appending a well-formed fragment to a well-formed statement keeps one bound value between every two text chunks |
| Sql.JoinChunksText | scripts/films/update.js:32 | the rendered text of fused chunk lists is the text of the first followed by the text of the second |
| Sql.AppendText | scripts/films/update.js:32 | `append` adds the fragment's text to the statement's text and its bound values after the statement's values |
| Insert.Survivors | scripts/films/update.js:22-38 | the records that keep their tuple are never more than the input, and the first record is always among them, since it is never appended |
| Insert.InsertRecords | scripts/films/update.js:20-49 | `query` stays undefined exactly when there are no records; otherwise it is the INSERT statement for the surviving records, one tuple each and in order; the log holds one build failure per failed append, in order, followed by a run failure exactly when the database rejects the statement; the method always returns normally |
| Insert.SurvivorsStep | scripts/films/update.js:22-38 | one loop iteration: the first record and every record whose append succeeds add their tuple; every later record whose append fails adds one build-failure log entry instead |
| Insert.HeadStatement | scripts/films/update.js:27-28 | the statement started by the first record is the INSERT statement for that record alone |
| Insert.AppendFragment | scripts/films/update.js:29-32 | appending a record's `,(...)` fragment to the statement for some records gives the statement for those records followed by it |
| Insert.BoundLength | scripts/films/update.js:25-30 | a statement for n records binds 5n values and has one placeholder per bound value |
| Insert.BoundTuples | scripts/films/update.js:25-30 | the values bound at positions 5k to 5k+4 are `name, year, link, status, date_updated` of the k-th record |
| Insert.BoundIgnoresRating | scripts/films/update.js:25-30 | records that differ only in `rating` bind the same values: the rating never reaches the database |
| Insert.HeadText | scripts/films/update.js:28 | the head renders as `INSERT INTO films (name, year, link, status, date_updated) VALUES (?, ?, ?, ?, ?)` |
| Insert.FragmentText | scripts/films/update.js:30 | a fragment renders as `,(?, ?, ?, ?, ?)` |
| Insert.StatementText | scripts/films/update.js:22-39 | the statement for k records renders as the INSERT head with its tuple followed by k-1 further `,(?, ?, ?, ?, ?)` tuples |
| Insert.SurvivorsAllAppended | scripts/films/update.js:22-38 | when every append succeeds, every record has its tuple, in order, and nothing is logged |
| Insert.SurvivorsDropOne | scripts/films/update.js:29-37 | when only the append of record j fails, exactly record j loses its tuple, the records after it are still inserted, and exactly one build failure is logged for j |
| Insert.SurvivorsOrLogged | scripts/films/update.js:29-37 | the number of records that keep their tuple plus the number of logged build failures is the number of records; a build failure is logged for position i if and only if i is not the first position and its append failed |
| Insert.SurvivorsAt | scripts/films/update.js:22-38 | for any pattern of failed appends, the tuples in the statement are those of the records at increasing positions, and a position is among them if and only if it is the first or its own append succeeded: a failure drops only that record's tuple and the loop carries on |
| DataUrl.Split | scripts/films/update.js:73 | `split(',')` gives at least one piece, more than one exactly when the string holds a comma, and no piece holds a comma |
| DataUrl.JoinSplit | scripts/films/update.js:73 | joining the pieces of a split with the separator restores the string |
| DataUrl.SplitJoin | scripts/films/update.js:73 | splitting the join of comma-free pieces restores the pieces |
| DataUrl.Payload | scripts/films/update.js:73 | `url.split(',')[1]` is defined exactly when the URL holds a comma, and then holds no comma itself |
| DataUrl.PayloadOfDataUrl | scripts/films/update.js:68-73 | for a data URL whose header and data hold no comma, as with `readAsDataURL`'s base64 output, the extracted payload is exactly the data |
| DataUrl.PayloadStopsAtComma | scripts/films/update.js:73 | data after a second comma is cut off: only the text up to that comma is extracted |

## Left out

- `scrapeLetterboxd` (scripts/films/update.js:78-127) is left out. It launches the browser, navigates, types the credentials, submits with Enter and waits 2 seconds. All of this is browser I/O. The page-title checks only log and do not affect control flow.
- The in-page `window.fetch` and `FileReader.readAsDataURL` bridge (scripts/films/update.js:52-70) is left out: it runs browser code. Only the string split of its result is modelled.
- The base64 decode by `Buffer.from` (scripts/films/update.js:73) is left out. It is library code.
- `unzip` (scripts/films/update.js:129-138) is left out. It wraps the `unzipper` library and copies each entry into a dictionary.
- CSV parsing by `csvtojson` and the lookups of `diary.csv` and `watchlist.csv` (scripts/films/update.js:156-163) are left out. The model takes rows that are already parsed.
- The database is left out: `db.runQuery`, the `DELETE FROM films` that precedes the insert, `dotenv`, the `./log` console and `process.exit` (scripts/films/update.js:10-12, 172-179). Its verdict on the final statement is the input `runQuery`. Because `insertRecords` swallows that failure, `main` still reaches `process.exit(0)`. This is not modelled further.
- `await` and the asynchronous ordering of these calls are left out. The modelled steps run in sequence.
- The sql-template-strings library is not part of this model. The conditions under which its `append` throws are not modelled: they are the input `appendOk`. The model's `append` follows how that library joins statements.
- Insert.InsertRecords: `query.append(q)` (scripts/films/update.js:32) updates the statement object in place and returns it; the model treats the statement as a value and assumes an append that throws leaves `query` unchanged (no partly appended fragment such as a dangling `,(`).
- Insert.InsertRecords: the log records which record failed and that the run failed. It does not record the logged text, the JSON of the fragment or the error object.
