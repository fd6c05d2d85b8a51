# Google_Spreadsheet_Sheet, modelled in Dafny

This project models the `Google_Spreadsheet_Sheet` class of the PHP library
google-spreadsheet.php (`src/Google/Spreadsheet/Sheet.php`). A sheet fetches
the 2-D `values` grid of one sheet through the Sheets API (or from a cache
file while it is fresh), turns it into a `header` and keyed `items`, answers
`select` queries over the items, and computes the payloads of `insert` (one
appended row aligned to the header) and `update` (one batch of single-cell
writes addressed in A1 notation).

Files, one module each:

- `wrappers.dfy` — `Option`, for the source's null returns, and `Outcome`, a value
  returned or an exception thrown, for `insert` and `update` when
  `spreadsheets_values->get` throws.
- `column_address.dfy` — `getColumnLetter`: the loop as a method, the letters it
  yields as a function, and how they relate to the spreadsheet's own column names.
- `table.dfy` — what `parse` makes of a grid: header, row records, items.
- `query.dfy` — `select` as a filter keeping keys and order; the row keys `update` uses.
- `writes.dfy` — the appended row of `insert` and the write list of `update`.
- `cache.dfy` — the options, `config`'s merge, and the cache freshness test of `getCache`.
- `sheet.dfy` — the `Sheet` class: its state and the methods `config`, `parse`,
  `fetch`, `insert` and `update`.
- `scenarios.dfy` — worked cases on a two-person sheet.

The Sheets API, the cache file and the clock are inputs: `Fetch`, `Insert` and
`Update` take the API's response (`Remote`), what the cache file holds
(`CacheFile`: missing, or a modification time and a grid) and the current
time, and they return what the source would send or save: whether the API was
asked, the grid written to the cache file, the appended row, the batch of cell
writes.

Behaviour of the code worth knowing:

- Column letters are not the spreadsheet's own bijective numbering. The loop
  steps with `intval($i / 26)`, so column 26 is "AZ" and 52 is "BZ". The code
  has no letters-to-number conversion, and none is modelled.
  `ColumnAddress.AgreesWithA1Iff` states exactly when the two numberings agree.
- Before any fetch, `items` is null, and `select` hands null to `array_filter`.
  PHP 7 warns and returns null; PHP 8 throws a `TypeError`.
- A response of `spreadsheets_values->get` that is not an object with an array
  `values` is not an error in `fetch`. It leaves `values`, `header` and
  `items` as they were, and nothing is cached.
- An exception thrown by `spreadsheets_values->get` leaves `fetch` with the
  state unchanged. In `insert` and `update` it ends the call before anything
  is sent.

## Model

| member | source | states |
|---|---|---|
| ColumnAddress.ColumnLetters | src/Google/Spreadsheet/Sheet.php:195-198 | for n >= 1 the letters are non-empty; every letter is in 'A'..'Z' |
| ColumnAddress.GetColumnLetter | src/Google/Spreadsheet/Sheet.php:193-199 | the push-then-reverse loop returns exactly `ColumnLetters(index)` |
| ColumnAddress.ColumnLettersLength | src/Google/Spreadsheet/Sheet.php:195-197 | one letter per base-26 digit of the column number |
| ColumnAddress.SingleLetterColumns | src/Google/Spreadsheet/Sheet.php:195-196 | columns 1..25 are the single letter chr(64 + n) |
| ColumnAddress.BoundaryColumns | src/Google/Spreadsheet/Sheet.php:195-196 | 26 gives "AZ", 27 "AA", 52 "BZ", 702 "AAZ" |
| ColumnAddress.AgreesWithA1Iff | src/Google/Spreadsheet/Sheet.php:195-196 | the letters equal the spreadsheet's bijective column name iff no quotient the loop visits is a multiple of 26 |
| Table.HeaderOf | src/Google/Spreadsheet/Sheet.php:88-93 | the header is the first row, or empty for an empty grid |
| Table.RowRecord | src/Google/Spreadsheet/Sheet.php:95-98 | a record's names are exactly the header's names |
| Table.ParsedItems | src/Google/Spreadsheet/Sheet.php:89-99 | one item per data row, keys 1..|values|-1 in order, each record named by exactly the header, keys ascending; none for an empty grid |
| Table.RowRecordLastColumnWins | src/Google/Spreadsheet/Sheet.php:96-98 | a name's value is the cell of its last column, '' when the row is shorter |
| Table.RowRecordUniqueName | src/Google/Spreadsheet/Sheet.php:96-98 | a name that occurs once takes its own column's cell |
| Table.RowRecordDropsExtraCells | src/Google/Spreadsheet/Sheet.php:96-97 | cells beyond the header's length do not affect the record |
| Table.ParsedItemValue | src/Google/Spreadsheet/Sheet.php:90-99 | item k's value under header name j is cell j of row k + 1 (last column of a repeated name) |
| Query.Filter | src/Google/Spreadsheet/Sheet.php:115 | keeps exactly the rows whose record the callback accepts, never more rows, keys still ascending |
| Query.Select | src/Google/Spreadsheet/Sheet.php:112-129 | null iff the condition is neither callable nor an array; otherwise exactly the items the condition keeps (array: every listed field present and strictly equal), in order; a function, so `items` is not changed |
| Query.Keys | src/Google/Spreadsheet/Sheet.php:161 | the keys of a selection, position by position |
| Query.MatchedKeys | src/Google/Spreadsheet/Sheet.php:161 | a key is matched iff some item with that key is kept by the condition; keys ascend when the items' keys do; none for a null selection |
| Query.SelectEmptyConditionKeepsAll | src/Google/Spreadsheet/Sheet.php:117-126 | an empty array condition selects every item unchanged |
| Query.SelectIsSubMap | src/Google/Spreadsheet/Sheet.php:112-129 | over parsed items, every selected row is the item under its own key, keys in ascending order |
| Writes.BuildAppendRow | src/Google/Spreadsheet/Sheet.php:141-145 | the appended row has one entry per header name, the given value or '' when none is given; other given keys are ignored |
| Writes.FirstIndex | src/Google/Spreadsheet/Sheet.php:164-165 | the first header position holding the field, or none iff the field is absent |
| Writes.Decimal | src/Google/Spreadsheet/Sheet.php:168-170 | the row number is rendered as a non-empty string of decimal digits without a leading zero |
| Writes.DecimalDenotesNumber | src/Google/Spreadsheet/Sheet.php:168-170 | the rendered digits denote exactly the row number |
| Writes.KnownFields | src/Google/Spreadsheet/Sheet.php:163-165 | exactly the given fields the header holds, in the order they were given |
| Writes.BuildWrites | src/Google/Spreadsheet/Sheet.php:162-176 | the loop over the given fields builds exactly the write list |
| Writes.AppendFieldWrites | src/Google/Spreadsheet/Sheet.php:166-175 | the loop over the matched rows appends exactly one field's writes, in row order |
| Writes.WriteListLength | src/Google/Spreadsheet/Sheet.php:163-176 | one write per (known field, matched row) pair |
| Writes.WriteListEmptyIff | src/Google/Spreadsheet/Sheet.php:163-177 | the write list is empty iff no row matched or no given field is in the header |
| Writes.WriteListAt | src/Google/Spreadsheet/Sheet.php:163-176 | entry i·|rows|+q writes `[[value]]` of the i-th known field at `name!<letters of first column+1><row key+1>` of the q-th row: fields outside, rows inside |
| Cache.DefaultOptions | src/Google/Spreadsheet/Sheet.php:20-24 | the options are cache, cache_dir and cache_expires, with cache off and 600 seconds |
| Cache.Configure | src/Google/Spreadsheet/Sheet.php:45-52 | the key set never changes |
| Cache.ConfigureLastWins | src/Google/Spreadsheet/Sheet.php:46-50 | each existing option holds the last value given for it, or keeps its value |
| Cache.GetCache | src/Google/Spreadsheet/Sheet.php:221-232 | the stored grid iff caching is on, the file exists and it is younger than cache_expires; null otherwise |
| Cache.DefaultsNeverUseCache | src/Google/Spreadsheet/Sheet.php:20-24 | with the default options no cache file is ever used |
| Cache.DisablingCacheNeverUsesIt | src/Google/Spreadsheet/Sheet.php:223-225 | after the last `cache` given to `config` is falsy (false, 0, '' or '0'), no file is used whatever its age |
| Cache.ExpiredFileNotUsed | src/Google/Spreadsheet/Sheet.php:225 | a file at least cache_expires seconds old is not used though still stored |
| Cache.FreshnessIsAWindow | src/Google/Spreadsheet/Sheet.php:225 | a file fresh now was fresh earlier; once expired it stays unused |
| SheetModel.Sheet.constructor | src/Google/Spreadsheet/Sheet.php:11-37 | a new sheet has the default options and an empty table |
| SheetModel.Sheet.Config | src/Google/Spreadsheet/Sheet.php:45-52 | the options become `Configure(old options, given)`; keys unchanged |
| SheetModel.ZipRow | src/Google/Spreadsheet/Sheet.php:96-98 | the loop over the header builds exactly the row's record |
| SheetModel.Sheet.Parse | src/Google/Spreadsheet/Sheet.php:86-103 | header and items become exactly `HeaderOf(values)` and `ParsedItems(values)` |
| SheetModel.Sheet.Fetch | src/Google/Spreadsheet/Sheet.php:62-79 | the API is asked iff forced or the cache is not fresh; a fresh cache's grid or a well-formed response is parsed; a malformed response or a thrown exception changes nothing, and the exception is passed on; the cache file is written iff a well-formed response was taken and caching is on |
| SheetModel.Sheet.Insert | src/Google/Spreadsheet/Sheet.php:138-149 | after a forced fetch, the appended row is aligned to the current header with '' for missing fields; if the fetch throws, the exception is the outcome and nothing is appended |
| SheetModel.Sheet.Update | src/Google/Spreadsheet/Sheet.php:159-185 | after a forced fetch, no request (null) iff the write list over the matched rows is empty, else one batch carrying the whole list; if the fetch throws, the exception is the outcome and nothing is sent |
| Scenarios.ParsePeople | src/Google/Spreadsheet/Sheet.php:86-103 | [[name,age],[Alice,30],[Bob]] parses to {name:Alice,age:30} under 1 and {name:Bob,age:''} under 2 |
| Scenarios.DuplicateHeaderLastWins | src/Google/Spreadsheet/Sheet.php:96-98 | header [a,a] over [x,y] gives {a:y} |
| Scenarios.SelectAlice | src/Google/Spreadsheet/Sheet.php:117-126 | {name:Alice} selects exactly Alice's row, under key 1 |
| Scenarios.SelectNobody | src/Google/Spreadsheet/Sheet.php:117-126 | {name:Carol} selects an empty array (not null), so no key |
| Scenarios.UpdateAlicesAge | src/Google/Spreadsheet/Sheet.php:163-176 | setting age of key 1 writes one cell, Sheet1!B2 |

## Left out

- The Sheets API calls (`spreadsheets_values->get`, `append`, `batchUpdate`) are network calls. The response is an input, and what would be sent is returned. The API's answers to `append` and `batchUpdate`, which `insert` and `update` return, are not modelled.
- The constant request parameter `valueInputOption = USER_ENTERED` is not carried in the payloads.
- The constructor's `Google_Client` and `Google_Service_Sheets` objects are not modelled.
- The cache file is an input (`CacheFile`). Not modelled: the path (`getCachePath`, `urlencode`), `saveCache`'s `mkdir` and `file_put_contents`, and `serialize`/`unserialize`, including a corrupt or unreadable file.
- `time()` is a parameter read once per call. The source reads the clock twice in `fetch` (the test, then the load), and a cache expiring between the two reads is not modelled.
- PHP loose comparison in `array_search` and `in_array` is modelled as exact string equality. Numeric-string header names becoming integer array keys are not modelled.
- Cells, header names, field values and option strings are strings. The `(string)` cast in `insert` and non-string cell values are not modelled.
- The order of names inside one item's record is not modelled: a record is a map.
- A callable condition is a total predicate on the record. PHP's `is_callable` edge cases are not modelled, such as an array that is itself callable.
- `update` with a condition that is neither callable nor an array is modelled with PHP 7 behaviour: `array_keys(null)` warns and the loop sees no rows, so nothing is sent. Under PHP 8 the same call throws a `TypeError`.
- Cache.GetCache: a `cache_expires` given as a string is treated as never met. PHP would compare a numeric string numerically.
- The fields `values`, `header` and `items` start as null in the source; the model starts them as empty sequences. So `Select` before any fetch gives `Some([])`, where PHP 7 gives null (and PHP 8 throws a `TypeError`). `header` and `items` are public in PHP, and writes to them from outside the class are not modelled.
- `OptionValue` holds a boolean, an integer or a string only. It cannot hold null or a float, as in `config(['cache' => null])` or `'cache_expires' => 1.5`.
- The exception `spreadsheets_values->get` may throw is a message string (`Remote.Failed`). Exceptions from `append` and `batchUpdate` are not modelled, as those calls are not modelled.
- Chaining (`return $this`) is not modelled.
- src/Google/Spreadsheet/Client.php, src/Google/Spreadsheet/File.php and src/Google/Spreadsheet.php are factories around `Google_Client` with no logic. They are not part of this model.
- src/autoload.php loads class files and is not part of this model.
