# NodeVault record vault — a Dafny model

NodeVault is a small command-line vault of records `{id, name, value, createdAt}`
kept in a document collection. This project models its core in Dafny and proves
properties of the model:

- **Record service** (`db/index.js`, module `Db`). The collection is the `records`
  field of the class `Db.Vault`, a sequence in store order. `AddRecord`, `UpdateRecord`
  and `DeleteRecord` change it in place. Each successful change appends one event
  (`recordAdded`, `recordUpdated`, `recordDeleted`) to the ghost log `events`. It then
  appends the full post-change collection to the ghost log `backups`.
  `ListRecords` gives the collection by ascending id. `GetVaultStatistics` computes
  the summary; its longest-name loop is the method `Db.LongestName`.
- **Validator and id generator** (`db/record.js`, module `RecordUtils`).
  `ValidateRecord` runs the three guard checks in order. `GenerateId` returns the clock
  reading it is given.
- **Command-line helpers** (`main.js`, module `Cli`). These are the add command's date
  pre-check (`PrepareAdd`), the search filter (`Search`), and the sort command
  (`SortCommand`, which sorts a fresh array copy in place with `InsertionSort`). The
  export text is built line by line (`BuildExport`).
- Supporting modules: `Text` models the JavaScript string built-ins the code uses.
  `Dates` parses and prints `YYYY-MM-DD` and takes minima and maxima of dates.
  `Wrappers` holds `Option`, `Result` and `Outcome`.

The model follows the code as written. Where it departs from what a vault would be expected to guarantee:

- Ids are clock readings (`Date.now()`), so two adds in the same millisecond get the
  same id. Ids are therefore not unique. `findOne({id})` and `deleteOne({id})` act on
  the first record in store order that has the id (`Db.FindFirst`).
  `Db.SameTickAddsCollide` shows the collision. `Db.AddKeepsIdsUnique` shows that
  uniqueness survives an add only when the clock has moved past every stored id.
  `Db.DeleteKeepsDuplicate` shows that a duplicate survives a delete.
- `validateRecord` tests truthiness. An empty name or value is rejected, and so is a
  missing one. Values are text here, so "0" is accepted.
- `getVaultStatistics` can throw. When a stored `createdAt` is not a valid date,
  `toISOString` raises "Invalid time value" (`Err(InvalidTimeValue)`). A vault whose
  records all came through `AddRecord` never does this (the `Valid() ==> res.Ok?`
  clause).
- `updateRecord` does not re-validate. An update may store an empty name or value.

## Model

| member | source | states |
|---|---|---|
| `Db.Vault.AddRecord` | db/index.js:20-40 | A rejected candidate returns that validation error and leaves the store, events and backups unchanged. An accepted one appends exactly one record, with the clock's id and the given name, value and createdAt. It emits `recordAdded` with that record, backs up the new full collection, returns the record and keeps `Valid()`. |
| `Db.Vault.ListRecords` | db/index.js:43-45 | The result holds exactly the stored records (same multiset), in ascending id order. |
| `Db.SortById` | db/index.js:44 | The result is a permutation of its input, with ids ascending. |
| `Db.FindFirst` | db/index.js:49-50 | `None` exactly when no record has the id. Otherwise the position of a record with that id such that no earlier record has it (first-match semantics). |
| `Db.Vault.UpdateRecord` | db/index.js:48-62 | For an unknown id it returns `None`, with no store change, no event and no backup. Otherwise only the first matching record changes: its name and value are replaced and its id and createdAt are kept. It emits `recordUpdated` with the updated record, backs up the new collection and returns the updated record. |
| `Db.Vault.DeleteRecord` | db/index.js:65-77 | For an unknown id it returns `None` and changes nothing. Otherwise exactly the first matching record is removed and the rest keep their order. It returns the record's prior state, emits `recordDeleted` and backs up the remaining collection. |
| `Db.Vault.GetVaultStatistics` | db/index.js:80-122 | An empty store gives the sentinel `(0, "No data", "None", 0, "N/A", "N/A")`. An unparseable createdAt gives `Err(InvalidTimeValue)`. Otherwise: total is the record count, longestName is the first longest name, longestNameLength is its UTF-16 length, earliest/latest are the minimum/maximum createdAt, and lastModified is the latest updatedAt-or-createdAt. A `Valid()` vault never errs. |
| `Db.LongestName` | db/index.js:103-107 | The loop leaves the name the left-to-right "strictly longer replaces" walk settles on, comparing JavaScript `.length` (UTF-16 code units). Its length is at least that of every name. |
| `Db.FirstLongestIsFirstMaximal` | db/index.js:104-107 | The chosen name is at least as long as every name in UTF-16 code units. It is empty only when all names are empty. Otherwise it is the name of the first record reaching the maximum length (ties go to the first). |
| `Db.CreatedDates` | db/index.js:110 | `Some` exactly when every createdAt parses. It then holds one parsed date per record, position by position. |
| `Db.LastModifiedText` | db/index.js:96-101 | "Unknown" exactly when some record's updatedAt-or-createdAt is an invalid date. Otherwise the midnight timestamp of one record's last write that no other record's last write comes after. |
| `Db.TouchedDates` | db/index.js:97-100 | `Some` exactly when every record's updatedAt-or-createdAt is a valid date. It then holds that date per record, position by position. |
| `Db.EarliestLatestAreStoredDates` | db/index.js:110-112 | In a non-empty store whose dates parse, earliest ≤ latest. Each one is literally some record's stored createdAt text, and it is a lower (resp. upper) bound of every record's date. |
| `Db.WellFormedDatesParse` | db/index.js:110-111 | Records that came through validation all have parseable creation dates, so the statistics cannot throw. |
| `Db.NewRecord` | db/index.js:26-31 | The record built from an accepted candidate has a parseable createdAt and no updatedAt. |
| `Db.AddKeepsIdsUnique` | db/index.js:27 | Appending a record whose id exceeds every stored id keeps ids unique. |
| `Db.SameTickAddsCollide` | db/record.js:11-13 | Two accepted adds with the same clock reading leave two records with the same id. |
| `Db.DeleteRemovesIdWhenUnique` | db/index.js:69 | With unique ids, after removing the first match no record with that id remains. |
| `Db.DeleteKeepsDuplicate` | db/index.js:66-69 | When a later record shares the id, it is still found after the delete. |
| `Db.UpdateKeepsIdsUnique` | db/index.js:52-54 | Changing one record's name and value keeps unique ids unique. |
| `RecordUtils.ValidateRecord` | db/record.js:1-9 | Passes exactly when name, value and createdAt are present and non-empty and createdAt parses. A missing or empty name or value fails with the name/value error. A missing createdAt fails with its own error, and only when name and value passed. An unparseable createdAt fails with the invalid-date error, and only when the earlier checks passed. |
| `RecordUtils.GenerateId` | db/record.js:11-13 | The id is the clock reading itself, with no counter or random part, so two calls in the same millisecond give the same id. |
| `RecordUtils.GenerateIdMonotone` | db/record.js:11-13 | Ids never decrease when the clock does not. |
| `Dates.ParseDate` | db/record.js:6-7 | Every accepted text denotes a valid calendar date with a four-digit year. |
| `Dates.ParseFormat` | main.js:42-51 | Printing a valid date as `YYYY-MM-DD` and parsing it gives the same date back. |
| `Dates.FormatParse` | main.js:51 | Every accepted text is already normalised: printing its parsed date gives the text back. |
| `Dates.Earliest` | db/index.js:111 | The minimum is one of the dates and on or before every one of them. |
| `Dates.Latest` | db/index.js:112 | The maximum is one of the dates and on or after every one of them. |
| `Text.NatToStringValue` | main.js:173 | The decimal text of a number reads back as that number, and has no leading zero unless it is 0. |
| `Text.IntToStringInjective` | main.js:105 | Two ids have the same text only if they are equal. |
| `Text.Utf16Length` | db/index.js:106 | JavaScript's `.length` counts UTF-16 code units: between the character count and twice it, and equal to the character count exactly when no character lies beyond U+FFFF. |
| `Text.TrimProperties` | main.js:130 | The trimmed text neither starts nor ends with white space, and trimming is idempotent. |
| `Text.ContainsIffOccurs` | main.js:106-107 | `includes` holds exactly when the term occurs at some position. |
| `Text.LexLeqTotal` | main.js:146 | Any two names are comparable. |
| `Text.LexLeqTransitive` | main.js:146 | The name order is transitive. |
| `Text.LexLeqAntisymmetric` | main.js:146 | Names that are ordered both ways are equal. |
| `Cli.PrepareAdd` | main.js:42-52 | Refuses exactly the dates that do not parse. Otherwise it passes the typed name and value on with the date in `YYYY-MM-DD` form. The result passes validation exactly when name and value are non-empty. |
| `Cli.Search` | main.js:101-108 | A record is in the result exactly when it is listed and matches: its id text equals the term, or its lower-cased name or value contains the lower-cased term. |
| `Cli.SearchAppend` | main.js:104-108 | Filtering keeps list order: searching a concatenation searches each part in turn. |
| `Cli.SearchEmptyTermFindsAll` | main.js:102-107 | An empty term finds every record, in order. |
| `Cli.SearchIdIsExact` | main.js:105 | A term equal to an id's text matches a record by id exactly when the record has that id. The comparison is not by substring. |
| `Cli.ParseSortField` | main.js:129-134 | Name or date is chosen exactly when the trimmed, lower-cased input is "name" or "date". Anything else is refused. |
| `Cli.ParseSortOrder` | main.js:136-141 | Asc or desc is chosen exactly when the trimmed, lower-cased input is "asc" or "desc". Anything else is refused. |
| `Cli.InOrderTotal` | main.js:145-149 | The comparator orders any two records one way or the other. |
| `Cli.InOrderTransitive` | main.js:145-149 | The comparator's order is transitive. |
| `Cli.SortedPairwise` | main.js:145-148 | In a sorted result, every earlier record is in order with every later one: names non-decreasing for asc and non-increasing for desc, and likewise for dates. |
| `Cli.InsertionSort` | main.js:145-149 | The array is rearranged in place into a permutation of itself, with each element in comparator order with the next. |
| `Cli.SortRecords` | main.js:143-149 | The result is a permutation of the list, with each record in order with the next. The list itself is a value and is not changed. |
| `Cli.SortCommand` | main.js:123-149 | An empty list is refused first, then a bad field, then a bad order. A non-empty list with a valid field and order always succeeds, and the result is the sorted permutation for the parsed field and order. |
| `Cli.AppendHeader` | main.js:170-175 | Appends exactly the header block, whose "Total Records" line carries the given count. |
| `Cli.AppendStanza` | main.js:177-183 | Appends exactly one record's ID/Name/Value/Created At lines and the separator. |
| `Cli.JoinMapAppend` | main.js:177-183 | The stanza text of a concatenation is the concatenation of the stanza texts. |
| `Cli.StanzaPosition` | main.js:177-183 | Record k's stanza sits between the stanzas of the records before it and those after it. |
| `Cli.BuildExport` | main.js:159-183 | An empty list produces no content. Otherwise the content is the header, whose record count is the list length, followed by one stanza per record in list order. |

## Left out

- The readline menu, the prompts and all console output (main.js): interactive I/O with no logic.
- File writes: `createBackup` (db/index.js:9-17) becomes the ghost `backups` log. Directory creation, file names and JSON formatting are not modelled. The export's `writeFileSync` is not modelled either; the content is returned as a value.
- The Mongo connection, the schema and the environment checks (db/mongo.js), and the HTTP status page (server.js). These are foreign library calls and network I/O.
- The event emitter (`../events`, `./events/logger`) is not part of this model. Emitted events are only appended to the ghost `events` log.
- `async`/`await`: every operation runs to completion in sequence. This includes the calls main.js makes without `await`.
- The clock: `Date.now()` is the `now` parameter of `AddRecord`. The export's timestamp and `toLocaleString` date are the `timestamp` and `exportDate` parameters of `BuildExport`.
- `Dates.ParseDate`: accepts only the canonical `YYYY-MM-DD` form of a valid calendar date with years 0000-9999. JavaScript's `Date` accepts many more forms. It also accepts a day up to 31 in any month and rolls it over, so "2024-02-30" passes main.js:43 and db/record.js:7 and main.js:51 stores it as "2024-03-01"; the model refuses such text. On accepted input the normalisation in main.js:51 is therefore the identity.
- Timestamps have day granularity. `updatedAt` is a calendar date, and `lastModified` prints it at midnight (`YYYY-MM-DD 00:00:00`). Nothing in the code sets `updatedAt`, so it stays `None` for every record the vault creates.
- `Text.LexLeq`: `localeCompare` is modelled as code-point lexicographic order, not a locale collation.
- `Text.Lower`: `toLowerCase` is modelled for ASCII letters only. This is exact for the "name"/"date"/"asc"/"desc" comparisons and approximate for search terms with other letters.
- Numbers: `value` is text. The schema's cast to Number, and the `TypeError` that `toLowerCase` would raise on a numeric value, are not modelled. Ids render as plain decimal; JavaScript's exponent notation above 1e21 is not modelled.
- `Cli.SortRecords`: does not state that records with equal keys keep their relative order, although the engine's sort is stable.
- `Cli.CreatedLeq`: a createdAt that does not parse sorts before all others. The JavaScript comparator returns NaN there, and the result is engine-dependent. A vault built by `AddRecord` holds no such record.
- `Db.SortById`: records with equal ids come out in the insertion-sort order. The store promises no order for them.
- `Db.Vault`: starts empty, and `Valid()` assumes every record came through `AddRecord`. Rows written to the collection by other programs are not modelled.
- Storage faults: a rejected `save()`, `find()`, `findOne()` or `deleteOne()` (db/index.js:33-81) is not caught in the code; in add, update and delete it ends the operation before its event and backup. These rejections are not modelled; every store call succeeds.
