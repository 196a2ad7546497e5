# Plant data provider core, in Dafny

A model of the two parts of the Plant data-access layer that hold real logic.

- **`OraclePlantDataProvider`** (`Plant.Model/Core/OracleDataProvider.cs`). It splits a SQL script into commands at its
  `GO` / `GO <n>` separator lines, after removing backslash line continuations. It executes those commands in order on
  one connection. It decides when an identity sequence is recreated. `CreateDatabase` creates the database and then
  re-checks a bounded number of times that it exists. It also holds the connection-string template and the naming
  rules for foreign keys and indexes.
- **`PagedList<T>`** (`Plant.Model/Core/PagedList.cs`). One page of a result set with its page index, page size, total
  count and page count, built by three constructors, and the two flags for a previous and a next page.

Modules:

- `Text` (`text.dfy`) holds character and digit helpers:
  - .NET's `char.IsWhiteSpace`, `string.IsNullOrWhiteSpace` and the case-insensitive `StartsWith("GO")`;
  - the leftmost digit run that `Regex.Match(s, "([0-9]+)")` finds, read as `int.Parse` reads it;
  - decimal formatting of integers.
- `ScriptBatching` (`script_batching.dfy`) holds `GetCommandsFromScript`:
  - a recursive function that removes continuations;
  - the loop over the array `Regex.Split` returns, with its inner builder loop, proved against the specification
    function `BatchCommands`.
- `OracleProvider` (`oracle_provider.dfy`) holds:
  - a `DataConnection` class that records the commands sent to it. Whether the database refuses a command may depend
    on the commands sent before it, so the same text can succeed once and fail later;
  - `ExecuteSqlScript`, `GetTableIdent`/`SetTableIdent` and `CreateDatabase` with its retry loop;
  - `BuildConnectionString`, `GetForeignKeyName` and `GetIndexName`.
- `Paging` (`paged_list.dfy`) holds the `PagedList` class and its three constructors. These assign the fields step by
  step, using C#'s truncating `/` and `%` written out. The module also has the lemmas on page counts and page contents.

How the code behaves, some of it not what one might expect of this layer. The model follows the code on each point:

- `GO <n>` repeats the segment n times inside ONE command string. It does not produce n separate commands. The script
  `"INSERT INTO A VALUES (1)\nGO\nINSERT INTO A VALUES (2)\nGO 2\n"` therefore gives two commands, not three
  (`TwoInsertsExample`).
- Only the last element of the split array gets the line terminator. When a script ends with a separator line, that
  last element is the empty trailing segment, which is skipped. So no command then carries a terminator.
- Any split element that starts with "GO", in any case, is dropped. A statement that begins with those two letters is
  dropped with it.
- `GetTableIdent` returns the query's answer, or 1 when the query returns no row. A query that throws makes it throw;
  the model passes that failure through. A successful result is never absent, so the check `!currentIdent.HasValue`
  in `SetTableIdent` never fires. A failing query makes `SetTableIdent` fail too, before it sends anything.
- `SetTableIdent` sends `CREATE SEQUENCE SIDENTITY_<table>` without a start value. The identity query reads
  `SIDENTITY_'<table>'`, with quotes. The model records both texts as written. It does not model what the database
  does with them.
- `pageSize = 0` is a division by zero in the constructors. Here it is excluded by `requires pageSize != 0`.
- A negative `pageSize` is accepted. In the queryable and list constructors `Take` then takes nothing, and, the total
  being a count, the page count is at most 1: it is 1 exactly when 0 < total < -pageSize. The pre-sliced constructor
  keeps its items whatever the size, and with a negative caller-supplied total its page count can be larger
  (total -5 and size -2 give 2 pages).
- A negative `pageIndex` is not rejected: LINQ's `Skip` treats a negative count as 0, and `SkipTake` models exactly that.
- The pre-sliced constructor may receive a negative `totalCount`. For a positive page size, C#'s truncating division
  without the bump still gives the ceiling, for every int total.

## Model

| member | source | states |
|---|---|---|
| `Text.IsBlank` | Plant.Model/Core/OracleDataProvider.cs:39 | the empty string is blank, and a blank string never starts with "GO" |
| `Text.StartsWithGoSpellings` | Plant.Model/Core/OracleDataProvider.cs:39 | the ordinal case-insensitive prefix test accepts exactly "GO", "Go", "gO" and "go" |
| `Text.FirstDigitRun` | Plant.Model/Core/OracleDataProvider.cs:45-47 | no value exactly when the token has no ASCII digit |
| `Text.FirstDigitRunOfDigits` | Plant.Model/Core/OracleDataProvider.cs:45-47 | any digit run after a digit-free prefix, leading zeros included, is read back as its decimal value |
| `Text.LeadingZeroDigitRun` | Plant.Model/Core/OracleDataProvider.cs:45-47 | the separator `GO 05` counts 5 |
| `Text.FirstDigitRunOfDecimal` | Plant.Model/Core/OracleDataProvider.cs:45-47 | a number written in decimal after a digit-free prefix is read back as that number |
| `Text.DecimalDigits` | Plant.Model/Core/OracleDataProvider.cs:269 | formatting a port gives digits that parse back to the same value, with no leading zero |
| `Text.IntString` | Plant.Model/Core/OracleDataProvider.cs:269 | an int is printed with a leading '-' exactly when it is negative, followed by the shortest decimal digits of its magnitude |
| `ScriptBatching.StripContinuations` | Plant.Model/Core/OracleDataProvider.cs:34 | removing continuations never makes the script longer |
| `ScriptBatching.StripWithoutBackslash` | Plant.Model/Core/OracleDataProvider.cs:34 | a script without a backslash is unchanged |
| `ScriptBatching.LoneBackslashKept` | Plant.Model/Core/OracleDataProvider.cs:34 | a backslash followed neither by LF nor by CR LF stays in the script, and the rest is processed on its own |
| `ScriptBatching.StripDeletesLfContinuation` | Plant.Model/Core/OracleDataProvider.cs:34 | a backslash followed by LF is deleted wherever it stands; the text on each side is processed as if alone |
| `ScriptBatching.StripDeletesCrLfContinuation` | Plant.Model/Core/OracleDataProvider.cs:34 | the same for backslash, CR, LF |
| `ScriptBatching.StripBeforeBackslash` | Plant.Model/Core/OracleDataProvider.cs:34 | no match reaches across into text that starts with a backslash, because the replacement does not rescan |
| `ScriptBatching.Skipped` | Plant.Model/Core/OracleDataProvider.cs:39 | the empty element is skipped, and a kept element holds a character that is not white space |
| `ScriptBatching.RepeatCount` | Plant.Model/Core/OracleDataProvider.cs:42-48 | a count other than 1 comes only from a following element that starts with "GO" and whose first digit run is that count |
| `ScriptBatching.Repeat` | Plant.Model/Core/OracleDataProvider.cs:50-53 | appending a text n times gives n times its length |
| `ScriptBatching.BatchCommand` | Plant.Model/Core/OracleDataProvider.cs:50-58 | the last element is its text plus the terminator; any other is its text repeated `RepeatCount` times |
| `ScriptBatching.GetCommandsFromScript` | Plant.Model/Core/OracleDataProvider.cs:29-62 | the loop returns exactly `BatchCommands` of the split of the continuation-free script |
| `ScriptBatching.BatchCommandsFollowKept` | Plant.Model/Core/OracleDataProvider.cs:37-58 | one command per element that is neither blank nor starts with "GO", in the elements' order, and no other command |
| `ScriptBatching.KeptUpToExactly` | Plant.Model/Core/OracleDataProvider.cs:37-40 | the kept positions are exactly the non-skipped ones, strictly increasing |
| `ScriptBatching.CommandsUpToFollowKept` | Plant.Model/Core/OracleDataProvider.cs:37-58 | the j-th command is the builder text of the j-th kept position |
| `ScriptBatching.AllSkippedNoCommands` | Plant.Model/Core/OracleDataProvider.cs:37-40 | when every element is blank or a separator, there are no commands |
| `ScriptBatching.EmptyScriptNoCommands` | Plant.Model/Core/OracleDataProvider.cs:37-40 | the empty array and the array `[""]` (the split of an empty script) give no command |
| `ScriptBatching.RepeatedBatch` | Plant.Model/Core/OracleDataProvider.cs:42-58 | a non-last element followed by a separator whose digits are n is one command: its text n times, each block equal to the text, no terminator; `GO 0` gives "" |
| `ScriptBatching.RepeatBlock` | Plant.Model/Core/OracleDataProvider.cs:51-53 | block q of the repeated text is the text itself |
| `ScriptBatching.GoWithCount` | Plant.Model/Core/OracleDataProvider.cs:43-47 | a following token `GO <n>` makes the count n |
| `ScriptBatching.SingleBatch` | Plant.Model/Core/OracleDataProvider.cs:42-48 | a following element that is not a separator, or has no digit, gives count 1, with no terminator |
| `ScriptBatching.LastBatchTerminated` | Plant.Model/Core/OracleDataProvider.cs:43-56 | a kept last element gets the terminator exactly once and is the last command |
| `ScriptBatching.SingleSegmentScript` | Plant.Model/Core/OracleDataProvider.cs:37-58 | a script without separators gives one command: the text plus terminator |
| `ScriptBatching.GoThenGoTwo` | Plant.Model/Core/OracleDataProvider.cs:37-58 | `a GO b GO 2` gives the commands `a` and `b b`, two in all |
| `ScriptBatching.TwoInsertsExample` | Plant.Model/Core/OracleDataProvider.cs:37-58 | the two-insert script gives two commands, the second holding the insert twice |
| `OracleProvider.DataConnection.Execute` | Plant.Model/Core/OracleDataProvider.cs:185 | the command is appended to the connection's trace; it fails exactly when the database refuses it after the commands already sent |
| `OracleProvider.Attempted` | Plant.Model/Core/OracleDataProvider.cs:184-185 | the commands sent form a prefix of the list; every one but the last is accepted, each judged after those before it; a run that stops early ends at a refused command; with no refusal, the whole list is sent |
| `OracleProvider.AttemptedUpTo` | Plant.Model/Core/OracleDataProvider.cs:184-185 | the sent commands end at the first refused one |
| `OracleProvider.RefusalStops` | Plant.Model/Core/OracleDataProvider.cs:184-185 | a run stopped by the refusal at k has sent the commands 0 .. k, the last of them refused |
| `OracleProvider.RunsToEnd` | Plant.Model/Core/OracleDataProvider.cs:184-185 | a run without a refusal has sent every command |
| `OracleProvider.SendCommands` | Plant.Model/Core/OracleDataProvider.cs:184-185 | the commands are sent in order on the one connection until the first refusal, which is reported; it completes exactly when no command is refused |
| `OracleProvider.ExecuteSqlScript` | Plant.Model/Core/OracleDataProvider.cs:179-186 | exactly the split commands are sent, in order, on the one connection, until the first refusal, which is reported; it completes exactly when no command is refused |
| `OracleProvider.IdentityQuery` | Plant.Model/Core/OracleDataProvider.cs:211 | the whole query text: `SELECT SIDENTITY_`, the table name in single quotes, then `.NEXTVAL as Value from DUAL` |
| `OracleProvider.CreateSequenceCommand` | Plant.Model/Core/OracleDataProvider.cs:231 | `CREATE SEQUENCE SIDENTITY_` followed by the table name, unquoted, with no start value |
| `OracleProvider.GetTableIdent` | Plant.Model/Core/OracleDataProvider.cs:206-215 | a failing query fails, with the same error; otherwise the query's value, or 1 without one; a success is never absent |
| `OracleProvider.IdentCommands` | Plant.Model/Core/OracleDataProvider.cs:224-231 | at most one command; `CREATE SEQUENCE` is sent exactly when the identity could be read and the requested one exceeds it |
| `OracleProvider.IdentNeverLowered` | Plant.Model/Core/OracleDataProvider.cs:225-227 | a request at or below the current identity sends nothing |
| `OracleProvider.IdentWithoutSequence` | Plant.Model/Core/OracleDataProvider.cs:214-227 | without a sequence value, only a request above 1 creates the sequence |
| `OracleProvider.IdentQueryFailure` | Plant.Model/Core/OracleDataProvider.cs:211-215 | a failing identity query sends nothing, whatever the request |
| `OracleProvider.EveryQueryFails` | Plant.Model/Core/OracleDataProvider.cs:211-214 | when the database throws on every query, the identity query's failure is the result |
| `OracleProvider.SetTableIdent` | Plant.Model/Core/OracleDataProvider.cs:222-232 | the connection's trace grows by exactly `IdentCommands`; a failing identity query is reported as that query's failure; otherwise failure only when the `CREATE SEQUENCE` command is sent and refused |
| `OracleProvider.CreateDatabaseQuery` | Plant.Model/Core/OracleDataProvider.cs:107-109 | `CREATE DATABASE [name]`, with ` COLLATE c` appended exactly when c is not blank |
| `OracleProvider.CreateDatabase` | Plant.Model/Core/OracleDataProvider.cs:91-136 | nothing when the first probe succeeds; otherwise the query is issued; with `triesToConnect <= 0` it stops there; otherwise it stops at the first successful re-check (one sleep per failed one), or fails after `triesToConnect` failed re-checks |
| `OracleProvider.BuildConnectionString` | Plant.Model/Core/OracleDataProvider.cs:264-271 | an argument error exactly for an absent info; otherwise the fixed template text, ending in ';' |
| `OracleProvider.TemplateReadBack` | Plant.Model/Core/OracleDataProvider.cs:269 | in any text of the template's shape, host, port and user can be read back |
| `OracleProvider.TemplatePassword` | Plant.Model/Core/OracleDataProvider.cs:269 | in any text of the template's shape, the text ends with the password infix, the password and ';' |
| `OracleProvider.ConnectionStringFields` | Plant.Model/Core/OracleDataProvider.cs:269 | server, port (printed as an int, any sign) and user are substituted in that order and can be read back from the string |
| `OracleProvider.ConnectionStringPassword` | Plant.Model/Core/OracleDataProvider.cs:269 | the string ends with ";Password=", the password and ';', at the position after the user name |
| `OracleProvider.ConnectionStringPortDigits` | Plant.Model/Core/OracleDataProvider.cs:269 | a non-negative port is the first run of digits after the host |
| `OracleProvider.GetForeignKeyName` | Plant.Model/Core/OracleDataProvider.cs:282-295 | `FK_<ft>_<fc>_<pt>` followed by the primary column, with one extra "_" in the long form |
| `OracleProvider.ForeignKeyLongForm` | Plant.Model/Core/OracleDataProvider.cs:290-292 | the long form is the short form with "_" inserted before the primary column |
| `OracleProvider.ForeignKeyShortExample` | Plant.Model/Core/OracleDataProvider.cs:282-295 | `FK_Orders_CustomerId_CustomersId` for the short form |
| `OracleProvider.ForeignKeyLongExample` | Plant.Model/Core/OracleDataProvider.cs:282-295 | `FK_Orders_CustomerId_Customers_Id` for the long form |
| `OracleProvider.GetIndexName` | Plant.Model/Core/OracleDataProvider.cs:304-307 | `IX_`, then the table, then `_`, then the column, by length and positions |
| `OracleProvider.IndexNameIgnoresForm` | Plant.Model/Core/OracleDataProvider.cs:304-307 | `isShort` does not change the name, which holds the table and the column in place |
| `OracleProvider.IndexNameExample` | Plant.Model/Core/OracleDataProvider.cs:304-307 | `IX_Orders_CustomerId` for either form |
| `Paging.TruncDiv` | Plant.Model/Core/PagedList.cs:25 | C#'s int `/`: the magnitudes divided and rounded down, with the sign of a * b, so it truncates toward zero (also lines 46 and 66) |
| `Paging.TruncRem` | Plant.Model/Core/PagedList.cs:27 | C#'s int `%`: `a == b * (a / b) + a % b`, smaller than the divisor in magnitude, with the sign of the dividend (also lines 48 and 68) |
| `Paging.TruncDivNegatedDivisor` | Plant.Model/Core/PagedList.cs:25-27 | a negative divisor flips the quotient's sign and leaves the remainder |
| `Paging.PageCountIsCeiling` | Plant.Model/Core/PagedList.cs:25-28 | the truncated quotient plus one on a positive remainder is the ceiling of total / pageSize, for every int total and positive size (also lines 46-49 and 66-69) |
| `Paging.PageCount` | Plant.Model/Core/PagedList.cs:25-28 | for a positive size the ceiling; for a negative size and a non-negative total at most 1, and 1 exactly when 0 < total < -size (also lines 46-49 and 66-69) |
| `Paging.NegativeSizePageCount` | Plant.Model/Core/PagedList.cs:25-28 | the constructors' formula with a negative size and a non-negative total gives at most one page, exactly when 0 < total < -size |
| `Paging.NegativeTotalNegativeSizeExample` | Plant.Model/Core/PagedList.cs:66-69 | a total of -5 with size -2 gives quotient 2, remainder -1 and 2 pages, so the one-page bound needs a non-negative total |
| `Paging.CeilingUnique` | Plant.Model/Core/PagedList.cs:25-28 | the ceiling is unique |
| `Paging.PageCountOfCount` | Plant.Model/Core/PagedList.cs:23-28 | for a real count the page count is non-negative and zero exactly when there are no items |
| `Paging.SkipTake` | Plant.Model/Core/PagedList.cs:33 | `Skip(k).Take(n)`: `min(n, |s| - k)` items (clamped), item j being source item k + j |
| `Paging.PageNonEmpty` | Plant.Model/Core/PagedList.cs:53 | page i holds an item exactly when i < TotalPages |
| `Paging.PagesUpToPrefix` | Plant.Model/Core/PagedList.cs:53 | the first n pages concatenated are the first n * pageSize items |
| `Paging.PagesPartitionSource` | Plant.Model/Core/PagedList.cs:53 | pages 0 .. TotalPages-1 concatenated are the whole source |
| `Paging.PagedList.FromQuery` | Plant.Model/Core/PagedList.cs:21-35 | count = source length, page count from `PageCount` (the ceiling for a positive size), index and size as passed; count-only mode leaves items empty and `Data` unset; otherwise `Data` and the items are the same page slice |
| `Paging.PagedList.FromList` | Plant.Model/Core/PagedList.cs:43-54 | count = source length, page count from `PageCount`, items = the page slice (at most pageSize, none for a negative size, at most the count), `Data` unset |
| `Paging.PagedList.FromSlice` | Plant.Model/Core/PagedList.cs:63-74 | the caller's total kept as given, page count from `PageCount` of that total, items = source unchanged, `Data` unset |
| `Paging.PagedList.HasPreviousPage` | Plant.Model/Core/PagedList.cs:99 | for a positive size and an index up to the page count: true exactly when the page before starts at an existing item; true for any index past the last page |
| `Paging.PagedList.HasNextPage` | Plant.Model/Core/PagedList.cs:104 | for a positive size: true exactly when the page after starts at an existing item |
| `Paging.HasNextPageMeansMoreItems` | Plant.Model/Core/PagedList.cs:104 | for any non-zero size, `HasNextPage` exactly when the following page holds items; false on page TotalPages-1 |
| `Paging.HasPreviousPageMeansEarlierItems` | Plant.Model/Core/PagedList.cs:99 | for any non-zero size and an index within range, `HasPreviousPage` exactly when an earlier, non-empty page exists |

## Left out

- `Regex.Split` with the separator pattern is not modelled. `GetCommandsFromScript` takes it as a parameter `split`
  and states everything on the array it returns. In that array the captured separator tokens are the elements that
  start with "GO".
- `pageSize = 0` throws `DivideByZeroException` in each constructor. The constructors require a non-zero size, so
  that exception is not modelled.
- The source's optional arguments are parameters every caller passes. Omitting them in the source gives
  `triesToConnect = 10` for `CreateDatabase`, `isShort = true` for `GetForeignKeyName` and `GetIndexName`, and
  `getOnlyTotalCount = false` for the queryable `PagedList` constructor.
- `Environment.NewLine`, which `AppendLine` writes, is the parameter `newLine`, because it depends on the platform.
- 32-bit `int` is unbounded here. `int.Parse` overflow on a huge repeat count is not modelled, nor is overflow of
  `pageIndex * pageSize`.
- Nothing beyond the recorded trace is modelled for the database: not the driver, not the network, not transactions.
  - Connections are not opened or disposed.
  - `CreateDbConnection` and `CreateDataConnection` are left out; the connection is a parameter.
  - The linq2db `Query`, `Execute` and `GetTable<T>().TableName` are left out: the table name is a parameter, and the
    query's answer is the function `nextValue`.
  - Querying `NEXTVAL` advances the sequence in the database. That side effect is not modelled.
- `IsDatabaseExists` is not modelled; its successive answers are the function `probe`. The `CREATE DATABASE` statement
  issued on the `master` connection is returned in the result; this model does not execute it, and gives it no way to
  fail. `Thread.Sleep(1000)` becomes a count of sleeps.
- `GetConnectionStringBuilder` and `SqlConnectionStringBuilder` are not modelled; the database name is a parameter.
- `Convert.ToInt32` of the decimal query result is not modelled; the answer is taken as an int.
- A null `collation` is modelled as the empty string; the source treats both alike through `IsNullOrWhiteSpace`.
- `IPlantConnectionStringInfo` is not part of this model. The info is an `Option<ConnectionInfo>`, and `Port` is taken
  as an int printed in decimal.
- The empty stubs `BackupDatabase`, `RestoreDatabase`, `ReIndexTables` and `InitializeDatabase`, the constant
  `SupportedLengthOfBinaryHash` and the `LinqToDbDataProvider` property have no behaviour and are left out.
- `PagedList` is a mutable `List<T>` after construction. Only construction and the two flags are modelled. The
  queryable source is enumerated several times. It is modelled as one sequence, on the assumption that it does not
  change between those passes.
- OracleProvider.BuildConnectionString: its own contract states the error case, the fixed prefix and the final ';'.
  Where the fields sit is stated by `ConnectionStringFields`, `ConnectionStringPassword` and
  `ConnectionStringPortDigits`. Reading the host and the user back needs a server name without ')' and a user name
  without ';', since otherwise the string does not determine where they end. Reading the port as a digit run needs a
  non-negative port; for any port, its printed form is read back.
- OracleProvider.GetIndexName: its own contract gives only the length and the fixed characters. `IndexNameIgnoresForm`
  states that the table and column stand in place.
- Paging.PagedList.HasPreviousPage and Paging.PagedList.HasNextPage: their own contracts relate the flag to item
  positions only for a positive page size. `HasPreviousPageMeansEarlierItems` and `HasNextPageMeansMoreItems` state
  the flags for any non-zero size. An index past the last page is stated to report a previous page when the page
  count is non-negative. A negative page count arises only from a negative caller-supplied total, and nothing is
  stated for it.
