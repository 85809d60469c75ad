# mssqltest.py in Dafny

`mssqltest.py` is a one-shot ETL script. It moves four tables of a SQL Server
database (`AmazonKP`) into staging tables of a second database
(`AmazonStageKP`). It first drops every foreign key of the source database,
remembering them. Then, for each pair of tables, it exports the source table
to a CSV file, truncates the source table, replays the file into the staging
table as one `INSERT` per row, and deletes the file. Finally it restores the
foreign keys and prints how many pairs succeeded. On the way into SQL, every
CSV token is classified:

- a number is rounded to an integer (half to even) and written unquoted;
- an ISO date is rewritten as `'YYYY/MM/DD'`;
- anything else is quoted as it is.

The model has one module per concern:

- `Wrappers`: `Option`.
- `Text`: decimal digits and `str(int)`, with its inverse. Also `Join`, the comma-separated list, and `IndexOf`, the first position of an element.
- `Rounding`: round-half-to-even of a rational, defined by a property and proved unique.
- `DecimalLiteral`: the number text `Decimal` accepts, as a datatype with a parser and its inverse.
- `IsoDate`: `YYYY-MM-DD` calendar dates, the Gregorian leap-year rule, and the `%Y/%m/%d` output.
- `PyValues`: the int-or-str values `transformValueToQuery` returns, with Python's `==` on them.
- `Transform`: `transformNumberValue`, `transformDateValue`, `transformValueToQuery` and `insertInto`. The first three are functions; `insertInto` is a method with its loop.
- `TransformExamples`: worked examples of rounding, dates, quoting and one whole statement.
- `Database`: the state the script changes, as classes.
  - `SourceDatabase`: the foreign keys, the table rows and each table's column names. `ADD CONSTRAINT` checks the rows against the key, as SQL Server does by default (`WITH CHECK`).
  - `FileSystem`: the CSV files, each holding its rows.
  - `StagingDatabase`: its tables, the statements it refuses, and the statements it has committed.
  - The script's `dropForeignKeys`, `restoreForeignKeys`, `exportDataToCsvFile`, `truncateTable` and `importDataFromCsvFile` are methods over these classes. They keep the source's loops.
- `Migration`: the top-level block of the script (`Run`, with its loop in `TransferTables`) and the closing percentages.

The top-level block is modelled as written, not as its comments say:

- `len(fileName) != 'x'` compares an int with a str, so it always holds (`LengthNeverEqualsX`). The "unsuccessful" branch is dead. Its `i += 1` would not change a `for` loop anyway.
- For a table that exists, `exportDataToCsvFile` can never return `'x'`. Its counter always equals the number of rows fetched.
- For a table that does not exist, `exportDataToCsvFile` returns `None`. Then `len(None)` raises a TypeError. The run stops with the foreign keys still dropped (`RunOutcome.Crashed`).
- The foreign keys are dropped before the two lists' lengths are compared. They are restored only when the lengths match. On a length mismatch the script ends with no foreign keys.
- When every source table exists, every pair is counted as successful. The run ends as `Finished(n, 0)` with the original constraints back exactly when every key still holds on the truncated tables. That is the case, for instance, when every exported parent table has its child tables exported too (`RestoreSucceedsWhenChildrenMove`).
- Otherwise `restoreForeignKeys` raises at the first key whose child rows have lost their parent (`OrphanedChild`). The keys before it are back, the rest stay dropped, and the script stops (`RunOutcome.RestoreFailed`).

## Model

| member | source | states |
|---|---|---|
| Text.IntToStringRoundTrip | mssqltest.py:135-137 | the text `str` gives an integer reads back as that integer |
| Text.ParseIntRoundTrip | mssqltest.py:135-137 | integer text that reads back (no leading zero, no minus zero) is exactly the `str` of its value, so the reading is the inverse of `str` |
| Text.NatToStringValue | mssqltest.py:137 | the decimal digits written for n have value n |
| Text.JoinSnoc | mssqltest.py:133-137 | appending one more value to a comma-separated list adds the separator and the value at the end |
| Text.IntToString | mssqltest.py:137 | defines `str` of an integer: a minus sign before the digits of a negative value. Its round trip is `Text.IntToStringRoundTrip` |
| Rounding.RoundHalfEven | mssqltest.py:114 | the result is within half a unit of num/den, and an exact tie gives the even neighbour |
| Rounding.HalfEvenRoundingUnique | mssqltest.py:114 | any integer with that property is the one RoundHalfEven returns, so `round` is fully determined |
| DecimalLiteral.ParseDecimalSound | mssqltest.py:113 | text the parser accepts is a well-formed literal that spells back to exactly that text |
| DecimalLiteral.ParseSpell | mssqltest.py:113 | every well-formed literal is accepted from its own spelling, and the parse gives that literal back |
| DecimalLiteral.ParseDecimal | mssqltest.py:113 | defines the number text `Decimal` accepts, as an optional sign and digits with at most one point. `DecimalLiteral.ParseDecimalSound` and `DecimalLiteral.ParseSpell` make it the inverse of the spelling |
| IsoDate.DaysInMonth | mssqltest.py:110 | every month has 28 to 31 days |
| IsoDate.ParseIsoDateSound | mssqltest.py:110 | an accepted token is a valid date (years 1 to 9999, day within its month) whose YYYY-MM-DD text is the token |
| IsoDate.ParseIsoDate | mssqltest.py:110 | defines what `datetime.fromisoformat` accepts of a `YYYY-MM-DD` token: the shape and a calendar date. Proved sound by `IsoDate.ParseIsoDateSound` and complete by `IsoDate.ParseFormatIso` |
| IsoDate.ParseFormatIso | mssqltest.py:110 | every valid date is accepted back from its YYYY-MM-DD text |
| IsoDate.FormatSlashed | mssqltest.py:110 | defines `strftime('%Y/%m/%d')`: four-digit year, two-digit month and day, slashes between. `IsoDate.SlashedIsDashesReplaced` relates it to the input token |
| IsoDate.SlashedIsDashesReplaced | mssqltest.py:110 | `strftime('%Y/%m/%d')` of a parsed token is the token with its two dashes turned into slashes |
| IsoDate.LeapDayExamples | mssqltest.py:110 | 29 February exists in 2024 and 2000, but not in 2023 or 1900 |
| IsoDate.OutOfRangeExamples | mssqltest.py:110 | 30 February, 31 April, month 13 and year 0 are all rejected |
| PyValues.PyEquals | mssqltest.py:167 | an int never equals a str; two values of one kind are equal exactly when they are the same value |
| Transform.TransformNumberValue | mssqltest.py:112-114 | defines `transformNumberValue` as the half-even rounding of the parsed literal, None where `Decimal` raises InvalidOperation. Its meaning is `Transform.NumberValueMeaning` |
| Transform.TransformDateValue | mssqltest.py:109-110 | defines `transformDateValue` as the slashed form of the parsed date, None where `fromisoformat` raises ValueError. Its meaning is `Transform.DateValueMeaning` |
| Transform.TransformValueToQuery | mssqltest.py:116-124 | defines the three-way choice: number, else quoted date, else quoted token. Its cases are `Transform.ValueToQueryCases` |
| Transform.NumberValueMeaning | mssqltest.py:112-114 | a result exists exactly when the token is a number, and it is the half-even rounding of the token's value |
| Transform.DateValueMeaning | mssqltest.py:109-110 | a result exists exactly when the token is a valid date, and it is the token with slashes for dashes |
| Transform.ValueToQueryCases | mssqltest.py:116-124 | the value is an int exactly for numeric tokens, rounded half to even. Otherwise a valid date gives the quoted slashed date, and any other token is the token between quotes |
| Transform.Render | mssqltest.py:133-137 | defines the text one token contributes to the query, `str` of the int or the str itself. What it gives for each kind of token is stated by the `Transform.*Renders*` lemmas below |
| Transform.InsertStatement | mssqltest.py:132-138 | defines the finished statement: `insert into T values (`, the rendered tokens joined by commas, `)`. `Transform.InsertInto` is proved to build exactly it |
| Transform.InsertInto | mssqltest.py:127-139 | the loop builds `insert into T values (` + the rendered tokens joined by commas + `)` |
| Transform.NumberRendersAsInteger | mssqltest.py:116-119 | a numeric token renders as integer text, with no quote and no point, that reads back as the half-even rounding of its value |
| Transform.IntegerTextUnchanged | mssqltest.py:112-119 | integer text as Python writes it passes through unchanged |
| Transform.DigitsRenderAsValue | mssqltest.py:112-119 | a digit string renders as its value with the leading zeros gone |
| Transform.LiteralRenders | mssqltest.py:112-119 | the text of any number renders as the `str` of the half-even rounding of its value |
| Transform.DateShapeIsNotNumber | mssqltest.py:118-122 | a date-shaped token never parses as a number, so the date branch decides it |
| Transform.DateRendersSlashed | mssqltest.py:121-122 | a valid date renders as `'YYYY/MM/DD'` |
| Transform.InvalidDateRendersQuoted | mssqltest.py:121-124 | a date-shaped token that is no calendar date is quoted as it is |
| Transform.WordRendersQuoted | mssqltest.py:123-124 | a token that starts with no digit, sign or point is quoted as it is, even when it holds a quote |
| Transform.EmptyInsert | mssqltest.py:132-139 | an empty row gives an empty values list |
| TransformExamples.TieToEvenDownExample | mssqltest.py:114 | "2.5" renders as 2 |
| TransformExamples.TieToEvenUpExample | mssqltest.py:114 | "3.5" renders as 4 |
| TransformExamples.NegativeTieExample | mssqltest.py:114 | "-2.5" renders as -2 |
| TransformExamples.LeadingZerosExample | mssqltest.py:112-114 | "007" renders as 7 |
| TransformExamples.TextExamples | mssqltest.py:124 | "It's" renders as `'It's'`, with its quote unescaped |
| TransformExamples.PlainTextExample | mssqltest.py:124 | "Widget A" renders as `'Widget A'` |
| TransformExamples.InsertExample | mssqltest.py:127-139 | the row 1, 2023-07-04, abc gives `insert into T values (1,'2023/07/04','abc')` |
| Database.Without | mssqltest.py:61 | dropping a constraint removes exactly the constraints with that name on that table |
| Database.WithoutFirst | mssqltest.py:59-62 | when names are unique, dropping the first listed constraint leaves exactly the rest |
| Database.DistinctSnoc | mssqltest.py:68-69 | adding a constraint keeps names unique exactly when its name is new |
| Database.Satisfied | mssqltest.py:68-69 | the data check of `ADD CONSTRAINT`: both tables and columns exist and every non-NULL child value appears in the parent column |
| Database.RestoreStops | mssqltest.py:67-69 | a key that clashes by name or fails its data check shows that the whole list cannot be restored, and what was added so far still holds |
| Database.TruncateKeepsEnforced | mssqltest.py:99 | emptying a table that no other table's key references keeps every key satisfied |
| Database.DistinctNotEarlier | mssqltest.py:67-69 | with unique names, a key's name never occurs among the keys before it, so a restore of the dropped list can only stop on the data |
| Database.SourceDatabase.DropConstraint | mssqltest.py:61 | `DROP CONSTRAINT` succeeds exactly when the table has that constraint, and then removes it |
| Database.SourceDatabase.AddConstraint | mssqltest.py:68-69 | `ADD CONSTRAINT` succeeds exactly when the name is free and the rows satisfy the key: both tables and columns exist and every non-NULL child value has a parent row. Then it appends the constraint; otherwise nothing changes |
| Database.SourceDatabase.DropForeignKeys | mssqltest.py:55-63 | returns every constraint in catalogue order and leaves none. The tables are unchanged |
| Database.SourceDatabase.Referenced | mssqltest.py:99 | defines when `TRUNCATE TABLE` is refused: another table's key references this one. `Database.SourceDatabase.TruncateTable` reports on it |
| Database.SourceDatabase.RestoreForeignKeys | mssqltest.py:66-70 | adds the list in order. It succeeds exactly when all names stay unique and every listed key holds on the rows. Otherwise it stops at the first key that clashes by name or is violated, with exactly the keys before it added. The rows never change |
| Database.SourceDatabase.TruncateTable | mssqltest.py:97-105 | empties the table and reports True exactly when it exists and no foreign key of another table references it (a self-reference does not block it); otherwise nothing changes (None). Every key that held still holds |
| Database.FileSystem.Create | mssqltest.py:78 | opening with `w+` leaves the file present and empty |
| Database.FileSystem.WriteRow | mssqltest.py:84 | `writerow` appends one row to the file |
| Database.FileSystem.Remove | mssqltest.py:174 | `os.remove` deletes the file and reports whether it existed |
| Database.StagingDatabase.Execute | mssqltest.py:147-148 | an INSERT commits exactly when its table exists and the statement is not one the server refuses (a ProgrammingError) |
| Database.UntilRejected | mssqltest.py:146-149 | the statements committed before the first refusal: a prefix of the statements, none of them refused, followed by a refused one unless it is all of them |
| Database.UntilRejectedAt | mssqltest.py:146-149 | that prefix is the only one with these properties |
| Database.CsvName | mssqltest.py:77 | the CSV file name is never the one-character sentinel `'x'` |
| Database.ExportDataToCsvFile | mssqltest.py:73-92 | a missing table gives None and no file. Otherwise the table's file holds its rows, and the result is never `'x'` |
| Database.InsertStatementsConcat | mssqltest.py:146-147 | the statements for two row lists one after the other are those of the first list followed by those of the second |
| Database.UntilRejectedConcat | mssqltest.py:146-149 | statements run in order: a refusal among the first ones ends the run there, otherwise all of them are committed and the later ones follow up to their own first refusal |
| Database.ImportSplitFile | mssqltest.py:146-149 | importing a file split in two commits the first part's statements and then, unless one of them was refused, the second part's up to its first refusal |
| Database.ImportDataFromCsvFile | mssqltest.py:142-150 | commits one INSERT per row of the file, in order, up to the first refused one, when the staging table exists, and none otherwise |
| Migration.Cleared | mssqltest.py:170 | truncating tables never adds or removes a table |
| Migration.ClearedContents | mssqltest.py:170 | after the run a listed table is empty and every other table keeps its rows |
| Migration.CsvNames | mssqltest.py:165-174 | the CSV file of every exported table is among the files a run deletes |
| Migration.CsvNamesContents | mssqltest.py:165-174 | the files a run deletes are exactly the CSV files of the exported tables |
| Migration.TransferLog | mssqltest.py:163-174 | defines the statements the first n pairs commit: for each pair whose staging table exists, its rows' statements up to the first refused one. `Migration.TransferLogStep` extends it by one pair |
| Migration.Percentage | mssqltest.py:190-191 | the percentage is 100·part/total rounded toward zero; a zero total has none (ZeroDivisionError) |
| Migration.LengthNeverEqualsX | mssqltest.py:167 | `len(fileName) != 'x'` holds for every file name |
| Migration.DropThenRestore | mssqltest.py:55-70 | dropping the foreign keys and restoring the dropped list gives back the same constraints in the same order |
| Migration.MoveTable | mssqltest.py:170-174 | truncate, import and delete: the source table is emptied, its rows are inserted up to the first refused statement when the staging table exists, and the file is gone |
| Migration.ProgressStep | mssqltest.py:163-177 | one more exported pair extends the truncated tables, the deleted files and the committed statements by exactly that pair |
| Migration.TransferTables | mssqltest.py:163-183 | the loop crashes exactly at the first missing source table. Whether or not it crashes, the pairs before that point are moved: exactly their tables are cleared, their files deleted and their statements committed. Without a crash that is every pair, all counted as successful |
| Migration.Run | mssqltest.py:155-187 | accepts any catalogue with unique names, including keys the rows already violate. A length mismatch counts every table as unsuccessful and leaves the constraints dropped. A crash leaves them dropped, with the pairs before the missing table moved. Otherwise every pair is moved and counted, and the run finishes with the original constraints exactly when all of them still hold; else the restore stops at the first violated key with the earlier ones back |
| Migration.RestoreSucceedsWhenChildrenMove | mssqltest.py:170-184 | when every exported parent's child tables are exported too, every key still holds after the truncations, so the restore succeeds |
| Migration.OrphanedChild | mssqltest.py:170-184 | a concrete catalogue where the key holds before the run and fails once only the parent table is truncated, so `restoreForeignKeys` stops |

## Left out

- Connections, cursors, credentials, printing, and closing connections are not modelled. The two databases and the file system are objects that the methods receive.
- CSV quoting and parsing are left out. A file holds the rows as lists of text fields, and reading a file back gives the same rows. The conversion of database values to text by `csv.writer` (`str` of each value, `None` as an empty field) is taken as already done in `Row`.
- The schema query's `ORDER BY` names `'TableWithForeignKey'` and `'PrimaryKeyName'`, which match the select list's column aliases, so the rows come sorted by child table and then by constraint name, in the server's collation. The model does not sort: the catalogue sequence stands for the query's result order. A server that refused the constants (error 408) would make `dropForeignKeys` raise before dropping anything; that path is not modelled.
- Multi-column foreign keys, which the query returns as one row per column, are left out. So are the schema prefixes in `TableWithForeignKey`/`TableWithPrimaryKey`. Constraint names are assumed unique (`Migration.Run` requires it), and `truncateTable` compares a parent table name as a plain string.
- Database.Satisfied: compares key values by their text, with the empty field as NULL. SQL Server compares by type and collation (so `'a'` and `'A'` can match under a case-insensitive collation), and ignores trailing spaces; those cases are not modelled.
- Database.StagingDatabase.Execute: which statements the staging server refuses with a ProgrammingError (a syntax error such as the unbalanced quote of `'It's'`, an unknown column) is a set given to the database, not derived from a T-SQL grammar. A missing staging table refuses every statement.
- Database.ImportDataFromCsvFile: only ProgrammingError is modelled; the script catches it and skips the rest of the file. A DataError or IntegrityError (a value that does not convert, a violated key in the staging database) is not caught by the script and would stop it; the model has no such failure.
- Transform.NumberValueMeaning: accepts only an optional sign and ASCII digits with at most one point. `Decimal` also takes exponents, surrounding whitespace, underscores, other Unicode decimal digits (`"１２"` is 12), `NaN` and `Infinity`. Those tokens fall through to the date and text branches in the model, where they are quoted. In Python, `round` of `NaN` raises a ValueError and `round` of `Infinity` an OverflowError, neither caught by the script. So `Transform.WordRendersQuoted` holds of Python only for tokens outside these forms.
- Transform.DateValueMeaning: accepts only `YYYY-MM-DD`. `datetime.fromisoformat` also takes a time part (`2023-07-04T10:00`) and, from Python 3.11, week dates (`2023-W27-2`) and the basic form with a separator-free time. In the model those tokens are quoted as text. (An all-digit `YYYYMMDD` token parses as a number first, in the script and in the model alike.)
- Transform.ValueToQueryCases: `str` of an integer longer than 4300 digits raises a ValueError in Python; the model has no such limit.
- IsoDate.FormatSlashed: `%Y` pads years below 1000 to four digits. Some C libraries write them unpadded.
- Migration.Percentage: uses exact arithmetic. The source divides in floating point and then truncates. Both give the same value for counts well below 2^53.
- Migration.Run: a failing `ADD CONSTRAINT` raises a ProgrammingError or IntegrityError that the script does not catch. The model ends the run there as `RestoreFailed`, without the percentages being printed; which of the two errors is raised is not modelled.
