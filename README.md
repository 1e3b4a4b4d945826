# myddlmaker in Dafny

A model of the core of `myddlmaker`, a Go library that turns Go struct
declarations into MySQL DDL. The model covers:

- the schema **validator**: table and column name uniqueness, existence of
  primary-key, index and foreign-key columns, one index-name space per table,
  foreign-key name uniqueness across the schema, the covering-index rule for
  foreign keys, and type / character-set / collation agreement of referencing
  and referenced columns. The diagnostics accumulate in a fixed order, and
  their texts are Go `%q` formats;
- the acronym-aware **CamelCase to snake_case** conversion with its table of
  common initialisms;
- **DDL emission** in `maker.go`: MySQL identifier quoting (section 9.2,
  "Schema Object Names", of the MySQL 8.0 Reference Manual), column, index,
  primary-key and table text, and the `Maker` that collects structs, parses
  them into tables and writes the script framed by
  `SET foreign_key_checks=0/1`;
- the **index constructors**;
- the older reflection-based **front end** (`parser.go`, `ddlmaker.go`):
  struct-tag handling, Go type names, table naming, `AddStruct`'s per-call
  duplicate detection and the header/footer framing of `generate`.

Code that changes state step by step is modelled as classes and methods:
`Validator.Validator`, `Maker.Maker`, `DdlMaker.DDLMaker`, and the output
buffer and writer in `Io`. Each method is proved against a specification
function. The properties of those functions are lemmas. The main ones:

- `ValidatorFacts.DiagnosticsEmpty`: the validator reports nothing exactly
  when the schema is well formed under an independent definition;
- `Maker.ReadQuotedRoundTrip`: quoting round-trips;
- `Snaker.SnakeCaseHasNoUpper`: converted names hold no upper-case letter;
- `DdlMaker.AllAccepted`: a call adds all its structs exactly when none is
  nil and no two share a key.

The shown files come from different versions of the library. One record set,
in `schema.dfy`, holds the fields each file reads. Each file is modelled
against its own text. Where the expected DDL strings in the tests differ from
`maker.go`, the model follows `maker.go` as written: a lower-case ` unsigned`,
a fixed trailer, and no COMMENT, DEFAULT, FULLTEXT, SPATIAL or CONSTRAINT
lines.

Files: `wrappers.dfy` (Option/Result), `seqs.dfy` and `strings.dfy` (sequence
and text helpers), `schema.dfy`, `io.dfy`, `snaker.dfy`, `index.dfy`,
`validator.dfy`, `validator_facts.dfy`, `messages.dfy`, `maker.dfy`,
`parser.dfy`, `ddlmaker.dfy`.

## Model

| member | source | states |
|---|---|---|
| Snaker.ToLower | snaker.go:22 | the result is never upper case, and a character that is not upper case is kept |
| Snaker.Lower | snaker.go:18 | same length; each character is lowered on its own |
| Snaker.InitialismShape | snaker.go:51-94 | every listed initialism is 2 to 5 characters long and begins with an upper-case letter |
| Snaker.InitialismsByLength | snaker.go:51-94 | the listed initialisms of length 2 and 5 are exactly the ones named; none of length 3 or 4 starts with O, N, F or B |
| Snaker.InitialismUpTo | snaker.go:39-45 | the result is "" or a listed prefix of the input of length 2..k; no longer listed prefix of length up to k exists |
| Snaker.LongestInitialism | snaker.go:38-47 | the result is "" or a listed initialism of length 2 to 5 that prefixes the input; no longer prefix of length up to 5 is listed |
| Snaker.StartsWithCommonInitialisms | snaker.go:38-47 | the loop from 5 down to 2 returns the longest listed prefix, or "" |
| Snaker.SnakeCase | snaker.go:31-35 | the converted text is the result, or "_" followed by the result |
| Snaker.DropUnderscore | snaker.go:31-35 | at most one leading underscore is dropped, and the text is unchanged exactly when it does not start with "_" |
| Snaker.ConvertedAt | snaker.go:14-28 | one loop step at position i consumes at least one character and produces the next piece of the conversion |
| Snaker.ConvertAt | snaker.go:14-28 | the loop body produces the piece and advance that ConvertedAt describes |
| Snaker.CamelToSnake | snaker.go:9-36 | the position-indexed loop plus the underscore drop computes SnakeCase |
| Snaker.ConvertedHasNoUpper | snaker.go:15-28 | no upper-case letter survives the conversion |
| Snaker.SnakeCaseHasNoUpper | snaker.go:9-36 | the final snake_case name holds no upper-case letter |
| Snaker.ConvertedKeepsLowerText | snaker.go:25-28 | text without upper-case letters is copied unchanged and in order |
| Snaker.SnakeCaseIdempotent | snaker.go:9-36 | converting an already converted name that does not start with "_" changes nothing |
| Snaker.ConvertedLowerStep | snaker.go:25-28 | a character that is not upper case is copied |
| Snaker.ConvertedUpperStep | snaker.go:20-23 | an upper-case letter that begins no initialism becomes "_" plus its lower case |
| Snaker.SnakeCaseShortExamples | snaker_test.go:11-34 | "" gives "", "i" gives "i", "I" gives "i", "ID" gives "id" |
| Snaker.SnakeCaseWordExample | snaker_test.go:15-18 | "One" gives "one" |
| Snaker.SnakeCaseLetterByLetter | snaker_test.go:19-22 | "ONE" gives "o_n_e" |
| Snaker.SnakeCaseInitialismExamples | snaker_test.go:51-54 | "HTTPSID" gives "https_id": the longest initialism is taken first |
| Snaker.InitialismSecondLetter | snaker.go:51-94 | every listed initialism has an upper-case second letter, OAuth included, and the only ones beginning with I have two letters |
| Snaker.NoInitialismBeforeLower | snaker.go:38-47 | an upper-case letter followed by one that is not upper case begins no initialism |
| Snaker.ConvertedLowerRun | snaker.go:25-28 | a run without upper-case letters is copied unchanged whatever follows it |
| Snaker.ConvertedWord | snaker.go:20-28 | a capitalised word becomes "_", its lower-case capital and the rest of the word |
| Snaker.ConvertedInitialism | snaker.go:15-19 | the longest initialism at a position becomes "_" and its lower-case form, and conversion resumes after it |
| Snaker.LongestFive | snaker.go:38-47 | a listed five-letter initialism at the start is always the one taken |
| Snaker.LongestId | snaker.go:38-47 | "ID" is the initialism taken wherever it begins the rest of a name |
| Snaker.SnakeCaseOAuthExample | snaker_test.go:55-58 | "OAuthClient" gives "oauth_client": OAuth, the one initialism with lower-case letters, is lowered as a unit |
| Snaker.SnakeCaseLongNameExample | snaker_test.go:35-38 | "ThisHasToBeConvertedCorrectlyID" gives "this_has_to_be_converted_correctly_id" |
| Snaker.SnakeCaseThisIdExample | snaker_test.go:39-42 | "ThisIDIsFine" gives "this_id_is_fine" |
| Snaker.SnakeCaseThisHttpsExample | snaker_test.go:43-46 | "ThisHTTPSConnection" gives "this_https_connection" |
| Snaker.SnakeCaseHelloHttpsExample | snaker_test.go:47-50 | "HelloHTTPSConnectionID" gives "hello_https_connection_id" |
| Snaker.SnakeCaseTableNameExample | table.go:13 | a type named FooBar gets the table name "foo_bar" |
| Snaker.ConvertedIdExample | snaker.go:16-19 | "ID" converts to "_id" before the underscore is dropped |
| Snaker.ConvertedHttpsIdExample | snaker.go:16-19 | "HTTPSID" converts to "_https_id" before the underscore is dropped |
| Snaker.LowerHttpsExample | snaker.go:18 | "HTTPS" lowers to "https" |
| Snaker.NoInitialismAtFoo | snaker.go:38-47 | no listed initialism begins "FooBar" |
| Snaker.ConvertedBarExample | snaker.go:14-28 | "Bar" converts to "_bar" |
| Snaker.ConvertedOoBarExample | snaker.go:14-28 | "ooBar" converts to "oo_bar" |
| Indexes.NewIndex | index.go:16-21 | the index keeps the given name and columns verbatim and in order, without any check |
| Indexes.NewUniqueIndex | index.go:28-33 | the unique index keeps the given name and columns verbatim and in order, without any check |
| Io.Buffer.constructor | maker.go:54 | a new buffer is empty |
| Io.Buffer.WriteString | maker.go:59 | a buffer write appends the text |
| Io.Writer.Write | maker.go:66-68 | a write that fits is accepted whole; one that does not fit returns the writer's error and writes nothing |
| Validator.Duplicates | validator.go:137-139 | one "duplicated name" diagnostic per reported name |
| Validator.RepeatsAfterAppend | validator.go:133-167 | checking a+b against the names seen reports a's reuses, then b's reuses against the seen names plus a; this is the shared name space |
| Validator.DuplicatesAppend | validator.go:133-167 | the reports on consecutive name lists are consecutive |
| Validator.ExtendDuplicates | validator.go:144-166 | checking the next kind of index against the names already seen extends the report to the combined name list |
| Validator.DiagnosticsParts | validator.go:37-45 | the whole report is the table-map checks, the per-table index checks, the foreign-key name checks and the foreign-key checks, in that order |
| Validator.Validator.constructor | validator.go:31-35 | a new validator holds the tables, no diagnostics, and FK index checking on |
| Validator.Validator.SaveError | validator.go:53-61 | saving appends exactly one diagnostic |
| Validator.Validator.Err | validator.go:63-70 | no error exactly when nothing was saved; otherwise the error carries every saved diagnostic |
| Validator.Validator.CreateTableMap | validator.go:72-98 | builds the table and column maps keyed by first occurrence and appends the repeated-table and repeated-column diagnostics |
| Validator.Validator.AddColumns | validator.go:84-94 | adds each column under (table, column) unless the key is taken, in which case it reports the repeat |
| Validator.Validator.CheckColumns | validator.go:102-108 | reports each missing column in order, and passes exactly when all exist |
| Validator.Validator.CheckNames | validator.go:134-142 | reports each name already seen, in order, and extends the seen set by all the names |
| Validator.Validator.ValidateIndex | validator.go:100-131 | missing primary-key columns are reported first, then index columns, then unique-index columns, in declaration order |
| Validator.Validator.ValidateIndexName | validator.go:133-167 | one diagnostic per reuse of a name across plain, unique, full-text and spatial indexes |
| Validator.Validator.ValidateConstraints | validator.go:169-181 | one diagnostic per reuse of a foreign-key name anywhere in the schema |
| Validator.Validator.ValidateForeignKeys | validator.go:183-190 | every table's foreign-key checks, tables in order |
| Validator.Validator.ValidateTableForeignKeys | validator.go:185-188 | for each key of a table, its column checks and then its reference checks |
| Validator.Validator.ValidateFKColumns | validator.go:192-208 | missing local columns are reported; "index required" on the local table only when checking is on, every column was found and no index begins with them |
| Validator.Validator.ValidateFKRef | validator.go:210-249 | a missing referenced table gives exactly one diagnostic and ends the checks; otherwise each reference is checked, then "index required" on the referenced table under the same three conditions |
| Validator.Validator.CheckReferences | validator.go:217-242 | checks each reference in order, and passes exactly when every referenced column exists |
| Validator.Validator.CheckReferenceAt | validator.go:219-232 | a missing referenced column is reported; a missing local column is skipped silently |
| Validator.Validator.CheckReference | validator.go:233-241 | type (or signedness), character set and collation mismatches are each reported on their own |
| Validator.Validator.HasIndex | validator.go:251-269 | true exactly when the columns begin the primary key, a plain index or a unique index; full-text and spatial indexes never count |
| Validator.Validator.HasPrefix | validator.go:271-281 | true exactly when the list is a prefix of the other |
| Validator.Validator.Validate | validator.go:37-51 | the maps are built, the diagnostics saved are exactly Diagnostics in order, and the result is nil exactly when none was saved |
| ValidatorFacts.DistinctAppend | validator.go:133-167 | a joined list has no repeats exactly when neither part has any and they share no name |
| ValidatorFacts.RepeatsEmpty | validator.go:133-181 | no name is reported exactly when the names are pairwise distinct |
| ValidatorFacts.RepeatsCount | validator.go:136-142 | a name occurring n times is reported n-1 times |
| ValidatorFacts.DuplicatesCount | validator.go:137-139 | each reported name gives exactly one diagnostic of its own |
| ValidatorFacts.IndexNameReports | validator.go:133-167 | an index name used n times across the four kinds of index is reported n-1 times |
| ValidatorFacts.IndexNameDiagsEmpty | validator.go:133-167 | no index-name diagnostic exactly when all index names of the table are distinct |
| ValidatorFacts.ReportedDuplicates | validator.go:137-139 | the duplicate diagnostics name exactly the reported names, in order |
| ValidatorFacts.ForeignKeyNameReports | validator.go:169-181 | the foreign-key names reported are exactly the reuses over all tables, in order |
| ValidatorFacts.ForeignKeyNameDiagsEmpty | validator.go:169-181 | no foreign-key name diagnostic exactly when all foreign-key names of the schema are distinct |
| ValidatorFacts.TableMapKeys | validator.go:72-98 | the table map's keys are the table names, each bound to a table of that name |
| ValidatorFacts.TableMapFirst | validator.go:77-82 | the first table of a name keeps the map slot |
| ValidatorFacts.ColumnsOfMap | validator.go:84-94 | adding a table's columns keeps the existing entries and adds exactly its column names, each bound to a column of that name |
| ValidatorFacts.ColumnsOfFirst | validator.go:84-94 | a column name that repeats within a table stays bound to the first column of that name |
| ValidatorFacts.ColumnMapFirst | validator.go:72-98 | in the finished column map, (table, column) is bound to the first column of that name in the first table of that name; that column's type, character set and collation are the ones the reference checks compare |
| ValidatorFacts.ColumnMapKeys | validator.go:84-97 | the column map holds exactly the columns of the table that owns each name in the table map, so a repeated table's columns are not registered |
| ValidatorFacts.ColumnDiagsAreRepeats | validator.go:84-94 | the column diagnostics of a table are one per reuse of a column name within it |
| ValidatorFacts.TableMapReports | validator.go:76-80 | the tables reported as repeated are exactly the reuses of table names, in order |
| ValidatorFacts.TableMapDiagsEmpty | validator.go:72-98 | building the maps reports nothing exactly when table names are distinct and each table's column names are distinct |
| ValidatorFacts.NotFoundEmpty | validator.go:102-108 | no missing-column diagnostic exactly when every column exists |
| ValidatorFacts.IndexesNotFoundEmpty | validator.go:110-119 | no index-column diagnostic exactly when every column of every index exists |
| ValidatorFacts.UniqueIndexesNotFoundEmpty | validator.go:121-130 | the same for unique indexes |
| ValidatorFacts.LookupColumn | validator.go:84-97 | for a table that owns its name, the column map finds exactly its own columns |
| ValidatorFacts.KeysChecks | validator.go:100-131 | validateIndex reports nothing exactly when the key and all index columns are columns of the table |
| ValidatorFacts.IndexPartEmpty | validator.go:40-43 | the per-table loop reports nothing exactly when every table's keys exist and its index names are distinct |
| ValidatorFacts.ReferenceCheck | validator.go:217-241 | one reference reports nothing exactly when the referenced column exists and, if the local one exists too, both agree in type, signedness, character set and collation |
| ValidatorFacts.ReferencesDiagsEmpty | validator.go:217-242 | the reference loop reports nothing exactly when every reference agrees |
| ValidatorFacts.FKColumnCheck | validator.go:192-208 | the column checks of a key report nothing exactly when all its columns exist and, unless skipped, an index begins with them |
| ValidatorFacts.FKRefCheck | validator.go:210-249 | the reference checks report nothing exactly when the reference is sound and, unless skipped, an index of the referenced table begins with the references |
| ValidatorFacts.ForeignKeyCheck | validator.go:183-249 | all checks of one foreign key report nothing exactly when that key is sound |
| ValidatorFacts.ForeignKeyDiagsEmpty | validator.go:183-190 | the foreign-key checks report nothing exactly when every key of every table is sound |
| ValidatorFacts.DiagnosticsEmpty | validator.go:37-51 | Validate reports nothing exactly when the schema is well formed under an independent definition: distinct names, existing key columns, distinct index and FK names, sound foreign keys |
| Messages.GoEscaped | validator.go:58-61 | the escaped text is longer by one per double quote and backslash |
| Messages.GoQuoted | validator.go:58-61 | %q text opens and closes with a double quote, and its length counts the escapes |
| Messages.ReadGoBodyStep | validator.go:58-61 | reading past one escaped character gives back that character |
| Messages.ReadGoQuotedRoundTrip | validator.go:58-61 | reading a %q name back gives the name and leaves what follows untouched |
| Messages.GoQuotedInjective | validator.go:58-61 | different names never quote to the same text |
| Messages.GoQuotedPlain | validator.go:78 | a name without double quotes or backslashes is quoted verbatim |
| Messages.ErrorTextCount | validator.go:12-14 | the error text is "myddlmaker: N error(s) found", and N reads back as the number of diagnostics |
| Messages.Message | validator.go:76-246 | the definition of every diagnostic's text, one case per format string of the validator; each message begins with the repeated-table phrase or with "table" and a quoted name |
| Messages.MessageTableReadsBack | validator.go:76-246 | the table a diagnostic is about reads back from its message, and what follows it is the diagnostic's own detail |
| Messages.DuplicateTableExample | validator.go:78 | a repeated table foo11 gives `duplicated name of table: "foo11"` |
| Maker.Escaped | maker.go:136-141 | the escaped name is longer by one per backtick |
| Maker.EscapedAppend | maker.go:136-141 | escaping works character by character, so it distributes over concatenation |
| Maker.QuotedLength | maker.go:129-144 | a quoted name is the name's length plus 2 plus its backtick count, and is framed by backticks |
| Maker.ReadQuotedRoundTrip | maker.go:129-144 | reading a quoted name back by MySQL's rule gives the name and leaves what follows untouched |
| Maker.QuotedInjective | maker.go:129-144 | different names never quote to the same text |
| Maker.WriteEscaped | maker.go:137-140 | a backtick is written twice, any other character once |
| Maker.Quote | maker.go:129-144 | the builder loop computes the quoted name |
| Maker.QuotedAll | maker.go:146-152 | same length, element i is the quoted name i |
| Maker.QuoteAll | maker.go:146-152 | the slice-filling loop computes QuotedAll |
| Maker.ReadNamesRoundTrip | maker.go:121 | a column list joined by ", " reads back as exactly the names it was made from |
| Maker.ColumnLineStart | maker.go:96-97 | a column line starts with four spaces and the quoted name, which reads back as the column name |
| Maker.ColumnLineEnd | maker.go:106-111 | a column line ends with " NULL,\n" or " NOT NULL,\n", depending on nullability |
| Maker.ColumnLineShape | maker.go:95-112 | the start and end of a column line together |
| Maker.IndexLineReadsBack | maker.go:114-127 | an index line starts "    INDEX ", and the index name and its column list read back from it |
| Maker.PrimaryKeyLineReadsBack | maker.go:91 | the key's columns read back from the primary key clause, which is the one definition line without a trailing comma |
| Maker.TableTextShape | maker.go:84-93 | a table's text opens with DROP TABLE for its name, which reads back, and closes with the primary key clause and the fixed trailer |
| Maker.DocumentOrder | maker.go:53-70 | the script is the header, the tables' texts in order, then the footer; no tables gives header and footer only |
| Maker.NewPrimaryKey | maker.go:162-166 | the primary key keeps its columns verbatim and in order |
| Maker.FirstFailure | maker.go:72-82 | every struct before the position is accepted, and the struct at the position is rejected |
| Maker.TablesOf | maker.go:72-82 | table j is the table made from struct j |
| Maker.ParseAll | maker.go:72-82 | success exactly when every struct is accepted, and then one table per struct, in order |
| Maker.Maker.constructor | maker.go:28-32 | a new maker holds no structs and no tables |
| Maker.Maker.AddStructs | maker.go:34-36 | the structs are appended in argument order after the earlier ones |
| Maker.Maker.Parse | maker.go:72-82 | one slot per struct; the slots before the first rejected struct are filled, the rest are empty, and the error is that struct's wrapped reason |
| Maker.Maker.GenerateColumn | maker.go:95-112 | writes exactly the column line |
| Maker.Maker.GenerateIndex | maker.go:114-127 | writes one index line per index, in order |
| Maker.Maker.GenerateTable | maker.go:84-93 | writes exactly the table's text |
| Maker.Maker.Generate | maker.go:53-70 | the tables are filled as parse leaves them; a parse failure returns its error and writes nothing; otherwise the whole script goes to the writer in one write, which succeeds exactly when it fits and otherwise returns the writer's own error |
| Maker.Maker.WriteDocument | maker.go:58-68 | the script of the parsed tables is handed to the writer in one write: written whole and the room reduced when it fits, otherwise nothing written and the writer's error returned |
| Maker.Maker.GenerateTables | maker.go:60-62 | writes the parsed tables' texts in order |
| Strings.Split | parser.go:65 | one piece more than there are separators, and no piece holds the separator |
| Strings.Remove | parser.go:63 | the result holds no removed character and is shorter by exactly their number |
| Strings.Decimal | maker.go:101 | at least one digit, all digits, and no leading zero unless the number is 0 |
| Strings.JoinSplit | parser.go:65 | splitting on a separator and joining with it gives back the text |
| Strings.SplitAppend | parser.go:65 | splitting a+sep+b gives a's pieces and then b's pieces |
| Strings.SplitLast | parser.go:77-78 | the last piece is what follows the last separator |
| Strings.RemoveIdempotent | parser.go:63 | removing spaces twice is the same as once |
| Strings.DecimalRoundTrip | maker.go:101 | the decimal digits printed for a number read back as that number |
| Parser.TagTokensShape | parser.go:63-65 | tag tokens hold no spaces or commas, and joined with commas give back the space-free tag |
| Parser.IgnoredComma | parser.go:65-69 | a tag a,b excludes the field exactly when a or b does: any token, not only the first, counts |
| Parser.IgnoredSpaces | parser.go:63 | spaces in a tag never change whether it excludes the field |
| Parser.IgnoredExamples | parser.go:63-69 | "-" and " - " exclude a field; "", "-x" and "--" do not |
| Parser.PackageName | parser.go:75-79 | the package name holds no "/" and is what follows the last "/" of the path, or the whole path |
| Parser.PackageNameWhole | parser.go:76 | a path without "/" is its own package name |
| Parser.PackageNameLast | parser.go:76-79 | the package name of a/b is b whatever a is |
| Parser.TypeNameQualified | parser.go:73-80 | a type with a package path is named package name, "." and type name; the path is tested before the kind |
| Parser.TypeNameExamples | parser.go:72-89 | time.Time, sql.NullString from database/sql, *int, []string and int64 |
| Parser.FieldColumnShape | parser.go:62-92 | the result is the ignore error exactly when some token is "-"; otherwise the column has the snake-cased name, the type name and a space-free tag |
| Parser.ParseField | parser.go:62-92 | the token loop and type switch compute FieldColumn |
| Parser.TypeNameOf | parser.go:71-89 | the switch computes TypeName |
| Parser.ColumnsAppend | parser.go:45-55 | the columns of consecutive field runs are consecutive |
| Parser.ColumnsNone | parser.go:45-55 | a struct has no columns exactly when every field is ignored |
| Parser.ColumnsAllKept | parser.go:45-55 | with no ignored field, column i is field i's column |
| Parser.ParseColumns | parser.go:44-55 | the field loop keeps the columns of the fields that are not ignored, in field order |
| Parser.ParseTable | parser.go:94-117 | the definition of parseTable: the name is the snake-cased `Table()` result when present, else the snake-cased type name; the columns and the optional parts are taken as given |
| Parser.TableOfShape | parser.go:94-117 | with Table() the name is its snake-cased result whatever the type name; columns, primary key, foreign keys and indexes are handed on unchanged |
| DdlMaker.AddedNamesMember | ddlmaker.go:60-66 | a key is recorded exactly when an earlier non-nil argument of the call has it |
| DdlMaker.FirstRejected | ddlmaker.go:52-63 | the arguments before the position are non-nil with fresh keys, and the one at the position is nil or repeats a key |
| DdlMaker.RepeatRejected | ddlmaker.go:57-63 | two arguments of one call with the same key stop the call at the later one or before it |
| DdlMaker.AllAccepted | ddlmaker.go:49-70 | a call adds all its arguments exactly when none is nil and no two share a key |
| DdlMaker.AddStructCases | ddlmaker.go:50-55 | nil is refused with "nil is not supported" and nothing is added; a single struct is always added, whatever earlier calls added |
| DdlMaker.Pieces | ddlmaker.go:93-116 | the writes are the header, each table's text in order, then the footer |
| DdlMaker.Accepted | ddlmaker.go:94-114 | the writes before the count fit the writer's room, and the next one does not |
| DdlMaker.AcceptedAll | ddlmaker.go:93-116 | every write is accepted exactly when the whole text fits, and what is written is always a prefix of the whole text |
| DdlMaker.PiecesText | ddlmaker.go:104-114 | all writes together are the header, the tables' texts and the footer |
| DdlMaker.HeaderRefused | ddlmaker.go:94-97 | a refused header writes nothing and yields the header error |
| DdlMaker.AllWritten | ddlmaker.go:93-116 | with a parsing template and enough room, the output is header, tables in order and footer, with no error |
| DdlMaker.DDLMaker.constructor | ddlmaker.go:42-45 | a new maker holds no structs and no tables |
| DdlMaker.DDLMaker.AddStruct | ddlmaker.go:49-70 | the arguments before the first refused one are appended in order and stay appended, and the error names why that argument was refused |
| DdlMaker.DDLMaker.Parse | parser.go:39-60 | one table per struct is appended, in order, to the tables already held |
| DdlMaker.DDLMaker.Generate | ddlmaker.go:93-117 | the writer receives the accepted writes in order, and the error tells which write failed (header, template, table, footer) |
| DdlMaker.DDLMaker.WriteTables | ddlmaker.go:104-109 | the table loop stops at the first refused write, and the accepted writes are all in the output |
| DdlMaker.WritePiece | ddlmaker.go:94-97 | an accepted write extends the output by the piece; a refused write leaves it unchanged and ends the accepted count |

## Left out

- Logging: the `log.Println`/`log.Printf` echo of each diagnostic, and `log.Printf` in `DDLMaker.Generate`, are not modelled; only the diagnostic list is.
- File I/O: `Maker.GenerateFile` and `DDLMaker.Generate` open the output file, which is outside the model. `Maker.Generate` and `DDLMaker.generate` write to an abstract `Io.Writer` instead.
- `log.Fatalln` in `parse` (parser.go:52) cannot be reached in the model: `parseField` only fails with the ignore error.
- Panics of the reflection code are not modelled: `AddStruct` panics on a typed nil pointer (`reflect.Indirect` then `Type`, ddlmaker.go:57-58), and `parse` panics on an argument that is not a struct (`NumField`, parser.go:41-45). A descriptor is always a struct, so neither case can be expressed.
- Reflection is replaced by descriptors: `StructDesc`, `FieldDesc` and `TypeDesc`. A nil argument is `None`. A capability method (`Table()`, `PrimaryKey()`, `ForeignKeys()`, `Indexes()`) is an optional field, and a method that returns nil is the same as an absent one.
- The snake-casing library `serenize/snaker` is not part of this model, so the old front end takes the conversion as the parameter `toSnake`.
- The `dialect` package (`dialect.New`, `newColumn`, `newTable`, `TableTemplate`) is not part of this model. Columns and tables are the argument records `ColumnArgs` and `TableArgs`. The dialect's foreign-key and index lists are type parameters.
- `text/template`: parsing the template is the parameter `templateError`, and executing it for a table is the function `render`. Partial output written by a failing execution is not modelled: each table's text is written whole or not at all.
- `Io.Writer.Write`: a writer either accepts a whole write or refuses it; short writes are not modelled.
- `New(config)`, `Config` and `DBConfig` are not modelled; the makers start empty.
- `newTable` in `maker.go` (and `table.go`) is not part of this model. `Maker.Maker.Parse` and `Generate` take it as the parameter `newTable`.
- `generateIndex` panics on an index that is not `*index`. The model's index list holds only plain index records, so the panic cannot arise.
- `maker.go` as shown writes no unique, full-text, spatial or foreign-key lines, and the model writes none either.
- `custom_types.go` (the JSON column type) is not part of this model.
- `AddPrimaryKey` (parser.go:18-22) is the `PrimaryKeyDesc` record itself.
- Snaker.ToLower: letter case is ASCII only; `unicode.IsUpper` and `unicode.ToLower` on other runes are not modelled, and a character stands for a rune.
- Messages.GoQuoted: only the double-quote and backslash escapes of `%q` are modelled. Control and other non-printable characters and invalid UTF-8, which `%q` escapes with `\n`, `\x..` or `\u....`, are copied as they are; printable non-ASCII characters are kept by `%q` too.
- Validator.Validator.Validate: requires each foreign key to have no more references than columns. This is stronger than the source's own failure condition: `validateFKRef` (validator.go:227) panics only when a referenced column is found at a position past the last local column; a missing referenced table returns before that (validator.go:212-214) and a missing referenced column is skipped (validator.go:220-223).
- Maker.ColumnLineShape: states the beginning and the end of a column line. The middle (type, `(size)` only when the size is not 0, ` unsigned` only when set) is fixed by the definition of `ColumnLine`, which `GenerateColumn` is proved to write, but has no separate lemma.
- DdlMaker.DDLMaker.Parse: like the source, it appends to the tables already held, so calling it twice lists every table twice.
- Messages.DuplicateTableExample: only this one of the test file's message texts is stated as a literal; the other diagnostics' texts are given by `Message` and not pinned by examples.
