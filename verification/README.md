# TeamViewer log parsers, modelled in Dafny

This project models the three parsers of a small forensics tool. They read
TeamViewer connection logs and write them out as reports.

- `teamviewer_ci_parser.py` reads an `incoming_connections` log. Each line
  holds tab-separated fields. The parser files one entry per line under a
  case reference in an SQLite store. It can then write a case's entries as
  a comma-separated report (or pick the HTML report).
- `teamviewer_oldlog_parser.py` reads the older space-separated log. It
  writes two tab-separated files: one row per line that starts with a
  digit, and one row per such line holding an IPv4-shaped address. It also
  writes a text file listing every address found.
- `simple_ci_parser.py` copies an `incoming_connections` log into a
  tab-separated file under a fixed header. It refuses to write over an
  output file whose name contains `tv_master`.

Modules:

- `Text`: the Python string operations the parsers use. This covers
  `split`, `join`, `strip`/`rstrip`, `filter(None, …)`, `isdigit`,
  `endswith`, `in`, `os.path.basename`, `str(n)`, and iterating over the
  lines of a file.
- `CsvRows`: `csv.writer` rows in the default dialect. Minimal quoting is
  modelled: a field holding the delimiter, `"`, `\r` or `\n` is quoted, an
  inner `"` is doubled, and every row ends with `\r\n`.
- `DottedQuad`: `re.findall(r'[0-9]+(?:\.[0-9]+){3}', line)`, as a
  left-to-right scanner.
- `ConnectionStore`: the two peewee tables (`Case`, `TeamViewerLogs`) as an
  in-memory class. Ids count up from 1 in insertion order.
- `TeamViewerCi`, `OldLog`, `SimpleCi`: one module per script.

The model follows the code as written. In particular:

- An `incoming_connections` line with fewer than seven fields is not
  dropped. The partly filled dict (no `case_ref`, since that key is set
  last) is still appended and inserted, and an error is logged for it
  (`teamviewer_ci_parser.py:162-173`).
- The case report is written by `csv.DictWriter` with its default comma
  delimiter, not a tab (`teamviewer_ci_parser.py:244-248`).
- `data_parser` glues only tokens 5 and 6 into the last field and drops any
  token from 7 on. `ip_parser` glues every token from 5 on
  (`teamviewer_oldlog_parser.py:50`, `:77`).
- A legacy line with five tokens or fewer does not fail. The slice
  assignment just appends an empty last field.
- When the legacy script's input is not a file, it writes nothing. It then
  prints the message about the master file's name, although that is not
  what went wrong.

## Model

| member | source | states |
|---|---|---|
| Text.Split | teamviewer_ci_parser.py:160 | `str.split(d)` gives at least one piece, and no piece holds the separator |
| Text.JoinSplit | teamviewer_ci_parser.py:160 | joining the pieces of a split with the separator gives back the string |
| Text.SplitJoin | simple_ci_parser.py:54 | splitting a join gives back the parts when no part holds the separator |
| Text.SplitLastNonEmpty | simple_ci_parser.py:51-54 | a string not ending in the separator has a non-empty last piece |
| Text.NonBlankLines | teamviewer_ci_parser.py:154 | every kept line is non-empty and ends in a non-whitespace character, and no more lines are kept than read |
| Text.NonBlankLinesMembers | simple_ci_parser.py:51 | a string is kept exactly when it is non-empty and some input line right-strips to it |
| Text.NonBlankLinesAppend | teamviewer_ci_parser.py:154 | the filter works line by line: it distributes over concatenation |
| Text.FileLines | teamviewer_oldlog_parser.py:44 | iterating over a file yields non-empty lines, each but the last ending in its only `\n`, and together they are the file's text |
| Text.FileLinesFirst | teamviewer_oldlog_parser.py:70-71 | a line holding no `\n`, followed by `\n`, is read back as one whole line |
| Text.StripSetEnds | teamviewer_oldlog_parser.py:46-47 | a stripped string neither starts nor ends with a stripped character |
| Text.StripDropsLast | teamviewer_oldlog_parser.py:46 | `strip(' \n')` on a file line leaves no `\n` in it |
| Text.ContainsAt | simple_ci_parser.py:18 | the `in` test holds exactly when the substring occurs at some offset |
| Text.Basename | simple_ci_parser.py:18 | the basename is the suffix after the last `/` and holds no `/` |
| Text.BasenameOfJoin | simple_ci_parser.py:18 | the basename of `dir/name` is `name`, whatever the directory |
| Text.NatToString | teamviewer_ci_parser.py:248 | `str(id)` is a non-empty string of decimal digits |
| Text.NatToStringRoundTrip | teamviewer_ci_parser.py:248 | reading the written id back as a decimal gives the id |
| CsvRows.ReadFormatField | teamviewer_ci_parser.py:248 | every field, quoted or not, is read back as it was before writing |
| CsvRows.PlainRowRoundTrip | teamviewer_oldlog_parser.py:85-87 | a row with no field needing quotes is written as its delimiter join plus `\r\n`, and splitting that line gives the row back |
| CsvRows.WriteRows | teamviewer_oldlog_parser.py:86-87 | one record per row, in order, each the row's formatted text |
| CsvRows.FormatRowsAfterHeader | simple_ci_parser.py:64-68 | a header record followed by one record per row are the records of the table with the header on top |
| ConnectionStore.Lookup | teamviewer_ci_parser.py:240-241 | `get` finds nothing exactly when no pair has the key, and otherwise finds a pair's value |
| ConnectionStore.RowsOfCase | teamviewer_ci_parser.py:204-205 | the selection keeps only rows filed under the case and never more rows than stored |
| ConnectionStore.RowsOfCaseMembers | teamviewer_ci_parser.py:240-241 | a row is selected exactly when it is stored and filed under the case |
| ConnectionStore.RowsOfCaseAppend | teamviewer_ci_parser.py:175-177 | selecting after an append selects the old rows, then the new ones |
| ConnectionStore.RegisteredProperties | teamviewer_ci_parser.py:134-140 | `get_or_create` keeps every registered case, adds the reference at most once, keeps references unique (`unique=True`), and is idempotent |
| ConnectionStore.IndexOf | teamviewer_ci_parser.py:134 | the position found holds the reference, and no earlier position does |
| ConnectionStore.Store.constructor | teamviewer_ci_parser.py:115-125 | a new database has both tables empty |
| ConnectionStore.Store.GetOrAddCase | teamviewer_ci_parser.py:128-140 | the case is created exactly when it was missing, the Case table becomes the registered list, and the log rows are unchanged |
| ConnectionStore.Store.InsertMany | teamviewer_ci_parser.py:176-177 | the batch is appended, numbered on from the last id, and the cases are unchanged |
| TeamViewerCi.FillEntry | teamviewer_ci_parser.py:158-171 | the dict gets the column keys for as many fields as there are, `case_ref` only when all seven exist, and the error flag is raised exactly when a field is missing |
| TeamViewerCi.EntryOfLookup | teamviewer_ci_parser.py:163-170 | each column key maps to its field when the line had that many fields and is absent otherwise; `case_ref` is present exactly for complete lines; fields past the seventh are ignored |
| TeamViewerCi.ReportCellsOfCompleteLine | teamviewer_ci_parser.py:245-248 | a complete line stored and written back gives the id, the case, then its seven fields in column order |
| TeamViewerCi.ReadEntries | teamviewer_ci_parser.py:152-173 | one entry per non-blank line, in order, whatever its field count; the error count is the number of kept lines with fewer than seven fields |
| TeamViewerCi.ReadStep | teamviewer_ci_parser.py:156-173 | one more line adds its entry and its error, if any, and a blank line adds neither |
| TeamViewerCi.ErrorsAreIncompleteEntries | teamviewer_ci_parser.py:162-173 | the errors logged equal the stored entries lacking `case_ref`, and there is one entry per kept line |
| TeamViewerCi.ChunksCover | teamviewer_ci_parser.py:175-176 | the slices put back together are the entry list, each holding 1 to 50 entries |
| TeamViewerCi.ChunksCount | teamviewer_ci_parser.py:175 | there are as many slices as it takes to hold the entries 50 at a time |
| TeamViewerCi.ChunkAt | teamviewer_ci_parser.py:176 | slice `k` is exactly `entries[50k : 50k+50]` |
| TeamViewerCi.BulkInsert | teamviewer_ci_parser.py:175-177 | the store gains exactly the entries, in order, numbered on from the last id, in the 50-entry slices of the source |
| TeamViewerCi.GetTeamViewerConnections | teamviewer_ci_parser.py:143-179 | the store gains the file's entries in order and the cases are unchanged; returns the number of errors logged |
| TeamViewerCi.WriteToCsv | teamviewer_ci_parser.py:233-250 | the report is the header record, then one comma-separated record per row of the case; it has one more record than the case count |
| TeamViewerCi.ChooseWriterCases | teamviewer_ci_parser.py:204-217 | with no rows nothing is written; otherwise `.csv` picks CSV, `.html` picks HTML and anything else is an unknown type; each holds if and only if, and the last `else` is never reached |
| TeamViewerCi.WriteOutput | teamviewer_ci_parser.py:197-217 | the report chosen from the case's rows, "not found" exactly when the case has none, and a CSV report one record longer than the count |
| TeamViewerCi.Run | teamviewer_ci_parser.py:81-112 | the case is registered in every mode; input mode appends the parsed entries; output mode leaves the rows alone and writes the report; any other mode is an argument error |
| OldLog.Tokens | teamviewer_oldlog_parser.py:46-49 | the tokens are non-empty and hold no space |
| OldLog.TokensKeepText | teamviewer_oldlog_parser.py:46-49 | the tokens glued back together are the trimmed line minus its spaces |
| OldLog.GluedShape | teamviewer_oldlog_parser.py:50 | the slice assignment keeps the first five tokens and adds one glued last field (empty for short lines), and loses nothing when no token lies past the cut-off |
| OldLog.DataRowDropsTail | teamviewer_oldlog_parser.py:50 | the data row is the IP row minus tokens 7 and on, and the two coincide on lines of at most seven tokens |
| OldLog.IpRowKeepsText | teamviewer_oldlog_parser.py:73-77 | the IP row glued back is the trimmed line minus its spaces |
| OldLog.QualifyingFirstToken | teamviewer_oldlog_parser.py:45-50 | a line starting with a digit has a first token starting with that digit, and both rows have at least two fields |
| OldLog.DataRecordRoundTrip | teamviewer_oldlog_parser.py:46-51 | a file line with no tab, `"` or `\r` is written as its row joined by tabs plus `\r\n`, and splitting that record gives the row back |
| OldLog.SelectMembers | teamviewer_oldlog_parser.py:44-51 | a row is returned exactly when it is the row of some kept line |
| OldLog.SelectCount | teamviewer_oldlog_parser.py:44-51 | at most one row per line, one per line when all are kept, none when none are |
| OldLog.DataParser | teamviewer_oldlog_parser.py:38-53 | one row per line starting with a digit, in file order |
| OldLog.IpLineIff | teamviewer_oldlog_parser.py:63-66 | a line is kept by `ip_parser` exactly when it starts with a digit and a dotted quad occurs in it |
| OldLog.IpAddresses | teamviewer_oldlog_parser.py:64-68 | every listed address is a dotted quad |
| OldLog.IpRowsBound | teamviewer_oldlog_parser.py:62-78 | there are no more IP rows than data rows, and no more than addresses found |
| OldLog.IpListTextAppend | teamviewer_oldlog_parser.py:69-71 | appending an address adds its line to the end of the list file |
| OldLog.DottedQuadLine | teamviewer_oldlog_parser.py:71 | a dotted quad is non-empty and holds no `\n` |
| OldLog.IpListReadBack | teamviewer_oldlog_parser.py:69-71 | read back line by line, `ip_list.txt` gives each address in order |
| OldLog.WriteIpList | teamviewer_oldlog_parser.py:69-71 | the file rewritten with every address so far, one per line |
| OldLog.AddAddresses | teamviewer_oldlog_parser.py:67-71 | the found addresses are appended and the list file then holds them all |
| OldLog.IpParser | teamviewer_oldlog_parser.py:56-80 | the IP rows of the lines holding an address, every address found in order, and the list file as last written (untouched when none was found) |
| OldLog.WriteToCsv | teamviewer_oldlog_parser.py:83-87 | one tab-separated record per row |
| OldLog.Run | teamviewer_oldlog_parser.py:12-35 | with an input file, both reports and the address list are written from the parsed lines; otherwise nothing is written |
| DottedQuad.RunEnd | teamviewer_oldlog_parser.py:64 | a greedy `[0-9]*` ends after digits only, at a non-digit or the end |
| DottedQuad.RunEndReaches | teamviewer_oldlog_parser.py:64 | a run of digits is never longer than the greedy run, and equals it when it stops at a non-digit |
| DottedQuad.MatchRuns | teamviewer_oldlog_parser.py:64 | a match is non-empty and is not followed by a digit |
| DottedQuad.MatchRunsSound | teamviewer_oldlog_parser.py:64 | what the pattern matches is that many digit runs joined by single dots |
| DottedQuad.MatchRunsComplete | teamviewer_oldlog_parser.py:64 | wherever such runs start, the pattern matches there, ending exactly where they end when no digit follows |
| DottedQuad.FindSpans | teamviewer_oldlog_parser.py:64 | the matches lie inside the line, left to right, not overlapping |
| DottedQuad.FindSpanIsMatch | teamviewer_oldlog_parser.py:64 | each reported match is the pattern's match at its start |
| DottedQuad.FindSpansCover | teamviewer_oldlog_parser.py:64 | every position where the pattern matches lies inside a reported match |
| DottedQuad.FindSpansQuads | teamviewer_oldlog_parser.py:64 | every reported match is a dotted quad |
| DottedQuad.FindAll | teamviewer_oldlog_parser.py:64 | one string per match, each a dotted quad |
| DottedQuad.FindAllNonEmpty | teamviewer_oldlog_parser.py:64-66 | `if ip:` holds exactly when a dotted quad occurs in the line |
| DottedQuad.WholeQuadFound | teamviewer_oldlog_parser.py:64 | a line that is one dotted quad yields exactly that match |
| DottedQuad.AnyDigitRunsMatch | teamviewer_oldlog_parser.py:64 | any four digit runs joined by dots are found whole, so no octet is range-checked |
| SimpleCi.TeamViewerData | simple_ci_parser.py:42-58 | one row per non-blank line, each the right-stripped line split on tabs |
| SimpleCi.ParsedRowsShape | simple_ci_parser.py:51-56 | one row per kept line, each joining back to that line with its last field non-empty and not ending in whitespace |
| SimpleCi.RowOfLine | simple_ci_parser.py:54 | a kept line's row joins back to it, and its last field ends with the line's last character |
| SimpleCi.ParsedRowsMembers | simple_ci_parser.py:51-56 | a row is returned exactly when some non-blank line splits into it |
| SimpleCi.RecordIsStrippedLine | simple_ci_parser.py:54-68 | a line with no `"`, `\r` or `\n` is written back as exactly its right-stripped text plus `\r\n` |
| SimpleCi.PrintToFile | simple_ci_parser.py:61-70 | the header record, then one tab-separated record per row, in order |
| SimpleCi.NamesMasterByFileName | simple_ci_parser.py:18 | only the file name counts for the master guard, not the directory |
| SimpleCi.Run | simple_ci_parser.py:11-39 | a missing input is an error exit; an output named like the master is refused, and this happens exactly then; otherwise the parsed rows are written under the header |

## Left out

- HTML rendering (`get_template`, `write_to_html`, Jinja2). The model only
  records that the HTML writer was chosen, with the case and its rows. The
  page text and any escaping of field content are not modelled.
- `get_hash_value` (MD5 of a file) is never called by the parsers.
- `write_tv_id_to_csv` is never called. It would select by `teamviewer_id`
  instead of by case.
- Argument parsing, logging set-up, console output and `time.sleep` are not
  modelled. The `os.os.os.makedirs` call (an attribute error when the
  `-l` directory is missing) belongs to that set-up and is left out too.
- SQLite and peewee specifics are not modelled: table creation on disk,
  field type coercion (`IntegerField`, `DateTimeField`), and the
  constraint errors a real database would raise on a dict without
  `case_ref`. The store keeps every entry as given. `select()` is taken to
  return rows in insertion order.
- File system calls are parameters. `os.path.isfile` is a boolean, a file's
  contents are its text (the legacy parser) or its lines (the other two),
  and the files written are returned as their records or text.
- Whitespace and `isdigit` cover ASCII only. Whitespace is space, `\t`,
  `\n`, `\v`, `\f`, `\r` and the four separators `\x1c`–`\x1f`; digits are
  `0`–`9`. Python's Unicode classes are not modelled, and neither is the
  text encoding of the files.
- The model takes a POSIX platform and reads a file's text after
  text-mode newline translation. `Text.Basename` splits at `/` only, as
  `posixpath` does: on Windows `os.path.basename` also splits at `\` and
  after a drive letter, so the `tv_master` test can differ there. Lines end
  at `\n` only: a lone `\r`, which text mode also reads as a line end, is
  not one here. Records are written as `FormatRow` gives them, ending in
  `\r\n`: the output files are opened with `'w'` and no `newline=''`, so
  on Windows each of those record ends would reach the disk as `\r\r\n`.
