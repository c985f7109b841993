# resource-monitor, modelled in Dafny

resource-monitor is a pair of small command-line tools. They keep a
day-by-day record of the busiest processes on a machine.

- **resource-logger** runs `ps`, keeps its column header and its non-blank
  process rows, and picks two lists of ten rows: the highest by `%CPU`
  (column 1) and the highest by `%MEM` (column 3). It appends one block to
  the day's log, `<YYYY-MM-DD>.log`, and then deletes day logs older than 90
  days.
- **resource-query** reads a day's log back. It splits the log into
  snapshots at the `=== <timestamp> ===` banners and shows one of three
  views, keeping at most N process rows per section:
  - the latest snapshot of today;
  - every snapshot of a given date;
  - the snapshot nearest a given date and time.

  When the day's log is missing, it lists the dates that do have logs.

The model follows the two binaries' own structure.

- Pure string processing is written as functions:
  - splitting `ps` output;
  - the snapshot format;
  - splitting a log into blocks;
  - trimming a snapshot to N rows;
  - the nearest-snapshot choice;
  - argument parsing.
- Each loop of the source is a method, proved equal to the function that
  specifies it:
  - the parser's line loop;
  - the trimming loop;
  - the argument loop;
  - the sorts: the library's stable `sort_by` and `sort` are modelled by
    in-place insertion sorts on arrays, which give the same result because
    a stable descending sort and an ascending sort are each unique;
  - the deletion loop;
  - the query's printing loops.
- The log directory the logger changes is a class, `Logger.LogDirectory`.
  Its single field maps file names to contents and modification times.

Across the two tools, the model proves:
- a block the logger writes is read back as exactly one snapshot, with the
  same timestamp and lines;
- a log of many blocks reads back as one snapshot per block, in order;
- each view of the query tool shows the blocks the logger wrote.

Files:

| file | module | what it holds |
|---|---|---|
| `Wrappers.dfy` | `Wrappers` | `Option` and `Result` |
| `Text.dfy` | `Text` | Rust string operations the tools use: `lines`, `trim*`, `trim_*_matches`, `split_whitespace`, `join` |
| `Ranking.dfy` | `Ranking` | `top_by` / `parse_col`: stable descending sort, first ten rows |
| `SnapshotParser.dfy` | `SnapshotParser` | `parse_snapshots` / `snapshot_from_lines` |
| `Display.dfy` | `Display` | `trim_snapshot` |
| `Closest.dfy` | `Closest` | `find_closest` |
| `Cli.dfy` | `Cli` | `parse_cli` / `parse_top` |
| `Listing.dfy` | `Listing` | day-log names, `list_dates` with its byte-wise sort |
| `Logger.dfy` | `Logger` | `capture_ps` splitting, the snapshot `format!`, appending, `cleanup_old_logs`, the logger's `run` |
| `RoundTrip.dfy` | `RoundTrip` | what the logger writes, the query tool parses back |
| `Query.dfy` | `Query` | the query tool's `run` and `main` |
| `Views.dfy` | `Views` | the query tool's views of a directory the logger wrote |

Parameters stand in for what the source gets from its environment:
- `ps` output is a parameter `psText`;
- the clock is `now`, `written` and `today`;
- the parsing of a `%CPU`/`%MEM` field is an opaque
  `parseNumber: string -> Option<int>`;
- chrono's local-time conversion in `to_epoch` is an opaque
  `toEpoch: string -> Option<int>`.

Times are whole nanoseconds.

`cleanup_old_logs` subtracts the 90 days with `checked_sub`. It falls back
to the epoch only when the subtraction underflows, that is, when the
result would lie before the earliest `SystemTime` (modelled as `MIN_TIME`,
the `i64` seconds floor). It does not clamp the cutoff to the epoch in
general. The model follows that code (`Logger.Cutoff`), not a general
saturating-subtraction reading.

## Model

| member | source | states |
|---|---|---|
| Text.Lines | scripts/resource-monitor/src/bin/resource-query.rs:187 | `str::lines`: no lines exactly for the empty text, and no line contains a line break |
| Text.LinesCons | scripts/resource-monitor/src/bin/resource-query.rs:187 | the first line of `l + "\n" + rest` is `l` less a final `\r`; the others are the lines of `rest` |
| Text.LinesOfTerminated | scripts/resource-monitor/src/bin/resource-query.rs:187 | lines each written with a trailing line break split back into exactly those lines |
| Text.LinesAppend | scripts/resource-monitor/src/bin/resource-logger.rs:38-43 | appending to a log that ends with a line break appends its lines, so earlier blocks read the same |
| Text.LinesOfJoin | scripts/resource-monitor/src/bin/resource-logger.rs:73 | `lines` recovers the lines of a `"\n"`-joined table whose last line is non-empty |
| Text.TrimStart | scripts/resource-monitor/src/bin/resource-query.rs:217 | `trim_start`: the result is a suffix, everything dropped is whitespace, and it does not start with whitespace |
| Text.TrimEnd | scripts/resource-monitor/src/bin/resource-query.rs:230 | `trim_end`: the result is a prefix, everything dropped is whitespace, and it does not end with whitespace |
| Text.Trim | scripts/resource-monitor/src/bin/resource-logger.rs:68-69 | `trim` is empty exactly when the text is all whitespace; otherwise it starts and ends with non-whitespace; it is a slice of the text with only whitespace before and after it |
| Text.TrimBetweenBlanks | scripts/resource-monitor/src/bin/resource-logger.rs:68-69 | text that starts and ends with non-whitespace, between two runs of whitespace, is what `trim` leaves |
| Text.TrimStartMatches | scripts/resource-monitor/src/bin/resource-query.rs:103 | the text is some number of copies of the pattern followed by the result, and the result no longer starts with the pattern |
| Text.TrimEndMatches | scripts/resource-monitor/src/bin/resource-query.rs:172 | the text is the result followed by some number of copies of the pattern, and the result no longer ends with the pattern |
| Text.SplitWhitespace | scripts/resource-monitor/src/bin/resource-logger.rs:97 | `split_whitespace` yields non-empty tokens free of whitespace |
| Text.SplitWhitespaceOfBlank | scripts/resource-monitor/src/bin/resource-logger.rs:97 | all-whitespace text has no fields |
| Text.SplitWhitespaceCons | scripts/resource-monitor/src/bin/resource-logger.rs:97-98 | whitespace, a token, then whitespace or nothing: the token is the first field and the fields of the rest follow, so `nth(col)` counts tokens |
| Text.SplitWhitespaceKeepsText | scripts/resource-monitor/src/bin/resource-logger.rs:97 | the tokens, concatenated, are the text with its whitespace deleted: nothing is lost or reordered |
| Text.JoinNewlineTerminated | scripts/resource-monitor/src/bin/resource-logger.rs:32-36 | a `"\n"`-joined section followed by a line break is its lines terminated, with an empty section writing one empty line |
| Ranking.ParseCol | scripts/resource-monitor/src/bin/resource-logger.rs:96-101 | the key is field `col` when it exists and parses, and 0 otherwise |
| Ranking.InsertIsPermutation | scripts/resource-monitor/src/bin/resource-logger.rs:88-92 | one insertion step of the sort adds exactly the inserted row |
| Ranking.InsertKeepsSorted | scripts/resource-monitor/src/bin/resource-logger.rs:88-92 | inserting into a descending sequence keeps it descending |
| Ranking.InsertIsStable | scripts/resource-monitor/src/bin/resource-logger.rs:88-92 | inserting places the new row after every row of equal key |
| Ranking.SortDescIsPermutation | scripts/resource-monitor/src/bin/resource-logger.rs:87-92 | the sorted copy is a permutation of the rows |
| Ranking.SortDescIsStableSort | scripts/resource-monitor/src/bin/resource-logger.rs:87-92 | the sorted copy is descending by key, and rows of equal key keep their input order, as `sort_by` is stable |
| Ranking.StableSortUnique | scripts/resource-monitor/src/bin/resource-logger.rs:87-92 | any stable descending sort of the rows is `SortDesc`, so the insertion sort and `sort_by` agree |
| Ranking.SameKeyRowsEqual | scripts/resource-monitor/src/bin/resource-logger.rs:87-92 | two descending sequences with the same rows of every key, in the same order, are equal |
| Ranking.TopRowsShape | scripts/resource-monitor/src/bin/resource-logger.rs:86-94 | `top_by` keeps min(10, n) rows, all taken from the input, in descending key order |
| Ranking.TopRowsStable | scripts/resource-monitor/src/bin/resource-logger.rs:86-94 | the kept rows of any key are a prefix of that key's rows in input order |
| Ranking.TopRowsOmittedRankLower | scripts/resource-monitor/src/bin/resource-logger.rs:86-94 | every row left out ranks no higher than any row kept |
| Ranking.InsertAtGap | scripts/resource-monitor/src/bin/resource-logger.rs:88-92 | inserting a row into a descending sequence puts it after the rows it does not outrank and before those it does |
| Ranking.ShiftRanked | scripts/resource-monitor/src/bin/resource-logger.rs:88-92 | the inner loop moves each row of the prefix that the new row outranks one place right, stops after a row it does not outrank, and leaves the rest of the array |
| Ranking.InsertInPlace | scripts/resource-monitor/src/bin/resource-logger.rs:88-92 | one pass of the in-place insertion sort inserts `a[i]` into the sorted prefix and leaves the rest |
| Ranking.SortByKeyDesc | scripts/resource-monitor/src/bin/resource-logger.rs:87-92 | the in-place sort leaves the array equal to the stable descending sort of its old contents |
| Ranking.TopBy | scripts/resource-monitor/src/bin/resource-logger.rs:86-94 | `top_by` returns the first ten rows of the stable sort: min(10, n) rows, a sub-multiset of the input, descending |
| SnapshotParser.BannerTimestamp | scripts/resource-monitor/src/bin/resource-query.rs:202-207 | on a line with both banner markers, the timestamp is what the banner wraps; otherwise it is empty |
| SnapshotParser.BannerRoundTrip | scripts/resource-monitor/src/bin/resource-query.rs:202-207 | the timestamp of `Banner(t)` is `t` |
| SnapshotParser.SnapshotFromLines | scripts/resource-monitor/src/bin/resource-query.rs:201-210 | a snapshot keeps its lines; its timestamp comes from a banner first line, and is empty otherwise |
| SnapshotParser.SplitBlocksCovers | scripts/resource-monitor/src/bin/resource-query.rs:183-199 | the blocks, concatenated, are exactly the log's lines |
| SnapshotParser.SplitBlocksShape | scripts/resource-monitor/src/bin/resource-query.rs:183-199 | no block is empty, every block after the first starts with a banner, no banner is inside a block, and there are no blocks only for an empty log |
| SnapshotParser.SplitBlocksUnique | scripts/resource-monitor/src/bin/resource-query.rs:183-199 | any split with those properties is the parser's split, so the properties characterise it |
| SnapshotParser.SplitBlocksAppend | scripts/resource-monitor/src/bin/resource-query.rs:187-192 | lines of a new banner-led block, appended to a log, add exactly that block |
| SnapshotParser.ParseSnapshots | scripts/resource-monitor/src/bin/resource-query.rs:183-199 | the line loop returns the snapshots of the block split of `content.lines()` |
| SnapshotParser.EmptyLogHasNoBlocks | scripts/resource-monitor/src/bin/resource-query.rs:194-198 | an empty log has no snapshots |
| SnapshotParser.NoBannerOneBlock | scripts/resource-monitor/src/bin/resource-query.rs:187-196 | a non-empty log without banners is a single block |
| Display.TrimLines | scripts/resource-monitor/src/bin/resource-query.rs:213-228 | the loop with its running row count keeps exactly the lines `TrimmedLines` shows |
| Display.TrimSnapshot | scripts/resource-monitor/src/bin/resource-query.rs:212-231 | `trim_snapshot` returns the shown lines joined and right-trimmed, ending in non-whitespace |
| Display.TrimmedIsSubsequence | scripts/resource-monitor/src/bin/resource-query.rs:216-228 | trimming only drops lines; it keeps the others in order |
| Display.TrimmedKeepsFrame | scripts/resource-monitor/src/bin/resource-query.rs:217-227 | every banner, `PID` header, section marker and blank line survives, in order |
| Display.TrimmedSectionRank | scripts/resource-monitor/src/bin/resource-query.rs:219-224 | the rows left in the last section are the fewer of those there and the limit |
| Display.TrimmedSectionsBounded | scripts/resource-monitor/src/bin/resource-query.rs:219-224 | no section of the output holds more than `top_n` process rows |
| Display.TrimmedIdempotent | scripts/resource-monitor/src/bin/resource-query.rs:212-231 | trimming trimmed lines again changes nothing |
| Display.TrimmedWithinLimit | scripts/resource-monitor/src/bin/resource-query.rs:219-224 | when every section holds fewer rows than the limit, nothing is dropped |
| Closest.ClosestIndex | scripts/resource-monitor/src/bin/resource-query.rs:236-245 | there is no choice exactly when no snapshot time converts; otherwise the choice is a nearest one, and the first of equally near ones |
| Closest.ClosestIsUnique | scripts/resource-monitor/src/bin/resource-query.rs:236-245 | the first nearest dated snapshot is the one chosen |
| Closest.FindClosest | scripts/resource-monitor/src/bin/resource-query.rs:233-246 | there is no result exactly when the target does not convert or no snapshot time converts; otherwise the result is the first nearest snapshot |
| Cli.ParseUsize | scripts/resource-monitor/src/bin/resource-query.rs:133-135 | the text parses exactly when it is decimal digits after at most one `+` whose value is at most 2^64 − 1, and the result is that value |
| Cli.ParseUsizeDecimal | scripts/resource-monitor/src/bin/resource-query.rs:133-135 | every `usize` written in decimal, with or without a `+`, parses back to itself |
| Cli.ParseUsizeRejectsMinus | scripts/resource-monitor/src/bin/resource-query.rs:133-135 | a leading `-` is refused |
| Cli.ParseTop | scripts/resource-monitor/src/bin/resource-query.rs:132-140 | accepted exactly when the text is a `usize` other than zero, as that value; zero gets the zero error and text that does not parse the invalid-value error quoting it |
| Cli.ParseTopDecimal | scripts/resource-monitor/src/bin/resource-query.rs:132-140 | a decimal n is accepted as n, and 0 gets the zero error |
| Cli.ParseTopNeedsDigit | scripts/resource-monitor/src/bin/resource-query.rs:133-135 | text without digits gets the invalid-value error quoting it |
| Cli.ParseCli | scripts/resource-monitor/src/bin/resource-query.rs:85-130 | the `while let` loop gives the outcome `CliSpec` defines |
| Cli.ScanCollects | scripts/resource-monitor/src/bin/resource-query.rs:90-111 | a completed scan has collected exactly the arguments that are not flags or `--top` values, with a limit in range |
| Cli.ParsedArgs | scripts/resource-monitor/src/bin/resource-query.rs:113-129 | parsed arguments: a limit in range, at most two positionals, and a date that is the first positional or today (provided iff one was given); the time is the second positional; three or more are refused |
| Cli.PlainArguments | scripts/resource-monitor/src/bin/resource-query.rs:113-129 | arguments that are not flags: none is today's latest view, one a date, two a date and time, more an error; the limit stays 10 |
| Cli.ScanAppend | scripts/resource-monitor/src/bin/resource-query.rs:90-111 | arguments the loop gets through leave it in the same state whatever follows them |
| Cli.HelpWins | scripts/resource-monitor/src/bin/resource-query.rs:92-95 | `-h`/`--help` after any arguments the loop gets through ends parsing with help, whatever follows |
| Cli.UnknownFlagRejected | scripts/resource-monitor/src/bin/resource-query.rs:106-108 | any other dash argument after arguments the loop gets through is an unknown-flag error naming it, whatever follows |
| Cli.TopFlagSetsLimit | scripts/resource-monitor/src/bin/resource-query.rs:96-101 | `--top N` followed only by positionals sets the limit to N whatever came before; a refused N fails the parse with `parse_top`'s error |
| Cli.TopAssignmentSetsLimit | scripts/resource-monitor/src/bin/resource-query.rs:102-105 | `--top=N` does the same as `--top N` |
| Cli.LastTopWins | scripts/resource-monitor/src/bin/resource-query.rs:96-101 | of two `--top` flags the last one sets the limit |
| Listing.DateNamesMembers | scripts/resource-monitor/src/bin/resource-query.rs:166-177 | a date is listed exactly when a `.log` file not starting with `launchd` stands for it |
| Listing.LexLeTotal | scripts/resource-monitor/src/bin/resource-query.rs:179 | the string order `sort` uses is total |
| Listing.LexLeTransitive | scripts/resource-monitor/src/bin/resource-query.rs:179 | the string order is transitive |
| Listing.LexLeAntisymmetric | scripts/resource-monitor/src/bin/resource-query.rs:179 | the string order is antisymmetric |
| Listing.LexSortIsSortedPermutation | scripts/resource-monitor/src/bin/resource-query.rs:179 | the sorted dates are ascending and a permutation of the listed ones |
| Listing.SortedPermutationsAgree | scripts/resource-monitor/src/bin/resource-query.rs:179 | two ascending arrangements of the same dates are equal, so the printed order is determined |
| Listing.LexInsertAtGap | scripts/resource-monitor/src/bin/resource-query.rs:179 | inserting a name into an ascending sequence puts it after the names not greater than it and before the greater ones |
| Listing.ShiftLex | scripts/resource-monitor/src/bin/resource-query.rs:179 | the inner loop moves each name of the prefix greater than the new one one place right, stops after one that is not, and leaves the rest of the array |
| Listing.LexInsertInPlace | scripts/resource-monitor/src/bin/resource-query.rs:179 | one pass of the in-place insertion sort inserts `a[i]` into the sorted prefix and leaves the rest |
| Listing.SortLex | scripts/resource-monitor/src/bin/resource-query.rs:179 | the in-place sort leaves the array equal to the sort of its old contents |
| Listing.ListDates | scripts/resource-monitor/src/bin/resource-query.rs:159-181 | `list_dates` returns the day logs' dates ascending, each once per file, and exactly those |
| Logger.NonBlank | scripts/resource-monitor/src/bin/resource-logger.rs:78-81 | no kept row is blank |
| Logger.NonBlankMembers | scripts/resource-monitor/src/bin/resource-logger.rs:78-81 | a row is kept exactly when it is present and not blank |
| Logger.NonBlankOfNonBlank | scripts/resource-monitor/src/bin/resource-logger.rs:78-81 | filtering rows that are all non-blank keeps them all |
| Logger.CapturePs | scripts/resource-monitor/src/bin/resource-logger.rs:67-83 | blank output gives the default header and no rows; otherwise the header is the first line of the trimmed text and the rows are its other non-blank lines; the header starts with non-whitespace; header and rows are single lines and rows are non-blank |
| Logger.CapturePsOfOutput | scripts/resource-monitor/src/bin/resource-logger.rs:67-83 | `ps` output — leading whitespace, a header, then rows that are blank or end in non-whitespace, each line ended by a line break — is captured as that header and its non-blank rows, in order |
| Logger.FormatSnapshotLines | scripts/resource-monitor/src/bin/resource-logger.rs:32-36 | the `format!` text is the block's lines, each terminated: banner, CPU marker, header, CPU rows (or one empty line), MEM marker, header, MEM rows (or one empty line), empty line |
| Logger.Survivors | scripts/resource-monitor/src/bin/resource-logger.rs:108-125 | the cleanup only removes entries; every survivor is unchanged |
| Logger.SurvivesIff | scripts/resource-monitor/src/bin/resource-logger.rs:103-125 | a file survives exactly when it is not a day log, its time cannot be read, or it is at most 90 days old |
| Logger.OthersSurvive | scripts/resource-monitor/src/bin/resource-logger.rs:113-120 | files that are not day logs, or whose time cannot be read, are never deleted |
| Logger.SurvivorsIdempotent | scripts/resource-monitor/src/bin/resource-logger.rs:103-128 | running the cleanup again with the same cutoff deletes nothing more |
| Logger.FreshLogSurvives | scripts/resource-monitor/src/bin/resource-logger.rs:38-45 | the day's log just appended to survives the cleanup that follows, and ends with the new block |
| Logger.LogDirectory.Append | scripts/resource-monitor/src/bin/resource-logger.rs:38-43 | opening in append mode creates the file if needed, extends its content by the block, and stamps its time |
| Logger.LogDirectory.CleanupOldLogs | scripts/resource-monitor/src/bin/resource-logger.rs:103-128 | the loop over the entries leaves exactly the survivors of the cutoff |
| Logger.LogDirectory.RecordSnapshot | scripts/resource-monitor/src/bin/resource-logger.rs:21-47 | one logger run appends the formatted block of the `ps` capture to the day's log, then cleans up |
| RoundTrip.LinesOfBlock | scripts/resource-monitor/src/bin/resource-query.rs:187 | a block the logger formats splits back into exactly its lines |
| RoundTrip.BlockRoundTrip | scripts/resource-monitor/src/bin/resource-query.rs:183-210 | a block read on its own is one snapshot with the capture's timestamp and lines |
| RoundTrip.AppendRoundTrip | scripts/resource-monitor/src/bin/resource-logger.rs:38-43 | appending a block to a log adds exactly one snapshot after the existing ones |
| RoundTrip.LogRoundTrip | scripts/resource-monitor/src/bin/resource-query.rs:183-199 | a day's log written by the logger parses back into its captures, one snapshot each, in order |
| RoundTrip.Logged | scripts/resource-monitor/src/bin/resource-logger.rs:25-36 | the capture one logger run builds from the `ps` text is written as the `format!` text of its header and its two top-ten lists |
| RoundTrip.LoggedReadable | scripts/resource-monitor/src/bin/resource-logger.rs:25-36 | what the logger builds is readable, and so parses back, whenever the timestamp has no line break and no trimmed `ps` line ends in `\r` or starts like a banner |
| RoundTrip.ExpectedPointwise | scripts/resource-monitor/src/bin/resource-query.rs:183-199 | the k-th expected snapshot is the k-th capture's |
| Query.MissingLog | scripts/resource-monitor/src/bin/resource-query.rs:49-56 | the missing-log message, then "Available dates:" and one indented line per date, in the given order, only when there are dates |
| Query.RenderSnapshots | scripts/resource-monitor/src/bin/resource-query.rs:69-73 | the mapping loop gives every snapshot rendered with the limit, in order |
| Query.Run | scripts/resource-monitor/src/bin/resource-query.rs:44-83 | `run` prints the missing-log listing or the view `RunOutput` defines |
| Query.QueryMain | scripts/resource-monitor/src/bin/resource-query.rs:21-42 | argument errors and an unconvertible time end with code 2 before any log is read; otherwise `run`'s output |
| Views.DefaultViewShowsWholeBlock | scripts/resource-monitor/src/bin/resource-query.rs:212-231 | with the default limit, a logged block with a `PID` header and at most ten rows per section loses no line |
| Views.LatestViewShowsLastCapture | scripts/resource-monitor/src/bin/resource-query.rs:75-80 | with no arguments, the block appended last to today's log is shown, and every line of it under the default limit |
| Views.LatestView | scripts/resource-monitor/src/bin/resource-query.rs:75-80 | with no arguments and a non-empty log for today, the last snapshot is shown with the default limit |
| Views.DayView | scripts/resource-monitor/src/bin/resource-query.rs:68-74 | given a date with a log, every snapshot is shown, a blank line apart |
| Views.RenderedLog | scripts/resource-monitor/src/bin/resource-query.rs:69-73 | rendering the snapshots read from a logged day renders the logged captures, in order |
| Views.DayViewShowsEveryCapture | scripts/resource-monitor/src/bin/resource-query.rs:68-74 | given a date, every block the logger wrote that day is shown, in order |
| Views.ClosestViewShowsNearest | scripts/resource-monitor/src/bin/resource-query.rs:63-67 | given a date and time, the first nearest snapshot is shown, or "No snapshots found" when no timestamp converts |
| Views.UnreadableTimeRejected | scripts/resource-monitor/src/bin/resource-query.rs:30-36 | a date and time that do not convert end the run with code 2, whatever the directory holds |
| Views.MissingLogListsDates | scripts/resource-monitor/src/bin/resource-query.rs:48-58 | a missing day log prints the message and the day logs' dates in the one ascending order |

## Left out

- Running `ps`, its exit status and `from_utf8_lossy` are not modelled. The captured text is a parameter.
- Key parsing (`parse::<f64>`) is an opaque `parseNumber` returning an integer key; floating point is not modelled.
- NaN keys make `partial_cmp` return `None`. The source then treats the rows as equal, which is not a total order, and is not modelled.
- `Local::now`, `SystemTime::now` and chrono's `to_epoch` (including its `.single()` refusal of ambiguous local times) are parameters: `today`, `now`, `written` and `toEpoch`.
- `HOME`, `log_dir` and `create_dir_all` are not modelled.
- I/O errors and the exit code 1 they lead to are not modelled:
  - opening or writing the log;
  - `read_dir` and its per-entry errors;
  - `read_to_string`.
- `remove_file` always succeeds in the model; the source ignores its failure.
- The query tool's directory is two parameters: the logs by file name, and the names a listing returns. The model does not require `exists` and `read_dir` to agree.
- `print_help` text, `println!`/`eprintln!` and `process::exit` are modelled only as the `Outcome` value (`Printed`, `HelpShown`, `Exit(message, code)`).
- Concurrent runs of the logger appending to the same file are not modelled.
- `to_string_lossy` on file names is not modelled; names are strings.
- `usize` is taken to be 64 bits wide.
- Logger.SurvivesIff: stated only when `now` is at least 90 days after the earliest `SystemTime`, because that is when `checked_sub` succeeds; otherwise the cutoff is the epoch.
- Logger.FreshLogSurvives: requires the date to start with a digit so that the log's name cannot start with `launchd`, as the logger's dates always do.
- Logger.CapturePsOfOutput: asks the header and every non-blank row to end in non-whitespace, as `ps` lines do, since their last column is the command name; for other text, `Logger.CapturePs`'s own contract gives the header and rows.
