/**
  * The logger: one capture of the process table is split into a header and
  * rows, ranked twice, written as a block at the end of the day's log, and
  * logs older than the retention period are deleted. The `ps` run, the
  * clocks and the file system are inputs: the text `ps` printed, the times,
  * and a directory modelled as a map from file name to file.
  */
module Logger {
  import opened Wrappers
  import opened Text
  import opened Ranking
  import opened SnapshotParser
  import opened Listing

  /** The header used when `ps` printed nothing. */
  const DEFAULT_HEADER: string := "PID  %CPU %MEM    RSS COMM"

  const CPU_MARKER: string := "-- CPU --"
  const MEM_MARKER: string := "-- MEM --"

  const RETENTION_DAYS: nat := 90
  const SECONDS_PER_DAY: nat := 86400
  const NANOS_PER_SECOND: nat := 1_000_000_000

  /** The retention period, in nanoseconds. */
  const RETENTION: nat := RETENTION_DAYS * SECONDS_PER_DAY * NANOS_PER_SECOND

  /** The earliest `SystemTime` (its seconds are an `i64`), in nanoseconds from the epoch. */
  const MIN_TIME: int := -0x8000_0000_0000_0000 * NANOS_PER_SECOND

  /** What `capture_ps` returns: the column header and the process rows. */
  datatype PsTable = PsTable(header: string, rows: seq<string>)

  /** The lines that are not blank, in order. */
  function NonBlank(ls: seq<string>): (r: seq<string>)
    ensures forall k :: 0 <= k < |r| ==> !IsBlank(r[k])
  {
    if ls == [] then []
    else
      var l := ls[|ls| - 1];
      NonBlank(ls[..|ls| - 1]) + (if IsBlank(l) then [] else [l])
  }

  /** A line is kept exactly when it is there and not blank. */
  lemma {:induction false} NonBlankMembers(ls: seq<string>, l: string)
    ensures l in NonBlank(ls) <==> l in ls && !IsBlank(l)
  {
    if ls != [] {
      var init := ls[..|ls| - 1];
      NonBlankMembers(init, l);
      assert ls == init + [ls[|ls| - 1]];
    }
  }

  /** Filtering keeps the order: the kept lines of a concatenation are the kept lines of each part. */
  lemma {:induction false} NonBlankAppend(a: seq<string>, b: seq<string>)
    ensures NonBlank(a + b) == NonBlank(a) + NonBlank(b)
    decreases |b|
  {
    if b == [] {
      assert a + b == a;
    } else {
      var init := b[..|b| - 1];
      NonBlankAppend(a, init);
      assert a + b == (a + init) + [b[|b| - 1]];
      assert (a + b)[..|a + b| - 1] == a + init;
    }
  }

  /** Lines none of which is blank are all kept. */
  lemma {:induction false} NonBlankOfNonBlank(ls: seq<string>)
    requires forall k :: 0 <= k < |ls| ==> !IsBlank(ls[k])
    ensures NonBlank(ls) == ls
  {
    if ls != [] {
      var n := |ls| - 1;
      var init := ls[..n];
      forall k | 0 <= k < n ensures !IsBlank(init[k]) {
        assert init[k] == ls[k];
      }
      NonBlankOfNonBlank(init);
      assert !IsBlank(ls[n]);
      assert ls == init + [ls[n]];
    }
  }

  /**
    * The splitting part of `capture_ps`: the output is trimmed; nothing left
    * gives the default header and no rows; otherwise the first line is the
    * header and the other non-blank lines are the rows.
    */
  function CapturePs(text: string): (t: PsTable)
    ensures IsBlank(text) ==> t == PsTable(DEFAULT_HEADER, [])
    ensures !IsBlank(text) ==> t.header == Lines(Trim(text))[0] && t.rows == NonBlank(Lines(Trim(text))[1..])
    ensures !IsBlank(text) ==> t.header != [] && !IsWhitespace(t.header[0])
    ensures '\n' !in t.header
    ensures forall k :: 0 <= k < |t.rows| ==> !IsBlank(t.rows[k]) && '\n' !in t.rows[k]
  {
    var trimmed := Trim(text);
    if trimmed == [] then
      DefaultHeaderIsOneLine();
      PsTable(DEFAULT_HEADER, [])
    else
      TableOfTrimmed(trimmed);
      PsTable(Lines(trimmed)[0], NonBlank(Lines(trimmed)[1..]))
  }

  /** The header printed when `ps` gives nothing is a single line. */
  lemma DefaultHeaderIsOneLine()
    ensures '\n' !in DEFAULT_HEADER
  {
    assert forall i :: 0 <= i < |DEFAULT_HEADER| ==> DEFAULT_HEADER[i] != '\n';
  }

  /** Trimmed text has a header line that starts with a non-space, and rows without line breaks. */
  lemma TableOfTrimmed(trimmed: string)
    requires trimmed != [] && !IsWhitespace(trimmed[0])
    ensures Lines(trimmed) != [] && Lines(trimmed)[0] != [] && !IsWhitespace(Lines(trimmed)[0][0])
    ensures '\n' !in Lines(trimmed)[0]
    ensures forall k :: 0 <= k < |NonBlank(Lines(trimmed)[1..])| ==> '\n' !in NonBlank(Lines(trimmed)[1..])[k]
  {
    var lines := Lines(trimmed);
    HeaderOfTrimmed(trimmed);
    KeptLinesHaveNoNewline(lines[1..]);
  }

  /** The first line of text that starts with a non-space is not empty and starts with that character. */
  lemma HeaderOfTrimmed(trimmed: string)
    requires trimmed != [] && !IsWhitespace(trimmed[0])
    ensures Lines(trimmed)[0] != [] && Lines(trimmed)[0][0] == trimmed[0]
  {
    var i := IndexOf(trimmed, '\n');
    assert i > 0 by {
      assert IsWhitespace('\n');
    }
    if i < |trimmed| {
      assert Lines(trimmed)[0] == StripCarriageReturn(trimmed[..i]);
      assert IsWhitespace('\r');
    }
  }

  lemma KeptLinesHaveNoNewline(ls: seq<string>)
    requires forall k :: 0 <= k < |ls| ==> '\n' !in ls[k]
    ensures forall k :: 0 <= k < |NonBlank(ls)| ==> '\n' !in NonBlank(ls)[k]
  {
    var rows := NonBlank(ls);
    forall k | 0 <= k < |rows| ensures '\n' !in rows[k] {
      NonBlankMembers(ls, rows[k]);
    }
  }

  /** Lines all of which are blank leave nothing. */
  lemma {:induction false} NonBlankOfBlank(ls: seq<string>)
    requires forall k :: 0 <= k < |ls| ==> IsBlank(ls[k])
    ensures NonBlank(ls) == []
  {
    if ls != [] {
      var init := ls[..|ls| - 1];
      assert forall k :: 0 <= k < |init| ==> init[k] == ls[k];
      NonBlankOfBlank(init);
    }
  }

  /** The last line that is not blank, when the first one is not. */
  lemma LastNonBlank(ls: seq<string>) returns (k: nat)
    requires ls != [] && !IsBlank(ls[0])
    ensures k < |ls| && !IsBlank(ls[k])
    ensures forall j :: k < j < |ls| ==> IsBlank(ls[j])
  {
    k := |ls| - 1;
    while IsBlank(ls[k])
      invariant k < |ls|
      invariant forall j :: k < j < |ls| ==> IsBlank(ls[j])
      decreases k
    {
      k := k - 1;
    }
  }

  /** Lines, then blank lines, each followed by '\n': the first lines joined, then only whitespace. */
  lemma TerminatedThenBlank(kept: seq<string>, trail: seq<string>)
    requires kept != [] && forall j :: 0 <= j < |trail| ==> IsBlank(trail[j])
    ensures Terminated(kept + trail) == Join(kept, "\n") + ("\n" + Terminated(trail))
    ensures IsBlank("\n" + Terminated(trail))
  {
    TerminatedAfterJoin(kept, trail);
    NewlineThenBlank(trail);
  }

  lemma TerminatedAfterJoin(kept: seq<string>, trail: seq<string>)
    requires kept != []
    ensures Terminated(kept + trail) == Join(kept, "\n") + ("\n" + Terminated(trail))
  {
    TerminatedAppend(kept, trail);
    JoinNewlineTerminated(kept);
    calc {
      Terminated(kept + trail);
      Terminated(kept) + Terminated(trail);
      (Join(kept, "\n") + "\n") + Terminated(trail);
      Join(kept, "\n") + ("\n" + Terminated(trail));
    }
  }

  lemma NewlineThenBlank(trail: seq<string>)
    requires forall j :: 0 <= j < |trail| ==> IsBlank(trail[j])
    ensures IsBlank("\n" + Terminated(trail))
  {
    TerminatedBlank(trail);
    assert IsBlank("\n") by {
      assert "\n"[0] == '\n';
    }
    BlankAppend("\n", Terminated(trail));
  }

  /** Lines joined by '\n' start where the first line starts and end where the last one ends. */
  lemma JoinEnds(ls: seq<string>)
    requires ls != [] && ls[0] != [] && ls[|ls| - 1] != []
    ensures Join(ls, "\n") != []
    ensures Join(ls, "\n")[0] == ls[0][0]
    ensures Join(ls, "\n")[|Join(ls, "\n")| - 1] == ls[|ls| - 1][|ls[|ls| - 1]| - 1]
  {
    var body := Join(ls, "\n");
    JoinAsTerminated(ls);
    if |ls| > 1 {
      assert body == ls[0] + "\n" + Join(ls[1..], "\n");
    }
  }

  /**
    * Whitespace, then lines, the first of which starts with a non-space and
    * the last of which ends with one, then blank lines, each line followed by
    * '\n': trimmed, that is the first lines joined by '\n'.
    */
  lemma TrimTerminated(w: string, ls: seq<string>, kept: seq<string>, trail: seq<string>)
    requires IsBlank(w) && ls == kept + trail
    requires kept != [] && kept[0] != [] && !IsWhitespace(kept[0][0])
    requires kept[|kept| - 1] != [] && !IsWhitespace(kept[|kept| - 1][|kept[|kept| - 1]| - 1])
    requires forall j :: 0 <= j < |trail| ==> IsBlank(trail[j])
    ensures Trim(w + Terminated(ls)) == Join(kept, "\n")
  {
    var body, tail := Join(kept, "\n"), "\n" + Terminated(trail);
    TerminatedThenBlank(kept, trail);
    JoinEnds(kept);
    assert w + Terminated(ls) == w + body + tail;
    TrimBetweenBlanks(w, body, tail);
  }

  /** Blank lines at the end leave the kept lines unchanged. */
  lemma NonBlankBeforeTrail(rows: seq<string>, k: nat)
    requires k <= |rows| && forall j :: k <= j < |rows| ==> IsBlank(rows[j])
    ensures NonBlank(rows) == NonBlank(rows[..k])
  {
    var kept, trail := rows[..k], rows[k..];
    SplitAt(rows, k);
    BlankFrom(rows, k, trail);
    DropBlankTrail(rows, kept, trail);
  }

  lemma SplitAt(rows: seq<string>, k: nat)
    requires k <= |rows|
    ensures rows == rows[..k] + rows[k..]
  {
  }

  /** Blank lines after the kept ones are dropped. */
  lemma DropBlankTrail(rows: seq<string>, kept: seq<string>, trail: seq<string>)
    requires rows == kept + trail && forall j :: 0 <= j < |trail| ==> IsBlank(trail[j])
    ensures NonBlank(rows) == NonBlank(kept)
  {
    NonBlankAppend(kept, trail);
    NonBlankOfBlank(trail);
    assert NonBlank(kept) + [] == NonBlank(kept);
  }

  lemma BlankFrom(rows: seq<string>, k: nat, trail: seq<string>)
    requires k <= |rows| && forall j :: k <= j < |rows| ==> IsBlank(rows[j])
    requires trail == rows[k..]
    ensures forall j :: 0 <= j < |trail| ==> IsBlank(trail[j])
  {
    forall j | 0 <= j < |trail| ensures IsBlank(trail[j]) {
      assert trail[j] == rows[k + j];
    }
  }

  /** Lines, each followed by '\n', after whitespace: trimmed, they are the lines up to the last non-blank one, joined. */
  lemma TrimOfOutput(lead: string, ls: seq<string>, k: nat)
    requires IsBlank(lead) && k < |ls|
    requires ls[0] != [] && !IsWhitespace(ls[0][0])
    requires ls[k] != [] && !IsWhitespace(ls[k][|ls[k]| - 1])
    requires forall j :: k < j < |ls| ==> IsBlank(ls[j])
    ensures Trim(lead + Terminated(ls)) == Join(ls[..k + 1], "\n")
  {
    var kept, trail := ls[..k + 1], ls[k + 1..];
    SplitAfter(ls, k);
    BlankFrom(ls, k + 1, trail);
    TrimTerminated(lead, ls, kept, trail);
  }

  /** The lines up to and including line `k`, then the rest. */
  lemma SplitAfter(ls: seq<string>, k: nat)
    requires k < |ls|
    ensures ls == ls[..k + 1] + ls[k + 1..]
    ensures |ls[..k + 1]| - 1 == k && ls[..k + 1][k] == ls[k] && ls[..k + 1][0] == ls[0]
  {
  }

  /** The first lines of a sequence, joined by '\n', split back into themselves when the last of them is not empty. */
  lemma LinesOfJoinedPrefix(ls: seq<string>, k: nat)
    requires k < |ls| && ls[k] != []
    requires forall j :: 0 <= j < |ls| ==> IsLine(ls[j])
    ensures Join(ls[..k + 1], "\n") != []
    ensures Lines(Join(ls[..k + 1], "\n")) == ls[..k + 1]
  {
    var kept := ls[..k + 1];
    forall j | 0 <= j < |kept| ensures IsLine(kept[j]) {
      assert kept[j] == ls[j];
    }
    assert kept[k] == ls[k];
    LinesOfJoin(kept);
  }

  /**
    * What `ps` prints: whitespace, a header line, then rows, each line
    * followed by '\n', where a row is blank or ends with a non-space. The
    * header loses its leading whitespace, the blank rows are dropped, and
    * the other rows are kept as they are, in order.
    */
  lemma CapturePsOfOutput(lead: string, header: string, rows: seq<string>)
    requires IsBlank(lead)
    requires header != [] && !IsWhitespace(header[0]) && !IsWhitespace(header[|header| - 1])
    requires IsLine(header) && forall k :: 0 <= k < |rows| ==> IsLine(rows[k])
    requires forall k :: 0 <= k < |rows| ==> IsBlank(rows[k]) || !IsWhitespace(rows[k][|rows[k]| - 1])
    ensures CapturePs(lead + Terminated([header] + rows)) == PsTable(header, NonBlank(rows))
  {
    var ls := [header] + rows;
    assert !IsBlank(header);
    forall j | 0 <= j < |ls| ensures IsLine(ls[j]) && (IsBlank(ls[j]) || !IsWhitespace(ls[j][|ls[j]| - 1])) {
      if j > 0 {
        assert ls[j] == rows[j - 1];
      }
    }
    var k := LastNonBlank(ls);
    TrimOfOutput(lead, ls, k);
    LinesOfJoinedPrefix(ls, k);
    forall j | k <= j < |rows| ensures IsBlank(rows[j]) {
      assert rows[j] == ls[j + 1];
    }
    ConsPrefix(header, rows, k);
    CapturePsOfLines(lead + Terminated(ls), header, rows[..k]);
    NonBlankBeforeTrail(rows, k);
  }

  lemma ConsPrefix(header: string, rows: seq<string>, k: nat)
    requires k <= |rows|
    ensures ([header] + rows)[..k + 1] == [header] + rows[..k]
  {
  }

  /** Text whose trimmed lines are a header and rows is captured as that header and the rows that are not blank. */
  lemma CapturePsOfLines(text: string, header: string, rows: seq<string>)
    requires Trim(text) != [] && Lines(Trim(text)) == [header] + rows
    ensures CapturePs(text) == PsTable(header, NonBlank(rows))
  {
    assert ([header] + rows)[1..] == rows;
  }

  /** One ranked section: its rows, or one empty line when there are none. */
  function Section(rows: seq<string>): seq<string> {
    if rows == [] then [""] else rows
  }

  /** The lines of one snapshot block, in the order they are written. */
  function BlockLines(full: string, header: string, cpu: seq<string>, mem: seq<string>): seq<string> {
    [Banner(full), CPU_MARKER, header] + Section(cpu) + [MEM_MARKER, header] + Section(mem) + [""]
  }

  /** The `format!` of the logger's `run`: the block appended to the day's log. */
  function FormatSnapshot(full: string, header: string, cpu: seq<string>, mem: seq<string>): string {
    "=== " + full + " ===\n-- CPU --\n" + header + "\n" + Join(cpu, "\n")
    + "\n-- MEM --\n" + header + "\n" + Join(mem, "\n") + "\n\n"
  }

  /** The block's lines, terminated, in four runs: the banner and CPU header, the CPU rows, the MEM header, the MEM rows. */
  lemma BlockLinesTerminated(full: string, header: string, cpu: seq<string>, mem: seq<string>)
    ensures Terminated(BlockLines(full, header, cpu, mem))
      == Terminated([Banner(full), CPU_MARKER, header]) + Terminated(Section(cpu))
         + Terminated([MEM_MARKER, header]) + Terminated(Section(mem)) + "\n"
  {
    var front, middle := [Banner(full), CPU_MARKER, header], [MEM_MARKER, header];
    var c, m := Section(cpu), Section(mem);
    TerminatedAppend(front, c);
    TerminatedAppend(front + c, middle);
    TerminatedAppend(front + c + middle, m);
    TerminatedAppend(front + c + middle + m, [""]);
    assert Terminated([""]) == "\n";
  }

  lemma BannerRunTerminated(full: string, header: string)
    ensures Terminated([Banner(full), CPU_MARKER, header]) == "=== " + full + " ===\n-- CPU --\n" + header + "\n"
  {
    var front := [Banner(full), CPU_MARKER, header];
    assert front[1..] == [CPU_MARKER, header] && front[1..][1..] == [header];
    assert Terminated([header]) == header + "\n";
    assert Terminated(front) == Banner(full) + "\n" + (CPU_MARKER + "\n" + (header + "\n"));
    assert Banner(full) + "\n" + CPU_MARKER + "\n" == "=== " + full + " ===\n-- CPU --\n";
  }

  lemma MemRunTerminated(header: string)
    ensures Terminated([MEM_MARKER, header]) == "-- MEM --\n" + header + "\n"
  {
    var middle := [MEM_MARKER, header];
    assert middle[1..] == [header];
    assert Terminated([header]) == header + "\n";
    assert Terminated(middle) == MEM_MARKER + "\n" + (header + "\n");
  }

  lemma Regroup(front: string, cpu: string, header: string, mem: string)
    ensures front + cpu + "\n-- MEM --\n" + header + "\n" + mem + "\n\n"
      == front + (cpu + "\n") + ("-- MEM --\n" + header + "\n") + (mem + "\n") + "\n"
  {
    assert "\n-- MEM --\n" == "\n" + "-- MEM --\n";
    assert "\n\n" == "\n" + "\n";
  }

  /** The format string, cut at the same places. */
  lemma FormatSnapshotRuns(full: string, header: string, cpu: seq<string>, mem: seq<string>)
    ensures FormatSnapshot(full, header, cpu, mem)
      == Terminated([Banner(full), CPU_MARKER, header]) + (Join(cpu, "\n") + "\n")
         + Terminated([MEM_MARKER, header]) + (Join(mem, "\n") + "\n") + "\n"
  {
    BannerRunTerminated(full, header);
    MemRunTerminated(header);
    Regroup("=== " + full + " ===\n-- CPU --\n" + header + "\n", Join(cpu, "\n"), header, Join(mem, "\n"));
  }

  /** The block is its lines, each followed by '\n', ending with an empty line. */
  lemma FormatSnapshotLines(full: string, header: string, cpu: seq<string>, mem: seq<string>)
    ensures FormatSnapshot(full, header, cpu, mem) == Terminated(BlockLines(full, header, cpu, mem))
  {
    JoinNewlineTerminated(cpu);
    JoinNewlineTerminated(mem);
    BlockLinesTerminated(full, header, cpu, mem);
    FormatSnapshotRuns(full, header, cpu, mem);
  }

  /** The block the logger writes for one capture, ranked with `parseNumber` reading the numeric columns. */
  function SnapshotText(psText: string, full: string, parseNumber: string -> Option<int>): string {
    var table := CapturePs(psText);
    FormatSnapshot(full, table.header,
      TopRows(table.rows, RowKey(CPU_COLUMN, parseNumber)),
      TopRows(table.rows, RowKey(MEM_COLUMN, parseNumber)))
  }

  /** A directory entry: the file's text, and its modification time when its metadata can be read. */
  datatype FileInfo = FileInfo(content: string, modified: Option<int>)

  /**
    * `now` less the retention period; when that falls before the earliest
    * `SystemTime`, `checked_sub` fails and the epoch is used instead.
    */
  function Cutoff(now: int): int {
    if now - RETENTION >= MIN_TIME then now - RETENTION else 0
  }

  /** The deletion test of `cleanup_old_logs`: a day's log, with a readable time, strictly before the cutoff. */
  predicate ShouldRemove(name: string, modified: Option<int>, cutoff: int) {
    IsDayLog(name) && modified.Some? && modified.value < cutoff
  }

  /** The directory after the deletions: every entry that fails the test, unchanged. */
  function Survivors(files: map<string, FileInfo>, cutoff: int): (r: map<string, FileInfo>)
    ensures forall n :: n in r ==> n in files && r[n] == files[n]
  {
    map n | n in files && !ShouldRemove(n, files[n].modified, cutoff) :: files[n]
  }

  /**
    * A log survives cleanup exactly when it is not a day's log, has no
    * readable time, or is at most the retention period older than `now`;
    * one exactly that old is kept.
    */
  lemma SurvivesIff(files: map<string, FileInfo>, now: int, name: string)
    requires name in files
    requires now - RETENTION >= MIN_TIME
    ensures name in Survivors(files, Cutoff(now)) <==>
      !IsDayLog(name) || files[name].modified.None? || now - files[name].modified.value <= RETENTION
  {
  }

  /** Entries other than day logs, and day logs without a readable time, are never deleted. */
  lemma OthersSurvive(files: map<string, FileInfo>, cutoff: int)
    ensures forall n :: n in files && (!IsDayLog(n) || files[n].modified.None?) ==> n in Survivors(files, cutoff)
  {
  }

  /** Cleanup is idempotent: a second pass with the same cutoff deletes nothing more. */
  lemma SurvivorsIdempotent(files: map<string, FileInfo>, cutoff: int)
    ensures Survivors(Survivors(files, cutoff), cutoff) == Survivors(files, cutoff)
  {
  }

  /** The directory after appending `text` to `name`, written at time `written`. */
  function Appended(files: map<string, FileInfo>, name: string, text: string, written: int): map<string, FileInfo> {
    files[name := FileInfo((if name in files then files[name].content else "") + text, Some(written))]
  }

  /**
    * The log just written survives the cleanup that follows, as long as the
    * cleanup runs within the retention period of the write.
    */
  lemma FreshLogSurvives(files: map<string, FileInfo>, date: string, text: string, written: int, now: int)
    requires date != [] && '0' <= date[0] <= '9'
    requires now - RETENTION >= MIN_TIME && now - written <= RETENTION
    ensures LogName(date) in Survivors(Appended(files, LogName(date), text, written), Cutoff(now))
    ensures EndsWith(Survivors(Appended(files, LogName(date), text, written), Cutoff(now))[LogName(date)].content, text)
  {
    var name := LogName(date);
    var after := Appended(files, name, text, written);
    assert name[0] == date[0];
    assert !StartsWith(name, LAUNCHD_PREFIX);
    SurvivesIff(after, now, name);
  }

  /** The log directory the logger writes to. */
  class LogDirectory {
    var files: map<string, FileInfo>

    constructor(files: map<string, FileInfo>)
      ensures this.files == files
    {
      this.files := files;
    }

    /** Opens `name` for appending (creating it when missing) and writes `text` at time `written`. */
    method Append(name: string, text: string, written: int)
      modifies this
      ensures files == Appended(old(files), name, text, written)
    {
      var content := if name in files then files[name].content else "";
      files := files[name := FileInfo(content + text, Some(written))];
    }

    /**
      * `cleanup_old_logs`: goes through the entries in whatever order the
      * directory lists them, deleting each day's log whose time is before
      * the cutoff.
      */
    method CleanupOldLogs(now: int)
      modifies this
      ensures files == Survivors(old(files), Cutoff(now))
    {
      var cutoff := Cutoff(now);
      ghost var before := files;
      var pending := files.Keys;
      while pending != {}
        invariant pending <= before.Keys
        invariant files == map n | n in before && (n in pending || !ShouldRemove(n, before[n].modified, cutoff)) :: before[n]
        decreases pending
      {
        var name :| name in pending;
        pending := pending - {name};
        if !EndsWith(name, LOG_SUFFIX) || StartsWith(name, LAUNCHD_PREFIX) {
          continue;
        }
        var modified := files[name].modified;
        if modified.None? {
          continue;
        }
        if modified.value < cutoff {
          files := files - {name};
        }
      }
    }

    /**
      * The logger's `run`: captures the table, ranks it by CPU and by
      * memory, appends the block to the day's log, then cleans up.
      */
    method RecordSnapshot(psText: string, date: string, full: string, written: int, now: int, parseNumber: string -> Option<int>)
      modifies this
      ensures files == Survivors(Appended(old(files), LogName(date), SnapshotText(psText, full, parseNumber), written), Cutoff(now))
    {
      var table := CapturePs(psText);
      var cpuTop := TopBy(table.rows, CPU_COLUMN, parseNumber);
      var memTop := TopBy(table.rows, MEM_COLUMN, parseNumber);
      var snapshot := FormatSnapshot(full, table.header, cpuTop, memTop);
      Append(LogName(date), snapshot, written);
      CleanupOldLogs(now);
    }
  }
}
