/**
  * What the logger writes, the query tool reads back: a block formatted by
  * the logger parses as one snapshot carrying the capture's timestamp and
  * exactly the block's lines, and a log made of such blocks parses as one
  * snapshot per capture, in order.
  */
module RoundTrip {
  import opened Wrappers
  import opened Text
  import opened Ranking
  import opened SnapshotParser
  import opened Logger

  /** One capture as the logger formats it. */
  datatype Capture = Capture(full: string, header: string, cpu: seq<string>, mem: seq<string>)

  function Block(c: Capture): seq<string> {
    BlockLines(c.full, c.header, c.cpu, c.mem)
  }

  function Written(c: Capture): string {
    FormatSnapshot(c.full, c.header, c.cpu, c.mem)
  }

  /**
    * A capture the reader can recover: the timestamp has no line break, the
    * header and rows are lines, and neither the header nor a row looks like
    * a banner.
    */
  predicate Readable(c: Capture) {
    '\n' !in c.full && IsLine(c.header) && !StartsBlock(c.header)
    && (forall k :: 0 <= k < |c.cpu| ==> IsLine(c.cpu[k]) && !StartsBlock(c.cpu[k]))
    && (forall k :: 0 <= k < |c.mem| ==> IsLine(c.mem[k]) && !StartsBlock(c.mem[k]))
  }

  /** A line the reader gets back as written and does not take for a banner. */
  predicate Clean(l: string) {
    IsLine(l) && !StartsBlock(l)
  }

  /** The capture the logger formats for the `ps` output `psText`, stamped `full`. */
  function Logged(psText: string, full: string, parseNumber: string -> Option<int>): (c: Capture)
    ensures Written(c) == SnapshotText(psText, full, parseNumber)
  {
    var t := CapturePs(psText);
    Capture(full, t.header, TopRows(t.rows, RowKey(CPU_COLUMN, parseNumber)), TopRows(t.rows, RowKey(MEM_COLUMN, parseNumber)))
  }

  /** The ranked rows are taken from the rows, so they are clean when the rows are. */
  lemma CleanRanked(rows: seq<string>, key: string -> int)
    requires forall k :: 0 <= k < |rows| ==> Clean(rows[k])
    ensures forall k :: 0 <= k < |TopRows(rows, key)| ==> Clean(TopRows(rows, key)[k])
  {
    TopRowsShape(rows, key);
    var top := TopRows(rows, key);
    forall k | 0 <= k < |top| ensures Clean(top[k]) {
      assert top[k] in multiset(top);
      assert top[k] in multiset(rows);
      var i :| 0 <= i < |rows| && rows[i] == top[k];
    }
  }

  /** The default header is clean. */
  lemma CleanDefaultHeader()
    ensures Clean(DEFAULT_HEADER)
  {
    DefaultHeaderIsOneLine();
    assert DEFAULT_HEADER[0] == 'P';
  }

  /** The header and rows `capture_ps` keeps are lines of the trimmed output, so they are clean when those are. */
  lemma CleanCapture(psText: string)
    requires forall k :: 0 <= k < |Lines(Trim(psText))| ==> Clean(Lines(Trim(psText))[k])
    ensures Clean(CapturePs(psText).header)
    ensures forall k :: 0 <= k < |CapturePs(psText).rows| ==> Clean(CapturePs(psText).rows[k])
  {
    if IsBlank(psText) {
      CleanDefaultHeader();
    } else {
      CleanKeptRows(Lines(Trim(psText)));
    }
  }

  /** The rows kept after the header line are clean when all the lines are. */
  lemma CleanKeptRows(ls: seq<string>)
    requires ls != [] && forall k :: 0 <= k < |ls| ==> Clean(ls[k])
    ensures forall k :: 0 <= k < |NonBlank(ls[1..])| ==> Clean(NonBlank(ls[1..])[k])
  {
    var rest, rows := ls[1..], NonBlank(ls[1..]);
    forall k | 0 <= k < |rows| ensures Clean(rows[k]) {
      NonBlankMembers(rest, rows[k]);
      var i :| 0 <= i < |rest| && rest[i] == rows[k];
      assert ls[i + 1] == rows[k];
    }
  }

  /**
    * What the logger writes can be read back: it is readable whenever the
    * timestamp has no line break and no line of the trimmed `ps` output ends
    * in '\r' or starts like a banner.
    */
  lemma LoggedReadable(psText: string, full: string, parseNumber: string -> Option<int>)
    requires '\n' !in full
    requires forall k :: 0 <= k < |Lines(Trim(psText))| ==> Clean(Lines(Trim(psText))[k])
    ensures Readable(Logged(psText, full, parseNumber))
  {
    var t := CapturePs(psText);
    CleanCapture(psText);
    CleanRanked(t.rows, RowKey(CPU_COLUMN, parseNumber));
    CleanRanked(t.rows, RowKey(MEM_COLUMN, parseNumber));
  }

  /** Every line of a readable capture's block is a line, and only the first is a banner. */
  lemma BlockShape(c: Capture)
    requires Readable(c)
    ensures forall k :: 0 <= k < |Block(c)| ==> IsLine(Block(c)[k])
    ensures StartsBlock(Block(c)[0])
    ensures forall m :: 0 < m < |Block(c)| ==> !StartsBlock(Block(c)[m])
  {
    var b := Block(c);
    var banner := Banner(c.full);
    assert banner[|banner| - 1] == '=';
    assert '\n' !in banner by {
      assert banner == "=== " + c.full + " ===";
    }
    assert b[0] == banner && b[0][..4] == BANNER_PREFIX;
    assert CPU_MARKER[0] != '=' && MEM_MARKER[0] != '=';
    assert !StartsBlock(CPU_MARKER) && !StartsBlock(MEM_MARKER) && !StartsBlock("");
    var sc, sm := Section(c.cpu), Section(c.mem);
    assert forall k :: 0 <= k < |sc| ==> IsLine(sc[k]) && !StartsBlock(sc[k]);
    assert forall k :: 0 <= k < |sm| ==> IsLine(sm[k]) && !StartsBlock(sm[k]);
    assert b == [banner, CPU_MARKER, c.header] + sc + [MEM_MARKER, c.header] + sm + [""];
    forall k | 0 <= k < |b| ensures IsLine(b[k]) && (k > 0 ==> !StartsBlock(b[k])) {
      if k < 3 {
      } else if k < 3 + |sc| {
        assert b[k] == sc[k - 3];
      } else if k < 5 + |sc| {
      } else if k < 5 + |sc| + |sm| {
        assert b[k] == sm[k - 5 - |sc|];
      } else {
        assert b[k] == "";
      }
    }
  }

  /** The formatted block splits into exactly the block's lines. */
  lemma LinesOfBlock(c: Capture)
    requires Readable(c)
    ensures Lines(Written(c)) == Block(c)
  {
    FormatSnapshotLines(c.full, c.header, c.cpu, c.mem);
    BlockShape(c);
    LinesOfTerminated(Block(c));
  }

  /** A formatted block, read on its own, is one snapshot with the capture's timestamp and the block's lines. */
  lemma BlockRoundTrip(c: Capture)
    requires Readable(c)
    ensures ParsedLog(Written(c)) == [Snapshot(c.full, Block(c))]
  {
    LinesOfBlock(c);
    BlockShape(c);
    OneBlock(Block(c));
    BannerRoundTrip(c.full);
    assert ToSnapshots([Block(c)]) == ToSnapshots([]) + [SnapshotFromLines(Block(c))] by {
      ToSnapshotsSnoc([], Block(c));
    }
  }

  /** A log that is empty or ends with a line break: where the logger's next block starts a line. */
  predicate EndsLine(log: string) {
    log == [] || log[|log| - 1] == '\n'
  }

  /** Appending a block to such a log adds one snapshot after those already there, and the log still ends a line. */
  lemma AppendRoundTrip(log: string, c: Capture)
    requires Readable(c) && EndsLine(log)
    ensures ParsedLog(log + Written(c)) == ParsedLog(log) + [Snapshot(c.full, Block(c))]
    ensures EndsLine(log + Written(c))
  {
    var b := Block(c);
    LinesOfBlock(c);
    BlockShape(c);
    LinesAppend(log, Written(c));
    BannerRoundTrip(c.full);
    var before := Lines(log);
    if before == [] {
      assert before + b == b;
      OneBlock(b);
      ToSnapshotsSnoc([], b);
    } else {
      SplitBlocksAppend(before, b);
      ToSnapshotsSnoc(SplitBlocks(before), b);
    }
    FormatSnapshotLines(c.full, c.header, c.cpu, c.mem);
    TerminatedEndsLine(b);
  }

  /** The log after the logger has appended the blocks of `captures`, in order, to an empty file. */
  function LogOf(captures: seq<Capture>): string {
    if captures == [] then "" else LogOf(captures[..|captures| - 1]) + Written(captures[|captures| - 1])
  }

  /** The snapshots the reader should find: one per capture, with its timestamp and its block's lines. */
  function Expected(captures: seq<Capture>): seq<Snapshot> {
    if captures == [] then []
    else Expected(captures[..|captures| - 1]) + [Snapshot(captures[|captures| - 1].full, Block(captures[|captures| - 1]))]
  }

  /** The expected snapshots, one per capture. */
  lemma {:induction false} ExpectedPointwise(captures: seq<Capture>)
    ensures |Expected(captures)| == |captures|
    ensures forall k :: 0 <= k < |captures| ==> Expected(captures)[k] == Snapshot(captures[k].full, Block(captures[k]))
  {
    if captures != [] {
      var init := captures[..|captures| - 1];
      ExpectedPointwise(init);
    }
  }

  /** A day's log written by the logger parses back into its captures, one snapshot each, in order. */
  lemma {:induction false} LogRoundTrip(captures: seq<Capture>)
    requires forall k :: 0 <= k < |captures| ==> Readable(captures[k])
    ensures ParsedLog(LogOf(captures)) == Expected(captures)
    ensures EndsLine(LogOf(captures))
  {
    if captures != [] {
      var init := captures[..|captures| - 1];
      assert forall k :: 0 <= k < |init| ==> init[k] == captures[k];
      LogRoundTrip(init);
      AppendRoundTrip(LogOf(init), captures[|captures| - 1]);
    }
  }
}
