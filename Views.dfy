/**
  * The query tool's views of a directory the logger has written: the latest
  * view shows the block appended last, the day view every block in order,
  * the closest view the block nearest the requested time, and a missing log
  * lists the dates in sorted order. With the default row limit, a block the
  * logger wrote is shown whole.
  */
module Views {
  import opened Wrappers
  import opened Text
  import opened SnapshotParser
  import opened Display
  import opened Closest
  import opened Cli
  import opened Listing
  import opened Logger
  import opened RoundTrip
  import opened Query

  /** One more line adds at most one row to the count. */
  lemma SectionRankStep(l: seq<string>)
    requires l != []
    ensures SectionRank(l) <= SectionRank(l[..|l| - 1]) + 1
  {
  }

  /** Each line adds at most one to the row count of a section. */
  lemma {:induction false} SectionRankGrowth(a: seq<string>, b: seq<string>)
    ensures SectionRank(a + b) <= SectionRank(a) + |b|
    decreases |b|
  {
    if b == [] {
      assert a + b == a;
    } else {
      var ab := a + b;
      SectionRankGrowth(a, b[..|b| - 1]);
      assert ab[..|ab| - 1] == a + b[..|b| - 1];
      SectionRankStep(ab);
    }
  }

  /** Each of the logger's section markers resets the row count. */
  lemma MarkerResets(m: string)
    requires m == CPU_MARKER || m == MEM_MARKER
    ensures IsSectionMarker(m) && !PassesThrough(m)
  {
    assert m[0] == '-' && !IsWhitespace(m[0]);
    assert TrimStart(m) == m;
    assert m[..4][0] != BANNER_PREFIX[0];
    assert m[..3][0] != "PID"[0];
    assert m[..3] == "-- ";
  }

  /** A section marker resets the row count. */
  lemma RankAtMarker(a: seq<string>, m: string)
    requires IsSectionMarker(m) && !PassesThrough(m)
    ensures SectionRank(a + [m]) == 0
  {
    assert (a + [m])[|a|] == m;
  }

  /** A line that passes through leaves the row count as it was. */
  lemma RankAtPassing(a: seq<string>, h: string)
    requires PassesThrough(h)
    ensures SectionRank(a + [h]) == SectionRank(a)
  {
    assert (a + [h])[|a|] == h;
    assert (a + [h])[..|a|] == a;
  }

  /** After a section marker and a `ps` header, a section has no rows yet. */
  lemma RankAfterHeading(a: seq<string>, marker: string, header: string)
    requires IsSectionMarker(marker) && !PassesThrough(marker)
    requires StartsWith(TrimStart(header), "PID")
    ensures SectionRank(a + [marker, header]) == 0
  {
    calc {
      SectionRank(a + [marker, header]);
      { assert a + [marker, header] == (a + [marker]) + [header]; }
      SectionRank((a + [marker]) + [header]);
      { RankAtPassing(a + [marker], header); }
      SectionRank(a + [marker]);
      { RankAtMarker(a, marker); }
      0;
    }
  }

  /** The CPU section of a block starts with no rows counted. */
  lemma CpuHeadingResets(c: Capture)
    requires StartsWith(TrimStart(c.header), "PID")
    ensures SectionRank(Block(c)[..3]) == 0
  {
    var front := [Banner(c.full)];
    calc {
      SectionRank(Block(c)[..3]);
      { assert Block(c)[..3] == front + [CPU_MARKER, c.header]; }
      SectionRank(front + [CPU_MARKER, c.header]);
      { MarkerResets(CPU_MARKER); RankAfterHeading(front, CPU_MARKER, c.header); }
      0;
    }
  }

  /** The MEM section of a block starts with no rows counted. */
  lemma MemHeadingResets(c: Capture)
    requires StartsWith(TrimStart(c.header), "PID")
    ensures SectionRank(Block(c)[..5 + |Section(c.cpu)|]) == 0
  {
    var front := [Banner(c.full), CPU_MARKER, c.header] + Section(c.cpu);
    calc {
      SectionRank(Block(c)[..5 + |Section(c.cpu)|]);
      { assert Block(c)[..5 + |Section(c.cpu)|] == front + [MEM_MARKER, c.header]; }
      SectionRank(front + [MEM_MARKER, c.header]);
      { MarkerResets(MEM_MARKER); RankAfterHeading(front, MEM_MARKER, c.header); }
      0;
    }
  }

  /** The banner, the markers, the headers and the closing empty line of a block are not process rows. */
  lemma FrameLinesOfBlock(c: Capture)
    requires StartsWith(TrimStart(c.header), "PID")
    ensures var b, n := Block(c), |Section(c.cpu)|;
      !IsDataRow(b[0]) && !IsDataRow(b[1]) && !IsDataRow(b[2])
      && !IsDataRow(b[3 + n]) && !IsDataRow(b[4 + n]) && !IsDataRow(b[|b| - 1])
  {
    var b, n := Block(c), |Section(c.cpu)|;
    var banner := Banner(c.full);
    assert b[0] == banner && b[1] == CPU_MARKER && b[2] == c.header;
    assert b[3 + n] == MEM_MARKER && b[4 + n] == c.header && b[|b| - 1] == "";
    assert PassesThrough(banner) by {
      assert banner[..4] == BANNER_PREFIX;
    }
    MarkerResets(CPU_MARKER);
    MarkerResets(MEM_MARKER);
  }

  /** Only the rows of the two sections can be process rows of a block. */
  lemma BlockDataRows(c: Capture, k: nat)
    requires StartsWith(TrimStart(c.header), "PID")
    requires k < |Block(c)| && IsDataRow(Block(c)[k])
    ensures 3 <= k < 3 + |Section(c.cpu)| || 5 + |Section(c.cpu)| <= k < 5 + |Section(c.cpu)| + |Section(c.mem)|
  {
    var b, n := Block(c), |Section(c.cpu)|;
    assert |b| == 6 + n + |Section(c.mem)|;
    FrameLinesOfBlock(c);
    assert k != 0 && k != 1 && k != 2 && k != 3 + n && k != 4 + n && k != |b| - 1;
  }

  /** In a section that starts with no rows counted, at most one row is counted per line. */
  lemma RankInSection(b: seq<string>, start: nat, end: nat)
    requires start <= end <= |b| && SectionRank(b[..start]) == 0
    ensures SectionRank(b[..end]) <= end - start
  {
    var front, middle := b[..start], b[start..end];
    calc {
      SectionRank(b[..end]);
      { assert b[..end] == front + middle; }
      SectionRank(front + middle);
    <= { SectionRankGrowth(front, middle); }
      SectionRank(front) + |middle|;
    }
  }

  /** Every line of a section of such a block has fewer than the default limit of rows before it in its section. */
  lemma RowWithinLimit(c: Capture, k: nat)
    requires StartsWith(TrimStart(c.header), "PID")
    requires |c.cpu| <= DEFAULT_TOP && |c.mem| <= DEFAULT_TOP
    requires 3 <= k < 3 + |Section(c.cpu)| || 5 + |Section(c.cpu)| <= k < 5 + |Section(c.cpu)| + |Section(c.mem)|
    ensures SectionRank(Block(c)[..k]) < DEFAULT_TOP
  {
    var b, n := Block(c), |Section(c.cpu)|;
    assert n <= DEFAULT_TOP && |Section(c.mem)| <= DEFAULT_TOP;
    if k < 3 + n {
      CpuHeadingResets(c);
      RankInSection(b, 3, k);
    } else {
      MemHeadingResets(c);
      RankInSection(b, 5 + n, k);
    }
  }

  /**
    * With the default limit, a block whose header is a `ps` header and whose
    * sections hold at most the logger's ten rows each loses no line.
    */
  lemma DefaultViewShowsWholeBlock(c: Capture)
    requires StartsWith(TrimStart(c.header), "PID")
    requires |c.cpu| <= DEFAULT_TOP && |c.mem| <= DEFAULT_TOP
    ensures TrimmedLines(Block(c), DEFAULT_TOP) == Block(c)
  {
    var b := Block(c);
    forall k | 0 <= k < |b| ensures RowShown(b, k, DEFAULT_TOP) {
      if IsDataRow(b[k]) {
        BlockDataRows(c, k);
        RowWithinLimit(c, k);
      }
    }
    TrimmedWithinLimit(b, DEFAULT_TOP);
  }

  /**
    * With no arguments the tool shows the block the logger appended last to
    * today's log; with the default limit and a `ps` header, every line of it.
    */
  lemma LatestViewShowsLastCapture(today: string, log: string, c: Capture, logs: map<string, string>, listing: seq<string>,
                                   toEpoch: string -> Option<int>)
    requires LogName(today) in logs && logs[LogName(today)] == log + Written(c)
    requires EndsLine(log) && Readable(c)
    ensures QueryOutcome([], today, logs, listing, toEpoch) == Printed(Rendered(Snapshot(c.full, Block(c)), DEFAULT_TOP) + "\n")
    ensures StartsWith(TrimStart(c.header), "PID") && |c.cpu| <= DEFAULT_TOP && |c.mem| <= DEFAULT_TOP ==>
      QueryOutcome([], today, logs, listing, toEpoch) == Printed(TrimEnd(Join(Block(c), "\n")) + "\n")
  {
    AppendRoundTrip(log, c);
    var snapshots := ParsedLog(logs[LogName(today)]);
    assert snapshots[|snapshots| - 1] == Snapshot(c.full, Block(c));
    LatestView(today, logs, listing, toEpoch);
    if StartsWith(TrimStart(c.header), "PID") && |c.cpu| <= DEFAULT_TOP && |c.mem| <= DEFAULT_TOP {
      DefaultViewShowsWholeBlock(c);
    }
  }

  /** With no arguments and a non-empty log for today, the tool shows the last snapshot of that log. */
  lemma LatestView(today: string, logs: map<string, string>, listing: seq<string>, toEpoch: string -> Option<int>)
    requires LogName(today) in logs && ParsedLog(logs[LogName(today)]) != []
    ensures var snapshots := ParsedLog(logs[LogName(today)]);
      QueryOutcome([], today, logs, listing, toEpoch) == Printed(Rendered(snapshots[|snapshots| - 1], DEFAULT_TOP) + "\n")
  {
    PlainArguments([], today);
  }

  /** Each block the logger wrote to a day's log, rendered in order. */
  function CaptureViews(captures: seq<Capture>, topN: nat): (r: seq<string>)
    ensures |r| == |captures|
  {
    seq(|captures|, k requires 0 <= k < |captures| => Rendered(Snapshot(captures[k].full, Block(captures[k])), topN))
  }

  /** Rendering the snapshots read back from a day's log renders the captures written to it. */
  lemma RenderedLog(captures: seq<Capture>, topN: nat)
    requires forall k :: 0 <= k < |captures| ==> Readable(captures[k])
    ensures RenderAll(ParsedLog(LogOf(captures)), topN) == CaptureViews(captures, topN)
  {
    LogRoundTrip(captures);
    ExpectedPointwise(captures);
  }

  /** Given only a date whose log exists, the tool shows every snapshot of the log, a blank line apart. */
  lemma DayView(date: string, today: string, logs: map<string, string>, listing: seq<string>, toEpoch: string -> Option<int>)
    requires !StartsWith(date, "-")
    requires LogName(date) in logs
    ensures QueryOutcome([date], today, logs, listing, toEpoch) == Printed(Join(RenderAll(ParsedLog(logs[LogName(date)]), DEFAULT_TOP), "\n\n") + "\n")
  {
    PlainArguments([date], today);
  }

  /** Given a date, the tool shows every block of that day's log, in the order the logger wrote them, a blank line apart. */
  lemma DayViewShowsEveryCapture(date: string, today: string, captures: seq<Capture>, logs: map<string, string>, listing: seq<string>,
                                 toEpoch: string -> Option<int>)
    requires !StartsWith(date, "-")
    requires LogName(date) in logs && logs[LogName(date)] == LogOf(captures)
    requires forall k :: 0 <= k < |captures| ==> Readable(captures[k])
    ensures QueryOutcome([date], today, logs, listing, toEpoch) == Printed(Join(CaptureViews(captures, DEFAULT_TOP), "\n\n") + "\n")
  {
    DayView(date, today, logs, listing, toEpoch);
    RenderedLog(captures, DEFAULT_TOP);
  }

  /**
    * Given a date and a time that converts, the tool shows the snapshot
    * nearest that time (the earliest among equally near ones), or says that
    * none of the day's snapshots has a readable timestamp.
    */
  lemma ClosestViewShowsNearest(date: string, time: string, today: string, logs: map<string, string>, listing: seq<string>,
                                toEpoch: string -> Option<int>, target: int)
    requires !StartsWith(date, "-") && !StartsWith(time, "-")
    requires toEpoch(TargetTimestamp(date, time)) == Some(target)
    requires LogName(date) in logs
    ensures var snaps := ParsedLog(logs[LogName(date)]);
      forall i: nat :: IsClosest(snaps, target, toEpoch, i) ==>
        QueryOutcome([date, time], today, logs, listing, toEpoch) == Printed(Rendered(snaps[i], DEFAULT_TOP) + "\n")
    ensures var snaps := ParsedLog(logs[LogName(date)]);
      (forall k :: 0 <= k < |snaps| ==> !Dated(snaps[k], toEpoch)) ==>
        QueryOutcome([date, time], today, logs, listing, toEpoch) == Printed("No snapshots found for " + date + "\n")
  {
    PlainArguments([date, time], today);
    var snaps := ParsedLog(logs[LogName(date)]);
    forall i: nat | IsClosest(snaps, target, toEpoch, i)
      ensures QueryOutcome([date, time], today, logs, listing, toEpoch) == Printed(Rendered(snaps[i], DEFAULT_TOP) + "\n")
    {
      ClosestIsUnique(snaps, target, toEpoch, i);
    }
  }

  /** A date and time that do not convert end the run with code 2, whatever the directory holds. */
  lemma UnreadableTimeRejected(date: string, time: string, today: string, logs: map<string, string>, listing: seq<string>,
                               toEpoch: string -> Option<int>)
    requires !StartsWith(date, "-") && !StartsWith(time, "-")
    requires toEpoch(TargetTimestamp(date, time)).None?
    ensures QueryOutcome([date, time], today, logs, listing, toEpoch) == Exit("resource-query: " + BAD_TIME, 2)
  {
    PlainArguments([date, time], today);
  }

  /**
    * When the requested day has no log, the tool lists the dates of the day
    * logs present in the directory, each once per file, in ascending order.
    */
  lemma MissingLogListsDates(argv: seq<string>, today: string, args: Args, logs: map<string, string>, listing: seq<string>,
                             toEpoch: string -> Option<int>, dates: seq<string>)
    requires CliSpec(argv, today) == Parsed(args)
    requires args.time.None? || toEpoch(TargetTimestamp(args.date, args.time.value)).Some?
    requires LogName(args.date) !in logs
    requires LexSorted(dates) && multiset(dates) == multiset(DateNames(listing))
    ensures QueryOutcome(argv, today, logs, listing, toEpoch) == Printed(MissingLogText(args.date, dates))
  {
    LexSortIsSortedPermutation(DateNames(listing));
    SortedPermutationsAgree(LexSort(DateNames(listing)), dates);
  }
}
