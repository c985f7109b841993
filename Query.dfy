/**
  * The query tool's `main` and `run`: parse the arguments, check a requested
  * time, then print either the dates that have logs (when the day's log is
  * missing) or one of three views of the day's snapshots. The directory is
  * given as the logs' contents by file name plus the names a listing
  * returns; "today" and the timestamp conversion are parameters.
  */
module Query {
  import opened Wrappers
  import opened Text
  import opened SnapshotParser
  import opened Display
  import opened Closest
  import opened Cli
  import opened Listing

  /** The lines listing the available dates, each indented by two spaces. */
  function DateLines(dates: seq<string>): string {
    if dates == [] then "" else DateLines(dates[..|dates| - 1]) + "  " + dates[|dates| - 1] + "\n"
  }

  /** What `run` prints when the day has no log. */
  function MissingLogText(date: string, dates: seq<string>): string {
    "No log file found for " + date + "\n" + (if dates == [] then "" else "Available dates:\n" + DateLines(dates))
  }

  /** Each snapshot rendered with the row limit, in order. */
  function RenderAll(snapshots: seq<Snapshot>, topN: nat): (r: seq<string>)
    ensures |r| == |snapshots|
  {
    seq(|snapshots|, k requires 0 <= k < |snapshots| => Rendered(snapshots[k], topN))
  }

  /**
    * The mode dispatch of `run` on the day's log text: with a time, the
    * closest snapshot; with only a date, every snapshot, separated by a blank
    * line; with neither, the last snapshot.
    */
  function ModeOutput(args: Args, content: string, toEpoch: string -> Option<int>): string {
    var snapshots := ParsedLog(content);
    match args.time
    case Some(time) =>
      (match FindClosest(snapshots, args.date, time, toEpoch)
       case Some(s) => Rendered(s, args.topN) + "\n"
       case None => "No snapshots found for " + args.date + "\n")
    case None =>
      if args.dateProvided then Join(RenderAll(snapshots, args.topN), "\n\n") + "\n"
      else if snapshots == [] then "No snapshots found in today's log\n"
      else Rendered(snapshots[|snapshots| - 1], args.topN) + "\n"
  }

  /** What `run` prints, given the logs by file name and the names the directory listing returns. */
  function RunOutput(args: Args, logs: map<string, string>, listing: seq<string>, toEpoch: string -> Option<int>): string {
    if LogName(args.date) !in logs then MissingLogText(args.date, LexSort(DateNames(listing)))
    else ModeOutput(args, logs[LogName(args.date)], toEpoch)
  }

  /** The message for a missing log, with one indented line per available date. */
  method MissingLog(date: string, dates: seq<string>) returns (out: string)
    ensures out == MissingLogText(date, dates)
  {
    out := "No log file found for " + date + "\n";
    if dates != [] {
      var listed := "";
      for i := 0 to |dates|
        invariant listed == DateLines(dates[..i])
      {
        assert dates[..i + 1][..i] == dates[..i];
        listed := listed + "  " + dates[i] + "\n";
      }
      assert dates[..|dates|] == dates;
      out := out + ("Available dates:\n" + listed);
    }
  }

  /** The date-only view: every snapshot through `trim_snapshot`, in order. */
  method RenderSnapshots(snapshots: seq<Snapshot>, topN: nat) returns (rendered: seq<string>)
    ensures rendered == RenderAll(snapshots, topN)
  {
    rendered := [];
    for i := 0 to |snapshots|
      invariant |rendered| == i
      invariant forall k :: 0 <= k < i ==> rendered[k] == Rendered(snapshots[k], topN)
    {
      var text := TrimSnapshot(snapshots[i], topN);
      rendered := rendered + [text];
    }
  }

  /** `run`: looks for the day's log, lists the dates when it is missing, otherwise prints the chosen view. */
  method Run(args: Args, logs: map<string, string>, listing: seq<string>, toEpoch: string -> Option<int>) returns (out: string)
    ensures out == RunOutput(args, logs, listing, toEpoch)
  {
    var name := LogName(args.date);
    if name !in logs {
      var dates := ListDates(listing);
      out := MissingLog(args.date, dates);
      return;
    }
    var snapshots := ParseSnapshots(logs[name]);
    match args.time {
      case Some(time) =>
        var closest := FindClosest(snapshots, args.date, time, toEpoch);
        match closest {
          case Some(s) =>
            var text := TrimSnapshot(s, args.topN);
            out := text + "\n";
          case None =>
            out := "No snapshots found for " + args.date + "\n";
        }
      case None =>
        if args.dateProvided {
          var rendered := RenderSnapshots(snapshots, args.topN);
          out := Join(rendered, "\n\n") + "\n";
        } else if snapshots == [] {
          out := "No snapshots found in today's log\n";
        } else {
          var text := TrimSnapshot(snapshots[|snapshots| - 1], args.topN);
          out := text + "\n";
        }
    }
  }

  const BAD_TIME: string := "invalid date/time format, expected YYYY-MM-DD HH:MM"

  /** How a run of the query tool ends: what it printed, help, or an error message with its exit code. */
  datatype Outcome =
    | Printed(text: string)
    | HelpShown
    | Exit(message: string, code: nat)

  /** `main`: argument errors and an unreadable time end with code 2, before any log is read. */
  function QueryOutcome(argv: seq<string>, today: string, logs: map<string, string>, listing: seq<string>, toEpoch: string -> Option<int>): Outcome {
    match CliSpec(argv, today)
    case Help => HelpShown
    case Rejected(e) => Exit("resource-query: " + Message(e), 2)
    case Parsed(args) =>
      if args.time.Some? && toEpoch(TargetTimestamp(args.date, args.time.value)).None? then Exit("resource-query: " + BAD_TIME, 2)
      else Printed(RunOutput(args, logs, listing, toEpoch))
  }

  /** `main`, up to the printing. */
  method QueryMain(argv: seq<string>, today: string, logs: map<string, string>, listing: seq<string>, toEpoch: string -> Option<int>)
    returns (outcome: Outcome)
    ensures outcome == QueryOutcome(argv, today, logs, listing, toEpoch)
  {
    var cli := ParseCli(argv, today);
    match cli {
      case Help =>
        outcome := HelpShown;
      case Rejected(e) =>
        outcome := Exit("resource-query: " + Message(e), 2);
      case Parsed(args) =>
        if args.time.Some? && toEpoch(TargetTimestamp(args.date, args.time.value)).None? {
          outcome := Exit("resource-query: " + BAD_TIME, 2);
        } else {
          var out := Run(args, logs, listing, toEpoch);
          outcome := Printed(out);
        }
    }
  }
}
