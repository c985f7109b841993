/**
  * The query tool's command line: `parse_top` and the flag and positional
  * rules of `parse_cli`. The current date ("today") is a parameter.
  */
module Cli {
  import opened Wrappers
  import opened Text

  /** `usize::MAX` on the 64-bit targets the tool is built for. */
  const USIZE_MAX: nat := 0xFFFF_FFFF_FFFF_FFFF

  /** Rows per section when `--top` is not given. */
  const DEFAULT_TOP: nat := 10

  predicate IsDigit(c: char) {
    '0' <= c <= '9'
  }

  predicate AllDigits(s: string) {
    forall i :: 0 <= i < |s| ==> IsDigit(s[i])
  }

  /** The number a string of decimal digits denotes. */
  function DigitsValue(s: string): nat
    requires AllDigits(s)
  {
    if s == [] then 0 else DigitsValue(s[..|s| - 1]) * 10 + (s[|s| - 1] as int - '0' as int)
  }

  /** `s` is the decimal digits `d`, with or without one '+' before them. */
  predicate Spells(s: string, d: string) {
    (s == d || s == "+" + d) && d != [] && AllDigits(d)
  }

  /** `s` without its leading '+', if it has one. */
  function Unsigned(s: string): string {
    if s != [] && s[0] == '+' then s[1..] else s
  }

  /** The only digits a text can spell are what follows its optional '+'. */
  lemma UnsignedSpells(s: string)
    ensures Unsigned(s) != [] && AllDigits(Unsigned(s)) ==> Spells(s, Unsigned(s))
    ensures forall d :: Spells(s, d) ==> d == Unsigned(s)
  {
    if s != [] && s[0] == '+' {
      assert s == "+" + s[1..];
    }
    forall d | Spells(s, d) ensures d == Unsigned(s) {
      if s == d {
        assert IsDigit(d[0]);
      } else {
        assert s[1..] == d;
      }
    }
  }

  /**
    * `str::parse::<usize>`: the text parses exactly when it spells decimal
    * digits, after at most one '+', whose value fits in a `usize`, and the
    * result is that value.
    */
  function ParseUsize(s: string): (r: Option<nat>)
    ensures r.Some? ==> r.value <= USIZE_MAX
    ensures r.Some? <==> exists d :: Spells(s, d) && DigitsValue(d) <= USIZE_MAX
    ensures forall d :: Spells(s, d) && r.Some? ==> r.value == DigitsValue(d)
  {
    var digits := Unsigned(s);
    UnsignedSpells(s);
    if digits != [] && AllDigits(digits) && DigitsValue(digits) <= USIZE_MAX then Some(DigitsValue(digits)) else None
  }

  /** The decimal digits of `n`, without leading zeros. */
  function Decimal(n: nat): string {
    if n < 10 then [('0' as int + n) as char] else Decimal(n / 10) + [('0' as int + n % 10) as char]
  }

  lemma {:induction false} DecimalDigits(n: nat)
    ensures Decimal(n) != [] && AllDigits(Decimal(n)) && DigitsValue(Decimal(n)) == n
  {
    if n >= 10 {
      DecimalDigits(n / 10);
      var d := Decimal(n);
      assert d[..|d| - 1] == Decimal(n / 10);
    }
  }

  /** Every number that fits in a `usize` reads back from its decimal digits, with or without a '+'. */
  lemma ParseUsizeDecimal(n: nat)
    requires n <= USIZE_MAX
    ensures ParseUsize(Decimal(n)) == Some(n)
    ensures ParseUsize("+" + Decimal(n)) == Some(n)
  {
    DecimalDigits(n);
    assert ("+" + Decimal(n))[1..] == Decimal(n);
  }

  /** A `usize` has no sign: text that starts with '-' never parses. */
  lemma ParseUsizeRejectsMinus(s: string)
    requires StartsWith(s, "-")
    ensures ParseUsize(s).None?
  {
    assert !IsDigit(s[0]);
  }

  datatype CliError =
    | MissingTopValue
    | InvalidTop(value: string)
    | ZeroTop
    | UnknownFlag(arg: string)
    | TooManyPositionals

  /** The text `parse_cli` reports for each error. */
  function Message(e: CliError): string {
    match e
    case MissingTopValue => "missing value for --top"
    case InvalidTop(value) => "invalid value for --top: " + value + ". Expected a positive integer."
    case ZeroTop => "invalid value for --top: expected a positive integer."
    case UnknownFlag(arg) => "unknown flag: " + arg
    case TooManyPositionals => "too many positional arguments"
  }

  /**
    * `parse_top`: the parsed `usize` when it is not zero; zero is refused as
    * zero, and text that does not parse is refused with the text quoted.
    */
  function ParseTop(value: string): (r: Result<nat, CliError>)
    ensures r.Ok? ==> 1 <= r.value <= USIZE_MAX
    ensures r.Ok? <==> ParseUsize(value).Some? && ParseUsize(value).value != 0
    ensures r.Ok? ==> ParseUsize(value).Some? && r.value == ParseUsize(value).value
    ensures ParseUsize(value) == Some(0) ==> r == Err(ZeroTop)
    ensures ParseUsize(value).None? ==> r == Err(InvalidTop(value))
  {
    match ParseUsize(value)
    case None => Err(InvalidTop(value))
    case Some(n) => if n == 0 then Err(ZeroTop) else Ok(n)
  }

  /** Every positive `usize` is accepted as itself; zero is refused as zero, not as malformed. */
  lemma ParseTopDecimal(n: nat)
    requires n <= USIZE_MAX
    ensures n == 0 ==> ParseTop(Decimal(n)) == Err(ZeroTop)
    ensures n != 0 ==> ParseTop(Decimal(n)) == Ok(n)
  {
    ParseUsizeDecimal(n);
  }

  /** Text without a single digit is refused as malformed. */
  lemma ParseTopNeedsDigit(value: string)
    requires forall i :: 0 <= i < |value| ==> !IsDigit(value[i])
    ensures ParseTop(value) == Err(InvalidTop(value))
  {
    if value != [] && value[0] == '+' && |value| > 1 {
      assert !IsDigit(value[1..][0]);
    } else if value != [] {
      assert !IsDigit(value[0]);
    }
  }

  /** What `parse_cli` settles on. */
  datatype Args = Args(date: string, dateProvided: bool, time: Option<string>, topN: nat)

  datatype CliOutcome =
    | Parsed(args: Args)
    | Help
    | Rejected(error: CliError)

  /** Where the argument loop stops: at its end, at a help flag, or at an error. */
  datatype Scan =
    | Scanned(positionals: seq<string>, topN: nat)
    | HelpFlag
    | ScanFailed(error: CliError)

  /**
    * The argument loop of `parse_cli`, from the argument at hand onwards:
    * help wins at once, `--top` takes the next argument, `--top=` the rest of
    * its own text, any other argument starting with '-' is refused, and the
    * others are positionals.
    */
  function ScanArgs(args: seq<string>, positionals: seq<string>, topN: nat): Scan
    decreases |args|
  {
    if args == [] then Scanned(positionals, topN)
    else
      var arg := args[0];
      if arg == "-h" || arg == "--help" then HelpFlag
      else if arg == "--top" then
        if |args| == 1 then ScanFailed(MissingTopValue)
        else
          match ParseTop(args[1])
          case Err(e) => ScanFailed(e)
          case Ok(n) => ScanArgs(args[2..], positionals, n)
      else if StartsWith(arg, "--top=") then
        match ParseTop(TrimStartMatches(arg, "--top="))
        case Err(e) => ScanFailed(e)
        case Ok(n) => ScanArgs(args[1..], positionals, n)
      else if StartsWith(arg, "-") then ScanFailed(UnknownFlag(arg))
      else ScanArgs(args[1..], positionals + [arg], topN)
  }

  /** What `parse_cli` makes of the positionals and the limit once the loop has run to the end. */
  function Settle(p: seq<string>, topN: nat, today: string): CliOutcome {
    if |p| > 2 then Rejected(TooManyPositionals)
    else Parsed(Args(if p == [] then today else p[0], p != [], if |p| == 2 then Some(p[1]) else None, topN))
  }

  /** `parse_cli` on the arguments after the program name, given today's date. */
  function CliSpec(argv: seq<string>, today: string): CliOutcome {
    match ScanArgs(argv, [], DEFAULT_TOP)
    case HelpFlag => Help
    case ScanFailed(e) => Rejected(e)
    case Scanned(p, n) => Settle(p, n, today)
  }

  /** `parse_cli`: a `while let` over the arguments, pushing positionals and updating the row limit. */
  method ParseCli(argv: seq<string>, today: string) returns (outcome: CliOutcome)
    ensures outcome == CliSpec(argv, today)
  {
    var positionals: seq<string> := [];
    var topN := DEFAULT_TOP;
    var i := 0;
    while i < |argv|
      invariant 0 <= i <= |argv|
      invariant ScanArgs(argv[i..], positionals, topN) == ScanArgs(argv, [], DEFAULT_TOP)
    {
      var arg := argv[i];
      assert argv[i..][1..] == argv[i + 1..];
      i := i + 1;
      if arg == "-h" || arg == "--help" {
        return Help;
      } else if arg == "--top" {
        if i == |argv| {
          return Rejected(MissingTopValue);
        }
        var value := argv[i];
        assert argv[i - 1..][2..] == argv[i + 1..];
        i := i + 1;
        var parsed := ParseTop(value);
        if parsed.Err? {
          return Rejected(parsed.error);
        }
        topN := parsed.value;
      } else if StartsWith(arg, "--top=") {
        var parsed := ParseTop(TrimStartMatches(arg, "--top="));
        if parsed.Err? {
          return Rejected(parsed.error);
        }
        topN := parsed.value;
      } else if StartsWith(arg, "-") {
        return Rejected(UnknownFlag(arg));
      } else {
        positionals := positionals + [arg];
      }
    }
    assert argv[i..] == [];
    if |positionals| > 2 {
      return Rejected(TooManyPositionals);
    }
    var date := if positionals == [] then today else positionals[0];
    var time := if |positionals| == 2 then Some(positionals[1]) else None;
    outcome := Parsed(Args(date, positionals != [], time, topN));
  }

  /**
    * The arguments the loop keeps as positionals, read independently of
    * errors: everything not starting with '-', except the value after `--top`.
    */
  function Positionals(args: seq<string>): seq<string>
    decreases |args|
  {
    if args == [] then []
    else if args[0] == "--top" then (if |args| == 1 then [] else Positionals(args[2..]))
    else if StartsWith(args[0], "-") then Positionals(args[1..])
    else [args[0]] + Positionals(args[1..])
  }

  /** `--top=N` is a flag, and not the `--top` that takes its value from the next argument. */
  lemma TopAssignmentIsFlag(arg: string)
    requires StartsWith(arg, "--top=")
    ensures StartsWith(arg, "-") && arg != "--top" && arg != "-h" && arg != "--help"
  {
    assert arg[..1] == arg[..6][..1];
    assert |arg| >= 6 && arg[2] == 't';
  }

  /** The loop's step over `--top N`, when the loop goes on. */
  lemma ScanTopStep(args: seq<string>, positionals: seq<string>, topN: nat)
    requires args != [] && args[0] == "--top" && ScanArgs(args, positionals, topN).Scanned?
    ensures |args| > 1 && ParseTop(args[1]).Ok?
    ensures ScanArgs(args, positionals, topN) == ScanArgs(args[2..], positionals, ParseTop(args[1]).value)
    ensures Positionals(args) == Positionals(args[2..])
  {
  }

  /** The loop's step over `--top=N`, when the loop goes on. */
  lemma ScanTopAssignmentStep(args: seq<string>, positionals: seq<string>, topN: nat)
    requires args != [] && StartsWith(args[0], "--top=") && ScanArgs(args, positionals, topN).Scanned?
    ensures ParseTop(TrimStartMatches(args[0], "--top=")).Ok?
    ensures ScanArgs(args, positionals, topN) == ScanArgs(args[1..], positionals, ParseTop(TrimStartMatches(args[0], "--top=")).value)
    ensures Positionals(args) == Positionals(args[1..])
  {
    TopAssignmentIsFlag(args[0]);
  }

  /** Any other argument that lets the loop go on is a positional. */
  lemma ScanOtherStep(args: seq<string>, positionals: seq<string>, topN: nat)
    requires args != [] && args[0] != "--top" && !StartsWith(args[0], "--top=") && ScanArgs(args, positionals, topN).Scanned?
    ensures !StartsWith(args[0], "-")
    ensures ScanArgs(args, positionals, topN) == ScanArgs(args[1..], positionals + [args[0]], topN)
    ensures Positionals(args) == [args[0]] + Positionals(args[1..])
  {
  }

  /** One turn of the loop that lets it go on: the arguments left, the positionals so far and the limit so far. */
  lemma ScanStep(args: seq<string>, positionals: seq<string>, topN: nat) returns (rest: seq<string>, positionals': seq<string>, topN': nat)
    requires 1 <= topN <= USIZE_MAX
    requires args != [] && ScanArgs(args, positionals, topN).Scanned?
    ensures |rest| < |args| && 1 <= topN' <= USIZE_MAX
    ensures ScanArgs(args, positionals, topN) == ScanArgs(rest, positionals', topN')
    ensures positionals' + Positionals(rest) == positionals + Positionals(args)
  {
    if args[0] == "--top" {
      ScanTopStep(args, positionals, topN);
      rest, positionals', topN' := args[2..], positionals, ParseTop(args[1]).value;
    } else if StartsWith(args[0], "--top=") {
      ScanTopAssignmentStep(args, positionals, topN);
      rest, positionals', topN' := args[1..], positionals, ParseTop(TrimStartMatches(args[0], "--top=")).value;
    } else {
      ScanOtherStep(args, positionals, topN);
      rest, positionals', topN' := args[1..], positionals + [args[0]], topN;
      assert positionals' + Positionals(rest) == positionals + ([args[0]] + Positionals(rest));
    }
  }

  /** When the loop runs to the end, it has collected exactly the positionals, and the row limit stays in range. */
  lemma {:induction false} ScanCollects(args: seq<string>, positionals: seq<string>, topN: nat, found: seq<string>, finalTop: nat)
    requires 1 <= topN <= USIZE_MAX
    requires ScanArgs(args, positionals, topN) == Scanned(found, finalTop)
    ensures found == positionals + Positionals(args)
    ensures 1 <= finalTop <= USIZE_MAX
    decreases |args|
  {
    if args == [] {
      assert positionals + [] == positionals;
    } else {
      var rest, positionals', topN' := ScanStep(args, positionals, topN);
      ScanCollects(rest, positionals', topN', found, finalTop);
    }
  }

  /**
    * The outcome of a successful parse: a positive row limit; a date exactly
    * when a positional was given, today otherwise; a time exactly when a
    * second one was. A third positional makes the parse fail.
    */
  lemma ParsedArgs(argv: seq<string>, today: string)
    ensures CliSpec(argv, today).Parsed? ==>
      var a := CliSpec(argv, today).args;
      var p := Positionals(argv);
      1 <= a.topN <= USIZE_MAX
      && |p| <= 2
      && (a.dateProvided <==> p != [])
      && a.date == (if p == [] then today else p[0])
      && a.time == (if |p| == 2 then Some(p[1]) else None)
    ensures |Positionals(argv)| > 2 ==> !CliSpec(argv, today).Parsed?
  {
    var scan := ScanArgs(argv, [], DEFAULT_TOP);
    if scan.Scanned? {
      ScanCollects(argv, [], DEFAULT_TOP, scan.positionals, scan.topN);
    }
  }

  /** An argument not starting with '-' is none of the tool's flags. */
  lemma NotAFlag(arg: string)
    requires !StartsWith(arg, "-")
    ensures arg != "-h" && arg != "--help" && arg != "--top" && !StartsWith(arg, "--top=")
  {
    if arg != [] {
      assert arg[..1] != "-";
      assert arg[0] != '-';
    }
  }

  /** The loop's step over a positional. */
  lemma ScanPositionalStep(args: seq<string>, positionals: seq<string>, topN: nat)
    requires args != [] && !StartsWith(args[0], "-")
    ensures ScanArgs(args, positionals, topN) == ScanArgs(args[1..], positionals + [args[0]], topN)
  {
    NotAFlag(args[0]);
  }

  /** Arguments that are not flags are all positionals, in order. */
  lemma {:induction false} ScanPlainPrefix(plain: seq<string>, rest: seq<string>, positionals: seq<string>, topN: nat)
    requires forall k :: 0 <= k < |plain| ==> !StartsWith(plain[k], "-")
    ensures ScanArgs(plain + rest, positionals, topN) == ScanArgs(rest, positionals + plain, topN)
    decreases |plain|
  {
    if plain == [] {
      assert plain + rest == rest;
      assert positionals + plain == positionals;
    } else {
      assert (plain + rest)[0] == plain[0];
      assert (plain + rest)[1..] == plain[1..] + rest;
      ScanPositionalStep(plain + rest, positionals, topN);
      ScanPlainPrefix(plain[1..], rest, positionals + [plain[0]], topN);
      assert positionals + [plain[0]] + plain[1..] == positionals + plain;
    }
  }

  /** Without flags: up to two positionals give date and time with the default limit; more are refused. */
  lemma PlainArguments(argv: seq<string>, today: string)
    requires forall k :: 0 <= k < |argv| ==> !StartsWith(argv[k], "-")
    ensures |argv| > 2 ==> CliSpec(argv, today) == Rejected(TooManyPositionals)
    ensures |argv| <= 2 ==>
      CliSpec(argv, today) == Parsed(Args(if argv == [] then today else argv[0], argv != [], if |argv| == 2 then Some(argv[1]) else None, DEFAULT_TOP))
  {
    ScanPlainPrefix(argv, [], [], DEFAULT_TOP);
    assert argv + [] == argv;
    assert [] + argv == argv;
  }

  /** The loop's step over `--top N` with a value `parse_top` accepts. */
  lemma ScanTopCase(args: seq<string>, positionals: seq<string>, topN: nat)
    requires |args| >= 2 && args[0] == "--top" && ParseTop(args[1]).Ok?
    ensures ScanArgs(args, positionals, topN) == ScanArgs(args[2..], positionals, ParseTop(args[1]).value)
  {
  }

  /** The loop's step over `--top=N` with a value `parse_top` accepts. */
  lemma ScanAssignmentCase(args: seq<string>, positionals: seq<string>, topN: nat)
    requires args != [] && StartsWith(args[0], "--top=") && ParseTop(TrimStartMatches(args[0], "--top=")).Ok?
    ensures ScanArgs(args, positionals, topN) == ScanArgs(args[1..], positionals, ParseTop(TrimStartMatches(args[0], "--top=")).value)
  {
    TopAssignmentIsFlag(args[0]);
  }

  /** The loop's step over `--top` followed by its value, whatever comes after them. */
  lemma ScanTopCons(value: string, rest: seq<string>, positionals: seq<string>, topN: nat)
    ensures ScanArgs(["--top", value] + rest, positionals, topN)
      == match ParseTop(value)
         case Err(e) => ScanFailed(e)
         case Ok(n) => ScanArgs(rest, positionals, n)
  {
    var args := ["--top", value] + rest;
    assert args[0] == "--top" && args[1] == value && args[2..] == rest;
  }

  /** The loop's step over `--top=N`, whatever comes after it. */
  lemma ScanAssignmentCons(arg: string, rest: seq<string>, positionals: seq<string>, topN: nat)
    requires StartsWith(arg, "--top=")
    ensures ScanArgs([arg] + rest, positionals, topN)
      == match ParseTop(TrimStartMatches(arg, "--top="))
         case Err(e) => ScanFailed(e)
         case Ok(n) => ScanArgs(rest, positionals, n)
  {
    TopAssignmentIsFlag(arg);
    var args := [arg] + rest;
    assert args[0] == arg && args[1..] == rest;
  }

  /** The loop's step over a positional, whatever comes after it. */
  lemma ScanPositionalCons(arg: string, rest: seq<string>, positionals: seq<string>, topN: nat)
    requires !StartsWith(arg, "-")
    ensures ScanArgs([arg] + rest, positionals, topN) == ScanArgs(rest, positionals + [arg], topN)
  {
    NotAFlag(arg);
    var args := [arg] + rest;
    assert args[0] == arg && args[1..] == rest;
  }

  /** An argument that lets the loop go on and is not a limit flag is no flag at all. */
  lemma ScanGoesOnPastPositional(arg: string, rest: seq<string>, positionals: seq<string>, topN: nat)
    requires arg != "--top" && !StartsWith(arg, "--top=") && ScanArgs([arg] + rest, positionals, topN).Scanned?
    ensures !StartsWith(arg, "-")
  {
    var args := [arg] + rest;
    assert args[0] == arg;
  }

  lemma SplitHead(a: seq<string>, b: seq<string>)
    requires a != []
    ensures a == [a[0]] + a[1..] && a + b == [a[0]] + (a[1..] + b)
  {
  }

  lemma SplitTopHead(a: seq<string>, b: seq<string>)
    requires |a| >= 2 && a[0] == "--top"
    ensures a == ["--top", a[1]] + a[2..] && a + b == ["--top", a[1]] + (a[2..] + b)
  {
  }

  lemma ScanStepAppendTop(a: seq<string>, b: seq<string>, positionals: seq<string>, topN: nat)
    requires a != [] && a[0] == "--top" && ScanArgs(a, positionals, topN).Scanned?
    ensures 2 <= |a| && ParseTop(a[1]).Ok?
    ensures ScanArgs(a, positionals, topN) == ScanArgs(a[2..], positionals, ParseTop(a[1]).value)
    ensures ScanArgs(a + b, positionals, topN) == ScanArgs(a[2..] + b, positionals, ParseTop(a[1]).value)
  {
    assert |a| != 1;
    var value, rest := a[1], a[2..];
    SplitTopHead(a, b);
    ScanTopCons(value, rest, positionals, topN);
    ScanTopCons(value, rest + b, positionals, topN);
  }

  lemma ScanStepAppendAssignment(a: seq<string>, b: seq<string>, positionals: seq<string>, topN: nat)
    requires a != [] && StartsWith(a[0], "--top=") && ScanArgs(a, positionals, topN).Scanned?
    ensures ParseTop(TrimStartMatches(a[0], "--top=")).Ok?
    ensures ScanArgs(a, positionals, topN) == ScanArgs(a[1..], positionals, ParseTop(TrimStartMatches(a[0], "--top=")).value)
    ensures ScanArgs(a + b, positionals, topN) == ScanArgs(a[1..] + b, positionals, ParseTop(TrimStartMatches(a[0], "--top=")).value)
  {
    var arg, rest := a[0], a[1..];
    SplitHead(a, b);
    ScanAssignmentCons(arg, rest, positionals, topN);
    ScanAssignmentCons(arg, rest + b, positionals, topN);
  }

  lemma ScanStepAppendOther(a: seq<string>, b: seq<string>, positionals: seq<string>, topN: nat)
    requires a != [] && a[0] != "--top" && !StartsWith(a[0], "--top=") && ScanArgs(a, positionals, topN).Scanned?
    ensures ScanArgs(a, positionals, topN) == ScanArgs(a[1..], positionals + [a[0]], topN)
    ensures ScanArgs(a + b, positionals, topN) == ScanArgs(a[1..] + b, positionals + [a[0]], topN)
  {
    var arg, rest := a[0], a[1..];
    SplitHead(a, b);
    ScanGoesOnPastPositional(arg, rest, positionals, topN);
    ScanPositionalCons(arg, rest, positionals, topN);
    ScanPositionalCons(arg, rest + b, positionals, topN);
  }

  /** One turn of the loop that lets it go on, taken the same way whatever follows the arguments. */
  lemma ScanStepAppend(a: seq<string>, b: seq<string>, positionals: seq<string>, topN: nat)
    returns (j: nat, positionals': seq<string>, topN': nat)
    requires a != [] && ScanArgs(a, positionals, topN).Scanned?
    ensures 1 <= j <= |a|
    ensures ScanArgs(a, positionals, topN) == ScanArgs(a[j..], positionals', topN')
    ensures ScanArgs(a + b, positionals, topN) == ScanArgs(a[j..] + b, positionals', topN')
  {
    if a[0] == "--top" {
      ScanStepAppendTop(a, b, positionals, topN);
      j, positionals', topN' := 2, positionals, ParseTop(a[1]).value;
    } else if StartsWith(a[0], "--top=") {
      ScanStepAppendAssignment(a, b, positionals, topN);
      j, positionals', topN' := 1, positionals, ParseTop(TrimStartMatches(a[0], "--top=")).value;
    } else {
      ScanStepAppendOther(a, b, positionals, topN);
      j, positionals', topN' := 1, positionals + [a[0]], topN;
    }
  }

  /** Arguments the loop gets through leave it where they end it, whatever follows them. */
  lemma {:induction false} ScanAppend(a: seq<string>, b: seq<string>, positionals: seq<string>, topN: nat)
    requires ScanArgs(a, positionals, topN).Scanned?
    ensures ScanArgs(a + b, positionals, topN)
      == ScanArgs(b, ScanArgs(a, positionals, topN).positionals, ScanArgs(a, positionals, topN).topN)
    decreases |a|
  {
    if a == [] {
      assert a + b == b;
    } else {
      var j, positionals', topN' := ScanStepAppend(a, b, positionals, topN);
      ScanAppend(a[j..], b, positionals', topN');
    }
  }

  /** A help flag wins, whatever follows it, once the loop has got through the arguments before it. */
  lemma HelpWins(before: seq<string>, flag: string, rest: seq<string>, today: string)
    requires ScanArgs(before, [], DEFAULT_TOP).Scanned?
    requires flag == "-h" || flag == "--help"
    ensures CliSpec(before + [flag] + rest, today) == Help
  {
    ScanAppend(before, [flag] + rest, [], DEFAULT_TOP);
    assert before + [flag] + rest == before + ([flag] + rest);
  }

  /**
    * An argument starting with '-' that is no flag of the tool is refused by
    * name, whatever follows it, once the loop has got through the arguments
    * before it.
    */
  lemma UnknownFlagRejected(before: seq<string>, arg: string, rest: seq<string>, today: string)
    requires ScanArgs(before, [], DEFAULT_TOP).Scanned?
    requires StartsWith(arg, "-") && arg != "-h" && arg != "--help" && arg != "--top" && !StartsWith(arg, "--top=")
    ensures CliSpec(before + [arg] + rest, today) == Rejected(UnknownFlag(arg))
  {
    ScanAppend(before, [arg] + rest, [], DEFAULT_TOP);
    assert before + [arg] + rest == before + ([arg] + rest);
  }

  /** Positionals only: the loop collects them all and keeps the limit. */
  lemma ScanPlain(after: seq<string>, positionals: seq<string>, n: nat)
    requires forall k :: 0 <= k < |after| ==> !StartsWith(after[k], "-")
    ensures ScanArgs(after, positionals, n) == Scanned(positionals + after, n)
  {
    ScanPlainPrefix(after, [], positionals, n);
    assert after + [] == after;
  }

  /** Only positionals after the last limit flag: the loop collects them and keeps the limit. */
  lemma ScanAfterLastTop(before: seq<string>, tail: seq<string>, after: seq<string>, n: nat)
    requires ScanArgs(before, [], DEFAULT_TOP).Scanned?
    requires forall k :: 0 <= k < |after| ==> !StartsWith(after[k], "-")
    requires ScanArgs(tail, ScanArgs(before, [], DEFAULT_TOP).positionals, ScanArgs(before, [], DEFAULT_TOP).topN)
      == ScanArgs(after, ScanArgs(before, [], DEFAULT_TOP).positionals, n)
    ensures ScanArgs(before + tail, [], DEFAULT_TOP) == Scanned(Positionals(before) + after, n)
  {
    var scan := ScanArgs(before, [], DEFAULT_TOP);
    ScanCollectsFromStart(before, scan.positionals, scan.topN);
    ScanAppend(before, tail, [], DEFAULT_TOP);
    ScanPlain(after, scan.positionals, n);
  }

  /** From the start, a loop that gets through collects exactly the positionals. */
  lemma ScanCollectsFromStart(args: seq<string>, found: seq<string>, finalTop: nat)
    requires ScanArgs(args, [], DEFAULT_TOP) == Scanned(found, finalTop)
    ensures found == Positionals(args)
  {
    ScanCollects(args, [], DEFAULT_TOP, found, finalTop);
    assert [] + Positionals(args) == Positionals(args);
  }

  /**
    * `--top N`: once the loop has got through the arguments before it, and
    * only positionals follow it, the limit is N (whatever earlier flags
    * said); a value `parse_top` refuses makes the whole parse fail with its
    * error.
    */
  lemma TopFlagSetsLimit(before: seq<string>, value: string, after: seq<string>, today: string)
    requires ScanArgs(before, [], DEFAULT_TOP).Scanned?
    requires forall k :: 0 <= k < |after| ==> !StartsWith(after[k], "-")
    ensures ParseTop(value).Err? ==> CliSpec(before + ["--top", value] + after, today) == Rejected(ParseTop(value).error)
    ensures ParseTop(value).Ok? ==>
      CliSpec(before + ["--top", value] + after, today) == Settle(Positionals(before) + after, ParseTop(value).value, today)
  {
    var scan := ScanArgs(before, [], DEFAULT_TOP);
    var tail := ["--top", value] + after;
    assert before + ["--top", value] + after == before + tail;
    assert tail[1] == value && tail[2..] == after;
    if ParseTop(value).Ok? {
      ScanTopCase(tail, scan.positionals, scan.topN);
      ScanAfterLastTop(before, tail, after, ParseTop(value).value);
    } else {
      ScanAppend(before, tail, [], DEFAULT_TOP);
    }
  }

  /** `--top=` followed by a value that does not itself start with `--top=` leaves that value. */
  lemma TopAssignmentValue(value: string)
    requires !StartsWith(value, "--top=")
    ensures StartsWith("--top=" + value, "--top=")
    ensures TrimStartMatches("--top=" + value, "--top=") == value
  {
    var arg := "--top=" + value;
    assert arg[..6] == "--top=";
    assert arg[6..] == value;
  }

  /** `--top=N`: the same as `--top N`. */
  lemma TopAssignmentSetsLimit(before: seq<string>, value: string, after: seq<string>, today: string)
    requires ScanArgs(before, [], DEFAULT_TOP).Scanned?
    requires forall k :: 0 <= k < |after| ==> !StartsWith(after[k], "-")
    requires !StartsWith(value, "--top=")
    ensures ParseTop(value).Err? ==> CliSpec(before + ["--top=" + value] + after, today) == Rejected(ParseTop(value).error)
    ensures ParseTop(value).Ok? ==>
      CliSpec(before + ["--top=" + value] + after, today) == Settle(Positionals(before) + after, ParseTop(value).value, today)
  {
    var scan := ScanArgs(before, [], DEFAULT_TOP);
    var arg := "--top=" + value;
    TopAssignmentValue(value);
    TopAssignmentIsFlag(arg);
    var tail := [arg] + after;
    assert before + [arg] + after == before + tail;
    assert tail[0] == arg && tail[1..] == after;
    if ParseTop(value).Ok? {
      ScanAssignmentCase(tail, scan.positionals, scan.topN);
      ScanAfterLastTop(before, tail, after, ParseTop(value).value);
    } else {
      ScanAppend(before, tail, [], DEFAULT_TOP);
    }
  }

  /** The last limit flag wins: `--top M --top N` sets the limit to N. */
  lemma LastTopWins(m: nat, n: nat, today: string)
    requires 1 <= m <= USIZE_MAX && 1 <= n <= USIZE_MAX
    ensures CliSpec(["--top", Decimal(m), "--top", Decimal(n)], today) == Parsed(Args(today, false, None, n))
  {
    ParseTopDecimal(m);
    ParseTopDecimal(n);
    var before := ["--top", Decimal(m)];
    assert before[2..] == [];
    assert ScanArgs(before, [], DEFAULT_TOP) == Scanned([], m);
    TopFlagSetsLimit(before, Decimal(n), [], today);
    assert Positionals(before) == [] by {
      assert before[2..] == [];
    }
    assert before + ["--top", Decimal(n)] + [] == ["--top", Decimal(m), "--top", Decimal(n)];
  }
}
