/**
  * `trim_snapshot`: the query tool's display of one snapshot, with each
  * ranked section cut to at most `top_n` process rows.
  */
module Display {
  import opened Text
  import opened SnapshotParser
  import opened Ranking

  /** Lines shown whatever the limit: banners and the `PID` column header. */
  predicate PassesThrough(line: string) {
    StartsWith(line, BANNER_PREFIX) || StartsWith(TrimStart(line), "PID")
  }

  /** A `-- CPU --` / `-- MEM --` marker: it opens a section and resets the row count. */
  predicate IsSectionMarker(line: string) {
    StartsWith(line, "-- ")
  }

  /** A process row: the only kind of line the limit applies to. */
  predicate IsDataRow(line: string) {
    !PassesThrough(line) && !IsSectionMarker(line) && !IsBlank(line)
  }

  /** The number of process rows since the last section marker (or since the start). */
  function SectionRank(lines: seq<string>): nat {
    if lines == [] then 0
    else
      var line := lines[|lines| - 1];
      if IsSectionMarker(line) && !PassesThrough(line) then 0
      else SectionRank(lines[..|lines| - 1]) + (if IsDataRow(line) then 1 else 0)
  }

  /** Whether `line`, coming after `before`, is shown: every line but a process row beyond the limit. */
  predicate Shown(before: seq<string>, line: string, topN: nat) {
    !IsDataRow(line) || SectionRank(before) < topN
  }

  /**
    * The lines `trim_snapshot` shows: every line that is not a process row,
    * and each process row that has fewer than `topN` process rows before it
    * in its section.
    */
  function TrimmedLines(lines: seq<string>, topN: nat): seq<string> {
    if lines == [] then []
    else
      var before := lines[..|lines| - 1];
      var line := lines[|lines| - 1];
      TrimmedLines(before, topN) + (if Shown(before, line, topN) then [line] else [])
  }

  /** The text `trim_snapshot` returns. */
  function Rendered(snapshot: Snapshot, topN: nat): string {
    TrimEnd(Join(TrimmedLines(snapshot.lines, topN), "\n"))
  }

  /** What one more line adds to the shown lines and to the row count. */
  lemma TrimStep(lines: seq<string>, i: nat, topN: nat)
    requires i < |lines|
    ensures TrimmedLines(lines[..i + 1], topN)
      == TrimmedLines(lines[..i], topN) + (if Shown(lines[..i], lines[i], topN) then [lines[i]] else [])
    ensures SectionRank(lines[..i + 1])
      == if IsSectionMarker(lines[i]) && !PassesThrough(lines[i]) then 0
         else SectionRank(lines[..i]) + (if IsDataRow(lines[i]) then 1 else 0)
  {
    assert lines[..i + 1][..i] == lines[..i];
  }

  /** The loop of `trim_snapshot`: a running row count that each section marker resets. */
  method TrimLines(lines: seq<string>, topN: nat) returns (out: seq<string>)
    ensures out == TrimmedLines(lines, topN)
  {
    out := [];
    var count: nat := 0;
    for i := 0 to |lines|
      invariant out == TrimmedLines(lines[..i], topN)
      invariant count == Min(SectionRank(lines[..i]), topN)
    {
      var line := lines[i];
      TrimStep(lines, i, topN);
      if StartsWith(line, BANNER_PREFIX) || StartsWith(TrimStart(line), "PID") {
        out := out + [line];
      } else if StartsWith(line, "-- ") {
        count := 0;
        out := out + [line];
      } else if !IsBlank(line) && count < topN {
        count := count + 1;
        out := out + [line];
      } else if IsBlank(line) {
        out := out + [line];
      }
    }
    assert lines[..|lines|] == lines;
  }

  /** `trim_snapshot`: the shown lines joined by '\n', with trailing whitespace trimmed. */
  method TrimSnapshot(snapshot: Snapshot, topN: nat) returns (text: string)
    ensures text == Rendered(snapshot, topN)
    ensures text == [] || !IsWhitespace(text[|text| - 1])
  {
    var out := TrimLines(snapshot.lines, topN);
    text := TrimEnd(Join(out, "\n"));
  }

  /** `a` is `b` with some elements left out. */
  predicate IsSubsequence(a: seq<string>, b: seq<string>)
    decreases |b|
  {
    if a == [] then true
    else if b == [] then false
    else if a[|a| - 1] == b[|b| - 1] then IsSubsequence(a[..|a| - 1], b[..|b| - 1])
    else IsSubsequence(a, b[..|b| - 1])
  }

  lemma {:induction false} SubsequenceExtend(a: seq<string>, b: seq<string>, x: string)
    requires IsSubsequence(a, b)
    ensures IsSubsequence(a, b + [x])
    decreases |a| + |b|, 1
  {
    assert (b + [x])[..|b|] == b;
    if a != [] && a[|a| - 1] == x {
      SubsequenceDropLast(a, b);
    }
  }

  lemma {:induction false} SubsequenceDropLast(a: seq<string>, b: seq<string>)
    requires a != [] && IsSubsequence(a, b)
    ensures IsSubsequence(a[..|a| - 1], b)
    decreases |a| + |b|, 0
  {
    var init := b[..|b| - 1];
    assert init + [b[|b| - 1]] == b;
    if a[|a| - 1] == b[|b| - 1] {
      SubsequenceExtend(a[..|a| - 1], init, b[|b| - 1]);
    } else {
      SubsequenceDropLast(a, init);
      SubsequenceExtend(a[..|a| - 1], init, b[|b| - 1]);
    }
  }

  /** Trimming only leaves lines out: what is shown is the snapshot's lines, in order. */
  lemma {:induction false} TrimmedIsSubsequence(lines: seq<string>, topN: nat)
    ensures IsSubsequence(TrimmedLines(lines, topN), lines)
  {
    if lines != [] {
      var before := lines[..|lines| - 1];
      var line := lines[|lines| - 1];
      TrimmedIsSubsequence(before, topN);
      assert before + [line] == lines;
      var t := TrimmedLines(before, topN);
      if Shown(before, line, topN) {
        assert (t + [line])[..|t|] == t;
      } else {
        assert TrimmedLines(lines, topN) == t;
        SubsequenceExtend(t, before, line);
      }
    }
  }

  /** The lines that are not process rows, in order. */
  function Frame(lines: seq<string>): seq<string> {
    if lines == [] then []
    else
      var line := lines[|lines| - 1];
      Frame(lines[..|lines| - 1]) + (if IsDataRow(line) then [] else [line])
  }

  /** Every banner, column header, section marker and blank line is shown, in order. */
  lemma {:induction false} TrimmedKeepsFrame(lines: seq<string>, topN: nat)
    ensures Frame(TrimmedLines(lines, topN)) == Frame(lines)
  {
    if lines != [] {
      var before := lines[..|lines| - 1];
      var line := lines[|lines| - 1];
      var t := TrimmedLines(before, topN);
      TrimmedKeepsFrame(before, topN);
      if Shown(before, line, topN) {
        assert (t + [line])[..|t|] == t;
      } else {
        assert t + [] == t;
      }
    }
  }

  /** After trimming, the last section holds as many process rows as before, up to `topN`. */
  lemma {:induction false} TrimmedSectionRank(lines: seq<string>, topN: nat)
    ensures SectionRank(TrimmedLines(lines, topN)) == Min(SectionRank(lines), topN)
  {
    if lines != [] {
      var before := lines[..|lines| - 1];
      var line := lines[|lines| - 1];
      var t := TrimmedLines(before, topN);
      TrimmedSectionRank(before, topN);
      if Shown(before, line, topN) {
        assert (t + [line])[..|t|] == t;
      } else {
        assert t + [] == t;
      }
    }
  }

  /** No section of the trimmed lines holds more than `topN` process rows. */
  lemma {:induction false} TrimmedSectionsBounded(lines: seq<string>, topN: nat)
    ensures forall k :: 0 <= k <= |TrimmedLines(lines, topN)| ==> SectionRank(TrimmedLines(lines, topN)[..k]) <= topN
  {
    var t := TrimmedLines(lines, topN);
    if lines != [] {
      var before := lines[..|lines| - 1];
      var t' := TrimmedLines(before, topN);
      TrimmedSectionsBounded(before, topN);
      TrimmedSectionRank(lines, topN);
      forall k | 0 <= k <= |t| ensures SectionRank(t[..k]) <= topN {
        if k <= |t'| {
          assert t[..k] == t'[..k];
        } else {
          assert t[..k] == t;
        }
      }
    }
  }

  /** Trimming twice with the same limit shows the same lines as trimming once. */
  lemma {:induction false} TrimmedIdempotent(lines: seq<string>, topN: nat)
    ensures TrimmedLines(TrimmedLines(lines, topN), topN) == TrimmedLines(lines, topN)
  {
    if lines != [] {
      var before := lines[..|lines| - 1];
      var line := lines[|lines| - 1];
      var t := TrimmedLines(before, topN);
      TrimmedIdempotent(before, topN);
      TrimmedSectionRank(before, topN);
      if Shown(before, line, topN) {
        assert (t + [line])[..|t|] == t;
      } else {
        assert t + [] == t;
      }
    }
  }

  /** Whether `lines[k]` is shown after the lines before it. */
  predicate RowShown(lines: seq<string>, k: nat, topN: nat)
    requires k < |lines|
  {
    Shown(lines[..k], lines[k], topN)
  }

  /** Every process row of `lines` has fewer than `topN` rows before it in its section. */
  predicate RowsWithinLimit(lines: seq<string>, topN: nat) {
    forall k :: 0 <= k < |lines| ==> RowShown(lines, k, topN)
  }

  lemma WithinLimitPrefix(lines: seq<string>, before: seq<string>, topN: nat)
    requires |before| <= |lines| && before == lines[..|before|]
    requires RowsWithinLimit(lines, topN)
    ensures RowsWithinLimit(before, topN)
  {
    forall k | 0 <= k < |before| ensures RowShown(before, k, topN) {
      assert RowShown(lines, k, topN);
      assert before[k] == lines[k] && before[..k] == lines[..k];
    }
  }

  /** A limit no section reaches shows every line. */
  lemma {:induction false} TrimmedWithinLimit(lines: seq<string>, topN: nat)
    requires RowsWithinLimit(lines, topN)
    ensures TrimmedLines(lines, topN) == lines
  {
    if lines != [] {
      var n := |lines| - 1;
      var before := lines[..n];
      var line := lines[n];
      WithinLimitPrefix(lines, before, topN);
      TrimmedWithinLimit(before, topN);
      assert RowShown(lines, n, topN);
      assert before + [line] == lines;
    }
  }
}
