/**
  * `list_dates`: the dates that have a log, read from the names in the log
  * directory and sorted. The names (as `read_dir` yields them, in its own
  * order) are the input.
  */
module Listing {
  import opened Text

  const LOG_SUFFIX: string := ".log"
  const LAUNCHD_PREFIX: string := "launchd"

  /** A day's log, as both tools tell one apart: a `.log` file whose name does not start with `launchd`. */
  predicate IsDayLog(name: string) {
    EndsWith(name, LOG_SUFFIX) && !StartsWith(name, LAUNCHD_PREFIX)
  }

  /** The day's log file, as both tools name it. */
  function LogName(date: string): string {
    date + LOG_SUFFIX
  }

  /** The date a log's name stands for: the name with every trailing `.log` removed. */
  function DateOf(name: string): string {
    TrimEndMatches(name, LOG_SUFFIX)
  }

  /** The `filter_map` of `list_dates`: the date of every day's log, in directory order. */
  function DateNames(names: seq<string>): seq<string> {
    if names == [] then []
    else
      var name := names[|names| - 1];
      DateNames(names[..|names| - 1]) + (if IsDayLog(name) then [DateOf(name)] else [])
  }

  /** `name` is a day's log and stands for `date`. */
  predicate StandsFor(name: string, date: string) {
    IsDayLog(name) && DateOf(name) == date
  }

  /** Some name of `init + [name]` stands for `date` exactly when one of `init` does or `name` does. */
  lemma StandsForSnoc(init: seq<string>, name: string, date: string)
    ensures (exists k :: 0 <= k < |init + [name]| && StandsFor((init + [name])[k], date))
      <==> (exists k :: 0 <= k < |init| && StandsFor(init[k], date)) || StandsFor(name, date)
  {
    var names := init + [name];
    if exists k :: 0 <= k < |init| && StandsFor(init[k], date) {
      var k :| 0 <= k < |init| && StandsFor(init[k], date);
      assert names[k] == init[k];
    }
    if StandsFor(name, date) {
      assert names[|init|] == name;
    }
    if exists k :: 0 <= k < |names| && StandsFor(names[k], date) {
      var k :| 0 <= k < |names| && StandsFor(names[k], date);
      if k < |init| {
        assert init[k] == names[k];
      }
    }
  }

  /** A date is listed exactly when some day's log in the directory stands for it. */
  lemma {:induction false} DateNamesMembers(names: seq<string>, date: string)
    ensures date in DateNames(names) <==> exists k :: 0 <= k < |names| && StandsFor(names[k], date)
  {
    if names != [] {
      var init, name := names[..|names| - 1], names[|names| - 1];
      DateNamesMembers(init, date);
      assert DateNames(names) == DateNames(init) + (if IsDayLog(name) then [DateOf(name)] else []);
      StandsForSnoc(init, name, date);
      assert init + [name] == names;
    }
  }

  /** `String`'s order: lexicographic by character (code point order, which is also UTF-8 byte order). */
  predicate LexLe(a: string, b: string)
    decreases |a|
  {
    a == [] || (b != [] && (a[0] < b[0] || (a[0] == b[0] && LexLe(a[1..], b[1..]))))
  }

  lemma {:induction false} LexLeTotal(a: string, b: string)
    ensures LexLe(a, b) || LexLe(b, a)
    decreases |a|
  {
    if a != [] && b != [] && a[0] == b[0] {
      LexLeTotal(a[1..], b[1..]);
    }
  }

  lemma {:induction false} LexLeReflexive(a: string)
    ensures LexLe(a, a)
    decreases |a|
  {
    if a != [] {
      LexLeReflexive(a[1..]);
    }
  }

  lemma {:induction false} LexLeTransitive(a: string, b: string, c: string)
    requires LexLe(a, b) && LexLe(b, c)
    ensures LexLe(a, c)
    decreases |a|
  {
    if a != [] && a[0] == b[0] && b[0] == c[0] {
      LexLeTransitive(a[1..], b[1..], c[1..]);
    }
  }

  lemma {:induction false} LexLeAntisymmetric(a: string, b: string)
    requires LexLe(a, b) && LexLe(b, a)
    ensures a == b
    decreases |a|
  {
    if a != [] {
      LexLeAntisymmetric(a[1..], b[1..]);
      assert a == [a[0]] + a[1..] && b == [b[0]] + b[1..];
    }
  }

  predicate LexSorted(s: seq<string>) {
    forall i, j :: 0 <= i < j < |s| ==> LexLe(s[i], s[j])
  }

  /** Places `x` after every name of `sorted` that does not come after it, scanning from the end. */
  function LexInsert(sorted: seq<string>, x: string): seq<string>
    decreases |sorted|
  {
    if sorted != [] && !LexLe(sorted[|sorted| - 1], x) then
      LexInsert(sorted[..|sorted| - 1], x) + [sorted[|sorted| - 1]]
    else
      sorted + [x]
  }

  /** Insertion sort, the reference result of the in-place sort below. */
  function LexSort(s: seq<string>): seq<string> {
    if s == [] then [] else LexInsert(LexSort(s[..|s| - 1]), s[|s| - 1])
  }

  lemma {:induction false} LexInsertIsPermutation(sorted: seq<string>, x: string)
    ensures multiset(LexInsert(sorted, x)) == multiset(sorted) + multiset{x}
    decreases |sorted|
  {
    if sorted != [] && !LexLe(sorted[|sorted| - 1], x) {
      var init := sorted[..|sorted| - 1];
      LexInsertIsPermutation(init, x);
      assert sorted == init + [sorted[|sorted| - 1]];
    }
  }

  lemma {:induction false} LexInsertKeepsSorted(sorted: seq<string>, x: string)
    requires LexSorted(sorted)
    ensures LexSorted(LexInsert(sorted, x))
    decreases |sorted|
  {
    var r := LexInsert(sorted, x);
    if sorted != [] && !LexLe(sorted[|sorted| - 1], x) {
      var init := sorted[..|sorted| - 1];
      var last := sorted[|sorted| - 1];
      LexInsertKeepsSorted(init, x);
      LexInsertIsPermutation(init, x);
      LexLeTotal(last, x);
      var front := LexInsert(init, x);
      forall i | 0 <= i < |front| ensures LexLe(front[i], last) {
        assert front[i] in multiset(front);
        if front[i] != x {
          assert front[i] in multiset(init);
          var k :| 0 <= k < |init| && init[k] == front[i];
          assert sorted[k] == init[k];
        }
      }
    } else if sorted != [] {
      var last := sorted[|sorted| - 1];
      forall i | 0 <= i < |sorted| ensures LexLe(sorted[i], x) {
        if i < |sorted| - 1 {
          LexLeTransitive(sorted[i], last, x);
        }
      }
    }
  }

  /** The reference sort orders the names and keeps every one of them. */
  lemma {:induction false} LexSortIsSorted(s: seq<string>)
    ensures LexSorted(LexSort(s))
  {
    if s != [] {
      var init := s[..|s| - 1];
      LexSortIsSorted(init);
      LexInsertKeepsSorted(LexSort(init), s[|s| - 1]);
    }
  }

  lemma {:induction false} LexSortIsPermutation(s: seq<string>)
    ensures multiset(LexSort(s)) == multiset(s)
  {
    if s != [] {
      var init := s[..|s| - 1];
      LexSortIsPermutation(init);
      LexInsertIsPermutation(LexSort(init), s[|s| - 1]);
      assert s == init + [s[|s| - 1]];
    }
  }

  lemma LexSortIsSortedPermutation(s: seq<string>)
    ensures LexSorted(LexSort(s))
    ensures multiset(LexSort(s)) == multiset(s)
  {
    LexSortIsSorted(s);
    LexSortIsPermutation(s);
  }

  /** Two sorted arrangements of the same names end with the same name, the greatest. */
  lemma SortedPermutationsShareLast(a: seq<string>, b: seq<string>)
    requires a != [] && LexSorted(a) && LexSorted(b) && multiset(a) == multiset(b)
    ensures b != [] && a[|a| - 1] == b[|b| - 1]
  {
    var x, y := a[|a| - 1], b[|b| - 1];
    assert x in multiset(b);
    assert y in multiset(a);
    var i :| 0 <= i < |b| && b[i] == x;
    var j :| 0 <= j < |a| && a[j] == y;
    LexLeReflexive(x);
    assert LexLe(a[j], x);
    assert LexLe(b[i], y);
    LexLeAntisymmetric(x, y);
  }

  lemma MultisetDropLast(a: seq<string>, b: seq<string>)
    requires a != [] && b != [] && a[|a| - 1] == b[|b| - 1] && multiset(a) == multiset(b)
    ensures multiset(a[..|a| - 1]) == multiset(b[..|b| - 1])
  {
    var x := a[|a| - 1];
    var a', b' := a[..|a| - 1], b[..|b| - 1];
    assert a == a' + [x] && b == b' + [x];
    forall z ensures multiset(a')[z] == multiset(b')[z] {
      assert multiset(a)[z] == multiset(a')[z] + multiset{x}[z];
      assert multiset(b)[z] == multiset(b')[z] + multiset{x}[z];
    }
  }

  lemma SortedPrefix(a: seq<string>, n: nat)
    requires LexSorted(a) && n <= |a|
    ensures LexSorted(a[..n])
  {
  }

  /**
    * Names are ordered by a total order in which only equal names tie, so
    * there is one sorted arrangement: any sort, stable or not, gives it.
    */
  lemma {:induction false} SortedPermutationsAgree(a: seq<string>, b: seq<string>)
    requires LexSorted(a) && LexSorted(b) && multiset(a) == multiset(b)
    ensures a == b
    decreases |a|
  {
    if a == [] {
      assert |b| == |multiset(b)| == 0;
    } else {
      SortedPermutationsShareLast(a, b);
      MultisetDropLast(a, b);
      SortedPrefix(a, |a| - 1);
      SortedPrefix(b, |b| - 1);
      SortedPermutationsAgree(a[..|a| - 1], b[..|b| - 1]);
      assert a == a[..|a| - 1] + [a[|a| - 1]] && b == b[..|b| - 1] + [b[|b| - 1]];
    }
  }

  /** `x` goes after the names that do not come after it and before the names that do. */
  lemma {:induction false} LexInsertAtGap(sorted: seq<string>, x: string, j: nat)
    requires j <= |sorted|
    requires j == 0 || LexLe(sorted[j - 1], x)
    requires forall m :: j <= m < |sorted| ==> !LexLe(sorted[m], x)
    ensures LexInsert(sorted, x) == sorted[..j] + [x] + sorted[j..]
    decreases |sorted|
  {
    if j < |sorted| {
      var n := |sorted| - 1;
      var init := sorted[..n];
      assert !LexLe(sorted[n], x);
      assert j == 0 || LexLe(init[j - 1], x);
      LexInsertAtGap(init, x, j);
      assert init[..j] == sorted[..j] && init[j..] + [sorted[n]] == sorted[j..];
    } else {
      assert sorted[..j] == sorted;
    }
  }

  /** Where the shifting stops, `x` goes: the names before it, `x`, then the shifted names make up the insertion. */
  lemma LexInsertPlaced(sorted: seq<string>, x: string, j: nat, placed: seq<string>)
    requires j <= |sorted| && |placed| == |sorted| + 1
    requires j == 0 || LexLe(sorted[j - 1], x)
    requires forall m :: j <= m < |sorted| ==> !LexLe(sorted[m], x)
    requires forall k :: 0 <= k < j ==> placed[k] == sorted[k]
    requires placed[j] == x
    requires forall k :: j < k < |placed| ==> placed[k] == sorted[k - 1]
    ensures placed == LexInsert(sorted, x)
  {
    LexInsertAtGap(sorted, x, j);
    ghost var inserted := sorted[..j] + [x] + sorted[j..];
    forall k | 0 <= k < |placed| ensures placed[k] == inserted[k] {
      if k > j {
        assert inserted[k] == sorted[k - 1];
      }
    }
  }

  /**
    * The inner loop of one insertion step: moves each name of `a[..i]` that
    * comes after `x` one place right, and returns the place left free.
    */
  method ShiftLex(a: array<string>, i: nat, x: string) returns (j: nat)
    requires i < a.Length
    modifies a
    ensures j <= i
    ensures forall k :: 0 <= k < j ==> a[k] == old(a[..i])[k]
    ensures forall k :: j < k <= i ==> a[k] == old(a[..i])[k - 1]
    ensures forall k :: i < k < a.Length ==> a[k] == old(a[k])
    ensures j == 0 || LexLe(a[j - 1], x)
    ensures forall m :: j <= m < i ==> !LexLe(old(a[..i])[m], x)
  {
    ghost var sorted := a[..i];
    j := i;
    while j > 0 && !LexLe(a[j - 1], x)
      invariant 0 <= j <= i
      invariant forall k :: 0 <= k < j ==> a[k] == sorted[k]
      invariant forall k :: j < k <= i ==> a[k] == sorted[k - 1]
      invariant forall k :: i < k < a.Length ==> a[k] == old(a[k])
      invariant forall m :: j <= m < i ==> !LexLe(sorted[m], x)
    {
      a[j] := a[j - 1];
      j := j - 1;
    }
  }

  /** One step of the insertion sort: moves `a[i]` left past the names of `a[..i]` that come after it. */
  method LexInsertInPlace(a: array<string>, i: nat)
    requires i < a.Length
    modifies a
    ensures a[..i + 1] == LexInsert(old(a[..i]), old(a[i]))
    ensures a[i + 1..] == old(a[i + 1..])
  {
    ghost var sorted := a[..i];
    var x := a[i];
    var j := ShiftLex(a, i, x);
    a[j] := x;
    LexInsertPlaced(sorted, x, j, a[..i + 1]);
  }

  /** `dates.sort()`: sorts `a` in place. */
  method SortLex(a: array<string>)
    modifies a
    ensures a[..] == LexSort(old(a[..]))
  {
    ghost var s := a[..];
    var i := 0;
    while i < a.Length
      invariant 0 <= i <= a.Length
      invariant a[..i] == LexSort(s[..i])
      invariant a[i..] == s[i..]
    {
      ghost var before := a[..];
      assert before[i + 1..] == s[i + 1..] && before[i] == s[i];
      LexInsertInPlace(a, i);
      assert a[i + 1..] == before[i + 1..];
      assert s[..i + 1][..i] == s[..i];
      i := i + 1;
    }
    assert a[..] == a[..a.Length] && s == s[..a.Length];
  }

  /** `list_dates`: the dates of the day logs among `names`, each once per log, in ascending order. */
  method ListDates(names: seq<string>) returns (dates: seq<string>)
    ensures dates == LexSort(DateNames(names))
    ensures LexSorted(dates)
    ensures multiset(dates) == multiset(DateNames(names))
    ensures forall d :: d in dates <==> exists k :: 0 <= k < |names| && StandsFor(names[k], d)
  {
    var found := DateNames(names);
    var a := new string[|found|](i requires 0 <= i < |found| => found[i]);
    assert a[..] == found;
    SortLex(a);
    dates := a[..];
    LexSortIsSortedPermutation(found);
    forall d ensures d in dates <==> exists k :: 0 <= k < |names| && StandsFor(names[k], d) {
      DateNamesMembers(names, d);
      assert d in dates <==> d in multiset(dates);
      assert d in found <==> d in multiset(found);
    }
  }
}
