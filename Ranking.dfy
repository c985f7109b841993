/**
  * How the logger ranks the process rows: the sort key of a row (`parse_col`)
  * and the top-N selection (`top_by`), a stable descending sort of a copy of
  * the rows followed by a truncation.
  */
module Ranking {
  import opened Wrappers
  import opened Text

  /** Rows kept per ranking. */
  const TOP_N: nat := 10
  /** `ps -eo pid,pcpu,pmem,rss,comm`: field 1 is %CPU, field 3 is %MEM. */
  const CPU_COLUMN: nat := 1
  const MEM_COLUMN: nat := 3

  function Min(a: nat, b: nat): nat {
    if a <= b then a else b
  }

  /**
    * The sort key of a row: field `col` of its whitespace-separated fields,
    * read by the number parser; a missing or unreadable field counts as 0.
    */
  function ParseCol(line: string, col: nat, parseNumber: string -> Option<int>): (v: int)
    ensures col < |SplitWhitespace(line)| && parseNumber(SplitWhitespace(line)[col]).Some?
            ==> v == parseNumber(SplitWhitespace(line)[col]).value
    ensures col >= |SplitWhitespace(line)| || parseNumber(SplitWhitespace(line)[col]).None? ==> v == 0
  {
    var fields := SplitWhitespace(line);
    if col < |fields| then
      match parseNumber(fields[col])
      case Some(v) => v
      case None => 0
    else 0
  }

  /** The key `top_by(lines, col)` sorts by. */
  function RowKey(col: nat, parseNumber: string -> Option<int>): string -> int {
    line => ParseCol(line, col, parseNumber)
  }

  /** Keys never increase from left to right. */
  predicate SortedDesc(s: seq<string>, key: string -> int) {
    forall i, j :: 0 <= i < j < |s| ==> key(s[i]) >= key(s[j])
  }

  /** The rows of `s` whose key is `k`, in the order of `s`. */
  function KeyFilter(s: seq<string>, key: string -> int, k: int): seq<string> {
    if s == [] then []
    else KeyFilter(s[..|s| - 1], key, k) + (if key(s[|s| - 1]) == k then [s[|s| - 1]] else [])
  }

  /**
    * A stable descending sort of `s`: sorted by key, and the rows of any one
    * key in the order they had in `s`.
    */
  ghost predicate IsStableSortDesc(r: seq<string>, s: seq<string>, key: string -> int) {
    SortedDesc(r, key) && forall k :: KeyFilter(r, key, k) == KeyFilter(s, key, k)
  }

  /** Places `x` after every row of `sorted` whose key is at least `key(x)`, scanning from the end. */
  function Insert(sorted: seq<string>, x: string, key: string -> int): seq<string>
    decreases |sorted|
  {
    if sorted != [] && key(sorted[|sorted| - 1]) < key(x) then
      Insert(sorted[..|sorted| - 1], x, key) + [sorted[|sorted| - 1]]
    else
      sorted + [x]
  }

  /** Insertion sort, the reference result of the in-place sort below. */
  function SortDesc(s: seq<string>, key: string -> int): seq<string> {
    if s == [] then [] else Insert(SortDesc(s[..|s| - 1], key), s[|s| - 1], key)
  }

  /** `top_by`: the first `TOP_N` rows of the sorted copy. */
  function TopRows(lines: seq<string>, key: string -> int): seq<string> {
    var sorted := SortDesc(lines, key);
    SortDescIsPermutation(lines, key);
    sorted[..Min(TOP_N, |lines|)]
  }

  lemma KeyFilterAppend(a: seq<string>, b: seq<string>, key: string -> int, k: int)
    ensures KeyFilter(a + b, key, k) == KeyFilter(a, key, k) + KeyFilter(b, key, k)
    decreases |b|
  {
    if b == [] {
      assert a + b == a;
    } else {
      assert (a + b)[..|a + b| - 1] == a + b[..|b| - 1];
      KeyFilterAppend(a, b[..|b| - 1], key, k);
    }
  }

  /** `Insert` puts `x` into `sorted` at some position `j`, and every row after it has a smaller key. */
  lemma {:induction false} InsertSplits(sorted: seq<string>, x: string, key: string -> int) returns (j: nat)
    ensures j <= |sorted|
    ensures Insert(sorted, x, key) == sorted[..j] + [x] + sorted[j..]
    ensures forall m :: j <= m < |sorted| ==> key(sorted[m]) < key(x)
    ensures j > 0 ==> key(sorted[j - 1]) >= key(x)
    decreases |sorted|
  {
    if sorted != [] && key(sorted[|sorted| - 1]) < key(x) {
      var init := sorted[..|sorted| - 1];
      j := InsertSplits(init, x, key);
      assert init[..j] == sorted[..j];
      assert init[j..] + [sorted[|sorted| - 1]] == sorted[j..];
    } else {
      j := |sorted|;
      assert sorted[..j] == sorted;
    }
  }

  lemma {:induction false} InsertIsPermutation(sorted: seq<string>, x: string, key: string -> int)
    ensures multiset(Insert(sorted, x, key)) == multiset(sorted) + multiset{x}
  {
    var j := InsertSplits(sorted, x, key);
    assert sorted == sorted[..j] + sorted[j..];
  }

  lemma {:induction false} InsertKeepsSorted(sorted: seq<string>, x: string, key: string -> int)
    requires SortedDesc(sorted, key)
    ensures SortedDesc(Insert(sorted, x, key), key)
  {
    var j := InsertSplits(sorted, x, key);
    var r := Insert(sorted, x, key);
    forall a, b | 0 <= a < b < |r| ensures key(r[a]) >= key(r[b]) {
      if a < j && b == j {
        assert key(sorted[a]) >= key(sorted[j - 1]);
      } else if a == j && b > j {
        assert r[b] == sorted[b - 1];
      } else if a < j && b > j {
        assert r[b] == sorted[b - 1];
      } else if a > j {
        assert r[a] == sorted[a - 1] && r[b] == sorted[b - 1];
      }
    }
  }

  /** `Insert` keeps the rows of every key in order, with `x` last among its own key. */
  lemma {:induction false} InsertIsStable(sorted: seq<string>, x: string, key: string -> int, k: int)
    ensures KeyFilter(Insert(sorted, x, key), key, k)
            == KeyFilter(sorted, key, k) + (if key(x) == k then [x] else [])
  {
    var j := InsertSplits(sorted, x, key);
    var front, back := sorted[..j], sorted[j..];
    assert sorted == front + back;
    KeyFilterAppend(front + [x], back, key, k);
    KeyFilterAppend(front, [x], key, k);
    KeyFilterAppend(front, back, key, k);
    assert KeyFilter([x], key, k) == (if key(x) == k then [x] else []) by {
      assert [x][..0] == [];
    }
    if key(x) == k {
      KeyFilterOfSmaller(back, key, k);
    }
  }

  /** Rows whose keys are all below `k` contribute nothing to the rows of key `k`. */
  lemma {:induction false} KeyFilterOfSmaller(s: seq<string>, key: string -> int, k: int)
    requires forall m :: 0 <= m < |s| ==> key(s[m]) < k
    ensures KeyFilter(s, key, k) == []
  {
    if s != [] {
      KeyFilterOfSmaller(s[..|s| - 1], key, k);
    }
  }

  lemma {:induction false} SortDescIsPermutation(s: seq<string>, key: string -> int)
    ensures multiset(SortDesc(s, key)) == multiset(s)
    ensures |SortDesc(s, key)| == |s|
  {
    if s != [] {
      var init := s[..|s| - 1];
      SortDescIsPermutation(init, key);
      InsertIsPermutation(SortDesc(init, key), s[|s| - 1], key);
      assert s == init + [s[|s| - 1]];
    }
  }

  /** The reference sort is a stable descending sort. */
  lemma {:induction false} SortDescIsStableSort(s: seq<string>, key: string -> int)
    ensures IsStableSortDesc(SortDesc(s, key), s, key)
  {
    if s != [] {
      var init, x := s[..|s| - 1], s[|s| - 1];
      SortDescIsStableSort(init, key);
      InsertKeepsSorted(SortDesc(init, key), x, key);
      forall k ensures KeyFilter(SortDesc(s, key), key, k) == KeyFilter(s, key, k) {
        InsertIsStable(SortDesc(init, key), x, key, k);
      }
    }
  }

  /** The rows kept for key `k` are rows of `s` with that key. */
  lemma {:induction false} KeyFilterMembers(s: seq<string>, key: string -> int, k: int, x: string)
    ensures x in KeyFilter(s, key, k) ==> x in s && key(x) == k
  {
    if s != [] {
      KeyFilterMembers(s[..|s| - 1], key, k, x);
      assert s == s[..|s| - 1] + [s[|s| - 1]];
    }
  }

  /** The last row of a sequence sorted by descending key has the smallest key. */
  lemma SortedDescLast(s: seq<string>, key: string -> int, x: string)
    requires SortedDesc(s, key) && x in s
    ensures key(s[|s| - 1]) <= key(x)
  {
    var i :| 0 <= i < |s| && s[i] == x;
  }

  /** A non-empty sequence sorted by descending key has the same rows of each key as `b` only if `b` is not empty. */
  lemma SameKeyRowsNonEmpty(a: seq<string>, b: seq<string>, key: string -> int)
    requires a != [] && forall k :: KeyFilter(a, key, k) == KeyFilter(b, key, k)
    ensures b != [] && a[|a| - 1] in b
  {
    var x := a[|a| - 1];
    assert x in KeyFilter(a, key, key(x));
    KeyFilterMembers(b, key, key(x), x);
  }

  /**
    * Two sequences sorted by descending key with the same rows of every key,
    * in the same order, are equal.
    */
  lemma {:induction false} SameKeyRowsEqual(a: seq<string>, b: seq<string>, key: string -> int)
    requires SortedDesc(a, key) && SortedDesc(b, key)
    requires forall k :: KeyFilter(a, key, k) == KeyFilter(b, key, k)
    ensures a == b
    decreases |a|
  {
    if a != [] {
      SameKeyRowsNonEmpty(a, b, key);
      SameKeyRowsNonEmpty(b, a, key);
      SortedDescLast(a, key, b[|b| - 1]);
      SortedDescLast(b, key, a[|a| - 1]);
      var a', b' := a[..|a| - 1], b[..|b| - 1];
      assert a == a' + [a[|a| - 1]] && b == b' + [b[|b| - 1]];
      DropLastSameKey(a', a[|a| - 1], b', b[|b| - 1], key);
      SameKeyRowsEqual(a', b', key);
    } else {
      SameKeyRowsNonEmptyConverse(a, b, key);
    }
  }

  /** The rows of key `k` after appending `x`. */
  lemma KeyFilterSnoc(s: seq<string>, x: string, key: string -> int, k: int)
    ensures KeyFilter(s + [x], key, k) == KeyFilter(s, key, k) + (if key(x) == k then [x] else [])
  {
    assert (s + [x])[..|s|] == s;
  }

  /** Equal last keys and the same rows of every key: the last rows agree, and so do the rows of every key before them. */
  lemma DropLastSameKey(a: seq<string>, x: string, b: seq<string>, y: string, key: string -> int)
    requires key(x) == key(y)
    requires forall k :: KeyFilter(a + [x], key, k) == KeyFilter(b + [y], key, k)
    ensures x == y
    ensures forall k :: KeyFilter(a, key, k) == KeyFilter(b, key, k)
  {
    SnocSameKey(a, x, b, y, key);
    forall k ensures KeyFilter(a, key, k) == KeyFilter(b, key, k) {
      DropLastOneKey(a, x, b, y, key, k);
    }
  }

  /** The last rows, of equal key, agree when the rows of that key do. */
  lemma SnocSameKey(a: seq<string>, x: string, b: seq<string>, y: string, key: string -> int)
    requires key(x) == key(y)
    requires KeyFilter(a + [x], key, key(x)) == KeyFilter(b + [y], key, key(x))
    ensures x == y
  {
    var fa, fb := KeyFilter(a, key, key(x)), KeyFilter(b, key, key(x));
    KeyFilterSnoc(a, x, key, key(x));
    KeyFilterSnoc(b, y, key, key(x));
    assert (fa + [x])[|fa|] == x && (fb + [y])[|fb|] == y;
  }

  /** Dropping the same last row keeps the rows of key `k` equal. */
  lemma DropLastOneKey(a: seq<string>, x: string, b: seq<string>, y: string, key: string -> int, k: int)
    requires x == y
    requires KeyFilter(a + [x], key, k) == KeyFilter(b + [y], key, k)
    ensures KeyFilter(a, key, k) == KeyFilter(b, key, k)
  {
    KeyFilterSnoc(a, x, key, k);
    KeyFilterSnoc(b, y, key, k);
    AppendCancel(KeyFilter(a, key, k), KeyFilter(b, key, k), if key(x) == k then [x] else []);
  }

  /** Equal sequences with the same ending agree before it. */
  lemma AppendCancel(p: seq<string>, q: seq<string>, t: seq<string>)
    requires p + t == q + t
    ensures p == q
  {
    assert |p| == |q|;
    assert p == (p + t)[..|p|];
    assert q == (q + t)[..|q|];
  }

  /** A sequence with the same rows of every key as the empty one is empty. */
  lemma SameKeyRowsNonEmptyConverse(a: seq<string>, b: seq<string>, key: string -> int)
    requires a == [] && forall k :: KeyFilter(a, key, k) == KeyFilter(b, key, k)
    ensures b == []
  {
    if b != [] {
      SameKeyRowsNonEmpty(b, a, key);
    }
  }

  /**
    * A stable descending sort has one result: whatever sort produced `r`
    * (the library's merge sort included), it is `SortDesc(s, key)`.
    */
  lemma StableSortUnique(r: seq<string>, s: seq<string>, key: string -> int)
    requires IsStableSortDesc(r, s, key)
    ensures r == SortDesc(s, key)
  {
    SortDescIsStableSort(s, key);
    SameKeyRowsEqual(r, SortDesc(s, key), key);
  }

  /** A prefix of a sequence keeps, for every key, a prefix of that key's rows. */
  lemma {:induction false} KeyFilterOfPrefix(s: seq<string>, n: nat, key: string -> int, k: int)
    requires n <= |s|
    ensures KeyFilter(s[..n], key, k) <= KeyFilter(s, key, k)
  {
    assert s == s[..n] + s[n..];
    KeyFilterAppend(s[..n], s[n..], key, k);
  }

  /** `top_by` keeps as many rows as `TOP_N` allows, all taken from the input, by descending key. */
  lemma TopRowsShape(lines: seq<string>, key: string -> int)
    ensures |TopRows(lines, key)| == Min(TOP_N, |lines|)
    ensures multiset(TopRows(lines, key)) <= multiset(lines)
    ensures SortedDesc(TopRows(lines, key), key)
  {
    var sorted := SortDesc(lines, key);
    var n := Min(TOP_N, |lines|);
    SortDescIsPermutation(lines, key);
    SortDescIsStableSort(lines, key);
    assert sorted == sorted[..n] + sorted[n..];
    assert multiset(sorted) == multiset(sorted[..n]) + multiset(sorted[n..]);
  }

  /** Rows of equal key keep their input order: the kept rows of each key are the first rows of that key. */
  lemma TopRowsStable(lines: seq<string>, key: string -> int, k: int)
    ensures KeyFilter(TopRows(lines, key), key, k) <= KeyFilter(lines, key, k)
  {
    SortDescIsPermutation(lines, key);
    SortDescIsStableSort(lines, key);
    KeyFilterOfPrefix(SortDesc(lines, key), Min(TOP_N, |lines|), key, k);
  }

  /** No row left out by the truncation ranks above a row kept. */
  lemma TopRowsOmittedRankLower(lines: seq<string>, key: string -> int, x: string, y: string)
    requires x in multiset(lines) - multiset(TopRows(lines, key))
    requires y in TopRows(lines, key)
    ensures key(x) <= key(y)
  {
    var sorted := SortDesc(lines, key);
    var n := Min(TOP_N, |lines|);
    SortDescIsPermutation(lines, key);
    SortDescIsStableSort(lines, key);
    OmittedInRest(sorted, n, x);
    SortedSplitOrder(sorted, key, n, x, y);
  }

  /** What the head of `s` leaves out of `s` lies in its tail. */
  lemma OmittedInRest(s: seq<string>, n: nat, x: string)
    requires n <= |s| && x in multiset(s) - multiset(s[..n])
    ensures x in multiset(s[n..])
  {
    assert s == s[..n] + s[n..];
    assert multiset(s) == multiset(s[..n]) + multiset(s[n..]);
  }

  /** In a sequence sorted by descending key, no row of the tail ranks above a row of the head. */
  lemma SortedSplitOrder(s: seq<string>, key: string -> int, n: nat, x: string, y: string)
    requires SortedDesc(s, key) && n <= |s|
    requires x in multiset(s[n..]) && y in s[..n]
    ensures key(x) <= key(y)
  {
    var top, rest := s[..n], s[n..];
    var a :| 0 <= a < |top| && top[a] == y;
    var b :| 0 <= b < |rest| && rest[b] == x;
    assert s[a] == y && s[n + b] == x;
  }

  /** Whether `x` ranks strictly above `y`. */
  predicate Ranks(key: string -> int, x: string, y: string) {
    key(y) < key(x)
  }

  /** `x` goes after the rows it does not rank above and before the rows it does. */
  lemma {:induction false} InsertAtGap(sorted: seq<string>, x: string, key: string -> int, j: nat)
    requires j <= |sorted|
    requires j == 0 || !Ranks(key, x, sorted[j - 1])
    requires forall m :: j <= m < |sorted| ==> Ranks(key, x, sorted[m])
    ensures Insert(sorted, x, key) == sorted[..j] + [x] + sorted[j..]
    decreases |sorted|
  {
    if j < |sorted| {
      var n := |sorted| - 1;
      var init := sorted[..n];
      assert Ranks(key, x, sorted[n]);
      assert j == 0 || !Ranks(key, x, init[j - 1]);
      InsertAtGap(init, x, key, j);
      assert init[..j] == sorted[..j] && init[j..] + [sorted[n]] == sorted[j..];
    } else {
      assert sorted[..j] == sorted;
    }
  }

  /** Where the shifting stops, `x` goes: the rows before it, `x`, then the shifted rows make up the insertion. */
  lemma InsertPlaced(sorted: seq<string>, x: string, key: string -> int, j: nat, placed: seq<string>)
    requires j <= |sorted| && |placed| == |sorted| + 1
    requires j == 0 || !Ranks(key, x, sorted[j - 1])
    requires forall m :: j <= m < |sorted| ==> Ranks(key, x, sorted[m])
    requires forall k :: 0 <= k < j ==> placed[k] == sorted[k]
    requires placed[j] == x
    requires forall k :: j < k < |placed| ==> placed[k] == sorted[k - 1]
    ensures placed == Insert(sorted, x, key)
  {
    InsertAtGap(sorted, x, key, j);
    ghost var inserted := sorted[..j] + [x] + sorted[j..];
    forall k | 0 <= k < |placed| ensures placed[k] == inserted[k] {
      if k > j {
        assert inserted[k] == sorted[k - 1];
      }
    }
  }

  /**
    * The inner loop of one insertion step: from the end of `a[..i]`, moves
    * one place right every row that `x` ranks above, and returns the gap.
    */
  method ShiftRanked(a: array<string>, i: nat, x: string, key: string -> int) returns (j: nat)
    requires i < a.Length
    modifies a
    ensures j <= i
    ensures forall k :: 0 <= k < j ==> a[k] == old(a[..i])[k]
    ensures forall k :: j < k <= i ==> a[k] == old(a[..i])[k - 1]
    ensures forall k :: i < k < a.Length ==> a[k] == old(a[k])
    ensures j == 0 || !Ranks(key, x, a[j - 1])
    ensures forall m :: j <= m < i ==> Ranks(key, x, old(a[..i])[m])
  {
    ghost var sorted := a[..i];
    j := i;
    while j > 0 && Ranks(key, x, a[j - 1])
      invariant 0 <= j <= i
      invariant forall k :: 0 <= k < j ==> a[k] == sorted[k]
      invariant forall k :: j < k <= i ==> a[k] == sorted[k - 1]
      invariant forall k :: i < k < a.Length ==> a[k] == old(a[k])
      invariant forall m :: j <= m < i ==> Ranks(key, x, sorted[m])
    {
      a[j] := a[j - 1];
      j := j - 1;
    }
  }

  /**
    * One step of the insertion sort: moves `a[i]` left past the rows of
    * `a[..i]` with a smaller key.
    */
  method InsertInPlace(a: array<string>, i: nat, key: string -> int)
    requires i < a.Length
    modifies a
    ensures a[..i + 1] == Insert(old(a[..i]), old(a[i]), key)
    ensures a[i + 1..] == old(a[i + 1..])
  {
    ghost var sorted := a[..i];
    var x := a[i];
    var j := ShiftRanked(a, i, x, key);
    a[j] := x;
    InsertPlaced(sorted, x, key, j, a[..i + 1]);
  }

  /** Sorts `a` in place by descending key, stably (insertion sort). */
  method SortByKeyDesc(a: array<string>, key: string -> int)
    modifies a
    ensures a[..] == SortDesc(old(a[..]), key)
  {
    ghost var s := a[..];
    var i := 0;
    while i < a.Length
      invariant 0 <= i <= a.Length
      invariant a[..i] == SortDesc(s[..i], key)
      invariant a[i..] == s[i..]
    {
      ghost var before := a[..];
      assert before[i + 1..] == s[i + 1..] && before[i] == s[i];
      InsertInPlace(a, i, key);
      assert a[i + 1..] == before[i + 1..];
      assert s[..i + 1][..i] == s[..i];
      i := i + 1;
    }
    assert a[..] == a[..a.Length] && s == s[..a.Length];
  }

  /** `top_by`: copies the rows, sorts the copy in place, keeps the first `TOP_N`. */
  method TopBy(lines: seq<string>, col: nat, parseNumber: string -> Option<int>) returns (top: seq<string>)
    ensures top == TopRows(lines, RowKey(col, parseNumber))
    ensures |top| == Min(TOP_N, |lines|)
    ensures multiset(top) <= multiset(lines)
    ensures SortedDesc(top, RowKey(col, parseNumber))
  {
    var key := RowKey(col, parseNumber);
    var sorted := new string[|lines|](i requires 0 <= i < |lines| => lines[i]);
    assert sorted[..] == lines;
    SortByKeyDesc(sorted, key);
    SortDescIsPermutation(lines, key);
    top := sorted[..Min(TOP_N, sorted.Length)];
    TopRowsShape(lines, key);
  }
}
