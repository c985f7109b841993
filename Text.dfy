/**
  * The pieces of Rust's `str` API that the logger and the query tool use,
  * written out over `string` (a sequence of Unicode scalar values).
  */
module Text {

  /** Rust's `char::is_whitespace`: the characters with the Unicode White_Space property. */
  predicate IsWhitespace(c: char) {
    ('\t' <= c <= '\r') || c == ' ' || c == '\U{85}' || c == '\U{A0}' || c == '\U{1680}'
    || ('\U{2000}' <= c <= '\U{200A}') || c == '\U{2028}' || c == '\U{2029}'
    || c == '\U{202F}' || c == '\U{205F}' || c == '\U{3000}'
  }

  predicate StartsWith(s: string, prefix: string) {
    |prefix| <= |s| && s[..|prefix|] == prefix
  }

  predicate EndsWith(s: string, suffix: string) {
    |suffix| <= |s| && s[|s| - |suffix|..] == suffix
  }

  /** `s.trim().is_empty()`: nothing but whitespace. */
  predicate IsBlank(s: string) {
    forall i :: 0 <= i < |s| ==> IsWhitespace(s[i])
  }

  /** `s.trim_start()`: the suffix left after dropping the leading whitespace. */
  function TrimStart(s: string): (r: string)
    ensures |r| <= |s| && r == s[|s| - |r|..]
    ensures forall i :: 0 <= i < |s| - |r| ==> IsWhitespace(s[i])
    ensures r == [] || !IsWhitespace(r[0])
  {
    if s != [] && IsWhitespace(s[0]) then
      var r := TrimStart(s[1..]);
      assert s[1..][|s| - 1 - |r|..] == s[|s| - |r|..];
      assert forall i :: 0 < i < |s| ==> s[i] == s[1..][i - 1];
      r
    else s
  }

  /** `s.trim_end()`: the prefix left after dropping the trailing whitespace. */
  function TrimEnd(s: string): (r: string)
    ensures |r| <= |s| && r == s[..|r|]
    ensures forall i :: |r| <= i < |s| ==> IsWhitespace(s[i])
    ensures r == [] || !IsWhitespace(r[|r| - 1])
  {
    if s != [] && IsWhitespace(s[|s| - 1]) then
      var r := TrimEnd(s[..|s| - 1]);
      assert s[..|s| - 1][..|r|] == s[..|r|];
      assert forall i :: 0 <= i < |s| - 1 ==> s[i] == s[..|s| - 1][i];
      r
    else s
  }

  /**
    * `s.trim()`: the part of `s` between its leading and its trailing
    * whitespace; empty exactly when `s` is blank, otherwise it starts and
    * ends with a non-space.
    */
  function Trim(s: string): (r: string)
    ensures r == [] <==> IsBlank(s)
    ensures r != [] ==> !IsWhitespace(r[0]) && !IsWhitespace(r[|r| - 1])
    ensures exists i :: TrimmedAt(s, r, i)
  {
    TrimmedEmptyIffBlank(s);
    TrimmedEnds(s);
    TrimInfix(s);
    TrimEnd(TrimStart(s))
  }

  /** Trimming both ends leaves nothing exactly when the text is blank. */
  lemma TrimmedEmptyIffBlank(s: string)
    ensures TrimEnd(TrimStart(s)) == [] <==> IsBlank(s)
  {
    var t := TrimStart(s);
    var r := TrimEnd(t);
    if t != [] {
      assert t[0] == s[|s| - |t|];
      assert r != [] by {
        assert t[0] in t;
      }
    }
  }

  /** What is left after trimming both ends starts and ends with a non-space. */
  lemma TrimmedEnds(s: string)
    ensures var r := TrimEnd(TrimStart(s)); r != [] ==> !IsWhitespace(r[0]) && !IsWhitespace(r[|r| - 1])
  {
    var t := TrimStart(s);
    var r := TrimEnd(t);
    if r != [] {
      assert r[0] == t[0];
    }
  }

  /** `r` sits in `s` at `i`, with only whitespace before and after it. */
  predicate TrimmedAt(s: string, r: string, i: int) {
    0 <= i <= |s| - |r| && r == s[i..i + |r|] && IsBlank(s[..i]) && IsBlank(s[i + |r|..])
  }

  /** What is left after trimming both ends sits in `s` with whitespace on both sides. */
  lemma TrimInfix(s: string)
    ensures exists i :: TrimmedAt(s, TrimEnd(TrimStart(s)), i)
  {
    var t := TrimStart(s);
    var r := TrimEnd(t);
    var i := |s| - |t|;
    assert s[i + |r|..] == t[|r|..];
    assert r == s[i..i + |r|];
    assert TrimmedAt(s, r, i);
  }

  /** `p` written `k` times over. */
  function Repeat(p: string, k: nat): string {
    if k == 0 then "" else p + Repeat(p, k - 1)
  }

  /** `s` is `k` copies of `p`, then `r`. */
  predicate CopiesThen(s: string, p: string, k: nat, r: string) {
    s == Repeat(p, k) + r
  }

  /** `s` is `r`, then `k` copies of `p`. */
  predicate ThenCopies(s: string, r: string, p: string, k: nat) {
    s == r + Repeat(p, k)
  }

  lemma {:induction false} RepeatSnoc(p: string, k: nat)
    ensures Repeat(p, k) + p == Repeat(p, k + 1)
  {
    if k > 0 {
      RepeatSnoc(p, k - 1);
      assert Repeat(p, k) + p == p + (Repeat(p, k - 1) + p);
    }
  }

  /**
    * `s.trim_start_matches(p)` for a non-empty `p`: `s` is some number of
    * copies of `p` followed by the result, which does not start with `p`.
    */
  function TrimStartMatches(s: string, p: string): (r: string)
    requires p != []
    ensures |r| <= |s| && r == s[|s| - |r|..]
    ensures !StartsWith(r, p)
    ensures exists k: nat :: CopiesThen(s, p, k, r)
    decreases |s|
  {
    if StartsWith(s, p) then
      var r := TrimStartMatches(s[|p|..], p);
      RepeatPrefixStep(s, p, r);
      r
    else
      RepeatNone(s, p);
      s
  }

  /** No copies of `p` on either side of `s`. */
  lemma RepeatNone(s: string, p: string)
    ensures CopiesThen(s, p, 0, s) && ThenCopies(s, s, p, 0)
  {
    assert Repeat(p, 0) == "";
  }

  /** One more copy of `p` before text made of copies of `p` and then `r`. */
  lemma RepeatPrefixStep(s: string, p: string, r: string)
    requires StartsWith(s, p) && exists k: nat :: CopiesThen(s[|p|..], p, k, r)
    ensures exists k: nat :: CopiesThen(s, p, k, r)
  {
    var k: nat :| CopiesThen(s[|p|..], p, k, r);
    calc {
      s;
      p + s[|p|..];
      p + (Repeat(p, k) + r);
      (p + Repeat(p, k)) + r;
      Repeat(p, k + 1) + r;
    }
    assert CopiesThen(s, p, k + 1, r);
  }

  /** One more copy of `p` after text made of `r` and then copies of `p`. */
  lemma RepeatSuffixStep(s: string, p: string, init: string, r: string)
    requires EndsWith(s, p) && init == s[..|s| - |p|]
    requires exists k: nat :: ThenCopies(init, r, p, k)
    ensures exists k: nat :: ThenCopies(s, r, p, k)
  {
    var k: nat :| ThenCopies(init, r, p, k);
    calc {
      s;
      init + p;
      (r + Repeat(p, k)) + p;
      r + (Repeat(p, k) + p);
      { RepeatSnoc(p, k); }
      r + Repeat(p, k + 1);
    }
    assert ThenCopies(s, r, p, k + 1);
  }

  /**
    * `s.trim_end_matches(p)` for a non-empty `p`: `s` is the result followed
    * by some number of copies of `p`, and the result does not end with `p`.
    */
  function TrimEndMatches(s: string, p: string): (r: string)
    requires p != []
    ensures |r| <= |s| && r == s[..|r|]
    ensures !EndsWith(r, p)
    ensures exists k: nat :: ThenCopies(s, r, p, k)
    decreases |s|
  {
    if EndsWith(s, p) then
      var init := s[..|s| - |p|];
      var r := TrimEndMatches(init, p);
      RepeatSuffixStep(s, p, init, r);
      r
    else
      RepeatNone(s, p);
      s
  }

  lemma BlankAppend(a: string, b: string)
    requires IsBlank(a) && IsBlank(b)
    ensures IsBlank(a + b)
  {
    forall i | 0 <= i < |a + b| ensures IsWhitespace((a + b)[i]) {
      if i >= |a| {
        assert (a + b)[i] == b[i - |a|];
      }
    }
  }

  /** Whitespace followed by text that starts with a non-space: `trim_start` leaves that text. */
  lemma {:induction false} TrimStartAfterBlank(w: string, s: string)
    requires IsBlank(w) && s != [] && !IsWhitespace(s[0])
    ensures TrimStart(w + s) == s
    decreases |w|
  {
    if w != [] {
      assert (w + s)[0] == w[0] && (w + s)[1..] == w[1..] + s;
      assert IsBlank(w[1..]) by {
        assert forall i :: 0 <= i < |w| - 1 ==> w[1..][i] == w[i + 1];
      }
      TrimStartAfterBlank(w[1..], s);
    } else {
      assert w + s == s;
    }
  }

  /** Text that ends with a non-space, followed by whitespace: `trim_end` leaves that text. */
  lemma {:induction false} TrimEndBeforeBlank(s: string, w: string)
    requires IsBlank(w) && s != [] && !IsWhitespace(s[|s| - 1])
    ensures TrimEnd(s + w) == s
    decreases |w|
  {
    if w != [] {
      var n := |w| - 1;
      assert (s + w)[|s + w| - 1] == w[n] && (s + w)[..|s + w| - 1] == s + w[..n];
      TrimEndBeforeBlank(s, w[..n]);
    } else {
      assert s + w == s;
    }
  }

  /** Text that starts and ends with a non-space, between whitespace: `trim` leaves that text. */
  lemma TrimBetweenBlanks(w: string, s: string, w': string)
    requires IsBlank(w) && IsBlank(w')
    requires s != [] && !IsWhitespace(s[0]) && !IsWhitespace(s[|s| - 1])
    ensures Trim(w + s + w') == s
  {
    assert w + s + w' == w + (s + w');
    assert (s + w')[0] == s[0];
    TrimStartAfterBlank(w, s + w');
    TrimEndBeforeBlank(s, w');
  }

  /** The position of the first `c` in `s`, or `|s|` when there is none. */
  function IndexOf(s: string, c: char): (i: nat)
    ensures i <= |s|
    ensures i < |s| ==> s[i] == c
    ensures forall k :: 0 <= k < i ==> s[k] != c
  {
    if s == [] || s[0] == c then 0 else 1 + IndexOf(s[1..], c)
  }

  function StripCarriageReturn(line: string): string {
    if line != [] && line[|line| - 1] == '\r' then line[..|line| - 1] else line
  }

  /**
    * Rust's `str::lines`: the text cut at each '\n', with one '\r' removed
    * before a '\n'. A final '\n' does not start an empty last line, and the
    * empty text has no lines at all.
    */
  function Lines(s: string): (r: seq<string>)
    ensures r == [] <==> s == []
    ensures forall k :: 0 <= k < |r| ==> '\n' !in r[k]
    decreases |s|
  {
    if s == [] then []
    else
      var i := IndexOf(s, '\n');
      if i == |s| then [s] else [StripCarriageReturn(s[..i])] + Lines(s[i + 1..])
  }

  /** A line that `Lines` gives back unchanged once it is written out with a '\n' after it. */
  predicate IsLine(l: string) {
    '\n' !in l && (l == [] || l[|l| - 1] != '\r')
  }

  /** Each line followed by '\n': the text a sequence of `writeln`s produces. */
  function Terminated(ls: seq<string>): string {
    if ls == [] then "" else ls[0] + "\n" + Terminated(ls[1..])
  }

  /** `ls.join(sep)`. */
  function Join(ls: seq<string>, sep: string): string {
    if ls == [] then "" else if |ls| == 1 then ls[0] else ls[0] + sep + Join(ls[1..], sep)
  }

  /** The first line of `l + "\n" + rest` is `l`, less a final '\r'; the others are the lines of `rest`. */
  lemma LinesCons(l: string, rest: string)
    requires '\n' !in l
    ensures Lines(l + "\n" + rest) == [StripCarriageReturn(l)] + Lines(rest)
  {
    var s := l + "\n" + rest;
    var n := |l|;
    assert s[n] == '\n';
    assert forall k :: 0 <= k < n ==> s[k] == l[k] && s[k] != '\n';
    assert IndexOf(s, '\n') == n;
    assert s[..n] == l;
    assert s[n + 1..] == rest;
  }

  /** Splitting newline-terminated lines gives the lines back. */
  lemma {:induction false} LinesOfTerminated(ls: seq<string>)
    requires forall k :: 0 <= k < |ls| ==> IsLine(ls[k])
    ensures Lines(Terminated(ls)) == ls
  {
    if ls != [] {
      assert IsLine(ls[0]);
      LinesCons(ls[0], Terminated(ls[1..]));
      LinesOfTerminated(ls[1..]);
    }
  }

  lemma {:induction false} TerminatedAppend(a: seq<string>, b: seq<string>)
    ensures Terminated(a + b) == Terminated(a) + Terminated(b)
  {
    if a != [] {
      assert (a + b)[0] == a[0];
      assert (a + b)[1..] == a[1..] + b;
      TerminatedAppend(a[1..], b);
      calc {
        Terminated(a + b);
        a[0] + "\n" + Terminated(a[1..] + b);
        a[0] + "\n" + (Terminated(a[1..]) + Terminated(b));
        (a[0] + "\n" + Terminated(a[1..])) + Terminated(b);
      }
    } else {
      assert a + b == b;
    }
  }

  /** A joined list followed by '\n' is the list terminated line by line; an empty list leaves one empty line. */
  lemma {:induction false} JoinNewlineTerminated(ls: seq<string>)
    ensures Join(ls, "\n") + "\n" == Terminated(if ls == [] then [""] else ls)
  {
    if |ls| == 1 {
      assert Terminated(ls) == ls[0] + "\n" + Terminated([]);
    } else if |ls| > 1 {
      JoinNewlineTerminated(ls[1..]);
    }
  }

  /** Text that ends with '\n' is its first line, a '\n', and the rest, which ends with '\n' too when not empty. */
  lemma SplitFirstLine(a: string) returns (l: string, rest: string)
    requires a != [] && a[|a| - 1] == '\n'
    ensures a == l + "\n" + rest && '\n' !in l
    ensures rest == [] || rest[|rest| - 1] == '\n'
  {
    var i := IndexOf(a, '\n');
    l, rest := a[..i], a[i + 1..];
    assert a == l + "\n" + rest;
  }

  /** Text that ends where a line ends splits independently of what follows it. */
  lemma {:induction false} LinesAppend(a: string, b: string)
    requires a == [] || a[|a| - 1] == '\n'
    ensures Lines(a + b) == Lines(a) + Lines(b)
    decreases |a|
  {
    if a == [] {
      assert a + b == b;
    } else {
      var l, rest := SplitFirstLine(a);
      calc {
        Lines(a + b);
        { assert a + b == l + "\n" + (rest + b); }
        Lines(l + "\n" + (rest + b));
        { LinesCons(l, rest + b); }
        [StripCarriageReturn(l)] + Lines(rest + b);
        { LinesAppend(rest, b); }
        ([StripCarriageReturn(l)] + Lines(rest)) + Lines(b);
        { LinesCons(l, rest); }
        Lines(a) + Lines(b);
      }
    }
  }

  /** A non-empty line without a line break is its own only line. */
  lemma SingleLine(l: string)
    requires l != [] && '\n' !in l
    ensures Lines(l) == [l]
  {
    assert IndexOf(l, '\n') == |l|;
  }

  /** Joining by '\n' terminates every line but the last. */
  lemma {:induction false} JoinAsTerminated(ls: seq<string>)
    requires ls != []
    ensures Join(ls, "\n") == Terminated(ls[..|ls| - 1]) + ls[|ls| - 1]
  {
    if |ls| == 1 {
      assert ls[..0] == [];
    } else {
      var n := |ls|;
      JoinAsTerminated(ls[1..]);
      assert ls[1..][..n - 2] == ls[..n - 1][1..];
      assert ls[..n - 1][0] == ls[0];
      calc {
        Join(ls, "\n");
        ls[0] + "\n" + Join(ls[1..], "\n");
        ls[0] + "\n" + (Terminated(ls[..n - 1][1..]) + ls[n - 1]);
        (ls[0] + "\n" + Terminated(ls[..n - 1][1..])) + ls[n - 1];
      }
    }
  }

  /** Terminated lines followed by an unterminated one split back into all of them. */
  lemma LinesOfTerminatedThen(init: seq<string>, last: string)
    requires forall k :: 0 <= k < |init| ==> IsLine(init[k])
    requires last != [] && '\n' !in last
    ensures Lines(Terminated(init) + last) == init + [last]
  {
    SingleLine(last);
    TerminatedEndsLine(init);
    LinesAppend(Terminated(init), last);
    LinesOfTerminated(init);
  }

  /** All lines but the last terminated, then the last one: they split back into all of them. */
  lemma LinesOfPrefixThenLast(ls: seq<string>)
    requires ls != [] && ls[|ls| - 1] != []
    requires forall k :: 0 <= k < |ls| ==> IsLine(ls[k])
    ensures Lines(Terminated(ls[..|ls| - 1]) + ls[|ls| - 1]) == ls
  {
    var init, last := ls[..|ls| - 1], ls[|ls| - 1];
    forall k | 0 <= k < |init| ensures IsLine(init[k]) {
      assert init[k] == ls[k];
    }
    assert '\n' !in last by {
      assert IsLine(ls[|ls| - 1]);
    }
    LinesOfTerminatedThen(init, last);
    assert ls == init + [last];
  }

  /** Lines joined by '\n' split back into those lines, unless the last one is empty. */
  lemma LinesOfJoin(ls: seq<string>)
    requires ls != [] && ls[|ls| - 1] != []
    requires forall k :: 0 <= k < |ls| ==> IsLine(ls[k])
    ensures Lines(Join(ls, "\n")) == ls
  {
    JoinAsTerminated(ls);
    LinesOfPrefixThenLast(ls);
  }

  /** Blank lines, each followed by '\n', make blank text. */
  lemma {:induction false} TerminatedBlank(ls: seq<string>)
    requires forall k :: 0 <= k < |ls| ==> IsBlank(ls[k])
    ensures IsBlank(Terminated(ls))
  {
    if ls != [] {
      assert IsBlank(ls[0]);
      TerminatedBlank(ls[1..]);
      assert IsBlank("\n");
      BlankAppend(ls[0], "\n");
      BlankAppend(ls[0] + "\n", Terminated(ls[1..]));
    }
  }

  /** Newline-terminated text is empty or ends with '\n'. */
  lemma TerminatedEndsLine(ls: seq<string>)
    ensures Terminated(ls) == [] || Terminated(ls)[|Terminated(ls)| - 1] == '\n'
  {
    if ls != [] {
      var init, last := ls[..|ls| - 1], ls[|ls| - 1];
      assert ls == init + [last];
      TerminatedAppend(init, [last]);
      assert Terminated([last]) == last + "\n";
    }
  }

  /** The length of the run of non-whitespace characters at the start of `s`. */
  function RunLength(s: string): (n: nat)
    ensures n <= |s|
    ensures forall k :: 0 <= k < n ==> !IsWhitespace(s[k])
    ensures n < |s| ==> IsWhitespace(s[n])
  {
    if s == [] || IsWhitespace(s[0]) then 0 else 1 + RunLength(s[1..])
  }

  /** A field of `split_whitespace`: non-empty, no whitespace inside. */
  predicate IsToken(t: string) {
    t != [] && forall m :: 0 <= m < |t| ==> !IsWhitespace(t[m])
  }

  /** Rust's `str::split_whitespace`: the maximal runs of non-whitespace characters, in order. */
  function SplitWhitespace(s: string): (r: seq<string>)
    ensures forall k :: 0 <= k < |r| ==> IsToken(r[k])
    decreases |s|
  {
    if s == [] then []
    else if IsWhitespace(s[0]) then SplitWhitespace(s[1..])
    else
      var n := RunLength(s);
      [s[..n]] + SplitWhitespace(s[n..])
  }

  /** Whitespace alone has no fields. */
  lemma {:induction false} SplitWhitespaceOfBlank(w: string)
    requires IsBlank(w)
    ensures SplitWhitespace(w) == []
  {
    if w != [] {
      assert IsBlank(w[1..]) by {
        assert forall i :: 0 <= i < |w| - 1 ==> w[1..][i] == w[i + 1];
      }
      SplitWhitespaceOfBlank(w[1..]);
    }
  }

  /**
    * Whitespace, a token, then text that is empty or starts with
    * whitespace: the token is the first field, and the fields of the rest
    * follow it.
    */
  lemma {:induction false} SplitWhitespaceCons(w: string, t: string, rest: string)
    requires IsBlank(w) && IsToken(t)
    requires rest == [] || IsWhitespace(rest[0])
    ensures SplitWhitespace(w + t + rest) == [t] + SplitWhitespace(rest)
    decreases |w|
  {
    if w != [] {
      assert (w + t + rest)[0] == w[0];
      assert (w + t + rest)[1..] == w[1..] + t + rest;
      assert IsBlank(w[1..]) by {
        assert forall i :: 0 <= i < |w| - 1 ==> w[1..][i] == w[i + 1];
      }
      SplitWhitespaceCons(w[1..], t, rest);
    } else {
      var s := t + rest;
      assert w + t + rest == s;
      RunOfToken(t, rest);
      assert s[..|t|] == t && s[|t|..] == rest;
    }
  }

  /** The run at the start of a token followed by whitespace (or nothing) is the token. */
  lemma RunOfToken(t: string, rest: string)
    requires IsToken(t)
    requires rest == [] || IsWhitespace(rest[0])
    ensures RunLength(t + rest) == |t|
  {
    var s := t + rest;
    assert forall k :: 0 <= k < |t| ==> s[k] == t[k];
    assert |t| < |s| ==> s[|t|] == rest[0];
  }

  function Concat(ts: seq<string>): string {
    if ts == [] then "" else ts[0] + Concat(ts[1..])
  }

  /** `s` with every whitespace character deleted. */
  function WithoutWhitespace(s: string): string {
    if s == [] then ""
    else (if IsWhitespace(s[0]) then "" else [s[0]]) + WithoutWhitespace(s[1..])
  }

  lemma {:induction false} WithoutWhitespaceAppend(a: string, b: string)
    ensures WithoutWhitespace(a + b) == WithoutWhitespace(a) + WithoutWhitespace(b)
  {
    if a != [] {
      var rest := a[1..];
      var h := if IsWhitespace(a[0]) then "" else [a[0]];
      calc {
        WithoutWhitespace(a + b);
        { assert (a + b)[0] == a[0] && (a + b)[1..] == rest + b; }
        h + WithoutWhitespace(rest + b);
        { WithoutWhitespaceAppend(rest, b); }
        h + (WithoutWhitespace(rest) + WithoutWhitespace(b));
        (h + WithoutWhitespace(rest)) + WithoutWhitespace(b);
        WithoutWhitespace(a) + WithoutWhitespace(b);
      }
    } else {
      assert a + b == b;
    }
  }

  lemma {:induction false} WithoutWhitespaceOfToken(t: string)
    requires forall m :: 0 <= m < |t| ==> !IsWhitespace(t[m])
    ensures WithoutWhitespace(t) == t
  {
    if t != [] {
      WithoutWhitespaceOfToken(t[1..]);
    }
  }

  /** The fields hold every non-whitespace character of the line, in order, and nothing else. */
  lemma {:induction false} SplitWhitespaceKeepsText(s: string)
    ensures Concat(SplitWhitespace(s)) == WithoutWhitespace(s)
    decreases |s|
  {
    if s == [] {
    } else if IsWhitespace(s[0]) {
      SplitWhitespaceKeepsText(s[1..]);
    } else {
      var n := RunLength(s);
      assert s == s[..n] + s[n..];
      WithoutWhitespaceAppend(s[..n], s[n..]);
      WithoutWhitespaceOfToken(s[..n]);
      SplitWhitespaceKeepsText(s[n..]);
      assert SplitWhitespace(s) == [s[..n]] + SplitWhitespace(s[n..]);
    }
  }
}
