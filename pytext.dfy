/** The parts of Python's `str` that the content pipeline relies on: whitespace
    (`str.isspace` and the `\s` class of `re`), `strip`, the `in` operator on
    strings, `str.count`, `re.split` on a character class, `lower` on ASCII
    letters and `*` on a one-character string. */
module PyText {

  /** `c.isspace()`; the same set is `\s` in a `re` pattern over `str`. */
  predicate IsSpace(c: char)
  {
    var n := c as int;
    (0x09 <= n <= 0x0d) || (0x1c <= n <= 0x20) || n == 0x85 || n == 0xa0 || n == 0x1680
    || (0x2000 <= n <= 0x200a) || n == 0x2028 || n == 0x2029 || n == 0x202f || n == 0x205f || n == 0x3000
  }

  predicate AllSpace(s: string)
  {
    forall i :: 0 <= i < |s| ==> IsSpace(s[i])
  }

  /** Neither the first nor the last character is whitespace. */
  predicate IsStripped(s: string)
  {
    s == [] || (!IsSpace(s[0]) && !IsSpace(s[|s| - 1]))
  }

  /** How many whitespace characters `s` starts with. */
  function LeadingSpaces(s: string): (n: nat)
    ensures n <= |s|
  {
    if s != [] && IsSpace(s[0]) then 1 + LeadingSpaces(s[1..]) else 0
  }

  /** How many whitespace characters `s` ends with. */
  function TrailingSpaces(s: string): (n: nat)
    ensures n <= |s|
  {
    if s != [] && IsSpace(s[|s| - 1]) then 1 + TrailingSpaces(s[..|s| - 1]) else 0
  }

  lemma {:induction false} LeadingSpacesRun(s: string)
    ensures AllSpace(s[..LeadingSpaces(s)])
    ensures LeadingSpaces(s) == |s| || !IsSpace(s[LeadingSpaces(s)])
    decreases |s|
  {
    if s != [] && IsSpace(s[0]) {
      LeadingSpacesRun(s[1..]);
      var n := LeadingSpaces(s[1..]);
      assert forall k :: 0 < k < n + 1 ==> s[k] == s[1..][k - 1];
      if n < |s[1..]| {
        assert s[n + 1] == s[1..][n];
      }
    }
  }

  lemma {:induction false} TrailingSpacesRun(s: string)
    ensures AllSpace(s[|s| - TrailingSpaces(s)..])
    ensures TrailingSpaces(s) == |s| || !IsSpace(s[|s| - TrailingSpaces(s) - 1])
    decreases |s|
  {
    if s != [] && IsSpace(s[|s| - 1]) {
      var p := s[..|s| - 1];
      TrailingSpacesRun(p);
      var n := TrailingSpaces(p);
      assert forall k :: |s| - n - 1 <= k < |s| - 1 ==> s[k] == p[k];
      if n < |p| {
        assert s[|s| - n - 2] == p[|p| - n - 1];
      }
    }
  }

  /** `s.strip()`: `s` without its leading and trailing whitespace. */
  function Strip(s: string): (r: string)
    ensures IsStripped(r)
    ensures |r| <= |s|
  {
    var a := s[LeadingSpaces(s)..];
    LeadingSpacesRun(s);
    TrailingSpacesRun(a);
    a[..|a| - TrailingSpaces(a)]
  }

  /** `Strip(s)` is the slice of `s` left once whitespace runs at both ends are cut. */
  lemma StripSlice(s: string) returns (i: nat)
    ensures i + |Strip(s)| <= |s| && Strip(s) == s[i..i + |Strip(s)|]
    ensures AllSpace(s[..i]) && AllSpace(s[i + |Strip(s)|..])
  {
    i := LeadingSpaces(s);
    var a := s[i..];
    LeadingSpacesRun(s);
    TrailingSpacesRun(a);
    var r := Strip(s);
    assert r == a[..|a| - TrailingSpaces(a)] == s[i..i + |r|];
    assert s[i + |r|..] == a[|a| - TrailingSpaces(a)..];
  }

  /** Stripping a string that has no whitespace at either end gives it back,
      so `strip` is idempotent. */
  lemma StripStripped(s: string)
    requires IsStripped(s)
    ensures Strip(s) == s
  {
  }

  lemma StripIdempotent(s: string)
    ensures Strip(Strip(s)) == Strip(s)
  {
    StripStripped(Strip(s));
  }

  /** Every character of `Strip(s)` is a character of `s`. */
  lemma StripChars(s: string, c: char)
    requires c in Strip(s)
    ensures c in s
  {
    var r := Strip(s);
    var i := StripSlice(s);
    var k :| 0 <= k < |r| && r[k] == c;
    assert s[i + k] == c;
  }

  predicate StartsWith(s: string, t: string)
  {
    |t| <= |s| && s[..|t|] == t
  }

  /** `t in s`: `t` occurs somewhere in `s`. */
  predicate Contains(s: string, t: string)
    decreases |s|
  {
    StartsWith(s, t) || (s != [] && Contains(s[1..], t))
  }

  /** The position-based reading of `t in s`. */
  ghost predicate OccursAt(s: string, t: string, i: int)
  {
    0 <= i && i + |t| <= |s| && s[i..i + |t|] == t
  }

  lemma {:induction false} ContainsIff(s: string, t: string)
    ensures Contains(s, t) <==> exists i :: OccursAt(s, t, i)
    decreases |s|
  {
    if StartsWith(s, t) {
      assert OccursAt(s, t, 0);
    } else if s == [] {
    } else {
      ContainsIff(s[1..], t);
      if exists i :: OccursAt(s[1..], t, i) {
        var i :| OccursAt(s[1..], t, i);
        assert s[i + 1..i + 1 + |t|] == s[1..][i..i + |t|];
        assert OccursAt(s, t, i + 1);
      }
      if exists i :: OccursAt(s, t, i) {
        var i :| OccursAt(s, t, i);
        assert i != 0 by {
          assert OccursAt(s, t, i) ==> i != 0;
        }
        assert s[1..][i - 1..i - 1 + |t|] == s[i..i + |t|];
        assert OccursAt(s[1..], t, i - 1);
      }
    }
  }

  lemma ContainsAt(s: string, t: string, i: nat)
    requires i + |t| <= |s| && s[i..i + |t|] == t
    ensures Contains(s, t)
  {
    ContainsIff(s, t);
    assert OccursAt(s, t, i);
  }

  lemma ContainsConcat(a: string, b: string, t: string)
    requires Contains(a, t) || Contains(b, t)
    ensures Contains(a + b, t)
  {
    ContainsIff(a, t);
    ContainsIff(b, t);
    if Contains(a, t) {
      var i :| OccursAt(a, t, i);
      assert (a + b)[i..i + |t|] == a[i..i + |t|];
      ContainsAt(a + b, t, i);
    } else {
      var i :| OccursAt(b, t, i);
      assert (a + b)[|a| + i..|a| + i + |t|] == b[i..i + |t|];
      ContainsAt(a + b, t, |a| + i);
    }
  }

  /** Whoever contains `t + u` contains `t`: a longer needle implies its prefix. */
  lemma ContainsPrefixOfNeedle(s: string, t: string, u: string)
    requires Contains(s, t + u)
    ensures Contains(s, t)
  {
    ContainsIff(s, t + u);
    var i :| OccursAt(s, t + u, i);
    assert s[i..i + |t|] == (t + u)[..|t|] == t;
    ContainsAt(s, t, i);
  }

  /** A needle whose first character does not occur in `s` is not in `s`. */
  lemma NotContainsFirstChar(s: string, t: string)
    requires t != [] && t[0] !in s
    ensures !Contains(s, t)
  {
    ContainsIff(s, t);
  }

  /** A text lacking one of the needle's characters does not contain it. */
  lemma NotContainsChar(s: string, t: string, i: nat)
    requires i < |t| && t[i] !in s
    ensures !Contains(s, t)
  {
    ContainsIff(s, t);
    forall p: int
      ensures !OccursAt(s, t, p)
    {
      if 0 <= p && p + |t| <= |s| {
        assert s[p..p + |t|][i] == s[p + i];
      }
    }
  }

  lemma {:induction false} ContainsShorter(s: string, t: string)
    requires |s| < |t|
    ensures !Contains(s, t)
    decreases |s|
  {
    if s != [] {
      ContainsShorter(s[1..], t);
    }
  }

  /** Where `t` does not start, `s` contains it exactly when its tail does. */
  lemma ContainsStep(s: string, t: string)
    requires s != [] && !StartsWith(s, t)
    ensures Contains(s, t) <==> Contains(s[1..], t)
  {
  }

  /** `s.count(t)`: the occurrences of `t` found by scanning `s` from the left
      and resuming after each one, so that they never overlap. For the empty
      `t` Python answers `len(s) + 1`. */
  function Count(s: string, t: string): (n: nat)
    ensures t != [] ==> n * |t| <= |s|
    ensures t != [] ==> (n > 0 <==> Contains(s, t))
    decreases |s|
  {
    if t == [] then |s| + 1
    else if |s| < |t| then ContainsShorter(s, t); 0
    else if StartsWith(s, t) then 1 + Count(s[|t|..], t)
    else
      ContainsStep(s, t);
      Count(s[1..], t)
  }

  /** Counting distributes over a split just after a newline, when the needle
      holds no newline: no occurrence can straddle the split. */
  lemma {:induction false} CountSplitAfterNewline(x: string, y: string, t: string)
    requires t != [] && '\n' !in t
    requires x == [] || x[|x| - 1] == '\n'
    ensures Count(x + y, t) == Count(x, t) + Count(y, t)
    decreases |x|
  {
    if x == [] {
      assert x + y == y;
    } else if |x + y| < |t| {
    } else if StartsWith(x + y, t) {
      assert (x + y)[|x| - 1] == '\n';
      assert forall k :: 0 <= k < |t| ==> (x + y)[k] == t[k];
      assert x[..|t|] == (x + y)[..|t|];
      assert (x + y)[|t|..] == x[|t|..] + y;
      CountSplitAfterNewline(x[|t|..], y, t);
    } else {
      assert (x + y)[1..] == x[1..] + y;
      if |x| >= |t| {
        assert x[..|t|] == (x + y)[..|t|];
      }
      CountSplitAfterNewline(x[1..], y, t);
    }
  }

  lemma CountStartsWith(s: string, t: string)
    requires t != [] && StartsWith(s, t)
    ensures Count(s, t) >= 1
  {
  }

  predicate NoneIn(s: string, cs: set<char>)
  {
    forall i :: 0 <= i < |s| ==> s[i] !in cs
  }

  /** `re.split("[...]", s)` for the character class `seps`: the maximal runs
      between separators, including empty ones, in order. */
  function SplitOn(s: string, seps: set<char>): (parts: seq<string>)
    ensures |parts| >= 1
    ensures forall k :: 0 <= k < |parts| ==> NoneIn(parts[k], seps)
    decreases |s|
  {
    if s == [] then [""]
    else
      var rest := SplitOn(s[1..], seps);
      if s[0] in seps then [""] + rest
      else [[s[0]] + rest[0]] + rest[1..]
  }

  /** `sep.join(parts)` for a one-character separator. */
  function Join(parts: seq<string>, sep: char): string
  {
    if parts == [] then ""
    else if |parts| == 1 then parts[0]
    else parts[0] + [sep] + Join(parts[1..], sep)
  }

  /** Splitting what was joined with a separator gives the parts back, as long
      as no part holds a separator. */
  lemma {:induction false} SplitJoin(parts: seq<string>, sep: char, seps: set<char>)
    requires |parts| >= 1 && sep in seps
    requires forall k :: 0 <= k < |parts| ==> NoneIn(parts[k], seps)
    ensures SplitOn(Join(parts, sep), seps) == parts
    decreases |parts|, |parts[0]|
  {
    if |parts| == 1 {
      SplitNoSeparator(parts[0], seps);
    } else if parts[0] == [] {
      var tail := Join(parts[1..], sep);
      assert Join(parts, sep) == [sep] + tail;
      assert (Join(parts, sep))[1..] == tail;
      SplitJoin(parts[1..], sep, seps);
      assert parts == [""] + parts[1..];
    } else {
      var p := parts[0];
      var shorter := [p[1..]] + parts[1..];
      assert forall k :: 0 <= k < |shorter| ==> NoneIn(shorter[k], seps) by {
        forall k | 0 <= k < |shorter| ensures NoneIn(shorter[k], seps) {
          if k > 0 { assert shorter[k] == parts[k]; }
        }
      }
      assert shorter[1..] == parts[1..];
      assert Join(parts, sep) == [p[0]] + Join(shorter, sep);
      assert Join(parts, sep)[1..] == Join(shorter, sep);
      SplitJoin(shorter, sep, seps);
      assert [p[0]] + p[1..] == p;
      assert parts == [p] + parts[1..];
    }
  }

  lemma {:induction false} SplitNoSeparator(s: string, seps: set<char>)
    requires NoneIn(s, seps)
    ensures SplitOn(s, seps) == [s]
    decreases |s|
  {
    if s != [] {
      SplitNoSeparator(s[1..], seps);
      assert [s[0]] + s[1..] == s;
    }
  }

  /** Joining the pieces of a split on one separator rebuilds the string. */
  lemma {:induction false} JoinSplit(s: string, sep: char)
    ensures Join(SplitOn(s, {sep}), sep) == s
    decreases |s|
  {
    if s != [] {
      var rest := SplitOn(s[1..], {sep});
      JoinSplit(s[1..], sep);
      if s[0] == sep {
        assert SplitOn(s, {sep}) == [""] + rest;
        assert Join([""] + rest, sep) == [sep] + Join(rest, sep);
        assert s == [sep] + s[1..];
      } else {
        var parts := SplitOn(s, {sep});
        assert parts == [[s[0]] + rest[0]] + rest[1..];
        if |rest| == 1 {
          assert Join(parts, sep) == [s[0]] + rest[0];
        } else {
          assert parts[1..] == rest[1..];
          assert Join(rest, sep) == rest[0] + [sep] + Join(rest[1..], sep);
          assert Join(parts, sep) == [s[0]] + rest[0] + [sep] + Join(rest[1..], sep);
        }
        assert s == [s[0]] + s[1..];
      }
    }
  }

  function LowerChar(c: char): char
  {
    if 'A' <= c <= 'Z' then (c as int + 32) as char else c
  }

  /** `s.lower()` on the characters where Python and ASCII agree: letters
      A to Z become a to z, everything else is left alone. */
  function LowerAscii(s: string): (r: string)
    ensures |r| == |s|
    ensures forall i :: 0 <= i < |s| ==> r[i] == LowerChar(s[i])
  {
    seq(|s|, i requires 0 <= i < |s| => LowerChar(s[i]))
  }

  /** Lowering twice is lowering once; no A to Z is left, and every other
      character is kept. */
  lemma LowerAsciiLowers(s: string)
    ensures LowerAscii(LowerAscii(s)) == LowerAscii(s)
    ensures forall i :: 0 <= i < |s| ==> !('A' <= LowerAscii(s)[i] <= 'Z')
    ensures forall i :: 0 <= i < |s| && !('A' <= s[i] <= 'Z') ==> LowerAscii(s)[i] == s[i]
    ensures forall i :: 0 <= i < |s| && 'A' <= s[i] <= 'Z' ==> 'a' <= LowerAscii(s)[i] <= 'z'
  {
  }

  /** `c * n` for a one-character string `c`. */
  function Repeat(c: char, n: nat): (r: string)
    ensures |r| == n
    ensures forall i :: 0 <= i < n ==> r[i] == c
  {
    if n == 0 then [] else [c] + Repeat(c, n - 1)
  }

  /** The leftmost search a regular expression makes for a literal
      prefix: the first position at or after `p` where `t` occurs, or -1. */
  function Find(s: string, t: string, p: nat): (r: int)
    requires p <= |s|
    ensures r == -1 || (p <= r && OccursAt(s, t, r))
    ensures r == -1 ==> forall q :: p <= q ==> !OccursAt(s, t, q)
    ensures r != -1 ==> forall q :: p <= q < r ==> !OccursAt(s, t, q)
    decreases |s| - p
  {
    if p + |t| > |s| then -1
    else if s[p..p + |t|] == t then p
    else
      Find(s, t, p + 1)
  }

  /** A needle that occurs nowhere in `pre`, where `pre` is empty or ends a
      line and the needle has no newline, cannot begin inside `pre`. */
  lemma {:induction false} NotFoundAt(pre: string, rest: string, t: string, q: nat)
    requires !Contains(pre, t) && '\n' !in t && t != []
    requires pre == [] || pre[|pre| - 1] == '\n'
    requires q < |pre|
    ensures !OccursAt(pre + rest, t, q)
  {
    var s := pre + rest;
    if q + |t| > |s| {
    } else if q + |t| <= |pre| {
      assert s[q..q + |t|] == pre[q..q + |t|];
      if pre[q..q + |t|] == t {
        ContainsAt(pre, t, q);
      }
    } else {
      assert s[q..q + |t|][|pre| - 1 - q] == '\n';
    }
  }

  /** A needle without newline that occurs nowhere in `pre`, where `pre` is
      empty or ends a line, cannot begin inside `pre`. */
  lemma NotFoundBefore(pre: string, rest: string, t: string)
    requires !Contains(pre, t) && '\n' !in t && t != []
    requires pre == [] || pre[|pre| - 1] == '\n'
    ensures forall q :: 0 <= q < |pre| ==> !OccursAt(pre + rest, t, q)
  {
    forall q | 0 <= q < |pre|
      ensures !OccursAt(pre + rest, t, q)
    {
      NotFoundAt(pre, rest, t, q);
    }
  }

  /** `"\n".join(lines) + "\n"` for the lines from index `i` on: every line
      followed by its newline. */
  function UnlinesFrom(lines: seq<string>, i: nat): string
    decreases |lines| - i
  {
    if i >= |lines| then [] else lines[i] + "\n" + UnlinesFrom(lines, i + 1)
  }

  function Unlines(lines: seq<string>): string
  {
    UnlinesFrom(lines, 0)
  }

  /** A character other than newline that no line holds is not in the text. */
  lemma {:induction false} UnlinesLacks(lines: seq<string>, i: nat, c: char)
    requires c != '\n' && forall k :: i <= k < |lines| ==> c !in lines[k]
    ensures c !in UnlinesFrom(lines, i)
    decreases |lines| - i
  {
    if i < |lines| {
      UnlinesLacks(lines, i + 1, c);
    }
  }

  /** A text made of lines contains whatever one of its lines contains. */
  lemma {:induction false} UnlinesContains(lines: seq<string>, i: nat, k: nat, t: string)
    requires i <= k < |lines| && Contains(lines[k], t)
    ensures Contains(UnlinesFrom(lines, i), t)
    decreases k - i
  {
    if i == k {
      ContainsConcat(lines[k], "\n", t);
      ContainsConcat(lines[k] + "\n", UnlinesFrom(lines, k + 1), t);
    } else {
      UnlinesContains(lines, i + 1, k, t);
      ContainsConcat(lines[i] + "\n", UnlinesFrom(lines, i + 1), t);
    }
  }

  /** How many of the lines from index `i` on start with `t`. */
  function LinesStartingWith(lines: seq<string>, i: nat, t: string): nat
    decreases |lines| - i
  {
    if i >= |lines| then 0
    else (if StartsWith(lines[i], t) then 1 else 0) + LinesStartingWith(lines, i + 1, t)
  }

  /** Every line that starts with `t` adds an occurrence to the count. */
  lemma {:induction false} UnlinesCount(lines: seq<string>, i: nat, t: string)
    requires t != [] && '\n' !in t
    ensures Count(UnlinesFrom(lines, i), t) >= LinesStartingWith(lines, i, t)
    decreases |lines| - i
  {
    if i < |lines| {
      UnlinesCount(lines, i + 1, t);
      var line := lines[i] + "\n";
      assert line[|line| - 1] == '\n';
      CountSplitAfterNewline(line, UnlinesFrom(lines, i + 1), t);
      if StartsWith(lines[i], t) {
        assert line[..|t|] == lines[i][..|t|];
        CountStartsWith(line, t);
      }
    }
  }

  lemma {:induction false} LeadingSpacesDrop(x: string, n: nat)
    requires n <= |x| && forall i :: 0 <= i < n ==> IsSpace(x[i])
    ensures LeadingSpaces(x) == n + LeadingSpaces(x[n..])
    decreases n
  {
    if n > 0 {
      LeadingSpacesDrop(x[1..], n - 1);
      assert x[1..][n - 1..] == x[n..];
    }
  }

  /** Whitespace in front makes no difference to `strip`. */
  lemma StripSkipsSpaces(x: string, n: nat)
    requires n <= |x| && forall i :: 0 <= i < n ==> IsSpace(x[i])
    ensures Strip(x[n..]) == Strip(x)
  {
    LeadingSpacesDrop(x, n);
    assert x[n..][LeadingSpaces(x[n..])..] == x[LeadingSpaces(x)..];
  }

  /** One space in front of a stripped text is stripped off again. */
  lemma StripLeadingSpace(w: string)
    requires IsStripped(w)
    ensures Strip(" " + w) == w
  {
    StripSkipsSpaces(" " + w, 1);
    assert (" " + w)[1..] == w;
    StripStripped(w);
  }

  /** Every character of a piece of `re.split` comes from the text. */
  lemma {:induction false} SplitOnChars(s: string, seps: set<char>, k: nat, c: char)
    requires k < |SplitOn(s, seps)| && c in SplitOn(s, seps)[k]
    ensures c in s
    decreases |s|
  {
    if s != [] {
      if s[0] in seps {
        if k > 0 {
          SplitOnChars(s[1..], seps, k - 1, c);
        }
      } else if k == 0 {
        if c != s[0] {
          SplitOnChars(s[1..], seps, 0, c);
        }
      } else {
        SplitOnChars(s[1..], seps, k, c);
      }
    }
  }

  /** Joining pieces free of `cs` with a separator outside `cs` gives a text
      free of `cs`. */
  lemma {:induction false} JoinNoneIn(parts: seq<string>, sep: char, cs: set<char>)
    requires sep !in cs && forall k :: 0 <= k < |parts| ==> NoneIn(parts[k], cs)
    ensures NoneIn(Join(parts, sep), cs)
    decreases |parts|
  {
    if |parts| > 1 {
      JoinNoneIn(parts[1..], sep, cs);
      var rest := Join(parts[1..], sep);
      var j := Join(parts, sep);
      assert j == parts[0] + [sep] + rest;
      forall i | 0 <= i < |j|
        ensures j[i] !in cs
      {
        if i < |parts[0]| {
          assert j[i] == parts[0][i];
        } else if i > |parts[0]| {
          assert j[i] == rest[i - |parts[0]| - 1];
        }
      }
    }
  }

  /** A join starts with its first piece. */
  lemma JoinStartsWith(parts: seq<string>, sep: char)
    requires |parts| >= 1
    ensures |parts[0]| <= |Join(parts, sep)| && Join(parts, sep)[..|parts[0]|] == parts[0]
  {
    if |parts| > 1 {
      var rest := Join(parts[1..], sep);
      assert Join(parts, sep) == parts[0] + ([sep] + rest);
    }
  }
}
