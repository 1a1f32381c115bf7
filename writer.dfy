/** The content writer: the checks an article must pass, the metadata and
    social text read back out of it, the package assembled from the
    backend's replies, and the metadata rules. */
module Writer {
  import opened PyText
  import opened Utils

  // ------------------------------------------------------------------
  // self_check
  // ------------------------------------------------------------------

  /** `REQUIRED_HEADINGS`, in the order they are checked. */
  const REQUIRED_HEADINGS: seq<string> := ["# ", "## Hook", "## Context", "## What to do next", "## Conclusion"]

  /** The banned punctuation exactly as the check spells it: the UTF-8
      bytes of an em dash read back as Windows-1252, that is U+00E2,
      U+20AC, U+201D. A real em dash (U+2014) is not caught. */
  const EM_DASH_MOJIBAKE: string := ['\U{00E2}', '\U{20AC}', '\U{201D}']

  const SECTION_MARKER := "## "
  const MIN_SECTIONS := 6

  const EM_DASH_ERROR := "Contains em dash."
  const SECTIONS_ERROR := "Not enough section headings."
  const CHECKLIST_ERROR := "Checklist missing."
  const CLAIM_ERROR := "Potential fabricated percentage claim."

  function MissingHeadingError(heading: string): (msg: string)
    ensures |msg| > 0 && msg[0] == 'M'
  {
    "Missing heading: " + heading
  }

  lemma MissingHeadingErrorInjective(h1: string, h2: string)
    requires MissingHeadingError(h1) == MissingHeadingError(h2)
    ensures h1 == h2
  {
    var prefix := "Missing heading: ";
    assert h1 == MissingHeadingError(h1)[|prefix|..];
    assert h2 == MissingHeadingError(h2)[|prefix|..];
  }

  /** One error message when `failed`, none otherwise. */
  function ErrorIf(failed: bool, msg: string): seq<string>
  {
    if failed then [msg] else []
  }

  /** The missing-heading errors for the headings `hs`, in their order. */
  function MissingHeadings(text: string, hs: seq<string>): seq<string>
  {
    if hs == [] then []
    else MissingHeadings(text, hs[..|hs| - 1])
         + ErrorIf(!Contains(text, hs[|hs| - 1]), MissingHeadingError(hs[|hs| - 1]))
  }

  /** One turn of the heading loop in `SelfCheck` extends the list by the
      error for `hs[i]`, if any. */
  lemma MissingHeadingsGrow(text: string, hs: seq<string>, i: nat, dash: seq<string>, before: seq<string>, after: seq<string>)
    requires i < |hs| && before == dash + MissingHeadings(text, hs[..i])
    requires after == (if Contains(text, hs[i]) then before else before + [MissingHeadingError(hs[i])])
    ensures after == dash + MissingHeadings(text, hs[..i + 1])
  {
    MissingHeadingsStep(text, hs, i);
  }

  lemma MissingHeadingsStep(text: string, hs: seq<string>, i: nat)
    requires i < |hs|
    ensures MissingHeadings(text, hs[..i + 1])
            == MissingHeadings(text, hs[..i]) + ErrorIf(!Contains(text, hs[i]), MissingHeadingError(hs[i]))
  {
    assert hs[..i + 1][..i] == hs[..i];
  }

  /** The checklist test as the source writes it: neither an unchecked box
      `- [ ]` nor any bullet `- `. */
  predicate LacksChecklist(text: string)
  {
    !Contains(text, "- [ ]") && !Contains(text, "- ")
  }

  /** The list of problems found in `text`, in the order they are checked. */
  function Report(text: string): seq<string>
  {
    ErrorIf(Contains(text, EM_DASH_MOJIBAKE), EM_DASH_ERROR)
    + MissingHeadings(text, REQUIRED_HEADINGS)
    + ErrorIf(Count(text, SECTION_MARKER) < MIN_SECTIONS, SECTIONS_ERROR)
    + ErrorIf(LacksChecklist(text), CHECKLIST_ERROR)
    + ErrorIf(HasFabricatedClaim(text), CLAIM_ERROR)
  }

  method SelfCheck(text: string) returns (errors: seq<string>)
    ensures errors == Report(text)
  {
    errors := [];
    if Contains(text, EM_DASH_MOJIBAKE) {
      errors := errors + [EM_DASH_ERROR];
    }
    ghost var dash := errors;
    assert dash == ErrorIf(Contains(text, EM_DASH_MOJIBAKE), EM_DASH_ERROR);
    var headings := REQUIRED_HEADINGS;
    for i := 0 to |headings|
      invariant errors == dash + MissingHeadings(text, headings[..i])
    {
      var heading := headings[i];
      ghost var before := errors;
      if !Contains(text, heading) {
        errors := errors + [MissingHeadingError(heading)];
      }
      MissingHeadingsGrow(text, headings, i, dash, before, errors);
    }
    assert headings[..|headings|] == headings;
    ghost var structure := errors;
    if Count(text, SECTION_MARKER) < MIN_SECTIONS {
      errors := errors + [SECTIONS_ERROR];
    }
    assert errors == structure + ErrorIf(Count(text, SECTION_MARKER) < MIN_SECTIONS, SECTIONS_ERROR);
    ghost var counted := errors;
    if LacksChecklist(text) {
      errors := errors + [CHECKLIST_ERROR];
    }
    assert errors == counted + ErrorIf(LacksChecklist(text), CHECKLIST_ERROR);
    ghost var listed := errors;
    if HasFabricatedClaim(text) {
      errors := errors + [CLAIM_ERROR];
    }
    assert errors == listed + ErrorIf(HasFabricatedClaim(text), CLAIM_ERROR);
    assert structure == ErrorIf(Contains(text, EM_DASH_MOJIBAKE), EM_DASH_ERROR) + MissingHeadings(text, REQUIRED_HEADINGS);
  }

  /** `validate_article_structure`: the same check without a backend. */
  method ValidateArticleStructure(text: string) returns (errors: seq<string>)
    ensures errors == Report(text)
  {
    errors := SelfCheck(text);
  }

  // ------------------------------------------------------------------
  // What a report says
  // ------------------------------------------------------------------

  lemma {:induction false} MissingHeadingsMembers(text: string, hs: seq<string>, m: string)
    requires m in MissingHeadings(text, hs)
    ensures exists k :: 0 <= k < |hs| && !Contains(text, hs[k]) && m == MissingHeadingError(hs[k])
    decreases |hs|
  {
    var init := hs[..|hs| - 1];
    if m in MissingHeadings(text, init) {
      MissingHeadingsMembers(text, init, m);
      var k :| 0 <= k < |init| && !Contains(text, init[k]) && m == MissingHeadingError(init[k]);
      assert hs[k] == init[k];
    } else {
      assert m == MissingHeadingError(hs[|hs| - 1]);
    }
  }

  /** How often the message for `h` appears: once for every occurrence of
      `h` among the headings, when the text does not contain it. */
  lemma {:induction false} MissingHeadingsCount(text: string, hs: seq<string>, h: string)
    ensures multiset(MissingHeadings(text, hs))[MissingHeadingError(h)]
            == if Contains(text, h) then 0 else multiset(hs)[h]
    decreases |hs|
  {
    if hs != [] {
      var init, last := hs[..|hs| - 1], hs[|hs| - 1];
      assert hs == init + [last];
      MissingHeadingsCount(text, init, h);
      if MissingHeadingError(last) == MissingHeadingError(h) {
        MissingHeadingErrorInjective(last, h);
      }
    }
  }

  lemma NoHeadingMissing(text: string, hs: seq<string>)
    requires forall k :: 0 <= k < |hs| ==> Contains(text, hs[k])
    ensures MissingHeadings(text, hs) == []
  {
    if MissingHeadings(text, hs) != [] {
      MissingHeadingsMembers(text, hs, MissingHeadings(text, hs)[0]);
    }
  }

  lemma MissingHeadingsStartWithM(text: string, hs: seq<string>, m: string)
    requires m in MissingHeadings(text, hs)
    ensures |m| > 0 && m[0] == 'M'
  {
    MissingHeadingsMembers(text, hs, m);
  }

  lemma EmDashReported(text: string)
    ensures EM_DASH_ERROR in Report(text) <==> Contains(text, EM_DASH_MOJIBAKE)
  {
    if EM_DASH_ERROR in MissingHeadings(text, REQUIRED_HEADINGS) {
      MissingHeadingsStartWithM(text, REQUIRED_HEADINGS, EM_DASH_ERROR);
    }
  }

  lemma RequiredHeadingsDistinct(h: string)
    requires h in REQUIRED_HEADINGS
    ensures multiset(REQUIRED_HEADINGS)[h] == 1
  {
    var hs := REQUIRED_HEADINGS;
    assert |hs[0]| == 2 && |hs[1]| == 7 && |hs[2]| == 10 && |hs[3]| == 18 && |hs[4]| == 13;
    assert hs == [hs[0]] + [hs[1]] + [hs[2]] + [hs[3]] + [hs[4]];
  }

  /** Every required heading the text lacks is reported exactly once, and
      none that it has. */
  lemma HeadingReported(text: string, h: string)
    requires h in REQUIRED_HEADINGS
    ensures multiset(Report(text))[MissingHeadingError(h)] == if Contains(text, h) then 0 else 1
  {
    MissingHeadingsCount(text, REQUIRED_HEADINGS, h);
    RequiredHeadingsDistinct(h);
    var m := MissingHeadingError(h);
    var e1 := ErrorIf(Contains(text, EM_DASH_MOJIBAKE), EM_DASH_ERROR);
    var e3 := ErrorIf(Count(text, SECTION_MARKER) < MIN_SECTIONS, SECTIONS_ERROR);
    var e4 := ErrorIf(LacksChecklist(text), CHECKLIST_ERROR);
    var e5 := ErrorIf(HasFabricatedClaim(text), CLAIM_ERROR);
    assert m != EM_DASH_ERROR && m != SECTIONS_ERROR && m != CHECKLIST_ERROR && m != CLAIM_ERROR by {
      assert m[0] == 'M';
    }
    OnlyMiddleCounts(e1, MissingHeadings(text, REQUIRED_HEADINGS), e3, e4, e5, m);
  }

  lemma OnlyMiddleCounts(a: seq<string>, b: seq<string>, c: seq<string>, d: seq<string>, e: seq<string>, m: string)
    requires m !in a && m !in c && m !in d && m !in e
    ensures multiset(a + b + c + d + e)[m] == multiset(b)[m]
  {
    assert multiset(a + b + c + d + e) == multiset(a) + multiset(b) + multiset(c) + multiset(d) + multiset(e);
  }

  lemma SectionsReported(text: string)
    ensures SECTIONS_ERROR in Report(text) <==> Count(text, SECTION_MARKER) < MIN_SECTIONS
  {
    if SECTIONS_ERROR in MissingHeadings(text, REQUIRED_HEADINGS) {
      MissingHeadingsStartWithM(text, REQUIRED_HEADINGS, SECTIONS_ERROR);
    }
  }

  /** The unchecked-box test adds nothing: a text with `- [ ]` also has
      `- `, so the checklist error means exactly that there is no `- `. */
  lemma ChecklistReported(text: string)
    ensures CHECKLIST_ERROR in Report(text) <==> !Contains(text, "- ")
  {
    if Contains(text, "- [ ]") {
      assert "- [ ]" == "- " + "[ ]";
      ContainsPrefixOfNeedle(text, "- ", "[ ]");
    }
    if CHECKLIST_ERROR in MissingHeadings(text, REQUIRED_HEADINGS) {
      MissingHeadingsStartWithM(text, REQUIRED_HEADINGS, CHECKLIST_ERROR);
    }
  }

  lemma ClaimReported(text: string)
    ensures CLAIM_ERROR in Report(text) <==> HasFabricatedClaim(text)
  {
    if CLAIM_ERROR in MissingHeadings(text, REQUIRED_HEADINGS) {
      MissingHeadingsStartWithM(text, REQUIRED_HEADINGS, CLAIM_ERROR);
    }
  }

  /** Any `## ` heading also satisfies the `# ` title requirement. */
  lemma TitleSatisfiedBySection(text: string)
    requires Contains(text, SECTION_MARKER)
    ensures MissingHeadingError("# ") !in Report(text)
  {
    ContainsIff(text, SECTION_MARKER);
    var i :| OccursAt(text, SECTION_MARKER, i);
    assert text[i + 1..i + 3] == "# ";
    ContainsAt(text, "# ", i + 1);
    HeadingReported(text, "# ");
  }

  /** `a` can be obtained from `b` by deleting elements. */
  predicate IsSubsequence<T(==)>(a: seq<T>, b: seq<T>)
    decreases |b|
  {
    if a == [] then true
    else if b == [] then false
    else (a[0] == b[0] && IsSubsequence(a[1..], b[1..])) || IsSubsequence(a, b[1..])
  }

  lemma {:induction false} SubsequenceLength<T>(a: seq<T>, b: seq<T>)
    requires IsSubsequence(a, b)
    ensures |a| <= |b|
    decreases |b|
  {
    if a != [] {
      if a[0] == b[0] && IsSubsequence(a[1..], b[1..]) {
        SubsequenceLength(a[1..], b[1..]);
      } else {
        SubsequenceLength(a, b[1..]);
      }
    }
  }

  lemma {:induction false} SubsequenceEmpty<T>(b: seq<T>)
    ensures IsSubsequence([], b)
  {
  }

  lemma {:induction false} SubsequenceConcat<T>(a1: seq<T>, b1: seq<T>, a2: seq<T>, b2: seq<T>)
    requires IsSubsequence(a1, b1) && IsSubsequence(a2, b2)
    ensures IsSubsequence(a1 + a2, b1 + b2)
    decreases |b1| + |b2|
  {
    if b1 == [] {
      assert a1 == [];
      assert a1 + a2 == a2 && b1 + b2 == b2;
    } else if a1 == [] {
      if a2 != [] {
        if a2[0] == b2[0] && IsSubsequence(a2[1..], b2[1..]) {
          SubsequenceConcat(a1, b1[1..], a2, b2);
          assert (b1 + b2)[1..] == b1[1..] + b2;
        } else {
          SubsequenceConcat(a1, b1[1..], a2, b2);
          assert (b1 + b2)[1..] == b1[1..] + b2;
        }
      }
    } else if a1[0] == b1[0] && IsSubsequence(a1[1..], b1[1..]) {
      SubsequenceConcat(a1[1..], b1[1..], a2, b2);
      assert (a1 + a2)[1..] == a1[1..] + a2;
      assert (b1 + b2)[1..] == b1[1..] + b2;
    } else {
      SubsequenceConcat(a1, b1[1..], a2, b2);
      assert (b1 + b2)[1..] == b1[1..] + b2;
    }
  }

  lemma ErrorIfSubsequence(failed: bool, msg: string)
    ensures IsSubsequence(ErrorIf(failed, msg), [msg])
  {
    if failed {
      assert [msg][1..] == [];
    }
  }

  /** The missing-heading message of every heading, in order. */
  function AllMissing(hs: seq<string>): (msgs: seq<string>)
    ensures |msgs| == |hs|
  {
    seq(|hs|, k requires 0 <= k < |hs| => MissingHeadingError(hs[k]))
  }

  lemma {:induction false} MissingHeadingsSubsequence(text: string, hs: seq<string>)
    ensures IsSubsequence(MissingHeadings(text, hs), AllMissing(hs))
    decreases |hs|
  {
    if hs == [] {
      SubsequenceEmpty(AllMissing(hs));
    } else {
      var init, last := hs[..|hs| - 1], hs[|hs| - 1];
      MissingHeadingsSubsequence(text, init);
      ErrorIfSubsequence(!Contains(text, last), MissingHeadingError(last));
      assert AllMissing(hs) == AllMissing(init) + [MissingHeadingError(last)];
      SubsequenceConcat(MissingHeadings(text, init), AllMissing(init),
                        ErrorIf(!Contains(text, last), MissingHeadingError(last)), [MissingHeadingError(last)]);
    }
  }

  /** Every message `self_check` can produce, in its order. */
  const ALL_ERRORS: seq<string> :=
    [EM_DASH_ERROR] + AllMissing(REQUIRED_HEADINGS) + [SECTIONS_ERROR, CHECKLIST_ERROR, CLAIM_ERROR]

  /** The errors always come in the fixed order of the checks, each check
      contributing at most once, so a report has at most nine entries. */
  lemma ReportOrder(text: string)
    ensures IsSubsequence(Report(text), ALL_ERRORS)
    ensures |Report(text)| <= 9
  {
    var e1 := ErrorIf(Contains(text, EM_DASH_MOJIBAKE), EM_DASH_ERROR);
    var e2 := MissingHeadings(text, REQUIRED_HEADINGS);
    var e3 := ErrorIf(Count(text, SECTION_MARKER) < MIN_SECTIONS, SECTIONS_ERROR);
    var e4 := ErrorIf(LacksChecklist(text), CHECKLIST_ERROR);
    var e5 := ErrorIf(HasFabricatedClaim(text), CLAIM_ERROR);
    ErrorIfSubsequence(Contains(text, EM_DASH_MOJIBAKE), EM_DASH_ERROR);
    MissingHeadingsSubsequence(text, REQUIRED_HEADINGS);
    ErrorIfSubsequence(Count(text, SECTION_MARKER) < MIN_SECTIONS, SECTIONS_ERROR);
    ErrorIfSubsequence(LacksChecklist(text), CHECKLIST_ERROR);
    ErrorIfSubsequence(HasFabricatedClaim(text), CLAIM_ERROR);
    var m := AllMissing(REQUIRED_HEADINGS);
    SubsequenceConcat(e1, [EM_DASH_ERROR], e2, m);
    SubsequenceConcat(e1 + e2, [EM_DASH_ERROR] + m, e3, [SECTIONS_ERROR]);
    SubsequenceConcat(e1 + e2 + e3, [EM_DASH_ERROR] + m + [SECTIONS_ERROR], e4, [CHECKLIST_ERROR]);
    SubsequenceConcat(e1 + e2 + e3 + e4, [EM_DASH_ERROR] + m + [SECTIONS_ERROR] + [CHECKLIST_ERROR], e5, [CLAIM_ERROR]);
    assert ALL_ERRORS == [EM_DASH_ERROR] + m + [SECTIONS_ERROR] + [CHECKLIST_ERROR] + [CLAIM_ERROR];
    SubsequenceLength(Report(text), ALL_ERRORS);
  }

  // ------------------------------------------------------------------
  // The fabricated-claim pattern
  // ------------------------------------------------------------------

  /** `\w`, on ASCII text. */
  predicate IsWordChar(c: char)
  {
    IsAsciiAlnum(c) || c == '_'
  }

  /** `\d`, on ASCII text. */
  predicate IsDigitChar(c: char)
  {
    '0' <= c <= '9'
  }

  /** `\b` at position `p`: a word character on exactly one side. */
  predicate IsBoundary(s: string, p: int)
    requires 0 <= p <= |s|
  {
    (p > 0 && IsWordChar(s[p - 1])) != (p < |s| && IsWordChar(s[p]))
  }

  /** `\bw\b` matches at `i`, ignoring case; `w` is lower case. */
  predicate WordAt(s: string, i: int, w: string)
  {
    && 0 <= i && i + |w| <= |s|
    && (forall q :: 0 <= q < |w| ==> LowerChar(s[i + q]) == w[q])
    && IsBoundary(s, i) && IsBoundary(s, i + |w|)
  }

  /** The word `w` matches at `i` and ends by `j`. */
  predicate WordEndsBy(s: string, i: int, w: string, j: int)
  {
    WordAt(s, i, w) && i + |w| <= j
  }

  /** `\b(we|our team|evolvra)\b` matches at `i` and ends by `j`. */
  predicate SubjectAt(s: string, i: int, j: int)
  {
    WordEndsBy(s, i, "we", j) || WordEndsBy(s, i, "our team", j) || WordEndsBy(s, i, "evolvra", j)
  }

  /** `\b(achieved|increased|grew|boosted)\b` matches at `j` and ends by `k`. */
  predicate VerbAt(s: string, j: int, k: int)
  {
    || WordEndsBy(s, j, "achieved", k) || WordEndsBy(s, j, "increased", k)
    || WordEndsBy(s, j, "grew", k) || WordEndsBy(s, j, "boosted", k)
  }

  /** The pattern matches with the subject word at `i`, the verb at `j` and
      the last digit before `%` at `k`, all on one line (`.` does not cross
      a newline). */
  predicate ClaimAt(s: string, i: int, j: int, k: int)
  {
    SubjectAt(s, i, j) && VerbAt(s, j, k) && PercentAt(s, i, k)
  }

  /** `\d%` ends at `k + 1`, and nothing from `i` to there is a newline. */
  predicate PercentAt(s: string, i: int, k: int)
  {
    && 0 <= i <= k && k + 1 < |s|
    && IsDigitChar(s[k]) && s[k + 1] == '%'
    && '\n' !in s[i..k + 2]
  }

  /** `re.search(r"\b(we|our team|evolvra)\b.*\b(achieved|increased|grew|boosted)\b.*\d+%", s, re.IGNORECASE)`
      finds a match. */
  predicate HasFabricatedClaim(s: string)
  {
    exists i, j, k | 0 <= i <= j <= k < |s| :: ClaimAt(s, i, j, k)
  }

  /** `s[lo..hi]` is a run of whole lines: it starts at the beginning of
      `s` or after a newline and ends at the end of `s` or at a newline. */
  predicate IsLineWindow(s: string, lo: int, hi: int)
  {
    && 0 <= lo <= hi <= |s|
    && (lo == 0 || s[lo - 1] == '\n')
    && (hi == |s| || s[hi] == '\n')
  }

  lemma SliceOfSlice(s: string, lo: int, hi: int, a: int, b: int, a2: int, b2: int)
    requires 0 <= lo <= hi <= |s| && 0 <= a2 <= b2 <= hi - lo && a == lo + a2 && b == lo + b2
    ensures s[lo..hi][a2..b2] == s[a..b]
  {
    assert forall q :: 0 <= q < b2 - a2 ==> s[lo..hi][a2..b2][q] == s[a..b][q];
  }

  // The window lemmas take each position twice, in `s` and in the window
  // `x`, so that callers pass the very terms their facts are stated with.

  lemma WindowBoundary(s: string, lo: int, hi: int, x: string, p: int, p2: int)
    requires IsLineWindow(s, lo, hi) && x == s[lo..hi] && 0 <= p2 <= hi - lo && p == lo + p2
    ensures IsBoundary(s, p) == IsBoundary(x, p2)
  {
    if p2 > 0 {
      assert x[p2 - 1] == s[p - 1];
    }
    if p2 < hi - lo {
      assert x[p2] == s[p];
    }
  }

  lemma WindowWord(s: string, lo: int, hi: int, x: string, w: string, i: int, j: int, i2: int, j2: int)
    requires IsLineWindow(s, lo, hi) && x == s[lo..hi] && 0 <= i2 <= j2 <= hi - lo
    requires i == lo + i2 && j == lo + j2
    ensures WordEndsBy(s, i, w, j) == WordEndsBy(x, i2, w, j2)
  {
    if i2 + |w| <= j2 {
      WindowBoundary(s, lo, hi, x, i, i2);
      WindowBoundary(s, lo, hi, x, i + |w|, i2 + |w|);
      assert forall q :: i2 <= q < i2 + |w| ==> x[q] == s[lo + q];
    }
  }

  lemma WindowSubject(s: string, lo: int, hi: int, x: string, i: int, j: int, i2: int, j2: int)
    requires IsLineWindow(s, lo, hi) && x == s[lo..hi] && 0 <= i2 <= j2 <= hi - lo
    requires i == lo + i2 && j == lo + j2
    ensures SubjectAt(s, i, j) == SubjectAt(x, i2, j2)
  {
    WindowWord(s, lo, hi, x, "we", i, j, i2, j2);
    WindowWord(s, lo, hi, x, "our team", i, j, i2, j2);
    WindowWord(s, lo, hi, x, "evolvra", i, j, i2, j2);
  }

  lemma WindowVerb(s: string, lo: int, hi: int, x: string, j: int, k: int, j2: int, k2: int)
    requires IsLineWindow(s, lo, hi) && x == s[lo..hi] && 0 <= j2 <= k2 <= hi - lo
    requires j == lo + j2 && k == lo + k2
    ensures VerbAt(s, j, k) == VerbAt(x, j2, k2)
  {
    WindowWord(s, lo, hi, x, "achieved", j, k, j2, k2);
    WindowWord(s, lo, hi, x, "increased", j, k, j2, k2);
    WindowWord(s, lo, hi, x, "grew", j, k, j2, k2);
    WindowWord(s, lo, hi, x, "boosted", j, k, j2, k2);
  }

  /** A match that fits in a run of whole lines `x` is a match of that run. */
  lemma WindowClaim(s: string, lo: int, hi: int, x: string, i: int, j: int, k: int, i2: int, j2: int, k2: int)
    requires IsLineWindow(s, lo, hi) && x == s[lo..hi] && 0 <= i2 <= j2 <= k2 && k2 + 2 <= hi - lo
    requires i == lo + i2 && j == lo + j2 && k == lo + k2
    ensures ClaimAt(s, i, j, k) == ClaimAt(x, i2, j2, k2)
  {
    WindowSubject(s, lo, hi, x, i, j, i2, j2);
    WindowVerb(s, lo, hi, x, j, k, j2, k2);
    WindowPercent(s, lo, hi, x, i, k, i2, k2);
  }

  lemma WindowPercent(s: string, lo: int, hi: int, x: string, i: int, k: int, i2: int, k2: int)
    requires IsLineWindow(s, lo, hi) && x == s[lo..hi] && 0 <= i2 <= k2 && k2 + 2 <= hi - lo
    requires i == lo + i2 && k == lo + k2
    ensures PercentAt(s, i, k) == PercentAt(x, i2, k2)
  {
    SliceOfSlice(s, lo, hi, i, k + 2, i2, k2 + 2);
    assert x[k2] == s[k] && x[k2 + 1] == s[k + 1];
  }

  /** The line lemmas below look at a text `s` with a newline at `n`, `a`
      the text before it and `b` the text after it. */
  predicate SplitAt(s: string, n: int, a: string, b: string)
  {
    0 <= n < |s| && s[n] == '\n' && a == s[0..n] && b == s[n + 1..|s|]
  }

  lemma ClaimBesideNewline(s: string, n: int, i: int, j: int, k: int)
    requires 0 <= n < |s| && s[n] == '\n' && ClaimAt(s, i, j, k)
    ensures k + 2 <= n || n < i
  {
    assert forall q :: i <= q < k + 2 ==> s[q] == s[i..k + 2][q - i];
  }

  lemma ClaimInFirstLine(s: string, n: int, a: string, b: string, i: int, j: int, k: int)
    requires SplitAt(s, n, a, b) && 0 <= i <= j <= k && ClaimAt(a, i, j, k)
    ensures ClaimAt(s, i, j, k)
  {
    WindowClaim(s, 0, n, a, i, j, k, i, j, k);
  }

  lemma ClaimInSecondLine(s: string, n: int, a: string, b: string, i: int, j: int, k: int)
    requires SplitAt(s, n, a, b) && 0 <= i <= j <= k && ClaimAt(b, i, j, k)
    ensures ClaimAt(s, n + 1 + i, n + 1 + j, n + 1 + k)
  {
    WindowClaim(s, n + 1, |s|, b, n + 1 + i, n + 1 + j, n + 1 + k, i, j, k);
  }

  lemma ClaimInFirstOf(s: string, n: int, a: string, b: string, i: int, j: int, k: int)
    requires SplitAt(s, n, a, b) && 0 <= i <= j <= k && k + 2 <= n && ClaimAt(s, i, j, k)
    ensures ClaimAt(a, i, j, k)
  {
    WindowClaim(s, 0, n, a, i, j, k, i, j, k);
  }

  lemma ClaimInSecondOf(s: string, n: int, a: string, b: string, i: int, j: int, k: int)
    requires SplitAt(s, n, a, b) && n < i <= j <= k && ClaimAt(s, i, j, k)
    ensures ClaimAt(b, i - n - 1, j - n - 1, k - n - 1)
  {
    WindowClaim(s, n + 1, |s|, b, i, j, k, i - n - 1, j - n - 1, k - n - 1);
  }

  lemma ClaimFromLines(s: string, n: int, a: string, b: string, i: int, j: int, k: int)
    requires SplitAt(s, n, a, b) && 0 <= i <= j <= k && ClaimAt(s, i, j, k)
    ensures HasFabricatedClaim(a) || HasFabricatedClaim(b)
  {
    ClaimBesideNewline(s, n, i, j, k);
    if k + 2 <= n {
      ClaimInFirstOf(s, n, a, b, i, j, k);
    } else {
      ClaimInSecondOf(s, n, a, b, i, j, k);
    }
  }

  lemma SplitAtNewline(a: string, b: string)
    ensures SplitAt(a + "\n" + b, |a|, a, b)
  {
    var s := a + "\n" + b;
    assert s[0..|a|] == a;
    assert s[|a| + 1..|s|] == b;
  }

  /** The pattern never spans a newline: a text is flagged exactly when one
      of its lines is. */
  lemma ClaimAcrossNewline(a: string, b: string)
    ensures HasFabricatedClaim(a + "\n" + b) <==> HasFabricatedClaim(a) || HasFabricatedClaim(b)
  {
    var s, n := a + "\n" + b, |a|;
    SplitAtNewline(a, b);
    if HasFabricatedClaim(s) {
      var i, j, k :| 0 <= i <= j <= k < |s| && ClaimAt(s, i, j, k);
      ClaimFromLines(s, n, a, b, i, j, k);
    }
    if HasFabricatedClaim(a) {
      var i, j, k :| 0 <= i <= j <= k < |a| && ClaimAt(a, i, j, k);
      ClaimInFirstLine(s, n, a, b, i, j, k);
    }
    if HasFabricatedClaim(b) {
      var i, j, k :| 0 <= i <= j <= k < |b| && ClaimAt(b, i, j, k);
      ClaimInSecondLine(s, n, a, b, i, j, k);
    }
  }

  /** A character that lowers to a letter is a word character. */
  lemma LowersToLetter(c: char, l: char)
    requires 'a' <= l <= 'z' && LowerChar(c) == l
    ensures IsWordChar(c)
  {
  }

  /** A word ending in a letter is followed by a non-word character, so a
      word character after it is at least one position further on. */
  lemma WordThenGap(s: string, i: int, w: string, j: int)
    requires WordEndsBy(s, i, w, j) && j < |s| && IsWordChar(s[j])
    requires |w| > 0 && 'a' <= w[|w| - 1] <= 'z'
    ensures i + |w| < j
  {
    LowersToLetter(s[i + |w| - 1], w[|w| - 1]);
  }

  /** A word starting with a letter starts with a word character. */
  lemma WordStart(s: string, i: int, w: string, j: int)
    requires WordEndsBy(s, i, w, j) && |w| > 0 && 'a' <= w[0] <= 'z'
    ensures i < |s| && IsWordChar(s[i])
  {
    assert LowerChar(s[i + 0]) == w[0];
    LowersToLetter(s[i], w[0]);
  }

  /** A subject word is followed by a gap before the next word character. */
  lemma SubjectGap(s: string, i: int, j: int)
    requires SubjectAt(s, i, j) && j < |s| && IsWordChar(s[j])
    ensures i + 3 <= j
  {
    if WordEndsBy(s, i, "we", j) {
      WordThenGap(s, i, "we", j);
    } else if WordEndsBy(s, i, "our team", j) {
      WordThenGap(s, i, "our team", j);
    } else {
      WordThenGap(s, i, "evolvra", j);
    }
  }

  /** A verb starts with a word character and is followed by a gap before
      the next one. */
  lemma VerbGap(s: string, j: int, k: int)
    requires VerbAt(s, j, k) && k < |s| && IsWordChar(s[k])
    ensures j < |s| && IsWordChar(s[j]) && j + 5 <= k
  {
    if WordEndsBy(s, j, "achieved", k) {
      WordThenGap(s, j, "achieved", k);
      WordStart(s, j, "achieved", k);
    } else if WordEndsBy(s, j, "increased", k) {
      WordThenGap(s, j, "increased", k);
      WordStart(s, j, "increased", k);
    } else if WordEndsBy(s, j, "grew", k) {
      WordThenGap(s, j, "grew", k);
      WordStart(s, j, "grew", k);
    } else {
      WordThenGap(s, j, "boosted", k);
      WordStart(s, j, "boosted", k);
    }
  }

  /** A flagged text holds a `%` and at least ten characters (`we grew 1%`
      is the shortest: subject, gap, verb, gap, digit, `%`). */
  lemma ClaimShape(s: string)
    requires HasFabricatedClaim(s)
    ensures '%' in s && |s| >= 10
  {
    var i, j, k :| 0 <= i <= j <= k < |s| && ClaimAt(s, i, j, k);
    VerbGap(s, j, k);
    SubjectGap(s, i, j);
    assert s[k + 1] == '%';
  }

  /** Digit and verb run together, so the verb has no word boundary after
      it and the text is not flagged. */
  lemma NoGapNoClaim()
    ensures !HasFabricatedClaim("we grew1%")
  {
    if HasFabricatedClaim("we grew1%") {
      ClaimShape("we grew1%");
    }
  }

  lemma NoPercentNoClaim(s: string)
    requires '%' !in s
    ensures !HasFabricatedClaim(s)
  {
    if HasFabricatedClaim(s) {
      ClaimShape(s);
    }
  }

  lemma ClaimExample()
    ensures HasFabricatedClaim("We grew revenue by 20%")
  {
    var s := "We grew revenue by 20%";
    assert LowerAscii(s[0..2]) == "we";
    assert LowerAscii(s[3..7]) == "grew";
    assert WordEndsBy(s, 0, "we", 3) && WordEndsBy(s, 3, "grew", 20);
    assert '\n' !in s[0..22];
    assert ClaimAt(s, 0, 3, 20);
  }

  /** The ten-character bound of `ClaimShape` is reached. */
  lemma ShortestClaim()
    ensures HasFabricatedClaim("we grew 1%")
  {
    var s := "we grew 1%";
    assert LowerAscii(s[0..2]) == "we";
    assert LowerAscii(s[3..7]) == "grew";
    assert WordEndsBy(s, 0, "we", 3) && WordEndsBy(s, 3, "grew", 8);
    assert '\n' !in s[0..10];
    assert ClaimAt(s, 0, 3, 8);
  }

  /** A percentage on the next line is not tied to the claim. */
  lemma ClaimNeedsOneLine()
    ensures !HasFabricatedClaim("We grew revenue by\n20%")
  {
    assert "We grew revenue by\n20%" == "We grew revenue by" + "\n" + "20%";
    ClaimAcrossNewline("We grew revenue by", "20%");
    if HasFabricatedClaim("We grew revenue by") {
      ClaimShape("We grew revenue by");
    }
    if HasFabricatedClaim("20%") {
      ClaimShape("20%");
    }
  }

  // ------------------------------------------------------------------
  // _extract_meta and _extract_social
  // ------------------------------------------------------------------

  const KEYWORDS_LABEL := "SEO Keywords:"
  const DESCRIPTION_LABEL := "Meta Description:"
  const SOCIAL_LABEL := "Social Snippets:"
  const KEYWORD_SEPARATORS: set<char> := {',', ';'}
  const MAX_KEYWORDS := 5

  /** Where a greedy `\s*` starting at `i` stops. */
  function SkipSpaces(s: string, i: nat): (j: nat)
    requires i <= |s|
    ensures i <= j <= |s|
    decreases |s| - i
  {
    if i < |s| && IsSpace(s[i]) then SkipSpaces(s, i + 1) else i
  }

  lemma {:induction false} SkipSpacesRun(s: string, i: nat)
    requires i <= |s|
    ensures forall q :: i <= q < SkipSpaces(s, i) ==> IsSpace(s[q])
    ensures SkipSpaces(s, i) == |s| || !IsSpace(s[SkipSpaces(s, i)])
    decreases |s| - i
  {
    if i < |s| && IsSpace(s[i]) {
      SkipSpacesRun(s, i + 1);
    }
  }

  lemma {:induction false} SkipSpacesTo(s: string, i: nat, j: nat)
    requires i <= j < |s| && !IsSpace(s[j])
    requires forall q :: i <= q < j ==> IsSpace(s[q])
    ensures SkipSpaces(s, i) == j
    decreases j - i
  {
    if i < j {
      SkipSpacesTo(s, i + 1, j);
    }
  }

  /** Where a greedy `.+` or `.*` starting at `i` stops: the end of the line. */
  function LineEnd(s: string, i: nat): (j: nat)
    requires i <= |s|
    ensures i <= j <= |s|
    decreases |s| - i
  {
    if i < |s| && s[i] != '\n' then LineEnd(s, i + 1) else i
  }

  lemma {:induction false} LineEndRun(s: string, i: nat)
    requires i <= |s|
    ensures '\n' !in s[i..LineEnd(s, i)]
    decreases |s| - i
  {
    if i < |s| && s[i] != '\n' {
      LineEndRun(s, i + 1);
      assert s[i..LineEnd(s, i)] == [s[i]] + s[i + 1..LineEnd(s, i)];
    }
  }

  lemma {:induction false} LineEndAt(s: string, i: nat, j: nat)
    requires i <= j <= |s| && (j == |s| || s[j] == '\n')
    requires forall q :: i <= q < j ==> s[q] != '\n'
    ensures LineEnd(s, i) == j
    decreases j - i
  {
    if i < j {
      LineEndAt(s, i + 1, j);
    }
  }

  /** Backtracking of `\s*` in front of `(.+)`: the last position from `m`
      down to `q` at which `.+` can start, that is one that is not a newline
      and not the end. */
  function LastLineStart(s: string, q: nat, m: nat): (r: Option<nat>)
    requires q <= m <= |s|
    ensures r.Some? ==> q <= r.value <= m && r.value < |s| && s[r.value] != '\n'
    ensures r.Some? ==> forall i :: r.value < i <= m && i < |s| ==> s[i] == '\n'
    ensures r.None? ==> forall i :: q <= i <= m && i < |s| ==> s[i] == '\n'
    decreases m - q
  {
    if m < |s| && s[m] != '\n' then Some(m)
    else if m == q then None
    else LastLineStart(s, q, m - 1)
  }

  /** The group of `\s*(.+)` matched right after position `q`, if the
      pattern matches there. */
  function CaptureLine(s: string, q: nat): (r: Option<string>)
    requires q <= |s|
    ensures r.Some? ==> q < |s| && r.value != [] && '\n' !in r.value
  {
    match LastLineStart(s, q, SkipSpaces(s, q))
    case None => None
    case Some(st) => LineEndRun(s, st); Some(s[st..LineEnd(s, st)])
  }

  /** `\s*` may run over blank lines: after whitespace, newlines included,
      the group is the rest of the first line that begins with something
      other than whitespace. */
  lemma CaptureAfterSpaces(s: string, q: nat, st: nat)
    requires q <= st < |s| && !IsSpace(s[st])
    requires forall i :: q <= i < st ==> IsSpace(s[i])
    ensures CaptureLine(s, q) == Some(s[st..LineEnd(s, st)])
  {
    SkipSpacesTo(s, q, st);
  }

  /** `label + r"\s*(.+)"` matches at `p`. */
  predicate LineMatchAt(s: string, marker: string, p: nat)
  {
    p + |marker| <= |s| && s[p..p + |marker|] == marker && CaptureLine(s, p + |marker|).Some?
  }

  /** The leftmost position from `p` on where `label + r"\s*(.+)"` matches. */
  function FirstLineMatch(s: string, marker: string, p: nat): (r: Option<nat>)
    requires p <= |s|
    ensures r.Some? ==> p <= r.value && LineMatchAt(s, marker, r.value)
    ensures r.Some? ==> forall q: nat :: p <= q < r.value ==> !LineMatchAt(s, marker, q)
    ensures r.None? ==> forall q: nat :: p <= q ==> !LineMatchAt(s, marker, q)
    decreases |s| - p
  {
    if p + |marker| >= |s| then None
    else if LineMatchAt(s, marker, p) then Some(p)
    else FirstLineMatch(s, marker, p + 1)
  }

  /** `re.search(marker + r"\s*(.+)", s).group(1)`, or nothing without a match. */
  function LabelLine(s: string, marker: string): (r: Option<string>)
    ensures r.Some? ==> r.value != [] && '\n' !in r.value
  {
    match FirstLineMatch(s, marker, 0)
    case None => None
    case Some(p) => CaptureLine(s, p + |marker|)
  }

  /** When the marker occurs first at `p`, followed by whitespace up to
      `st` and a line running from `st` to `e`, the group is that line. */
  lemma LabelLineAt(s: string, marker: string, p: nat, st: nat, e: nat)
    requires p + |marker| <= st < e <= |s| && s[p..p + |marker|] == marker
    requires forall q :: 0 <= q < p ==> !OccursAt(s, marker, q)
    requires forall i :: p + |marker| <= i < st ==> IsSpace(s[i])
    requires !IsSpace(s[st])
    requires forall i :: st <= i < e ==> s[i] != '\n'
    requires e == |s| || s[e] == '\n'
    ensures LabelLine(s, marker) == Some(s[st..e])
  {
    LineAfterSpaces(s, p + |marker|, st, e);
    FirstLineMatchAt(s, marker, p);
  }

  /** After whitespace up to `st`, the group is the line from `st` to `e`. */
  lemma LineAfterSpaces(s: string, q: nat, st: nat, e: nat)
    requires q <= st < e <= |s| && !IsSpace(s[st])
    requires forall i :: q <= i < st ==> IsSpace(s[i])
    requires forall i :: st <= i < e ==> s[i] != '\n'
    requires e == |s| || s[e] == '\n'
    ensures CaptureLine(s, q) == Some(s[st..e])
  {
    CaptureAfterSpaces(s, q, st);
    LineEndAt(s, st, e);
  }

  /** A match at the first occurrence of the marker is the leftmost match,
      so the search captures the group there. */
  lemma FirstLineMatchAt(s: string, marker: string, p: nat)
    requires p + |marker| <= |s| && s[p..p + |marker|] == marker && CaptureLine(s, p + |marker|).Some?
    requires forall q :: 0 <= q < p ==> !OccursAt(s, marker, q)
    ensures LabelLine(s, marker) == CaptureLine(s, p + |marker|)
  {
    assert LineMatchAt(s, marker, p);
    var r := FirstLineMatch(s, marker, 0);
    assert r.Some?;
    assert r.value == p by {
      assert LineMatchAt(s, marker, r.value) ==> OccursAt(s, marker, r.value);
    }
  }

  predicate IsKeyword(w: string)
  {
    w != [] && IsStripped(w) && NoneIn(w, {',', ';', '\n'})
  }

  /** `[item.strip() for item in parts if item.strip()]`. */
  function StrippedNonEmpty(parts: seq<string>): (r: seq<string>)
    ensures |r| <= |parts|
  {
    if parts == [] then []
    else
      var item := Strip(parts[0]);
      (if item == [] then [] else [item]) + StrippedNonEmpty(parts[1..])
  }

  /** Every kept item is a non-empty stripped piece. */
  lemma {:induction false} StrippedNonEmptyItems(parts: seq<string>, k: nat)
    requires k < |StrippedNonEmpty(parts)|
    ensures StrippedNonEmpty(parts)[k] != []
    ensures exists j :: 0 <= j < |parts| && StrippedNonEmpty(parts)[k] == Strip(parts[j])
    decreases |parts|
  {
    var item := Strip(parts[0]);
    var rest := StrippedNonEmpty(parts[1..]);
    if item != [] && k == 0 {
      assert StrippedNonEmpty(parts)[0] == Strip(parts[0]);
    } else {
      var k' := if item == [] then k else k - 1;
      assert StrippedNonEmpty(parts)[k] == rest[k'];
      StrippedNonEmptyItems(parts[1..], k');
      var j :| 0 <= j < |parts[1..]| && rest[k'] == Strip(parts[1..][j]);
      assert parts[1..][j] == parts[j + 1];
    }
  }

  /** Pieces that are already non-empty and stripped are kept as they are. */
  lemma {:induction false} StrippedNonEmptyKeeps(parts: seq<string>)
    requires forall k :: 0 <= k < |parts| ==> parts[k] != [] && IsStripped(parts[k])
    ensures StrippedNonEmpty(parts) == parts
    decreases |parts|
  {
    if parts != [] {
      StripStripped(parts[0]);
      StrippedNonEmptyKeeps(parts[1..]);
    }
  }

  /** The keywords listed on a keyword line: split at `,` and `;`, stripped,
      empty ones dropped. */
  function KeywordsOf(raw: string): seq<string>
  {
    StrippedNonEmpty(SplitOn(raw, KEYWORD_SEPARATORS))
  }

  lemma KeywordsOfShape(raw: string, k: nat)
    requires '\n' !in raw && k < |KeywordsOf(raw)|
    ensures IsKeyword(KeywordsOf(raw)[k])
  {
    var parts := SplitOn(raw, KEYWORD_SEPARATORS);
    StrippedNonEmptyItems(parts, k);
    var j :| 0 <= j < |parts| && KeywordsOf(raw)[k] == Strip(parts[j]);
    var w := KeywordsOf(raw)[k];
    forall i | 0 <= i < |w|
      ensures w[i] !in {',', ';', '\n'}
    {
      StripChars(parts[j], w[i]);
      if w[i] == '\n' {
        SplitOnChars(raw, KEYWORD_SEPARATORS, j, w[i]);
      }
    }
  }

  /** `keywords[:5]`. */
  function FirstKeywords(ks: seq<string>): (r: seq<string>)
    ensures |r| <= MAX_KEYWORDS
    ensures |r| <= |ks| && r == ks[..|r|]
    ensures |r| == |ks| || |r| == MAX_KEYWORDS
  {
    if |ks| <= MAX_KEYWORDS then ks else ks[..MAX_KEYWORDS]
  }

  /** What `_extract_meta` returns. */
  datatype ExtractedMeta = ExtractedMeta(keywords: seq<string>, description: string)

  function ExtractMeta(article: string): (m: ExtractedMeta)
    ensures |m.keywords| <= MAX_KEYWORDS
    ensures forall k :: 0 <= k < |m.keywords| ==> IsKeyword(m.keywords[k])
    ensures IsStripped(m.description) && '\n' !in m.description
    ensures LabelLine(article, KEYWORDS_LABEL).None? ==> m.keywords == []
    ensures LabelLine(article, DESCRIPTION_LABEL).None? ==> m.description == []
  {
    var found := LabelLine(article, KEYWORDS_LABEL);
    var keywords := if found.Some? then KeywordsOf(found.value) else [];
    var line := LabelLine(article, DESCRIPTION_LABEL);
    var description := if line.Some? then StripKeepsOut(line.value, '\n'); Strip(line.value) else [];
    var first := FirstKeywords(keywords);
    assert forall k :: 0 <= k < |first| ==> IsKeyword(first[k]) by {
      forall k | 0 <= k < |first|
        ensures IsKeyword(first[k])
      {
        KeywordsOfShape(found.value, k);
      }
    }
    ExtractedMeta(first, description)
  }

  lemma StripKeepsOut(s: string, c: char)
    requires c !in s
    ensures c !in Strip(s)
  {
    if c in Strip(s) {
      StripChars(s, c);
    }
  }

  lemma Middle(head: string, line: string, post: string)
    requires '\n' !in line && (post == [] || post[0] == '\n')
    ensures var s, st := head + line + post, |head|;
      && s[st..st + |line|] == line
      && (forall i :: st <= i < st + |line| ==> s[i] != '\n')
      && (st + |line| == |s| || s[st + |line|] == '\n')
  {
    var s := head + line + post;
    assert forall i :: |head| <= i < |head| + |line| ==> s[i] == line[i - |head|];
  }

  lemma LabelLayout(pre: string, marker: string, gap: string, line: string, post: string)
    requires marker != [] && '\n' !in marker
    requires (pre == [] || pre[|pre| - 1] == '\n') && !Contains(pre, marker)
    requires AllSpace(gap)
    ensures var s := pre + marker + gap + line + post;
      && |pre| + |marker| + |gap| <= |s|
      && s[|pre|..|pre| + |marker|] == marker
      && (forall q :: 0 <= q < |pre| ==> !OccursAt(s, marker, q))
      && (forall i :: |pre| + |marker| <= i < |pre| + |marker| + |gap| ==> IsSpace(s[i]))
  {
    var head := pre + marker + gap;
    var s := head + line + post;
    assert s == pre + (marker + gap + line + post);
    NotFoundBefore(pre, marker + gap + line + post, marker);
    assert forall i :: |pre| + |marker| <= i < |head| ==> s[i] == head[i] == gap[i - |pre| - |marker|];
  }

  /** A labelled line placed after text that does not hold the label is
      what the search returns. */
  lemma LabelLineOf(pre: string, marker: string, gap: string, line: string, post: string)
    requires marker != [] && '\n' !in marker
    requires (pre == [] || pre[|pre| - 1] == '\n') && !Contains(pre, marker)
    requires AllSpace(gap)
    requires line != [] && !IsSpace(line[0]) && '\n' !in line
    requires post == [] || post[0] == '\n'
    ensures LabelLine(pre + marker + gap + line + post, marker) == Some(line)
  {
    var head := pre + marker + gap;
    var s := head + line + post;
    LabelLayout(pre, marker, gap, line, post);
    Middle(head, line, post);
    LabelLineAt(s, marker, |pre|, |head|, |head| + |line|);
  }

  /** Pieces whose stripped forms are the non-empty `ks` are kept as
      those stripped forms. */
  lemma {:induction false} StrippedNonEmptyOf(ps: seq<string>, ks: seq<string>)
    requires |ps| == |ks| && forall k :: 0 <= k < |ps| ==> Strip(ps[k]) == ks[k] != []
    ensures StrippedNonEmpty(ps) == ks
    decreases |ps|
  {
    if ps != [] {
      StrippedNonEmptyOf(ps[1..], ks[1..]);
      assert ks == [ks[0]] + ks[1..];
    }
  }

  /** Writing keywords on a keyword line, each padded with any whitespace,
      and extracting them gives back the first five, stripped. The first
      piece starts with its keyword: whitespace in front of it belongs to
      `gap`. */
  lemma KeywordLineRoundTrip(pre: string, gap: string, ps: seq<string>, ks: seq<string>, post: string)
    requires (pre == [] || pre[|pre| - 1] == '\n') && !Contains(pre, KEYWORDS_LABEL)
    requires AllSpace(gap)
    requires |ps| == |ks| >= 1 && ps[0] != [] && !IsSpace(ps[0][0])
    requires forall k :: 0 <= k < |ps| ==> NoneIn(ps[k], {',', ';', '\n'}) && Strip(ps[k]) == ks[k] != []
    requires post == [] || post[0] == '\n'
    ensures ExtractMeta(pre + KEYWORDS_LABEL + gap + Join(ps, ',') + post).keywords == FirstKeywords(ks)
  {
    var line := Join(ps, ',');
    forall k | 0 <= k < |ps|
      ensures NoneIn(ps[k], KEYWORD_SEPARATORS) && NoneIn(ps[k], {'\n'})
    {
      assert NoneIn(ps[k], {',', ';', '\n'});
    }
    JoinNoneIn(ps, ',', {'\n'});
    JoinStartsWith(ps, ',');
    assert line[0] == ps[0][0];
    LabelLineOf(pre, KEYWORDS_LABEL, gap, line, post);
    SplitJoin(ps, ',', KEYWORD_SEPARATORS);
    StrippedNonEmptyOf(ps, ks);
  }

  /** Writing a description on a description line and extracting it gives
      it back. */
  lemma DescriptionLineRoundTrip(pre: string, gap: string, d: string, post: string)
    requires (pre == [] || pre[|pre| - 1] == '\n') && !Contains(pre, DESCRIPTION_LABEL)
    requires AllSpace(gap)
    requires d != [] && IsStripped(d) && '\n' !in d
    requires post == [] || post[0] == '\n'
    ensures ExtractMeta(pre + DESCRIPTION_LABEL + gap + d + post).description == d
  {
    LabelLineOf(pre, DESCRIPTION_LABEL, gap, d, post);
    StripStripped(d);
  }

  /** The group of `\s*(.*)` in DOTALL mode matched after position `q`,
      stripped. */
  function GroupAfter(article: string, q: nat): (r: string)
    requires q <= |article|
    ensures IsStripped(r)
  {
    Strip(article[SkipSpaces(article, q)..])
  }

  /** `_extract_social`: all of the text after the first social label,
      over any number of lines, stripped. */
  function ExtractSocial(article: string): (social: string)
    ensures IsStripped(social)
    ensures !Contains(article, SOCIAL_LABEL) ==> social == []
  {
    var p := Find(article, SOCIAL_LABEL, 0);
    if p == -1 then []
    else
      ContainsAt(article, SOCIAL_LABEL, p);
      GroupAfter(article, p + |SOCIAL_LABEL|)
  }

  /** DOTALL `\s*(.*)` then `strip`: the whitespace skipped first makes no
      difference, so the group is the whole rest of the text, stripped. */
  lemma GroupAfterIsRest(s: string, q: nat)
    requires q <= |s|
    ensures GroupAfter(s, q) == Strip(s[q..])
  {
    SkipSpacesRun(s, q);
    StripAfterSpaces(s, q, SkipSpaces(s, q));
  }

  /** Whitespace from `q` to `j` makes no difference to `strip`. */
  lemma StripAfterSpaces(s: string, q: nat, j: nat)
    requires q <= j <= |s| && forall i :: q <= i < j ==> IsSpace(s[i])
    ensures Strip(s[j..]) == Strip(s[q..])
  {
    var x := s[q..];
    forall i | 0 <= i < j - q
      ensures IsSpace(x[i])
    {
      assert x[i] == s[q + i];
    }
    StripSkipsSpaces(x, j - q);
    DropOfDrop(s, q, j - q, j);
  }

  lemma DropOfDrop(s: string, q: int, n: int, j: int)
    requires 0 <= q && 0 <= n && q + n <= |s| && j == q + n
    ensures s[q..][n..] == s[j..]
  {
  }

  /** The social text is everything after the first social label, over
      any number of lines, stripped. */
  lemma SocialIsRestAfterLabel(article: string, p: nat)
    requires OccursAt(article, SOCIAL_LABEL, p)
    requires forall q :: 0 <= q < p ==> !OccursAt(article, SOCIAL_LABEL, q)
    ensures ExtractSocial(article) == Strip(article[p + |SOCIAL_LABEL|..])
  {
    var r := Find(article, SOCIAL_LABEL, 0);
    assert r == p;
    GroupAfterIsRest(article, p + |SOCIAL_LABEL|);
  }

  // ------------------------------------------------------------------
  // generate_package
  // ------------------------------------------------------------------

  const FALLBACK_KEYWORDS: seq<string> :=
    ["content systems", "AI automation", "digital marketing", "CRM workflows", "operations"]

  /** The fallback list has five non-empty keywords. */
  lemma FallbackKeywordsShape()
    ensures |FALLBACK_KEYWORDS| == MAX_KEYWORDS
    ensures forall k :: 0 <= k < |FALLBACK_KEYWORDS| ==> FALLBACK_KEYWORDS[k] != []
  {
  }

  /** The `meta` part of a package; the orchestrator adds the date and the
      slug later. */
  datatype Meta = Meta(title: string, keywords: seq<string>, description: string, platform: string, slug: string)

  datatype Package = Package(article: string, social: string, meta: Meta)

  /** `generate_package`, with the text of the backend's replies to the
      article request and to the revision request as parameters (the reply
      to the outline request only feeds the article prompt). `requests`
      counts the backend requests made. */
  method GeneratePackage(topic: string, platform: string, articleReply: string, revisionReply: string)
    returns (pkg: Package, ghost requests: nat)
    ensures var draft := Strip(articleReply);
      && pkg.article == (if Report(draft) == [] then draft else Strip(revisionReply))
      && requests == (if Report(draft) == [] then 2 else 3)
    ensures pkg.social == ExtractSocial(pkg.article)
    ensures var m := ExtractMeta(pkg.article);
      && pkg.meta.keywords == (if m.keywords == [] then FALLBACK_KEYWORDS else m.keywords)
      && pkg.meta.description == m.description
    ensures pkg.meta.title == topic && pkg.meta.platform == platform && pkg.meta.slug == ""
    ensures 1 <= |pkg.meta.keywords| <= MAX_KEYWORDS
    ensures forall k :: 0 <= k < |pkg.meta.keywords| ==> pkg.meta.keywords[k] != []
  {
    requests := 2;
    var article := Strip(articleReply);
    var errors := SelfCheck(article);
    if errors != [] {
      article := Strip(revisionReply);
      requests := requests + 1;
    }
    var extracted := ExtractMeta(article);
    var social := ExtractSocial(article);
    var keywords := if extracted.keywords == [] then FALLBACK_KEYWORDS else extracted.keywords;
    FallbackKeywordsShape();
    pkg := Package(article, social, Meta(topic, keywords, extracted.description, platform, ""));
  }

  // ------------------------------------------------------------------
  // validate_meta
  // ------------------------------------------------------------------

  const KEYWORDS_ERROR := "Keywords must include 5 items."
  const DESCRIPTION_ERROR := "Description must be 155-160 characters."
  const TITLE_ERROR := "Title missing."
  const REQUIRED_KEYWORDS := 5
  const MIN_DESCRIPTION := 155
  const MAX_DESCRIPTION := 160

  /** `len(v)` for a decoded JSON value: numbers, booleans and `None` have
      no length. */
  function PyLen(v: Json): Option<nat>
  {
    match v
    case JString(s) => Some(|s|)
    case JArray(items) => Some(|items|)
    case JObject(fields) => Some(|fields|)
    case _ => None
  }

  /** Python truthiness of a decoded JSON value. */
  predicate Truthy(v: Json)
  {
    match v
    case JNull => false
    case JBool(b) => b
    case JNumber(n) => n != 0
    case JString(s) => s != []
    case JArray(items) => items != []
    case JObject(fields) => fields != map[]
  }

  /** `meta.get(key, default)`. */
  function Get(meta: map<string, Json>, key: string, default: Json): Json
  {
    if key in meta then meta[key] else default
  }

  /** What `validate_meta` does: a list of errors, or the `TypeError` that
      `len` raises on a value without a length. */
  datatype MetaCheck = Checked(errors: seq<string>) | TypeError

  function MetaErrors(meta: map<string, Json>): MetaCheck
  {
    var kw := PyLen(Get(meta, "keywords", JArray([])));
    var desc := PyLen(Get(meta, "description", JString("")));
    if kw.None? || desc.None? then TypeError
    else
      Checked(ErrorIf(kw.value != REQUIRED_KEYWORDS, KEYWORDS_ERROR)
              + ErrorIf(!(MIN_DESCRIPTION <= desc.value <= MAX_DESCRIPTION), DESCRIPTION_ERROR)
              + ErrorIf(!Truthy(Get(meta, "title", JNull)), TITLE_ERROR))
  }

  /** `validate_meta` raises exactly when keywords or description has no
      length; otherwise each message is present exactly when its rule
      fails, the messages keep the order of the rules, and there are none
      exactly when every rule passes. */
  lemma MetaErrorsMeaning(meta: map<string, Json>)
    ensures var r, kw, desc := MetaErrors(meta), PyLen(Get(meta, "keywords", JArray([]))), PyLen(Get(meta, "description", JString("")));
      && (r.Checked? <==> kw.Some? && desc.Some?)
      && (r.Checked? ==> (KEYWORDS_ERROR in r.errors <==> kw.value != REQUIRED_KEYWORDS))
      && (r.Checked? ==> (DESCRIPTION_ERROR in r.errors <==> !(MIN_DESCRIPTION <= desc.value <= MAX_DESCRIPTION)))
      && (r.Checked? ==> (TITLE_ERROR in r.errors <==> !Truthy(Get(meta, "title", JNull))))
      && (r.Checked? ==> IsSubsequence(r.errors, [KEYWORDS_ERROR, DESCRIPTION_ERROR, TITLE_ERROR]))
      && (r.Checked? ==> (r.errors == [] <==> kw.value == REQUIRED_KEYWORDS
                                              && MIN_DESCRIPTION <= desc.value <= MAX_DESCRIPTION
                                              && Truthy(Get(meta, "title", JNull))))
  {
    var kw := PyLen(Get(meta, "keywords", JArray([])));
    var desc := PyLen(Get(meta, "description", JString("")));
    if kw.Some? && desc.Some? {
      var e1 := ErrorIf(kw.value != REQUIRED_KEYWORDS, KEYWORDS_ERROR);
      var e2 := ErrorIf(!(MIN_DESCRIPTION <= desc.value <= MAX_DESCRIPTION), DESCRIPTION_ERROR);
      var e3 := ErrorIf(!Truthy(Get(meta, "title", JNull)), TITLE_ERROR);
      assert MetaErrors(meta) == Checked(e1 + e2 + e3);
      ErrorIfSubsequence(kw.value != REQUIRED_KEYWORDS, KEYWORDS_ERROR);
      ErrorIfSubsequence(!(MIN_DESCRIPTION <= desc.value <= MAX_DESCRIPTION), DESCRIPTION_ERROR);
      ErrorIfSubsequence(!Truthy(Get(meta, "title", JNull)), TITLE_ERROR);
      SubsequenceConcat(e1, [KEYWORDS_ERROR], e2, [DESCRIPTION_ERROR]);
      SubsequenceConcat(e1 + e2, [KEYWORDS_ERROR, DESCRIPTION_ERROR], e3, [TITLE_ERROR]);
      assert [KEYWORDS_ERROR] + [DESCRIPTION_ERROR] == [KEYWORDS_ERROR, DESCRIPTION_ERROR];
      assert [KEYWORDS_ERROR, DESCRIPTION_ERROR] + [TITLE_ERROR] == [KEYWORDS_ERROR, DESCRIPTION_ERROR, TITLE_ERROR];
    }
  }

  method ValidateMeta(meta: map<string, Json>) returns (r: MetaCheck)
    ensures r == MetaErrors(meta)
  {
    var kw := PyLen(Get(meta, "keywords", JArray([])));
    if kw.None? {
      return TypeError;
    }
    var errors: seq<string> := [];
    if kw.value != REQUIRED_KEYWORDS {
      errors := errors + [KEYWORDS_ERROR];
    }
    var desc := PyLen(Get(meta, "description", JString("")));
    if desc.None? {
      return TypeError;
    }
    if !(MIN_DESCRIPTION <= desc.value <= MAX_DESCRIPTION) {
      errors := errors + [DESCRIPTION_ERROR];
    }
    if !Truthy(Get(meta, "title", JNull)) {
      errors := errors + [TITLE_ERROR];
    }
    r := Checked(errors);
  }

  /** The dictionary the orchestrator checks: the package's metadata with
      the run's date and slug filled in. */
  function MetaJson(m: Meta, date: string, slug: string): map<string, Json>
  {
    map[
      "title" := JString(m.title),
      "keywords" := JArray(seq(|m.keywords|, i requires 0 <= i < |m.keywords| => JString(m.keywords[i]))),
      "description" := JString(m.description),
      "platform" := JString(m.platform),
      "date" := JString(date),
      "slug" := JString(slug)]
  }

  /** On the metadata a run produces, the rules never raise, and they pass
      exactly when the schema holds and the title is not empty. */
  lemma RulesAgreeWithSchema(m: Meta, date: string, slug: string)
    ensures MetaErrors(MetaJson(m, date, slug)).Checked?
    ensures MetaErrors(MetaJson(m, date, slug)) == Checked([])
            <==> MetaSchemaValid(MetaJson(m, date, slug)) && m.title != []
  {
    var j := MetaJson(m, date, slug);
    assert j.Keys == META_KEYS;
    var r := MetaErrors(j);
    MetaErrorsMeaning(j);
    if r == Checked([]) {
      assert !(KEYWORDS_ERROR in r.errors);
    }
  }

  /** The metadata of the test suite satisfies the schema and the rules. */
  lemma SchemaExample()
    ensures var j := MetaJson(Meta("Test", ["one", "two", "three", "four", "five"], Repeat('x', 155), "linkedin", ""),
                              "2024-01-02", "test");
      MetaSchemaValid(j) && MetaErrors(j) == Checked([])
  {
    RulesAgreeWithSchema(Meta("Test", ["one", "two", "three", "four", "five"], Repeat('x', 155), "linkedin", ""),
                         "2024-01-02", "test");
  }

  // ------------------------------------------------------------------
  // The sample article of the test suite
  // ------------------------------------------------------------------

  /** The test suite's sample article, in three blocks of seven lines; the
      text is the lines of all three, each followed by a newline. */
  const SAMPLE_HEAD: seq<string> :=
    ["", "# Title", "## Hook", "Opening hook.", "## Context", "Context section.", "## Section One"]
  const SAMPLE_BODY: seq<string> :=
    ["Details.", "## Section Two", "Details.", "## Section Three", "Details.", "## What to do next", "- Do this"]
  const SAMPLE_KEYWORDS_LINE: string := "SEO Keywords: " + "one, two, three, four, five"
  const SAMPLE_DESCRIPTION_LINE: string := "Meta Description: " + Repeat('x', 155)
  const SAMPLE_TAIL: seq<string> :=
    ["- Do that", "## Conclusion", "Wrap-up.", SAMPLE_KEYWORDS_LINE, SAMPLE_DESCRIPTION_LINE,
     "Social Snippets:", "LinkedIn: ..."]

  const SAMPLE_ARTICLE: string := Unlines(SAMPLE_HEAD) + Unlines(SAMPLE_BODY) + Unlines(SAMPLE_TAIL)

  /** The sample up to its keyword line, and the keywords listed there. */
  const SAMPLE_BEFORE_META: string :=
    Unlines(SAMPLE_HEAD) + Unlines(SAMPLE_BODY) + (SAMPLE_TAIL[0] + "\n" + SAMPLE_TAIL[1] + "\n" + SAMPLE_TAIL[2] + "\n")
  const SAMPLE_KEYWORDS: seq<string> := ["one", "two", "three", "four", "five"]
  const SAMPLE_KEYWORD_PIECES: seq<string> := ["one", " two", " three", " four", " five"]

  /** What a line of a block holds, the text holds. */
  lemma SampleBlocksContain(t: string)
    requires Contains(Unlines(SAMPLE_HEAD), t) || Contains(Unlines(SAMPLE_BODY), t) || Contains(Unlines(SAMPLE_TAIL), t)
    ensures Contains(SAMPLE_ARTICLE, t)
  {
    var h, b, c := Unlines(SAMPLE_HEAD), Unlines(SAMPLE_BODY), Unlines(SAMPLE_TAIL);
    if Contains(h, t) || Contains(b, t) {
      ContainsConcat(h, b, t);
    }
    ContainsConcat(h + b, c, t);
  }

  /** A heading that starts a line of a block is in that block's text. */
  lemma BlockHeading(lines: seq<string>, k: nat, t: string)
    requires k < |lines| && StartsWith(lines[k], t)
    ensures Contains(Unlines(lines), t)
  {
    ContainsAt(lines[k], t, 0);
    UnlinesContains(lines, 0, k, t);
  }

  lemma SampleHeadHeadings()
    ensures Contains(Unlines(SAMPLE_HEAD), "# ")
    ensures Contains(Unlines(SAMPLE_HEAD), "## Hook")
    ensures Contains(Unlines(SAMPLE_HEAD), "## Context")
  {
    BlockHeading(SAMPLE_HEAD, 1, "# ");
    BlockHeading(SAMPLE_HEAD, 2, "## Hook");
    BlockHeading(SAMPLE_HEAD, 4, "## Context");
  }

  lemma SampleLaterHeadings()
    ensures Contains(Unlines(SAMPLE_BODY), "## What to do next")
    ensures Contains(Unlines(SAMPLE_TAIL), "## Conclusion")
  {
    BlockHeading(SAMPLE_BODY, 5, "## What to do next");
    BlockHeading(SAMPLE_TAIL, 1, "## Conclusion");
  }

  /** A text holding the five headings satisfies every heading check. */
  lemma HasRequiredHeadings(text: string)
    requires Contains(text, "# ") && Contains(text, "## Hook") && Contains(text, "## Context")
    requires Contains(text, "## What to do next") && Contains(text, "## Conclusion")
    ensures forall k :: 0 <= k < |REQUIRED_HEADINGS| ==> Contains(text, REQUIRED_HEADINGS[k])
  {
  }

  lemma SampleHeadings()
    ensures forall k :: 0 <= k < |REQUIRED_HEADINGS| ==> Contains(SAMPLE_ARTICLE, REQUIRED_HEADINGS[k])
  {
    SampleHeadHeadings();
    SampleLaterHeadings();
    SampleBlocksContain("# ");
    SampleBlocksContain("## Hook");
    SampleBlocksContain("## Context");
    SampleBlocksContain("## What to do next");
    SampleBlocksContain("## Conclusion");
    HasRequiredHeadings(SAMPLE_ARTICLE);
  }

  lemma LineStartsWithStep(lines: seq<string>, i: nat, t: string, n: nat)
    requires i < |lines| && StartsWith(lines[i], t) && LinesStartingWith(lines, i + 1, t) >= n
    ensures LinesStartingWith(lines, i, t) >= n + 1
  {
  }

  lemma {:induction false} LinesStartingWithMonotone(lines: seq<string>, i: nat, j: nat, t: string)
    requires i <= j
    ensures LinesStartingWith(lines, i, t) >= LinesStartingWith(lines, j, t)
    decreases j - i
  {
    if i < j {
      LinesStartingWithMonotone(lines, i + 1, j, t);
    }
  }

  /** Three lines starting with `## ` make at least three section lines. */
  lemma BlockSections(lines: seq<string>, a: nat, b: nat, c: nat)
    requires a < b < c < |lines|
    requires StartsWith(lines[a], SECTION_MARKER) && StartsWith(lines[b], SECTION_MARKER)
    requires StartsWith(lines[c], SECTION_MARKER)
    ensures LinesStartingWith(lines, 0, SECTION_MARKER) >= 3
  {
    var t := SECTION_MARKER;
    LineStartsWithStep(lines, c, t, 0);
    LinesStartingWithMonotone(lines, b + 1, c, t);
    LineStartsWithStep(lines, b, t, 1);
    LinesStartingWithMonotone(lines, a + 1, b, t);
    LineStartsWithStep(lines, a, t, 2);
    LinesStartingWithMonotone(lines, 0, a, t);
  }

  lemma {:induction false} UnlinesEndsWithNewline(lines: seq<string>, i: nat)
    requires i < |lines|
    ensures UnlinesFrom(lines, i) != [] && UnlinesFrom(lines, i)[|UnlinesFrom(lines, i)| - 1] == '\n'
    decreases |lines| - i
  {
    if i + 1 < |lines| {
      UnlinesEndsWithNewline(lines, i + 1);
    }
  }

  /** A run of whole lines holding at least three `## `. */
  predicate SectionBlock(h: string)
  {
    h != [] && h[|h| - 1] == '\n' && Count(h, SECTION_MARKER) >= 3
  }

  lemma SampleHeadSections()
    ensures SectionBlock(Unlines(SAMPLE_HEAD))
  {
    BlockSections(SAMPLE_HEAD, 2, 4, 6);
    UnlinesCount(SAMPLE_HEAD, 0, SECTION_MARKER);
    UnlinesEndsWithNewline(SAMPLE_HEAD, 0);
  }

  lemma SampleBodySections()
    ensures SectionBlock(Unlines(SAMPLE_BODY))
  {
    BlockSections(SAMPLE_BODY, 1, 3, 5);
    UnlinesCount(SAMPLE_BODY, 0, SECTION_MARKER);
    UnlinesEndsWithNewline(SAMPLE_BODY, 0);
  }

  /** Two runs of lines with three section headings each, and more text
      after them: at least six occurrences of `## `. */
  lemma TwoSectionBlocks(h: string, b: string, c: string)
    requires SectionBlock(h) && SectionBlock(b)
    ensures Count(h + b + c, SECTION_MARKER) >= MIN_SECTIONS
  {
    var t := SECTION_MARKER;
    CountSplitAfterNewline(h, b, t);
    assert (h + b)[|h + b| - 1] == b[|b| - 1];
    CountSplitAfterNewline(h + b, c, t);
  }

  lemma SampleSections()
    ensures Count(SAMPLE_ARTICLE, SECTION_MARKER) >= MIN_SECTIONS
  {
    SampleHeadSections();
    SampleBodySections();
    TwoSectionBlocks(Unlines(SAMPLE_HEAD), Unlines(SAMPLE_BODY), Unlines(SAMPLE_TAIL));
  }

  /** The characters the sample article is written with. */
  predicate IsSampleChar(c: char)
  {
    IsAsciiAlnum(c) || c == ' ' || c == '#' || c == ',' || c == '-' || c == '.' || c == ':' || c == '\n'
  }

  predicate SampleChars(s: string)
  {
    forall i :: 0 <= i < |s| ==> IsSampleChar(s[i])
  }

  lemma SampleCharsConcat(a: string, b: string)
    requires SampleChars(a) && SampleChars(b)
    ensures SampleChars(a + b)
  {
    assert forall i :: 0 <= i < |a + b| ==> (a + b)[i] == if i < |a| then a[i] else b[i - |a|];
  }

  lemma {:induction false} UnlinesSampleChars(lines: seq<string>, i: nat)
    requires forall k :: i <= k < |lines| ==> SampleChars(lines[k])
    ensures SampleChars(UnlinesFrom(lines, i))
    decreases |lines| - i
  {
    if i < |lines| {
      UnlinesSampleChars(lines, i + 1);
      SampleCharsConcat(lines[i], "\n");
      SampleCharsConcat(lines[i] + "\n", UnlinesFrom(lines, i + 1));
    }
  }

  lemma SampleHeadChars()
    ensures forall k :: 0 <= k < |SAMPLE_HEAD| ==> SampleChars(SAMPLE_HEAD[k])
  {
  }

  lemma SampleBodyChars()
    ensures forall k :: 0 <= k < |SAMPLE_BODY| ==> SampleChars(SAMPLE_BODY[k])
  {
  }

  lemma SampleLongLines()
    ensures SampleChars(SAMPLE_KEYWORDS_LINE) && SampleChars(SAMPLE_DESCRIPTION_LINE)
  {
    assert SampleChars("SEO Keywords: ");
    assert SampleChars("one, two, three, four, five");
    SampleCharsConcat("SEO Keywords: ", "one, two, three, four, five");
    assert SampleChars(Repeat('x', 155));
    SampleCharsConcat("Meta Description: ", Repeat('x', 155));
  }

  lemma SampleTailShortLines()
    ensures SampleChars("- Do that") && SampleChars("## Conclusion") && SampleChars("Wrap-up.")
    ensures SampleChars("Social Snippets:") && SampleChars("LinkedIn: ...")
  {
  }

  lemma SampleTailChars()
    ensures forall k :: 0 <= k < |SAMPLE_TAIL| ==> SampleChars(SAMPLE_TAIL[k])
  {
    SampleLongLines();
    SampleTailShortLines();
  }

  lemma SampleArticleChars()
    ensures SampleChars(SAMPLE_ARTICLE)
  {
    SampleHeadChars();
    SampleBodyChars();
    SampleTailChars();
    UnlinesSampleChars(SAMPLE_HEAD, 0);
    UnlinesSampleChars(SAMPLE_BODY, 0);
    UnlinesSampleChars(SAMPLE_TAIL, 0);
    SampleCharsConcat(Unlines(SAMPLE_HEAD), Unlines(SAMPLE_BODY));
    SampleCharsConcat(Unlines(SAMPLE_HEAD) + Unlines(SAMPLE_BODY), Unlines(SAMPLE_TAIL));
  }

  /** A character the sample is not written with does not occur in it. */
  lemma SampleLacks(c: char)
    requires !IsSampleChar(c)
    ensures c !in SAMPLE_ARTICLE
  {
    SampleArticleChars();
  }

  lemma SampleNoEmDash()
    ensures !Contains(SAMPLE_ARTICLE, EM_DASH_MOJIBAKE)
  {
    SampleLacks(EM_DASH_MOJIBAKE[0]);
    NotContainsFirstChar(SAMPLE_ARTICLE, EM_DASH_MOJIBAKE);
  }

  lemma SampleChecklist()
    ensures !LacksChecklist(SAMPLE_ARTICLE)
  {
    BlockHeading(SAMPLE_BODY, 6, "- ");
    SampleBlocksContain("- ");
  }

  lemma SampleNoClaim()
    ensures !HasFabricatedClaim(SAMPLE_ARTICLE)
  {
    SampleLacks('%');
    NoPercentNoClaim(SAMPLE_ARTICLE);
  }

  /** The sample article of the test suite passes every check. */
  lemma SampleArticlePasses()
    ensures Report(SAMPLE_ARTICLE) == []
  {
    SampleHeadings();
    NoHeadingMissing(SAMPLE_ARTICLE, REQUIRED_HEADINGS);
    SampleSections();
    SampleNoEmDash();
    SampleChecklist();
    SampleNoClaim();
  }

  lemma Assoc(a: string, b: string, c: string)
    ensures a + (b + c) == a + b + c
  {
  }

  /** A block of at least five lines, split around its fourth line. */
  lemma UnlinesAroundFourth(t: seq<string>)
    requires |t| >= 5
    ensures Unlines(t) == (t[0] + "\n" + t[1] + "\n" + t[2] + "\n") + t[3] + ("\n" + t[4] + "\n" + UnlinesFrom(t, 5))
  {
    var n := "\n";
    var x0, x1, x2, x3, x4 := t[0] + n, t[1] + n, t[2] + n, t[3] + n, t[4] + n;
    var u5 := UnlinesFrom(t, 5);
    var p := t[0] + n + t[1] + n + t[2] + n;
    assert UnlinesFrom(t, 4) == x4 + u5;
    assert UnlinesFrom(t, 3) == x3 + UnlinesFrom(t, 4);
    assert UnlinesFrom(t, 2) == x2 + UnlinesFrom(t, 3);
    assert UnlinesFrom(t, 1) == x1 + UnlinesFrom(t, 2);
    assert UnlinesFrom(t, 0) == x0 + UnlinesFrom(t, 1);
    assert p == x0 + x1 + x2 by {
      Assoc(x0, t[1], n);
      Assoc(x0 + x1, t[2], n);
    }
    calc {
      Unlines(t);
      x0 + (x1 + (x2 + (x3 + (x4 + u5))));
      { Assoc(x0, x1, x2 + (x3 + (x4 + u5))); Assoc(x0 + x1, x2, x3 + (x4 + u5)); }
      p + (x3 + (x4 + u5));
      { Assoc(t[3], n, x4 + u5); }
      p + (t[3] + (n + (x4 + u5)));
      { Assoc(p, t[3], n + (x4 + u5)); }
      p + t[3] + (n + (x4 + u5));
      { Assoc(n, t[4] + n, u5); Assoc(n, t[4], n); }
      p + t[3] + (n + t[4] + n + u5);
    }
  }

  /** Two texts and a block of lines, split around the block's fourth line. */
  lemma ThreeBlocksAroundFourth(x: string, y: string, t: seq<string>)
    requires |t| >= 5
    ensures x + y + Unlines(t)
            == (x + y + (t[0] + "\n" + t[1] + "\n" + t[2] + "\n")) + t[3] + ("\n" + t[4] + "\n" + UnlinesFrom(t, 5))
  {
    UnlinesAroundFourth(t);
    var p := t[0] + "\n" + t[1] + "\n" + t[2] + "\n";
    var r := "\n" + t[4] + "\n" + UnlinesFrom(t, 5);
    Assoc(x + y, p + t[3], r);
    Assoc(x + y, p, t[3]);
  }

  lemma SampleTailMeta()
    ensures |SAMPLE_TAIL| >= 5 && SAMPLE_TAIL[3] == SAMPLE_KEYWORDS_LINE && SAMPLE_TAIL[4] == SAMPLE_DESCRIPTION_LINE
  {
  }

  /** The sample is the text before its keyword line, the keyword line,
      the description line and the rest. */
  lemma SampleMetaLayout()
    ensures SAMPLE_ARTICLE
            == SAMPLE_BEFORE_META + SAMPLE_KEYWORDS_LINE + ("\n" + SAMPLE_DESCRIPTION_LINE + "\n" + UnlinesFrom(SAMPLE_TAIL, 5))
  {
    ThreeBlocksAroundFourth(Unlines(SAMPLE_HEAD), Unlines(SAMPLE_BODY), SAMPLE_TAIL);
    SampleTailMeta();
  }

  /** A character that no line of two blocks and of three further lines
      holds is not in their text. */
  lemma LacksBeforeLines(h: seq<string>, b: seq<string>, t: seq<string>, c: char)
    requires c != '\n' && |t| >= 3
    requires forall k :: 0 <= k < |h| ==> c !in h[k]
    requires forall k :: 0 <= k < |b| ==> c !in b[k]
    requires c !in t[0] && c !in t[1] && c !in t[2]
    ensures c !in Unlines(h) + Unlines(b) + (t[0] + "\n" + t[1] + "\n" + t[2] + "\n")
  {
    UnlinesLacks(h, 0, c);
    UnlinesLacks(b, 0, c);
  }

  lemma SampleHeadLacks()
    ensures forall k :: 0 <= k < |SAMPLE_HEAD| ==> ':' !in SAMPLE_HEAD[k] && 'M' !in SAMPLE_HEAD[k]
  {
  }

  lemma SampleBodyLacks()
    ensures forall k :: 0 <= k < |SAMPLE_BODY| ==> ':' !in SAMPLE_BODY[k] && 'M' !in SAMPLE_BODY[k]
  {
  }

  lemma SampleWrapUpLacks()
    ensures forall k :: 0 <= k < 3 ==> ':' !in SAMPLE_TAIL[k] && 'M' !in SAMPLE_TAIL[k]
  {
  }

  /** Neither label occurs before the keyword line: nothing there is a
      `:` or an `M`. */
  lemma SampleBeforeMetaLacks()
    ensures ':' !in SAMPLE_BEFORE_META && 'M' !in SAMPLE_BEFORE_META
  {
    SampleHeadLacks();
    SampleBodyLacks();
    SampleWrapUpLacks();
    LacksBeforeLines(SAMPLE_HEAD, SAMPLE_BODY, SAMPLE_TAIL, ':');
    LacksBeforeLines(SAMPLE_HEAD, SAMPLE_BODY, SAMPLE_TAIL, 'M');
  }

  lemma SampleKeywordsLineLacks()
    ensures 'M' !in SAMPLE_KEYWORDS_LINE
  {
    assert 'M' !in "SEO Keywords: ";
    assert 'M' !in "one, two, three, four, five";
  }

  /** A character two texts lack is not in them joined by a newline. */
  lemma LacksWithNewline(x: string, y: string, c: char)
    requires c !in x && c !in y && c != '\n'
    ensures c !in x + y + "\n"
  {
  }

  /** No label occurs in the sample before its own line. */
  lemma SampleLabelsFirst()
    ensures !Contains(SAMPLE_BEFORE_META, KEYWORDS_LABEL)
    ensures !Contains(SAMPLE_BEFORE_META + SAMPLE_KEYWORDS_LINE + "\n", DESCRIPTION_LABEL)
  {
    SampleBeforeMetaLacks();
    assert KEYWORDS_LABEL[12] == ':';
    NotContainsChar(SAMPLE_BEFORE_META, KEYWORDS_LABEL, 12);
    SampleKeywordsLineLacks();
    LacksWithNewline(SAMPLE_BEFORE_META, SAMPLE_KEYWORDS_LINE, 'M');
    NotContainsFirstChar(SAMPLE_BEFORE_META + SAMPLE_KEYWORDS_LINE + "\n", DESCRIPTION_LABEL);
  }

  /** A text ending in a newline, split after the line that follows. */
  lemma SplitAfterLine(x: string, d: string, u: string)
    ensures x + ("\n" + d + "\n" + u) == (x + "\n") + d + ("\n" + u)
    ensures (x + "\n")[|x + "\n"| - 1] == '\n'
  {
  }

  /** The text before the keyword line ends in a newline. */
  lemma SampleBeforeMetaEnds()
    ensures SAMPLE_BEFORE_META[|SAMPLE_BEFORE_META| - 1] == '\n'
  {
    var x := SAMPLE_TAIL[0] + "\n" + SAMPLE_TAIL[1] + "\n" + SAMPLE_TAIL[2];
    SplitAfterLine(x, [], []);
    assert SAMPLE_BEFORE_META == Unlines(SAMPLE_HEAD) + Unlines(SAMPLE_BODY) + (x + "\n");
  }

  /** Five pieces joined by a separator. */
  lemma JoinFive(p0: string, p1: string, p2: string, p3: string, p4: string, sep: char)
    ensures Join([p0, p1, p2, p3, p4], sep) == p0 + [sep] + p1 + [sep] + p2 + [sep] + p3 + [sep] + p4
  {
    var ps := [p0, p1, p2, p3, p4];
    assert Join(ps[4..], sep) == p4;
    assert Join(ps[3..], sep) == p3 + [sep] + p4;
    assert Join(ps[2..], sep) == p2 + [sep] + (p3 + [sep] + p4);
    assert Join(ps[1..], sep) == p1 + [sep] + (p2 + [sep] + (p3 + [sep] + p4));
  }

  /** The keyword line is the label, a space and the pieces between the
      commas. */
  lemma SampleKeywordsLine()
    ensures SAMPLE_KEYWORDS_LINE == KEYWORDS_LABEL + " " + Join(SAMPLE_KEYWORD_PIECES, ',')
  {
    JoinFive("one", " two", " three", " four", " five", ',');
    assert "one" + [','] + " two" + [','] + " three" + [','] + " four" + [','] + " five" == "one, two, three, four, five";
  }

  /** No piece holds a separator or a newline. */
  lemma SamplePiecesPlain()
    ensures forall k :: 0 <= k < |SAMPLE_KEYWORD_PIECES| ==> NoneIn(SAMPLE_KEYWORD_PIECES[k], {',', ';', '\n'})
  {
  }

  /** Pieces that are their words, each perhaps after one space, strip to
      those words. */
  lemma StripPadded(ps: seq<string>, ws: seq<string>)
    requires |ps| == |ws|
    requires forall k :: 0 <= k < |ws| ==> ws[k] != [] && IsStripped(ws[k]) && (ps[k] == ws[k] || ps[k] == " " + ws[k])
    ensures forall k :: 0 <= k < |ps| ==> Strip(ps[k]) == ws[k] != []
  {
    forall k | 0 <= k < |ps|
      ensures Strip(ps[k]) == ws[k]
    {
      if ps[k] == ws[k] { StripStripped(ws[k]); } else { StripLeadingSpace(ws[k]); }
    }
  }

  /** Each piece strips to its keyword. */
  lemma SamplePiecesStrip()
    ensures forall k :: 0 <= k < |SAMPLE_KEYWORD_PIECES| ==> Strip(SAMPLE_KEYWORD_PIECES[k]) == SAMPLE_KEYWORDS[k] != []
  {
    StripPadded(SAMPLE_KEYWORD_PIECES, SAMPLE_KEYWORDS);
  }

  /** Each piece strips to its keyword and holds no separator. */
  lemma SampleKeywordPieces()
    ensures |SAMPLE_KEYWORD_PIECES| == |SAMPLE_KEYWORDS| >= 1
    ensures SAMPLE_KEYWORD_PIECES[0] != [] && !IsSpace(SAMPLE_KEYWORD_PIECES[0][0])
    ensures forall k :: 0 <= k < |SAMPLE_KEYWORD_PIECES| ==>
      NoneIn(SAMPLE_KEYWORD_PIECES[k], {',', ';', '\n'}) && Strip(SAMPLE_KEYWORD_PIECES[k]) == SAMPLE_KEYWORDS[k] != []
    ensures FirstKeywords(SAMPLE_KEYWORDS) == SAMPLE_KEYWORDS
  {
    SamplePiecesPlain();
    SamplePiecesStrip();
  }

  lemma Regroup(a: string, b: string, c: string, d: string, e: string)
    ensures a + (b + c + d) + e == a + b + c + d + e
  {
  }

  /** Keywords read from a text laid out as a text before the keyword
      line, that line and the rest. */
  lemma KeywordsOfLayout(a: string, pre: string, line: string, rest: string, ps: seq<string>, ks: seq<string>)
    requires a == pre + line + rest && line == KEYWORDS_LABEL + " " + Join(ps, ',')
    requires (pre == [] || pre[|pre| - 1] == '\n') && !Contains(pre, KEYWORDS_LABEL)
    requires |ps| == |ks| >= 1 && ps[0] != [] && !IsSpace(ps[0][0])
    requires forall k :: 0 <= k < |ps| ==> NoneIn(ps[k], {',', ';', '\n'}) && Strip(ps[k]) == ks[k] != []
    requires rest == [] || rest[0] == '\n'
    ensures ExtractMeta(a).keywords == FirstKeywords(ks)
  {
    Regroup(pre, KEYWORDS_LABEL, " ", Join(ps, ','), rest);
    KeywordLineRoundTrip(pre, " ", ps, ks, rest);
  }

  /** The description read from a text laid out as a text before the
      description line, that line and the rest. */
  lemma DescriptionOfLayout(a: string, pre: string, line: string, rest: string, d: string)
    requires a == pre + line + rest && line == DESCRIPTION_LABEL + " " + d
    requires (pre == [] || pre[|pre| - 1] == '\n') && !Contains(pre, DESCRIPTION_LABEL)
    requires d != [] && IsStripped(d) && '\n' !in d
    requires rest == [] || rest[0] == '\n'
    ensures ExtractMeta(a).description == d
  {
    Regroup(pre, DESCRIPTION_LABEL, " ", d, rest);
    DescriptionLineRoundTrip(pre, " ", d, rest);
  }

  lemma SampleKeywords()
    ensures ExtractMeta(SAMPLE_ARTICLE).keywords == SAMPLE_KEYWORDS
  {
    SampleMetaLayout();
    SampleKeywordsLine();
    SampleLabelsFirst();
    SampleBeforeMetaEnds();
    SampleKeywordPieces();
    KeywordsOfLayout(SAMPLE_ARTICLE, SAMPLE_BEFORE_META, SAMPLE_KEYWORDS_LINE,
                     "\n" + SAMPLE_DESCRIPTION_LINE + "\n" + UnlinesFrom(SAMPLE_TAIL, 5),
                     SAMPLE_KEYWORD_PIECES, SAMPLE_KEYWORDS);
  }

  lemma SampleDescriptionLine()
    ensures SAMPLE_DESCRIPTION_LINE == DESCRIPTION_LABEL + " " + Repeat('x', 155)
    ensures IsStripped(Repeat('x', 155)) && '\n' !in Repeat('x', 155)
  {
  }

  lemma SampleDescription()
    ensures ExtractMeta(SAMPLE_ARTICLE).description == Repeat('x', 155)
  {
    SampleMetaLayout();
    SplitAfterLine(SAMPLE_BEFORE_META + SAMPLE_KEYWORDS_LINE, SAMPLE_DESCRIPTION_LINE, UnlinesFrom(SAMPLE_TAIL, 5));
    SampleLabelsFirst();
    SampleDescriptionLine();
    DescriptionOfLayout(SAMPLE_ARTICLE, SAMPLE_BEFORE_META + SAMPLE_KEYWORDS_LINE + "\n", SAMPLE_DESCRIPTION_LINE,
                        "\n" + UnlinesFrom(SAMPLE_TAIL, 5), Repeat('x', 155));
  }

  /** The metadata extracted from the sample article: its five keywords
      and its 155-character description. */
  lemma SampleMeta()
    ensures ExtractMeta(SAMPLE_ARTICLE) == ExtractedMeta(SAMPLE_KEYWORDS, Repeat('x', 155))
  {
    SampleKeywords();
    SampleDescription();
  }
}
