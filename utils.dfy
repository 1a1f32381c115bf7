/** The slug and path helpers of the content pipeline and the shape of the
    metadata record it writes next to each article. */
module Utils {
  import opened PyText

  // ---------------------------------------------------------------------
  // slugify
  // ---------------------------------------------------------------------

  predicate IsAsciiAlnum(c: char)
  {
    ('a' <= c <= 'z') || ('A' <= c <= 'Z') || ('0' <= c <= '9')
  }

  /** The characters a slug may hold: `[a-z0-9-]`. */
  predicate IsSlugChar(c: char)
  {
    ('a' <= c <= 'z') || ('0' <= c <= '9') || c == '-'
  }

  /** A run of these collapses to one hyphen: the class `[\s-]`. */
  predicate IsSeparator(c: char)
  {
    IsSpace(c) || c == '-'
  }

  predicate NoDoubleHyphen(s: string)
  {
    forall i :: 0 <= i < |s| - 1 ==> !(s[i] == '-' && s[i + 1] == '-')
  }

  /** A string `slugify` gives back unchanged: non-empty, over `[a-z0-9-]`,
      with no two hyphens in a row. Hyphens at either end are allowed. */
  predicate IsSlug(s: string)
  {
    s != [] && AllSlugChars(s) && NoDoubleHyphen(s)
  }

  /** Step one of `slugify`: drop every character outside `[a-zA-Z0-9\s-]`. */
  function KeepSlugSource(s: string): (r: string)
    ensures |r| <= |s|
    ensures forall i :: 0 <= i < |r| ==> IsAsciiAlnum(r[i]) || IsSeparator(r[i])
    ensures (forall i :: 0 <= i < |s| ==> !IsAsciiAlnum(s[i]) && s[i] != '-') ==> AllSpace(r)
    decreases |s|
  {
    if s == [] then []
    else if IsAsciiAlnum(s[0]) || IsSeparator(s[0]) then [s[0]] + KeepSlugSource(s[1..])
    else KeepSlugSource(s[1..])
  }

  /** `s` without its leading run of separators. */
  function DropSeparators(s: string): (r: string)
    ensures |r| <= |s|
  {
    if s != [] && IsSeparator(s[0]) then DropSeparators(s[1..]) else s
  }

  lemma {:induction false} DropSeparatorsSuffix(s: string)
    ensures DropSeparators(s) == s[|s| - |DropSeparators(s)|..]
    ensures DropSeparators(s) == [] || !IsSeparator(DropSeparators(s)[0])
    decreases |s|
  {
    if s != [] && IsSeparator(s[0]) {
      DropSeparatorsSuffix(s[1..]);
    }
  }

  /** Lower-case letters, digits and separators: what reaches the collapsing step. */
  predicate IsCleanedChar(c: char)
  {
    ('a' <= c <= 'z') || ('0' <= c <= '9') || IsSeparator(c)
  }

  predicate AllCleaned(s: string)
  {
    forall i :: 0 <= i < |s| ==> IsCleanedChar(s[i])
  }

  predicate AllSlugChars(s: string)
  {
    forall i :: 0 <= i < |s| ==> IsSlugChar(s[i])
  }

  /** Step four of `slugify`: every maximal run of `[\s-]` becomes one `-`;
      the result is empty exactly when the input is. */
  function CollapseSeparators(s: string): (r: string)
    ensures (r == []) == (s == [])
    decreases |s|
  {
    if s == [] then []
    else if IsSeparator(s[0]) then "-" + CollapseSeparators(DropSeparators(s[1..]))
    else [s[0]] + CollapseSeparators(s[1..])
  }

  /** Collapsing leaves no `--`, keeps a leading non-separator, and makes
      only `[a-z0-9-]` out of lower-case letters, digits and separators. */
  lemma {:induction false} CollapseShape(s: string)
    ensures NoDoubleHyphen(CollapseSeparators(s))
    ensures s != [] && !IsSeparator(s[0]) ==> CollapseSeparators(s)[0] == s[0]
    ensures AllCleaned(s) ==> AllSlugChars(CollapseSeparators(s))
    decreases |s|
  {
    if s != [] {
      var r := CollapseSeparators(s);
      if IsSeparator(s[0]) {
        var tail := DropSeparators(s[1..]);
        DropSeparatorsSuffix(s[1..]);
        CollapseShape(tail);
        if AllCleaned(s) {
          forall i | 0 <= i < |tail| ensures IsCleanedChar(tail[i]) {
            assert tail[i] == s[|s| - |tail| + i];
          }
        }
        assert r == "-" + CollapseSeparators(tail);
      } else {
        CollapseShape(s[1..]);
        if AllCleaned(s) {
          forall i | 0 <= i < |s[1..]| ensures IsCleanedChar(s[1..][i]) {
            assert s[1..][i] == s[i + 1];
          }
        }
        assert r == [s[0]] + CollapseSeparators(s[1..]);
      }
    }
  }

  /** `slugify(text)`: keep `[a-zA-Z0-9\s-]`, strip, lower-case, collapse
      `[\s-]+` to `-`, and fall back to "untitled" when nothing is left. */
  function Slugify(text: string): (slug: string)
    ensures IsSlug(slug)
  {
    var cleaned := Cleaned(text);
    CleanedChars(text);
    CollapseShape(cleaned);
    var collapsed := CollapseSeparators(cleaned);
    if collapsed == [] then "untitled" else collapsed
  }

  /** Steps one to three of `slugify`: keep, strip, lower-case. */
  function Cleaned(text: string): string
  {
    LowerAscii(Strip(KeepSlugSource(text)))
  }

  lemma CleanedChars(text: string)
    ensures AllCleaned(Cleaned(text))
  {
    var kept := KeepSlugSource(text);
    var stripped := Strip(kept);
    var j := StripSlice(kept);
    var lower := LowerAscii(stripped);
    forall i | 0 <= i < |lower|
      ensures IsCleanedChar(lower[i])
    {
      assert stripped[i] == kept[j + i];
      LowerCleaned(stripped[i]);
    }
  }

  lemma LowerCleaned(c: char)
    requires IsAsciiAlnum(c) || IsSeparator(c)
    ensures IsCleanedChar(LowerChar(c))
  {
  }

  lemma {:induction false} DropSeparatorsOfNonSeparator(s: string)
    requires s == [] || !IsSeparator(s[0])
    ensures DropSeparators(s) == s
  {
  }

  /** A string with no whitespace and no `--` survives collapsing unchanged. */
  lemma {:induction false} CollapseFixed(s: string)
    requires forall i :: 0 <= i < |s| ==> !IsSpace(s[i])
    requires NoDoubleHyphen(s)
    ensures CollapseSeparators(s) == s
    decreases |s|
  {
    if s != [] {
      assert forall i :: 0 <= i < |s[1..]| ==> !IsSpace(s[1..][i]) by {
        forall i | 0 <= i < |s[1..]| ensures !IsSpace(s[1..][i]) { assert s[1..][i] == s[i + 1]; }
      }
      assert NoDoubleHyphen(s[1..]) by {
        forall i | 0 <= i < |s[1..]| - 1 ensures !(s[1..][i] == '-' && s[1..][i + 1] == '-') {
          assert s[1..][i] == s[i + 1] && s[1..][i + 1] == s[i + 2];
        }
      }
      if IsSeparator(s[0]) {
        assert s[0] == '-';
        if |s| > 1 {
          assert !IsSeparator(s[1]);
        }
        DropSeparatorsOfNonSeparator(s[1..]);
      }
      CollapseFixed(s[1..]);
      assert s == [s[0]] + s[1..];
    }
  }

  lemma {:induction false} KeepAll(s: string)
    requires forall i :: 0 <= i < |s| ==> IsAsciiAlnum(s[i]) || IsSeparator(s[i])
    ensures KeepSlugSource(s) == s
    decreases |s|
  {
    if s != [] {
      assert forall i :: 0 <= i < |s[1..]| ==> IsAsciiAlnum(s[1..][i]) || IsSeparator(s[1..][i]) by {
        forall i | 0 <= i < |s[1..]| ensures IsAsciiAlnum(s[1..][i]) || IsSeparator(s[1..][i]) {
          assert s[1..][i] == s[i + 1];
        }
      }
      KeepAll(s[1..]);
      assert s == [s[0]] + s[1..];
    }
  }

  /** Every slug is its own slug: `slugify(slugify(x)) == slugify(x)`. */
  lemma SlugFixedPoint(s: string)
    requires IsSlug(s)
    ensures Slugify(s) == s
  {
    KeepAll(s);
    assert !IsSpace(s[0]) && !IsSpace(s[|s| - 1]);
    StripStripped(s);
    assert LowerAscii(s) == s;
    CollapseFixed(s);
  }

  lemma SlugifyIdempotent(text: string)
    ensures Slugify(Slugify(text)) == Slugify(text)
  {
    SlugFixedPoint(Slugify(text));
  }

  /** Every character of a slug is in `[a-z0-9-]` and no two hyphens are adjacent. */
  lemma SlugShape(text: string, i: nat)
    requires i < |Slugify(text)|
    ensures IsSlugChar(Slugify(text)[i])
    ensures i + 1 < |Slugify(text)| ==> !(Slugify(text)[i] == '-' && Slugify(text)[i + 1] == '-')
  {
  }

  /** "untitled" is the fallback when no letter, digit or hyphen is in the
      text. */
  lemma {:induction false} SlugFallback(text: string)
    ensures (forall i :: 0 <= i < |text| ==> !IsAsciiAlnum(text[i]) && text[i] != '-') ==> Slugify(text) == "untitled"
  {
    var kept := KeepSlugSource(text);
    if forall i :: 0 <= i < |text| ==> !IsAsciiAlnum(text[i]) && text[i] != '-' {
      var j := StripSlice(kept);
    }
  }

  /** A hyphen at the start or the end of the text is not trimmed: `strip`
      removes only whitespace. */
  lemma LeadingHyphenSurvives()
    ensures Slugify("-abc") == "-abc"
  {
    var s := "-abc";
    assert IsSlug(s) by {
      assert forall i :: 0 <= i < |s| ==> IsSlugChar(s[i]);
    }
    SlugFixedPoint(s);
  }

  lemma {:induction false} KeepConcat(a: string, b: string)
    ensures KeepSlugSource(a + b) == KeepSlugSource(a) + KeepSlugSource(b)
    decreases |a|
  {
    if a != [] {
      assert (a + b)[1..] == a[1..] + b;
      KeepConcat(a[1..], b);
    } else {
      assert a + b == b;
    }
  }

  lemma {:induction false} CollapseNoSeparatorPrefix(a: string, b: string)
    requires forall i :: 0 <= i < |a| ==> !IsSeparator(a[i])
    ensures CollapseSeparators(a + b) == a + CollapseSeparators(b)
    decreases |a|
  {
    if a != [] {
      assert (a + b)[0] == a[0];
      assert (a + b)[1..] == a[1..] + b;
      CollapseNoSeparatorPrefix(a[1..], b);
    } else {
      assert a + b == b;
    }
  }

  lemma {:induction false} CollapseNoSeparator(a: string)
    requires forall i :: 0 <= i < |a| ==> !IsSeparator(a[i])
    ensures CollapseSeparators(a) == a
  {
    CollapseNoSeparatorPrefix(a, []);
    assert a + [] == a;
  }

  /** A character outside `[a-zA-Z0-9\s-]` makes no difference to the slug. */
  lemma SlugifyIgnoresPunctuation(text: string, c: char)
    requires !IsAsciiAlnum(c) && !IsSeparator(c)
    ensures Slugify(text + [c]) == Slugify(text)
  {
    KeepConcat(text, [c]);
    assert KeepSlugSource([c]) == [];
    assert KeepSlugSource(text) + [] == KeepSlugSource(text);
  }

  predicate IsWord(s: string)
  {
    s != [] && forall i :: 0 <= i < |s| ==> IsAsciiAlnum(s[i])
  }

  lemma {:induction false} LowerConcat(a: string, b: string)
    ensures LowerAscii(a + b) == LowerAscii(a) + LowerAscii(b)
  {
    assert forall i :: 0 <= i < |a + b| ==> LowerAscii(a + b)[i] == (LowerAscii(a) + LowerAscii(b))[i];
  }

  lemma LowerWord(s: string)
    requires IsWord(s)
    ensures forall i :: 0 <= i < |LowerAscii(s)| ==> !IsSeparator(LowerAscii(s)[i])
  {
  }

  lemma KeepTwoWords(a: string, b: string)
    requires IsWord(a) && IsWord(b)
    ensures KeepSlugSource(a + " " + b) == a + " " + b
  {
    var s := a + " " + b;
    forall i | 0 <= i < |s| ensures IsAsciiAlnum(s[i]) || IsSeparator(s[i]) {
      if i < |a| { assert s[i] == a[i]; }
      else if i > |a| { assert s[i] == b[i - |a| - 1]; }
    }
    KeepAll(s);
  }

  lemma StripTwoWords(a: string, b: string)
    requires IsWord(a) && IsWord(b)
    ensures Strip(a + " " + b) == a + " " + b
  {
    var s := a + " " + b;
    assert s[0] == a[0] && s[|s| - 1] == b[|b| - 1];
    StripStripped(s);
  }

  lemma LowerTwoWords(a: string, b: string)
    ensures LowerAscii(a + " " + b) == LowerAscii(a) + " " + LowerAscii(b)
  {
    LowerConcat(a + " ", b);
    LowerConcat(a, " ");
    assert LowerAscii(" ") == " ";
  }

  lemma CleanedTwoWords(a: string, b: string)
    requires IsWord(a) && IsWord(b)
    ensures Cleaned(a + " " + b) == LowerAscii(a) + " " + LowerAscii(b)
  {
    KeepTwoWords(a, b);
    StripTwoWords(a, b);
    LowerTwoWords(a, b);
  }

  /** One space in front of a word without separators becomes one hyphen. */
  lemma CollapseSpaceWord(b: string)
    requires forall i :: 0 <= i < |b| ==> !IsSeparator(b[i])
    ensures CollapseSeparators(" " + b) == "-" + b
  {
    var sb := " " + b;
    assert sb[1..] == b;
    DropSeparatorsOfNonSeparator(b);
    CollapseNoSeparator(b);
  }

  lemma CollapseTwoWords(a: string, b: string)
    requires forall i :: 0 <= i < |a| ==> !IsSeparator(a[i])
    requires forall i :: 0 <= i < |b| ==> !IsSeparator(b[i])
    ensures CollapseSeparators(a + " " + b) == a + "-" + b
  {
    var sb := " " + b;
    assert a + " " + b == a + sb;
    CollapseNoSeparatorPrefix(a, sb);
    CollapseSpaceWord(b);
    assert a + ("-" + b) == a + "-" + b;
  }

  /** Two words separated by one space become the two lower-cased words
      joined by a hyphen. */
  lemma TwoWordSlug(a: string, b: string)
    requires IsWord(a) && IsWord(b)
    ensures Slugify(a + " " + b) == LowerAscii(a) + "-" + LowerAscii(b)
  {
    CleanedTwoWords(a, b);
    LowerWord(a);
    LowerWord(b);
    CollapseTwoWords(LowerAscii(a), LowerAscii(b));
  }

  lemma HelloWorldWords()
    ensures Slugify("Hello" + " " + "World" + "!") == LowerAscii("Hello") + "-" + LowerAscii("World")
  {
    HelloWorldBang();
    HelloWorldSpace();
  }

  lemma HelloWorldBang()
    ensures Slugify("Hello" + " " + "World" + "!") == Slugify("Hello" + " " + "World")
  {
    assert "Hello" + " " + "World" + "!" == "Hello" + " " + "World" + ['!'];
    SlugifyIgnoresPunctuation("Hello" + " " + "World", '!');
  }

  lemma HelloWorldSpace()
    ensures Slugify("Hello" + " " + "World") == LowerAscii("Hello") + "-" + LowerAscii("World")
  {
    TwoWordSlug("Hello", "World");
  }

  lemma HelloWorldLower()
    ensures LowerAscii("Hello") + "-" + LowerAscii("World") == "hello-world"
  {
    assert LowerAscii("Hello") == "hello";
    assert LowerAscii("World") == "world";
  }

  /** `slugify("Hello World!") == "hello-world"`. */
  lemma HelloWorldSlug()
    ensures Slugify("Hello World!") == "hello-world"
  {
    assert "Hello World!" == "Hello" + " " + "World" + "!";
    HelloWorldWords();
    HelloWorldLower();
  }

  // ---------------------------------------------------------------------
  // dates and output directories
  // ---------------------------------------------------------------------

  /** A calendar date as Python's `datetime.date` holds it. */
  datatype Date = Date(year: int, month: int, day: int)

  predicate IsLeapYear(y: int)
  {
    y % 4 == 0 && (y % 100 != 0 || y % 400 == 0)
  }

  function DaysInMonth(y: int, m: int): int
  {
    if m == 2 then (if IsLeapYear(y) then 29 else 28)
    else if m == 4 || m == 6 || m == 9 || m == 11 then 30
    else 31
  }

  /** The dates a `datetime.date` can hold: years 1 to 9999. */
  predicate ValidDate(d: Date)
  {
    1 <= d.year <= 9999 && 1 <= d.month <= 12 && 1 <= d.day <= DaysInMonth(d.year, d.month)
  }

  function Digit(n: int): char
    requires 0 <= n < 10
  {
    (48 + n) as char
  }

  /** `n` written with exactly `width` decimal digits, zero-padded. */
  function Padded(n: nat, width: nat): (r: string)
    ensures |r| == width
  {
    if width == 0 then [] else Padded(n / 10, width - 1) + [Digit(n % 10)]
  }

  lemma {:induction false} PaddedDigits(n: nat, width: nat)
    ensures forall i :: 0 <= i < width ==> '0' <= Padded(n, width)[i] <= '9'
  {
    if width > 0 {
      PaddedDigits(n / 10, width - 1);
    }
  }

  function DigitValue(c: char): int
  {
    c as int - 48
  }

  function ParseDigits(s: string): (n: int)
  {
    if s == [] then 0 else ParseDigits(s[..|s| - 1]) * 10 + DigitValue(s[|s| - 1])
  }

  function Power10(k: nat): (p: nat)
    ensures p >= 1
  {
    if k == 0 then 1 else 10 * Power10(k - 1)
  }

  lemma {:induction false} ParsePadded(n: nat, width: nat)
    requires n < Power10(width)
    ensures ParseDigits(Padded(n, width)) == n
  {
    if width > 0 {
      var s := Padded(n, width);
      assert s[..|s| - 1] == Padded(n / 10, width - 1);
      ParsePadded(n / 10, width - 1);
    }
  }

  /** `date.isoformat()`: `YYYY-MM-DD`, each field zero-padded. */
  function IsoFormat(d: Date): (r: string)
    requires ValidDate(d)
    ensures |r| == 10 && r[4] == '-' && r[7] == '-'
    ensures forall i :: 0 <= i < 10 && i != 4 && i != 7 ==> '0' <= r[i] <= '9'
  {
    PaddedDigits(d.year, 4);
    PaddedDigits(d.month, 2);
    PaddedDigits(d.day, 2);
    Padded(d.year, 4) + "-" + Padded(d.month, 2) + "-" + Padded(d.day, 2)
  }

  /** Reading an ISO date back. */
  function ParseIso(s: string): (d: Date)
    requires |s| == 10
  {
    Date(ParseDigits(s[..4]), ParseDigits(s[5..7]), ParseDigits(s[8..]))
  }

  /** The date folder names its date: reading it back gives the same date,
      so distinct dates get distinct folders. */
  lemma IsoRoundTrip(d: Date)
    requires ValidDate(d)
    ensures ParseIso(IsoFormat(d)) == d
  {
    var r := IsoFormat(d);
    assert r[..4] == Padded(d.year, 4);
    assert r[5..7] == Padded(d.month, 2);
    assert r[8..] == Padded(d.day, 2);
    ParsePadded(d.year, 4);
    ParsePadded(d.month, 2);
    ParsePadded(d.day, 2);
  }

  lemma IsoExample()
    ensures IsoFormat(Date(2024, 1, 2)) == "2024-01-02"
  {
  }

  /** `get_output_dir(base_dir, topic, date_value)` as a list of path segments:
      the base segments, the ISO date, then the topic's slug when a non-empty
      topic is given (`None` and `""` are both falsy). */
  function OutputDir(base: seq<string>, topic: Option<string>, d: Date): (path: seq<string>)
    requires ValidDate(d)
    ensures |path| == |base| + (if topic.Some? && topic.value != "" then 2 else 1)
    ensures path[..|base|] == base && path[|base|] == IsoFormat(d)
    ensures topic.Some? && topic.value != "" ==> path[|path| - 1] == Slugify(topic.value)
  {
    var datePath := base + [IsoFormat(d)];
    if topic.Some? && topic.value != "" then datePath + [Slugify(topic.value)] else datePath
  }

  /** The segments added below the base are never empty, never `.` or `..`
      and hold only `[a-z0-9-]`, so the directory stays inside the base. */
  lemma OutputDirSegments(base: seq<string>, topic: Option<string>, d: Date, k: nat)
    requires ValidDate(d)
    requires |base| <= k < |OutputDir(base, topic, d)|
    ensures OutputDir(base, topic, d)[k] != []
    ensures forall i :: 0 <= i < |OutputDir(base, topic, d)[k]| ==> IsSlugChar(OutputDir(base, topic, d)[k][i])
  {
  }

  lemma OutputDirExample()
    ensures OutputDir(["outputs"], Some("My Topic"), Date(2024, 1, 2)) == ["outputs", "2024-01-02", "my-topic"]
  {
    OutputDirOf(["outputs"], "My Topic", Date(2024, 1, 2));
    MyTopicSlug();
    IsoExample();
  }

  /** With a non-empty topic the path gets exactly two segments below the base. */
  lemma OutputDirOf(base: seq<string>, topic: string, d: Date)
    requires ValidDate(d) && topic != []
    ensures OutputDir(base, Some(topic), d) == base + [IsoFormat(d), Slugify(topic)]
  {
  }

  lemma MyTopicSlug()
    ensures Slugify("My Topic") == "my-topic"
  {
    assert "My Topic" == "My" + " " + "Topic";
    TwoWordSlug("My", "Topic");
    MyTopicLower();
  }

  lemma MyTopicLower()
    ensures LowerAscii("My") + "-" + LowerAscii("Topic") == "my-topic"
  {
    assert LowerAscii("My") == "my";
    assert LowerAscii("Topic") == "topic";
  }

  datatype Option<T> = None | Some(value: T)

  // ---------------------------------------------------------------------
  // META_SCHEMA
  // ---------------------------------------------------------------------

  /** A JSON value as the metadata dictionary may hold it. */
  datatype Json =
    | JNull
    | JBool(b: bool)
    | JNumber(n: int)
    | JString(s: string)
    | JArray(items: seq<Json>)
    | JObject(fields: map<string, Json>)

  const META_KEYS: set<string> := {"title", "keywords", "description", "platform", "date", "slug"}

  /** `META_SCHEMA` as a predicate: exactly the six keys, every value a
      string except `keywords`, an array of exactly five strings, and a
      description of 155 to 160 characters. */
  predicate MetaSchemaValid(meta: map<string, Json>)
  {
    && meta.Keys == META_KEYS
    && meta["title"].JString?
    && meta["keywords"].JArray? && |meta["keywords"].items| == 5
    && (forall i :: 0 <= i < |meta["keywords"].items| ==> meta["keywords"].items[i].JString?)
    && meta["description"].JString? && 155 <= |meta["description"].s| <= 160
    && meta["platform"].JString?
    && meta["date"].JString?
    && meta["slug"].JString?
  }
}
