# Content bot: article checks, extraction, packaging and slugs

This project models the deterministic core of an LLM-backed content bot. The bot asks a text backend for an outline and then for a Markdown article. It checks the article's structure and asks for one revision if the check fails. It then pulls SEO keywords, a meta description and a block of social snippets out of the article. The metadata is validated against fixed rules and a JSON schema, and the output goes to a dated, slug-named directory.

The project has three modules:

- `PyText` (`pytext.dfy`) holds the pieces of Python's `str` and `re` that the code relies on:
  - `isspace` and `\s`, `strip`, `in`, non-overlapping `str.count`, the leftmost search `re.search` makes for a label;
  - `re.split` on a character class, `join`, `lower` on ASCII letters;
  - text built from lines.
- `Utils` (`utils.py`) holds:
  - `slugify`, as a chain of the same four steps;
  - `date.isoformat` on a (year, month, day) triple;
  - `get_output_dir`, as a list of path segments with the date passed in;
  - a JSON value type, with `META_SCHEMA` as a predicate over a key-to-value map.
- `Writer` (`writer.py`) holds:
  - `self_check`, a method with its loop over the required headings. It is proved equal to the specification function `Report`, and each error message is then tied to the condition that raises it;
  - the fabricated-claim regular expression, as a predicate over match positions;
  - `_extract_meta` and `_extract_social`, as functions that follow the regex semantics: greedy `\s*` with backtracking in front of `(.+)`, leftmost search, and `.` stopping at a newline unless DOTALL is set;
  - `generate_package`, a method. It takes the backend's replies as parameters;
  - `validate_meta`, a method proved equal to the function `MetaErrors`. This includes the `TypeError` Python raises when a value has no `len`.

## Model

| member | source | states |
|---|---|---|
| Writer.SelfCheck | writer.py:122-137 | the errors are exactly `Report(text)`, built in order: em dash, missing headings, section count, checklist, fabricated claim |
| Writer.ValidateArticleStructure | writer.py:186-189 | the standalone validator returns the same list as the self-check |
| Writer.EmDashReported | writer.py:125-126 | "Contains em dash." is reported exactly when the text contains the three-character mojibake `â€”` (U+00E2 U+20AC U+201D), not U+2014 |
| Writer.HeadingReported | writer.py:127-129 | for each required heading, its "Missing heading: h" message occurs exactly once if the heading is absent and not at all if it is present |
| Writer.MissingHeadingsMembers | writer.py:127-129 | every missing-heading message names a required heading that the text lacks |
| Writer.MissingHeadingsSubsequence | writer.py:127-129 | the missing-heading messages keep the order of the required-heading list |
| Writer.RequiredHeadingsDistinct | writer.py:15 | each required heading appears once in the list |
| Writer.TitleSatisfiedBySection | writer.py:15 | any `## ` heading also satisfies the `# ` title requirement |
| Writer.SectionsReported | writer.py:130-131 | "Not enough section headings." is reported exactly when the non-overlapping count of `## ` is below 6 |
| Writer.ChecklistReported | writer.py:132-133 | "Checklist missing." is reported exactly when `- ` does not occur, since `- [ ]` contains `- ` |
| Writer.ClaimReported | writer.py:134-136 | the claim message is reported exactly when the fabricated-claim pattern matches |
| Writer.ReportOrder | writer.py:124-137 | a report is a subsequence of the nine possible messages in check order, so it has at most 9 entries |
| Writer.ClaimAcrossNewline | writer.py:134 | without DOTALL the claim pattern never spans a newline: a text is flagged exactly when one of its two sides is |
| Writer.ClaimShape | writer.py:134 | a flagged text contains `%` and has at least 10 characters, because each `\b` after a word needs a non-word character before the next word or digit |
| Writer.ShortestClaim | writer.py:134 | "we grew 1%", ten characters, is flagged, so the bound is reached |
| Writer.NoGapNoClaim | writer.py:134 | "we grew1%" is not flagged: no word boundary after the verb |
| Writer.NoPercentNoClaim | writer.py:134 | a text without `%` is never flagged |
| Writer.ClaimExample | writer.py:134 | "We grew revenue by 20%" is flagged, so matching ignores case |
| Writer.ClaimNeedsOneLine | writer.py:134 | "We grew revenue by\n20%" is not flagged |
| Writer.SampleArticlePasses | tests/test_basic.py:17-41 | the sample article from the test suite produces no errors |
| Writer.SampleMeta | tests/test_basic.py:35-36 | from the same sample, extraction gives the keywords `one` to `five` and the description of 155 `x` |
| Writer.SkipSpacesRun | writer.py:109-110 | the greedy `\s*` consumes exactly the run of whitespace, newlines included |
| Writer.LastLineStart | writer.py:109-110 | `\s*` backtracks to the last position in its run that can start a non-empty `.+`, or none exists |
| Writer.CaptureLine | writer.py:109-110 | a captured group is non-empty and contains no newline |
| Writer.CaptureAfterSpaces | writer.py:109-110 | after whitespace, possibly over blank lines, the group is the rest of the first non-blank line |
| Writer.FirstLineMatch | writer.py:109-110 | the search returns the leftmost position where label, `\s*` and `(.+)` match, and none exists when it returns nothing |
| Writer.LabelLineAt | writer.py:109-110 | when the label first occurs at p and is followed by whitespace and a line, the search captures that line |
| Writer.KeywordsOfShape | writer.py:113-114 | every keyword kept from the line is non-empty, stripped and free of `,` `;` and newline |
| Writer.StrippedNonEmptyItems | writer.py:114 | every kept item is the stripped form of some piece of the split, and is not empty |
| Writer.StrippedNonEmptyKeeps | writer.py:114 | pieces that are already stripped and non-empty are all kept, in order |
| Writer.FirstKeywords | writer.py:116 | `keywords[:5]` is the prefix of the list of length `min(5, len)` |
| Writer.ExtractMeta | writer.py:108-116 | at most 5 keywords, each a keyword; the description is stripped and on one line; a missing label gives no keywords or an empty description |
| Writer.KeywordLineRoundTrip | writer.py:109-116 | keywords written comma-separated after the first `SEO Keywords:` label on a line, each padded with any whitespace except newline, are extracted back stripped, truncated to the first five |
| Writer.DescriptionLineRoundTrip | writer.py:110-115 | a stripped one-line description after the first `Meta Description:` label is extracted back unchanged |
| Writer.ExtractSocial | writer.py:118-120 | the social text is stripped, and empty when the label is absent |
| Writer.SocialIsRestAfterLabel | writer.py:118-120 | the social text is everything after the first `Social Snippets:`, over any number of lines, stripped |
| Writer.GroupAfterIsRest | writer.py:119-120 | with DOTALL, the whitespace that `\s*` skips makes no difference once the group is stripped |
| Writer.GeneratePackage | writer.py:157-183 | the article is the stripped draft when the draft passes the self-check and the stripped revision otherwise; social and keywords come from that article; the fallback is the five fixed keywords; title, platform and an empty slug are filled in; there are always 1 to 5 non-empty keywords |
| Writer.MetaErrorsMeaning | writer.py:192-201 | `MetaErrors`, the function `validate_meta` is proved equal to, raises `TypeError` exactly when keywords or description has no length; otherwise each message is present exactly when its rule fails, the messages come in the order keywords, description, title, and the list is empty exactly when all three rules pass |
| Writer.ValidateMeta | writer.py:192-201 | the appending method returns exactly `MetaErrors(meta)` |
| Writer.RulesAgreeWithSchema | content_bot.py:53-59 | on a package's metadata with date and slug filled in, the rules never raise, and they pass exactly when `META_SCHEMA` holds and the title is non-empty |
| Writer.SchemaExample | tests/test_basic.py:44-53 | the test suite's metadata record satisfies both the schema and the rules |
| Writer.MissingHeadingErrorInjective | writer.py:129 | distinct headings give distinct messages |
| PyText.Strip | writer.py:45 | the stripped reply has no whitespace at either end and is no longer |
| PyText.StripIdempotent | writer.py:45 | stripping twice is stripping once |
| PyText.StripSlice | writer.py:45 | the stripped text is a slice of the original, with only whitespace cut at both ends |
| PyText.ContainsIff | writer.py:125 | `t in s` holds exactly when `t` occurs at some position |
| PyText.Count | writer.py:130 | non-overlapping occurrences fit in the text, and the count is positive exactly when the needle occurs |
| PyText.CountSplitAfterNewline | writer.py:130 | for a needle without newline, counting splits over a cut made just after a newline |
| PyText.Find | writer.py:119 | the result is the first occurrence at or after the start, or -1 when there is none |
| PyText.SplitJoin | writer.py:114 | splitting a join on one of the separators returns the parts, when no part contains a separator |
| PyText.JoinSplit | writer.py:114 | joining the pieces of a split on a single separator rebuilds the text |
| PyText.LowerAsciiLowers | utils.py:33 | lowering is idempotent, leaves no A to Z, sends A to Z into a to z and keeps every other character |
| Utils.Slugify | utils.py:31-35 | the slug is never empty, uses only `[a-z0-9-]` and has no two adjacent hyphens |
| Utils.SlugifyIdempotent | utils.py:31-35 | slugifying a slug changes nothing |
| Utils.SlugFixedPoint | utils.py:31-35 | every non-empty `[a-z0-9-]` string without `--` is its own slug |
| Utils.SlugShape | utils.py:33-34 | each character of a slug is in `[a-z0-9-]`, and hyphens are never adjacent |
| Utils.SlugFallback | utils.py:35 | a text without ASCII letters, digits or hyphens gives "untitled" |
| Utils.LeadingHyphenSurvives | utils.py:33 | `-abc` stays `-abc`, because `strip` removes whitespace only |
| Utils.SlugifyIgnoresPunctuation | utils.py:33 | a character outside `[a-zA-Z0-9\s-]` added at the end changes nothing |
| Utils.CollapseShape | utils.py:34 | collapsing `[\s-]+` into `-` leaves no `--`, and yields only slug characters from cleaned input |
| Utils.TwoWordSlug | utils.py:33-34 | two alphanumeric words separated by a space become the lower-cased words joined by `-` |
| Utils.HelloWorldSlug | tests/test_basic.py:14 | `slugify("Hello World!")` is `hello-world` |
| Utils.IsoFormat | utils.py:46 | the date folder is ten characters in `YYYY-MM-DD` form, all digits except the two hyphens |
| Utils.IsoRoundTrip | utils.py:46 | reading the folder name back gives the date, so distinct dates get distinct folders |
| Utils.OutputDir | utils.py:38-50 | the path is the base, then the ISO date, then the topic's slug when the topic is non-empty |
| Utils.OutputDirSegments | utils.py:47-49 | the segments added below the base are non-empty and use only `[a-z0-9-]`, so the path stays under the base |
| Utils.OutputDirExample | tests/test_basic.py:12-13 | base `outputs`, topic "My Topic" and 2024-01-02 give `outputs/2024-01-02/my-topic` |

`Utils.MetaSchemaValid` states the schema of utils.py:10-28 directly:
- exactly the six required keys, with no additional properties;
- string values, except for `keywords`;
- `keywords` is an array of exactly five strings;
- the description has 155 to 160 characters.

## Left out

- Backend requests and prompt text (writer.py:38-106 and writer.py:139-155) are left out. `GeneratePackage` takes the text of the article reply and of the revision reply as parameters. The only part of a request it keeps is the `strip` at writer.py:45. The outline reply only feeds the article prompt, so it is not a parameter.
- Audience, word count and tone only appear in prompts, so `GeneratePackage` does not take them. The `requests` ghost out-parameter counts the backend requests instead: outline, article and possibly a revision.
- Configuration loading, `GenerationConfig` and the backend client (writer.py:18-36) are I/O.
- File writing (`ensure_dir`, `write_text`, `write_json`, utils.py:53-65), topic generation (topics.py) and the command-line orchestrator (content_bot.py) are I/O or orchestration. `RulesAgreeWithSchema` models only the orchestrator's validation sequence.
- `date.today()` (utils.py:44-45) is a clock: `OutputDir` takes the date explicitly.
- `OutputDir` models the `Path` as a list of segments, so path normalisation of the base is left out.
- The jsonschema library is left out. `MetaSchemaValid` states the schema of utils.py:10-28 as a predicate.
- `Json` numbers are integers only. JSON floats are left out because no rule or schema entry reads a number.
- `HasFabricatedClaim` uses ASCII word characters for `\b` and ASCII digits for `\d`. Case-insensitive matching is ASCII only. Python's Unicode `\w`, `\d` and IGNORECASE folding differ on non-ASCII text; for example, `ſ`, `ı` and `İ` fold to ASCII letters.
- `LowerAscii` lower-cases only A to Z. Python's `lower` differs only on non-ASCII letters, which the first step of `slugify` removes anyway.

