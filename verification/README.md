# xclips, modelled in Dafny

xclips cuts clips out of a media file. It reads time spans such as `1:30-2:05.5`, one per line of a
timestamps file and one per `--clip` option. It parses every span, sorts the spans, and then runs
one `ffmpeg -ss <seek> -i <input> -t <duration> -c copy <output>` per span. Each clip is named after
the output path (or the input path): `<base>_clip.<ext>` when there is one span, otherwise
`<base>_clip<NN>.<ext>` with a zero-padded index.

This project models the logic of `src/main.rs`:

- `results.dfy`: `Option` and an error-carrying `Result`.
- `decimal.dfy`: ASCII digits, their value (`str::parse`), and the `{}` / `{:0w$}` rendering of
  unsigned integers.
- `text.dfy`: the split at the last separator performed by `^(.*)-(.*)$` and `^(.*)\.(.*)$`. The
  greedy first group ends at the LAST separator, and `.` does not match a line feed.
- `timestamp.dfy`: `Timestamp`, its derived order, and `Timestamp::from_str`. The three anchored
  patterns are recognised by hand and are tried in order. `parse_ms` scales the fraction.
  - The accepted language is also described on its own terms: a `Layout` is rendered to text and
    has a denotation. The parser is proved to accept exactly the rendered layouts and to return
    their denotation.
- `span.dfy`: `Span`, its derived order, and `Span::from_str`.
- `sort.dfy`: sorting by a total order.
  - A reference function gives the sorted permutation.
  - An in-place insertion sort on an array is proved to produce it.
  - The sorted permutation is proved unique.
- `collect.dfy`: the two `for` loops of `main` that push the parsed spans into a vector, and the
  in-place `spans.sort()`. Both are methods over an array, proved against the functions
  `Gathered` / `Collected`.
- `naming.dfy`: `log10_ceil`, as a loop proved against its recursive definition, and the
  output-file names.
- `driver.dfy`: the extraction loop of `main`. It yields the seek and duration strings and the
  `ffmpeg` argument lists, as data. `Run` is `main` after argument parsing.

The duration is computed as the source writes it:
`(end.seconds*1000 + end.milliseconds) - start.seconds*1000 + start.milliseconds`.
This exceeds the length of the span by twice the start's milliseconds. `Driver.DurationMs` states
this, and the rest of the model keeps that value.

## Model

| member | source | states |
|---|---|---|
| Timestamps.Compare | src/main.rs:33-37 | the derived order: equal exactly for equal timestamps, and less exactly when the seconds are smaller or the seconds tie and the milliseconds are smaller |
| Timestamps.CompareByTotalMs | src/main.rs:33-37 | for timestamps with milliseconds below 1000, the derived (seconds, milliseconds) order is the order of the instants in milliseconds |
| Timestamps.DigitRun | src/main.rs:44-46 | the greedy `\d+`: every character before the returned index is a digit, and the character at it (if any) is not |
| Timestamps.MatchFraction | src/main.rs:44-46 | a matched tail `\.?(\d{1,3})?$` captures one to three digits or nothing |
| Timestamps.MatchSecondsForm | src/main.rs:44 | a match of `^(\d+)\.?(\d{1,3})?$` captures a non-empty digit run and a valid fraction |
| Timestamps.MatchMinutesForm | src/main.rs:45 | a match of the `M:SS` pattern captures a digit run, exactly two digits, and a valid fraction |
| Timestamps.MatchHoursForm | src/main.rs:46 | a match of the `H:MM:SS` pattern captures a digit run, two groups of exactly two digits, and a valid fraction |
| Timestamps.ParseMs | src/main.rs:48-53 | `parse_ms` is always below 1000 milliseconds |
| Timestamps.ParseMsScale | src/main.rs:48-53 | a captured fraction of n digits is worth its value times 10^(3-n) |
| Timestamps.ParseMsPadded | src/main.rs:48-53 | `parse_ms` equals reading the fraction right-padded with zeros to three digits |
| Timestamps.ParseTimestamp | src/main.rs:39-78 | a parsed timestamp has milliseconds below 1000, and every failure is "not a valid timestamp" |
| Timestamps.SecondsFormOf | src/main.rs:44 | a digit run followed by a '.' and up to three digits, or by nothing, matches the first pattern with exactly those captures; without the '.' trailing digits would belong to the seconds run, so a fraction needs the dot |
| Timestamps.MinutesFormOf | src/main.rs:44-45 | `M:SS` text fails the first pattern and matches the second with the expected captures |
| Timestamps.HoursFormOf | src/main.rs:44-46 | `H:MM:SS` text fails the first two patterns and matches the third with the expected captures |
| Timestamps.HoursMeaning | src/main.rs:66-73 | the seconds formula of the third case applied to a layout's fields is that layout's denotation |
| Timestamps.ParseRenderedSeconds | src/main.rs:54-58 | every well-formed bare-seconds layout parses to its denotation |
| Timestamps.ParseRenderedMinSec | src/main.rs:59-65 | every well-formed `M:SS` layout parses to its denotation |
| Timestamps.ParseRenderedHourMinSec | src/main.rs:66-73 | every well-formed `H:MM:SS` layout parses to its denotation |
| Timestamps.ParseRendered | src/main.rs:54-76 | the parser accepts the rendering of every well-formed layout and returns its denotation |
| Timestamps.ParsedSeconds | src/main.rs:44 | whatever the first pattern matches is a rendered bare-seconds layout whose fields are the captures |
| Timestamps.ParsedMinSec | src/main.rs:45 | whatever the second pattern matches is a rendered `M:SS` layout whose fields are the captures |
| Timestamps.ParsedHourMinSec | src/main.rs:46 | whatever the third pattern matches is a rendered `H:MM:SS` layout whose fields are the captures |
| Timestamps.ParsedIsRendered | src/main.rs:54-76 | every accepted text is the rendering of a well-formed layout, and the parse result is that layout's denotation |
| Timestamps.AcceptedIffLayout | src/main.rs:54-76 | a text is accepted if and only if it renders some well-formed layout |
| Timestamps.AcceptedChars | src/main.rs:44-46 | an accepted text holds only digits, ':' and '.', so it holds neither a dash nor a line feed |
| Timestamps.NonDigitStartRejected | src/main.rs:74-76 | text that is empty or does not start with a digit is rejected |
| Timestamps.RoundTripHMS | src/main.rs:66-73 | `H:MM:SS.mmm` with m, s below 100 and mmm below 1000 parses to 3600h + 60m + s seconds and mmm milliseconds |
| Timestamps.FractionExamples | src/main.rs:48-53 | "1.5" is 1 s 500 ms and "1.05" is 1 s 50 ms |
| Timestamps.MoreFractionExamples | src/main.rs:48-53 | "1.005" is 1 s 5 ms; "12." (a dot with no digits) is 12 s 0 ms |
| Timestamps.FormatExamples | src/main.rs:54-65 | "90" and "1:30" both parse to 90 s |
| Timestamps.HoursExample | src/main.rs:66-73 | "1:01:30" parses to 3690 s |
| Timestamps.UncheckedFieldExample | src/main.rs:59-65 | "1:99" is accepted as 159 s: two-digit fields are not range-checked |
| Timestamps.UndottedFractionExample | src/main.rs:45 | in "1:3045" the digits after the two-digit seconds are the fraction: 90 s 450 ms |
| Timestamps.BareDigitsAreSeconds | src/main.rs:54-58 | a bare run of digits is all seconds with 0 ms, never seconds plus a fraction |
| Timestamps.RejectedExamples | src/main.rs:74-76 | "1:5", "1.2345", "1:30:5", "", "-1" and ".5" are rejected |
| Decimal.ValueBelowPow10 | src/main.rs:50 | a string of n digits, as `parse` reads it, denotes a number below 10^n |
| Decimal.ValueAppend | src/main.rs:50 | the number denoted by digits a followed by digits b is value(a)·10^len(b) + value(b), the positional reading `parse` performs |
| Decimal.ToDecimal | src/main.rs:160 | `{}` of an unsigned integer is a non-empty digit string with no leading zero whose value is the integer |
| Decimal.PadLeft | src/main.rs:157 | zero padding keeps the digits and the value, gives length max(width, original), and ends with the original digits |
| Text.SplitLast | src/main.rs:91-96 | a match splits the text at its last separator into the two groups; there is no match exactly when the separator is absent or a line feed is present |
| Text.SplitLastJoin | src/main.rs:91-96 | joining two parts, the second without a separator, and splitting again gives the parts back |
| Spans.ParseSpan | src/main.rs:86-104 | a parsed span never starts after it ends and both ends have milliseconds below 1000; the only errors are the three messages |
| Spans.NoDashRejected | src/main.rs:93-95 | without a dash (or with a line feed) the error is "doesn't contain a dash" |
| Spans.SideRejected | src/main.rs:97-98 | after the split, the result is the timestamp error exactly when either side fails to parse |
| Spans.ParseJoined | src/main.rs:97-102 | two valid timestamps joined by a dash give their span, or "end is before start" exactly when start > end; equal ends are accepted |
| Spans.CompareSpans | src/main.rs:80-84 | the derived span order: equal exactly for equal spans, and less exactly when the start is less or the starts are equal and the end is less |
| Spans.CompareSpansByTotalMs | src/main.rs:80-84 | the derived span order is the lexicographic order of (start, end) in milliseconds, and ties are equal spans |
| Spans.SpanLeTotalOrder | src/main.rs:80-84 | the derived span order is total, antisymmetric and transitive |
| Spans.OrderedSpanExample | src/main.rs:86-104 | "3-5" is the span from 3 s to 5 s |
| Spans.ReversedSpanExample | src/main.rs:99-101 | "5-3" gives "end is before start" |
| Spans.ManyDashesExample | src/main.rs:91-98 | "1-2-3" splits at the last dash and its start "1-2" is not a timestamp |
| Spans.MalformedSpanExample | src/main.rs:97 | "abc-def" gives the timestamp error |
| Sorting.Insert | src/main.rs:138 | inserting adds exactly one element and keeps a sorted sequence sorted |
| Sorting.SortedSeq | src/main.rs:138 | the reference sort is sorted and a permutation of its input |
| Sorting.SortedUnique | src/main.rs:138 | under a total order two sorted permutations of the same elements are equal, so any sorting algorithm gives the same result |
| Sorting.InsertionSort | src/main.rs:138 | the array ends sorted and is a permutation of its old contents |
| Sorting.SiftDown | src/main.rs:138 | one pass extends the sorted prefix by one element and permutes the array |
| Sorting.SwapOrder | src/main.rs:138 | exchanging two out-of-order neighbours moves the boundary between the two sorted runs one place left |
| Collection.ParseAll | src/main.rs:117-128 | the texts all parse exactly when the loop completes; it then holds one span per text, in order, each being that text's parse |
| Collection.FirstFailure | src/main.rs:119-122 | the run stops with "cannot parse … as a time span" for the first text that fails |
| Collection.GatheredKeeps | src/main.rs:110-137 | every gathered span came from a successful parse, so it has any property that every parse result has |
| Collection.Gathered | src/main.rs:110-137 | gathering succeeds exactly when every file line and every clip parses; a bad file line is reported before any clip; on success there is one span per text, file lines first, each the parse of its text |
| Collection.SortedSpans | src/main.rs:138 | the sorted spans are in the derived order and are a permutation of the gathered ones, with no deduplication |
| Collection.ParseInto | src/main.rs:117-128 | the loop fails exactly when some text fails, with that text's message; otherwise it stores the parsed spans in order and leaves earlier entries unchanged |
| Collection.GatherInto | src/main.rs:110-137 | both loops fill the array with the file spans followed by the clip spans, or fail with the first bad text |
| Collection.SortSpans | src/main.rs:138 | sorting the array in place yields the reference sorted permutation of its old contents |
| Collection.CollectSpans | src/main.rs:110-138 | collection returns exactly the specified result: the first parse error, or the gathered spans sorted |
| Collection.Collected | src/main.rs:110-138 | collection fails exactly when gathering fails, with the same message; otherwise its result is sorted and a permutation of the file spans followed by the clip spans |
| Naming.Width | src/main.rs:182-189 | the width is at least 1 |
| Naming.Log10Ceil | src/main.rs:182-189 | the loop returns the width: 1, plus one for each division by 10 while the value exceeds 10 |
| Naming.WidthBounds | src/main.rs:182-189 | the width w satisfies n < 11·10^(w-1) and, when w > 1, 11·10^(w-2) ≤ n |
| Naming.WidthUnique | src/main.rs:182-189 | any w ≥ 1 meeting those bounds is the width |
| Naming.WidthMonotone | src/main.rs:182-189 | the width is monotone |
| Naming.WidthExamples | src/main.rs:182-189 | the width of 10 is 1, of 11 is 2, of 100, 101 and 109 is 2, and of 110 is 3 |
| Naming.IndexDigits | src/main.rs:151-157 | every index below the span count has at most one digit more than the width |
| Naming.WidthShortfall | src/main.rs:151-157 | with 101 spans the width is 2 but index 100 has three digits |
| Naming.IndexField | src/main.rs:157 | the index field is digits, denotes the index, and is as long as the longer of the width and the index's digits |
| Naming.OutputName | src/main.rs:153-158 | a clip name is the base, `_clip`, an index field and `.` with the extension; the field is empty for a single span, and otherwise is digits denoting the index, exactly as long as the wider of the width and the index's own digit count, as `{:0width$}` pads |
| Naming.OutputNameExtension | src/main.rs:143-158 | a clip name splits at its last '.' into its stem and the output path's extension |
| Naming.OutputNamesDistinct | src/main.rs:153-158 | different indices below the span count give different names |
| Naming.OutputNameExamples | src/main.rs:153-158 | `movie`/`mp4` gives `movie_clip.mp4` for one span and `movie_clip03.mp4` for index 3 of 12 |
| Driver.DurationMs | src/main.rs:161-163 | the subtraction, done first, does not underflow: start seconds·1000 ≤ end seconds·1000 + end milliseconds; the result is the span's length in milliseconds plus twice the start's milliseconds, so it is never below the length |
| Driver.SecondsDotMillis | src/main.rs:160 | `{}.{:03}` with milliseconds below 1000 is the seconds in shortest decimal form, a dot, and three digits denoting the milliseconds |
| Driver.Seek | src/main.rs:160 | the seek text is the start's seconds in shortest decimal form, a dot, and three digits denoting the start's milliseconds |
| Driver.Duration | src/main.rs:161-166 | the `-t` text is the computed duration's whole seconds in shortest decimal form, a dot, and three digits denoting its remaining milliseconds |
| Driver.ExtractionFor | src/main.rs:168-169 | the invocation runs `ffmpeg` with nine arguments: `-ss` and the seek text, `-i` and the input, `-t` and the duration text, `-c copy`, and last the clip name, which is the file it writes |
| Driver.CollectedValid | src/main.rs:99-102 | every collected span is valid: it does not start after it ends |
| Driver.ExtractionsAt | src/main.rs:153-169 | invocation number i is the one built for span number i of the sorted list |
| Driver.Invocation | src/main.rs:153-169 | one turn of the loop builds exactly the specified arguments: seek, input, duration, copy, name |
| Driver.PlanFor | src/main.rs:143-158 | the extractions fail with the missing-extension message exactly when the output path has no '.', and otherwise give one invocation per span |
| Driver.PlanExtractions | src/main.rs:143-179 | the loop fails with "output filename does not have a file extension" when the path has no '.', and otherwise yields one invocation per span in order |
| Driver.Plan | src/main.rs:106-179 | a collection error ends the run with its message; after collection the run fails with the missing-extension message exactly when the output path has no '.', and otherwise has one invocation per collected span |
| Driver.Run | src/main.rs:106-179 | a run yields exactly the specified plan: a parse error first, then a missing extension, otherwise the invocations |
| Driver.SecondsDotMillisRoundTrip | src/main.rs:160 | `{}.{:03}` of seconds and milliseconds below 1000 reads back as that timestamp |
| Driver.SeekRoundTrip | src/main.rs:160 | the seek string reads back as the span's start |
| Driver.DurationRoundTrip | src/main.rs:161-166 | the duration string reads back as a timestamp whose total milliseconds are the computed duration |
| Driver.PlanInputAndOutput | src/main.rs:140-157 | every invocation reads the input file with `-i`, whatever `--output` is, and writes the clip name built from the split of the `--output` path when it is given, otherwise of the input path |
| Driver.PlanAt | src/main.rs:153-169 | invocation i of a successful run is the extraction of sorted span i: its seek is that span's start, its `-t` that span's duration, and its file clip i of the names split from the output path |
| Driver.PlanLength | src/main.rs:153 | there is one invocation per gathered span: none is dropped or merged |
| Driver.PlanNamesDistinct | src/main.rs:153-158 | no two invocations of a run write the same file |
| Driver.BadLineAborts | src/main.rs:117-122 | a line that does not parse, after lines that do, ends the run with its message and no invocation |
| Driver.BlankLineAborts | src/main.rs:117-122 | a blank line in the timestamps file is not skipped: it ends the run |
| Driver.NoExtensionAborts | src/main.rs:145-148 | an output path without '.' fails the run even when there are no spans |
| Driver.NothingToExtract | src/main.rs:143-153 | with no spans and an extension, the run has nothing to invoke |

## Left out

- Command-line parsing with StructOpt. The file, the optional output path, the lines of the
  timestamps file and the `--clip` values are parameters. A run without `-f` passes no lines.
- Opening and reading the timestamps file, with its "cannot open file" and "error reading file"
  exits. The lines arrive as a sequence without line terminators.
- Spawning `ffmpeg`, the "failed to spawn ffmpeg" exit and the check of its exit status. The model
  produces the argument lists, in order, as data.
- `eprintln!` followed by `process::exit(1)`. This is modelled as an `Err` carrying the message.
  Nothing before the error is observable.
- The regex engine and `lazy_static`. The four patterns are recognised by hand.
- Timestamps.DigitRun: the regex crate's `\d` also matches non-ASCII decimal digits, on which the
  later `parse().unwrap()` panics. The model counts only ASCII digits, so such text is rejected
  instead of panicking.
- Timestamps.ParseTimestamp: u32 overflow is not modelled; values are unbounded naturals, and so
  is the u64 duration. In the source, `parse().unwrap()` panics on a digit run above 4294967295.
  The u32 arithmetic `60 * m + s` of the minutes form (src/main.rs:63) and
  `60*60*h + 60*m + s` of the hours form (src/main.rs:71) panics on overflow only in a build with
  overflow checks; a default release build wraps modulo 2^32 and returns a wrong timestamp. The
  model returns the exact sum in both forms.
- Panics from non-UTF-8 paths (`into_string().unwrap()`, `to_str().unwrap()`).
- Collection.GatherInto: the growing `Vec` is modelled as an array created with room for every
  text and filled in order.
- Collection.SortSpans: `slice::sort` (a stable merge sort) is modelled by an insertion sort. The
  result is the same because `Sorting.SortedUnique` shows a sorted permutation is unique when ties
  are equal values, which holds for the derived order.
- Collection.ParseAll, Collection.Gathered, Collection.ParseInto and Collection.GatherInto take
  the span parser as a parameter. The run passes `Spans.ParseSpan`.
- Driver.Extractions: its own contract gives only the length. The content of each entry is stated
  by `Driver.ExtractionsAt`.
