/** The extraction loop of `main`: after collection, the output path is
    split into base and extension, and for every span in order one `ffmpeg`
    invocation is prepared with the seek offset, the input file, the
    duration and the clip name. */
module Driver {
  import opened Results
  import opened Decimal
  import opened Text
  import opened Timestamps
  import opened Spans
  import opened Collection
  import opened Naming

  /** A program to run and its argument list. */
  datatype Command = Command(program: string, args: seq<string>)

  /** `text` is `whole`, a dot and `frac`: `whole` is `seconds` in shortest
      decimal form and `frac` is exactly three digits denoting `millis`. */
  predicate SecondsDotMillisParts(text: string, whole: string, frac: string, seconds: nat, millis: nat) {
    && text == whole + "." + frac
    && whole != [] && AllDigits(whole) && (|whole| > 1 ==> whole[0] != '0') && Value(whole) == seconds
    && |frac| == 3 && AllDigits(frac) && Value(frac) == millis
  }

  /** `text` shows `seconds` in shortest decimal form, then a dot, then
      exactly three digits denoting `millis`. */
  ghost predicate IsSecondsDotMillis(text: string, seconds: nat, millis: nat) {
    exists whole, frac :: SecondsDotMillisParts(text, whole, frac, seconds, millis)
  }

  /** The `"{}.{:03}"` format: whole seconds, a dot, and the milliseconds
      zero-padded to three digits. */
  function SecondsDotMillis(seconds: nat, millis: nat): (text: string)
    ensures millis < 1000 ==> IsSecondsDotMillis(text, seconds, millis)
  {
    var whole, frac := ToDecimal(seconds), PadLeft(ToDecimal(millis), 3);
    assert millis < 1000 ==> SecondsDotMillisParts(whole + "." + frac, whole, frac, seconds, millis) by {
      if millis < 1000 {
        assert Pow10(3) == 1000;
        ToDecimalShort(millis, 3);
      }
    }
    whole + "." + frac
  }

  /** The seek offset: the start of the span. */
  function Seek(t: Timestamp): (text: string)
    ensures t.milliseconds < 1000 ==> IsSecondsDotMillis(text, t.seconds, t.milliseconds)
  {
    SecondsDotMillis(t.seconds, t.milliseconds)
  }

  /** The clip length in milliseconds, as `main` computes it. Only the
      start's seconds are subtracted and its milliseconds are then added
      back, so the result exceeds the true length by twice the start's
      milliseconds. Since the start is not after the end, the subtraction,
      which comes before the addition, does not underflow. */
  function DurationMs(sp: Span): (total: nat)
    requires Compare(sp.start, sp.end) != Greater
    ensures sp.start.seconds * 1000 <= sp.end.seconds * 1000 + sp.end.milliseconds
    ensures total == TotalMs(sp.end) - TotalMs(sp.start) + 2 * sp.start.milliseconds
    ensures TotalMs(sp.start) <= TotalMs(sp.end) ==> total >= TotalMs(sp.end) - TotalMs(sp.start)
  {
    (sp.end.seconds * 1000 + sp.end.milliseconds) - sp.start.seconds * 1000 + sp.start.milliseconds
  }

  /** The `-t` argument: the duration as seconds and milliseconds. */
  function Duration(sp: Span): (text: string)
    requires Compare(sp.start, sp.end) != Greater
    ensures IsSecondsDotMillis(text, DurationMs(sp) / 1000, DurationMs(sp) % 1000)
  {
    var total := DurationMs(sp);
    SecondsDotMillis(total / 1000, total % 1000)
  }

  /** `opt.output.unwrap_or(opt.file)`. */
  function OutputPath(file: string, output: Option<string>): string {
    match output
    case Some(path) => path
    case None => file
  }

  /** The `ffmpeg` argument list: seek, input, duration, stream copy, output. */
  function FfmpegArgs(seek: string, input: string, time: string, name: string): (args: seq<string>)
    ensures |args| == 9
    ensures args[0] == "-ss" && args[1] == seek && args[2] == "-i" && args[3] == input
    ensures args[4] == "-t" && args[5] == time && args[6] == "-c" && args[7] == "copy" && args[8] == name
  {
    ["-ss", seek, "-i", input, "-t", time, "-c", "copy", name]
  }

  /** The invocation for clip `index` of `count`: seek to the start, read
      the input, copy for the computed duration, write the clip name. */
  function ExtractionFor(input: string, base: string, ext: string, count: nat, index: nat, sp: Span): (c: Command)
    requires Valid(sp)
    ensures c.program == "ffmpeg" && |c.args| == 9
    ensures c.args[0] == "-ss" && c.args[1] == Seek(sp.start)
    ensures c.args[2] == "-i" && c.args[3] == input
    ensures c.args[4] == "-t" && c.args[5] == Duration(sp)
    ensures c.args[6] == "-c" && c.args[7] == "copy"
    ensures OutputFile(c) == OutputName(base, ext, count, index)
  {
    Command("ffmpeg", FfmpegArgs(Seek(sp.start), input, Duration(sp), OutputName(base, ext, count, index)))
  }

  /** The file an `ffmpeg` invocation writes: its last argument. */
  function OutputFile(c: Command): string {
    if c.args == [] then "" else c.args[|c.args| - 1]
  }

  /** Every collected span was produced by the span parser. */
  lemma CollectedValid(lines: seq<string>, clips: seq<string>)
    ensures Collected(lines, clips).Ok? ==>
      var spans := Collected(lines, clips).value;
      forall i :: 0 <= i < |spans| ==> Valid(spans[i])
  {
    GatheredKeeps(lines, clips, ParseSpan, Valid);
    if Collected(lines, clips).Ok? {
      var gathered := Gathered(lines, clips, ParseSpan).value;
      var spans := Collected(lines, clips).value;
      forall i | 0 <= i < |spans| ensures Valid(spans[i]) {
        assert spans[i] in multiset(gathered);
      }
    }
  }

  /** The sequence `f(0), ..., f(n - 1)`, built by appending. */
  function Build<T>(n: nat, f: nat --> T): (r: seq<T>)
    requires forall k: nat :: k < n ==> f.requires(k)
    ensures |r| == n
  {
    if n == 0 then [] else Build(n - 1, f) + [f(n - 1)]
  }

  /** Entry `i` of a built sequence is `f(i)`. */
  lemma {:induction false} BuildAt<T>(n: nat, f: nat --> T, i: nat)
    requires forall k: nat :: k < n ==> f.requires(k)
    requires i < n
    ensures Build(n, f)[i] == f(i)
  {
    if i < n - 1 {
      BuildAt(n - 1, f, i);
    }
  }

  /** The invocation for each span of a sorted span list. */
  function ExtractionOf(input: string, base: string, ext: string, spans: seq<Span>): nat --> Command {
    (k: nat) requires k < |spans| && Valid(spans[k]) => ExtractionFor(input, base, ext, |spans|, k, spans[k])
  }

  /** The invocations for the first `n` spans of a sorted span list, in order. */
  function Extractions(input: string, base: string, ext: string, spans: seq<Span>, n: nat): (r: seq<Command>)
    requires n <= |spans| && forall i :: 0 <= i < |spans| ==> Valid(spans[i])
    ensures |r| == n
  {
    Build(n, ExtractionOf(input, base, ext, spans))
  }

  /** Invocation number `i` is the one for span number `i`. */
  lemma ExtractionsAt(input: string, base: string, ext: string, spans: seq<Span>, n: nat, i: nat)
    requires n <= |spans| && forall i :: 0 <= i < |spans| ==> Valid(spans[i])
    requires i < n
    ensures Extractions(input, base, ext, spans, n)[i] == ExtractionFor(input, base, ext, |spans|, i, spans[i])
  {
    BuildAt(n, ExtractionOf(input, base, ext, spans), i);
  }

  /** The invocations for the collected spans: the output path must have an
      extension, and then there is one invocation per span. */
  function PlanFor(input: string, path: string, spans: seq<Span>): (r: Result<seq<Command>>)
    requires forall i :: 0 <= i < |spans| ==> Valid(spans[i])
    ensures r.Ok? <==> SplitLast(path, '.').Some?
    ensures r.Err? ==> r.error == NoExtension
    ensures r.Ok? ==> |r.value| == |spans|
  {
    match SplitLast(path, '.')
    case None => Err(NoExtension)
    case Some((base, ext)) => Ok(Extractions(input, base, ext, spans, |spans|))
  }

  /** What a run does, as data: the invocations in order, or the message it
      stops with. Parse errors come first; a missing extension is reported
      only once every span has parsed, even if there are none. */
  function Plan(file: string, output: Option<string>, lines: seq<string>, clips: seq<string>): (r: Result<seq<Command>>)
    ensures Collected(lines, clips).Err? ==> r == Err(Collected(lines, clips).error)
    ensures Collected(lines, clips).Ok? ==>
      && (r.Ok? <==> SplitLast(OutputPath(file, output), '.').Some?)
      && (r.Err? ==> r.error == NoExtension)
      && (r.Ok? ==> |r.value| == |Collected(lines, clips).value|)
  {
    CollectedValid(lines, clips);
    var spans :- Collected(lines, clips);
    PlanFor(file, OutputPath(file, output), spans)
  }

  /** One turn of the extraction loop: the clip name, the seek offset and
      the duration of span number `index`, and the `ffmpeg` arguments. */
  method Invocation(input: string, base: string, ext: string, count: nat, ndigits: nat, index: nat, span: Span)
    returns (command: Command)
    requires Valid(span) && ndigits == Width(count)
    ensures command == ExtractionFor(input, base, ext, count, index, span)
  {
    var name := if count == 1 then base + "_clip." + ext
                else base + "_clip" + PadLeft(ToDecimal(index), ndigits) + "." + ext;
    var seek := SecondsDotMillis(span.start.seconds, span.start.milliseconds);
    var totalMs := (span.end.seconds * 1000 + span.end.milliseconds) - span.start.seconds * 1000 + span.start.milliseconds;
    var time := SecondsDotMillis(totalMs / 1000, totalMs % 1000);
    DurationText(span, totalMs);
    NameText(base, ext, count, ndigits, index, name);
    InvocationFor(input, base, ext, count, index, span, seek, time, name);
    command := Command("ffmpeg", ["-ss", seek, "-i", input, "-t", time, "-c", "copy", name]);
  }

  /** The extraction loop of `main`: splits the output path, computes the
      width, and builds the name, seek and duration of each span in turn. */
  method PlanExtractions(input: string, path: string, spans: seq<Span>) returns (r: Result<seq<Command>>)
    requires forall i :: 0 <= i < |spans| ==> Valid(spans[i])
    ensures r == PlanFor(input, path, spans)
  {
    var split := SplitLast(path, '.');
    if split.None? {
      return Err(NoExtension);
    }
    var (base, ext) := split.value;
    var ndigits := Log10Ceil(|spans|);
    var commands: seq<Command> := [];
    for i := 0 to |spans|
      invariant commands == Extractions(input, base, ext, spans, i)
    {
      var command := Invocation(input, base, ext, |spans|, ndigits, i, spans[i]);
      commands := commands + [command];
    }
    return Ok(commands);
  }

  /** The loop's inline duration arithmetic is `DurationMs`. */
  lemma DurationText(sp: Span, totalMs: nat)
    requires Valid(sp)
    requires totalMs == (sp.end.seconds * 1000 + sp.end.milliseconds) - sp.start.seconds * 1000 + sp.start.milliseconds
    ensures SecondsDotMillis(totalMs / 1000, totalMs % 1000) == Duration(sp)
  {
    assert DurationMs(sp) == totalMs;
  }

  /** The loop's inline clip name is `OutputName`. */
  lemma NameText(base: string, ext: string, count: nat, ndigits: nat, index: nat, name: string)
    requires ndigits == Width(count)
    requires name == if count == 1 then base + "_clip." + ext
                     else base + "_clip" + PadLeft(ToDecimal(index), ndigits) + "." + ext
    ensures name == OutputName(base, ext, count, index)
  {
    if count == 1 {
      assert OutputStem(base, count, index) == base + "_clip";
    } else {
      assert FieldFor(count, index) == PadLeft(ToDecimal(index), ndigits);
    }
  }

  /** The loop's arguments are those of `ExtractionFor`. */
  lemma InvocationFor(input: string, base: string, ext: string, count: nat, index: nat, sp: Span,
                      seek: string, time: string, name: string)
    requires Valid(sp)
    requires seek == Seek(sp.start) && time == Duration(sp) && name == OutputName(base, ext, count, index)
    ensures Command("ffmpeg", ["-ss", seek, "-i", input, "-t", time, "-c", "copy", name]) == ExtractionFor(input, base, ext, count, index, sp)
  {
  }

  /** `main` after argument parsing: collects and sorts the spans, then
      prepares the extractions. */
  method Run(file: string, output: Option<string>, lines: seq<string>, clips: seq<string>)
    returns (r: Result<seq<Command>>)
    ensures r == Plan(file, output, lines, clips)
  {
    var collected := CollectSpans(lines, clips);
    if collected.Err? {
      return Err(collected.error);
    }
    CollectedValid(lines, clips);
    r := PlanExtractions(file, OutputPath(file, output), collected.value);
  }

  /** A `"{}.{:03}"` string reads back, as a timestamp in the bare-seconds
      form, as the seconds and milliseconds it was made from. */
  lemma SecondsDotMillisRoundTrip(seconds: nat, millis: nat)
    requires millis < 1000
    ensures ParseTimestamp(SecondsDotMillis(seconds, millis)) == Ok(Timestamp(seconds, millis))
  {
    var sec := ToDecimal(seconds);
    var frac := PadLeft(ToDecimal(millis), 3);
    assert |frac| == 3 by {
      assert Pow10(3) == 1000;
      ToDecimalShort(millis, 3);
    }
    assert FractionMillis(frac) == millis by {
      assert frac + Zeros(0) == frac;
    }
    var l := SecondsOnly(sec, true, frac);
    assert Render(l) == SecondsDotMillis(seconds, millis) by {
      assert Tail(true, frac) == "." + frac;
    }
    ParseRenderedSeconds(l);
  }

  /** The seek string reads back as the start itself. */
  lemma SeekRoundTrip(t: Timestamp)
    requires t.milliseconds < 1000
    ensures ParseTimestamp(Seek(t)) == Ok(t)
  {
    SecondsDotMillisRoundTrip(t.seconds, t.milliseconds);
  }

  /** The duration string reads back as the computed length: its seconds
      and milliseconds make up exactly `DurationMs`. */
  lemma DurationRoundTrip(sp: Span)
    requires Compare(sp.start, sp.end) != Greater
    ensures ParseTimestamp(Duration(sp)).Ok?
    ensures TotalMs(ParseTimestamp(Duration(sp)).value) == DurationMs(sp)
  {
    var total := DurationMs(sp);
    SecondsDotMillisRoundTrip(total / 1000, total % 1000);
  }

  /** Whatever `--output` is, every invocation reads the input file, and the
      clip names come from the split of the output path at its last `.`:
      the `--output` value when given, otherwise the input file. */
  lemma PlanInputAndOutput(file: string, output: Option<string>, lines: seq<string>, clips: seq<string>, i: nat)
    requires Plan(file, output, lines, clips).Ok? && i < |Plan(file, output, lines, clips).value|
    ensures var plan := Plan(file, output, lines, clips).value;
      |plan[i].args| == 9 && plan[i].args[2] == "-i" && plan[i].args[3] == file
    ensures var plan := Plan(file, output, lines, clips).value;
      output.Some? ==>
        && SplitLast(output.value, '.').Some?
        && var (base, ext) := SplitLast(output.value, '.').value;
           OutputFile(plan[i]) == OutputName(base, ext, |plan|, i)
    ensures var plan := Plan(file, output, lines, clips).value;
      output.None? ==>
        && SplitLast(file, '.').Some?
        && var (base, ext) := SplitLast(file, '.').value;
           OutputFile(plan[i]) == OutputName(base, ext, |plan|, i)
  {
    var spans := Collected(lines, clips).value;
    var (base, ext) := SplitLast(OutputPath(file, output), '.').value;
    CollectedValid(lines, clips);
    ExtractionsAt(file, base, ext, spans, |spans|, i);
  }

  /** Invocation number `i` of a run extracts sorted span number `i`: it
      seeks to that span's start, runs for its duration and writes clip `i`
      of the names split from the output path. */
  lemma PlanAt(file: string, output: Option<string>, lines: seq<string>, clips: seq<string>, i: nat)
    requires Plan(file, output, lines, clips).Ok? && i < |Plan(file, output, lines, clips).value|
    ensures Collected(lines, clips).Ok? && SplitLast(OutputPath(file, output), '.').Some?
    ensures var spans := Collected(lines, clips).value;
      var (base, ext) := SplitLast(OutputPath(file, output), '.').value;
      i < |spans| && Valid(spans[i]) &&
      Plan(file, output, lines, clips).value[i] == ExtractionFor(file, base, ext, |spans|, i, spans[i])
  {
    var spans := Collected(lines, clips).value;
    var (base, ext) := SplitLast(OutputPath(file, output), '.').value;
    CollectedValid(lines, clips);
    ExtractionsAt(file, base, ext, spans, |spans|, i);
  }

  /** One invocation per gathered span: no span is dropped or merged. */
  lemma PlanLength(file: string, output: Option<string>, lines: seq<string>, clips: seq<string>)
    ensures Plan(file, output, lines, clips).Ok? ==>
      |Plan(file, output, lines, clips).value| == |Gathered(lines, clips, ParseSpan).value|
  {
    if Plan(file, output, lines, clips).Ok? {
      var gathered := Gathered(lines, clips, ParseSpan).value;
      assert |multiset(Collected(lines, clips).value)| == |multiset(gathered)|;
    }
  }

  /** No two invocations of a run write the same file. */
  lemma PlanNamesDistinct(file: string, output: Option<string>, lines: seq<string>, clips: seq<string>, i: nat, j: nat)
    requires Plan(file, output, lines, clips).Ok?
    requires i < j < |Plan(file, output, lines, clips).value|
    ensures OutputFile(Plan(file, output, lines, clips).value[i]) != OutputFile(Plan(file, output, lines, clips).value[j])
  {
    var spans := Collected(lines, clips).value;
    var (base, ext) := SplitLast(OutputPath(file, output), '.').value;
    CollectedValid(lines, clips);
    ExtractionsAt(file, base, ext, spans, |spans|, i);
    ExtractionsAt(file, base, ext, spans, |spans|, j);
    OutputNamesDistinct(base, ext, |spans|, i, j);
  }

  /** A line that does not parse stops the run with its message, provided
      every line before it parsed; nothing is extracted. */
  lemma BadLineAborts(file: string, output: Option<string>, lines: seq<string>, clips: seq<string>, i: nat)
    requires i < |lines| && ParseSpan(lines[i]).Err?
    requires forall j :: 0 <= j < i ==> ParseSpan(lines[j]).Ok?
    ensures Plan(file, output, lines, clips) == Err(CannotParse(lines[i]))
  {
    FirstFailure(lines, i, ParseSpan);
  }

  /** A blank line in the timestamps file is not skipped: it aborts the run. */
  lemma BlankLineAborts(file: string, output: Option<string>, clips: seq<string>)
    ensures Plan(file, output, [""], clips) == Err(CannotParse(""))
  {
    NoDashRejected("");
    BadLineAborts(file, output, [""], clips, 0);
  }

  /** Without a `.` in the output path the run fails, even with no spans. */
  lemma NoExtensionAborts(file: string, output: Option<string>)
    requires '.' !in OutputPath(file, output)
    ensures Plan(file, output, [], []) == Err(NoExtension)
  {
    assert Collected([], []) == Ok([]);
  }

  /** With no spans and an extension there is nothing to run. */
  lemma NothingToExtract(file: string, output: Option<string>)
    requires '.' in OutputPath(file, output) && '\n' !in OutputPath(file, output)
    ensures Plan(file, output, [], []) == Ok([])
  {
    assert Collected([], []) == Ok([]);
  }
}
