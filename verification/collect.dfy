/** Span collection in `main`: every line of the timestamps file, then every
    `--clip` value, is parsed and pushed onto a vector, which is then sorted
    in place. Any text that does not parse ends the run. */
module Collection {
  import opened Results
  import opened Spans
  import opened Sorting

  /** The message printed for a text that is not a span. */
  function CannotParse(text: string): string {
    "cannot parse " + text + " as a time span"
  }

  /** Parses each text in order with `parse`; the first one that fails aborts
      the run with its message. The parser is a parameter so that these
      proofs hold for any parser; the run uses `ParseSpan`. */
  function ParseAll(texts: seq<string>, parse: string -> Result<Span>): (r: Result<seq<Span>>)
    ensures r.Ok? <==> forall i :: 0 <= i < |texts| ==> parse(texts[i]).Ok?
    ensures r.Ok? ==> |r.value| == |texts| && forall i :: 0 <= i < |texts| ==> parse(texts[i]) == Ok(r.value[i])
  {
    if texts == [] then Ok([])
    else
      match parse(texts[0])
      case Err(_) => Err(CannotParse(texts[0]))
      case Ok(first) =>
        var rest :- ParseAll(texts[1..], parse);
        assert forall i :: 0 < i < |texts| ==> texts[i] == texts[1..][i - 1];
        Ok([first] + rest)
  }

  /** The error reported is that of the first text that fails. */
  lemma {:induction false} FirstFailure(texts: seq<string>, i: nat, parse: string -> Result<Span>)
    requires i < |texts| && parse(texts[i]).Err?
    requires forall j :: 0 <= j < i ==> parse(texts[j]).Ok?
    ensures ParseAll(texts, parse) == Err(CannotParse(texts[i]))
  {
    if i > 0 {
      assert forall j :: 0 <= j < i - 1 ==> texts[1..][j] == texts[j + 1];
      FirstFailure(texts[1..], i - 1, parse);
    }
  }

  /** The spans to extract before sorting: file lines first, then clip values. */
  function Gathered(lines: seq<string>, clips: seq<string>, parse: string -> Result<Span>): (r: Result<seq<Span>>)
    ensures r.Ok? <==>
      (forall i :: 0 <= i < |lines| ==> parse(lines[i]).Ok?) && (forall j :: 0 <= j < |clips| ==> parse(clips[j]).Ok?)
    ensures ParseAll(lines, parse).Err? ==> r == Err(ParseAll(lines, parse).error)
    ensures ParseAll(lines, parse).Ok? && ParseAll(clips, parse).Err? ==> r == Err(ParseAll(clips, parse).error)
    ensures r.Ok? ==>
      && |r.value| == |lines| + |clips|
      && (forall i :: 0 <= i < |lines| ==> parse(lines[i]) == Ok(r.value[i]))
      && (forall j :: 0 <= j < |clips| ==> parse(clips[j]) == Ok(r.value[|lines| + j]))
  {
    var fromFile :- ParseAll(lines, parse);
    var fromClips :- ParseAll(clips, parse);
    Ok(fromFile + fromClips)
  }

  /** Every gathered span is the result of parsing one of the texts, so it
      has any property that every successful parse has. */
  lemma GatheredKeeps(lines: seq<string>, clips: seq<string>, parse: string -> Result<Span>, keep: Span -> bool)
    requires forall t :: parse(t).Ok? ==> keep(parse(t).value)
    ensures Gathered(lines, clips, parse).Ok? ==> forall sp :: sp in Gathered(lines, clips, parse).value ==> keep(sp)
  {
    if Gathered(lines, clips, parse).Ok? {
      var fromFile, fromClips := ParseAll(lines, parse).value, ParseAll(clips, parse).value;
      assert forall k :: 0 <= k < |fromFile| ==> keep(fromFile[k]) by {
        forall k | 0 <= k < |fromFile| ensures keep(fromFile[k]) {
          assert parse(lines[k]) == Ok(fromFile[k]);
        }
      }
      assert forall k :: 0 <= k < |fromClips| ==> keep(fromClips[k]) by {
        forall k | 0 <= k < |fromClips| ensures keep(fromClips[k]) {
          assert parse(clips[k]) == Ok(fromClips[k]);
        }
      }
    }
  }

  /** The spans in the derived order. */
  function SortedSpans(spans: seq<Span>): (r: seq<Span>)
    ensures Sorted(r, SpanLe) && multiset(r) == multiset(spans)
  {
    SpanLeTotalOrder();
    SortedSeq(spans, SpanLe)
  }

  /** Gathering then sorting: the spans the run extracts, in order. */
  function Collected(lines: seq<string>, clips: seq<string>): (r: Result<seq<Span>>)
    ensures r.Err? <==> Gathered(lines, clips, ParseSpan).Err?
    ensures r.Err? ==> r.error == Gathered(lines, clips, ParseSpan).error
    ensures r.Ok? ==> Sorted(r.value, SpanLe) && multiset(r.value) == multiset(Gathered(lines, clips, ParseSpan).value)
  {
    var spans :- Gathered(lines, clips, ParseSpan);
    Ok(SortedSpans(spans))
  }

  /** `spans.sort()`. Because ties under the derived order are equal spans,
      the result does not depend on the sorting algorithm. */
  method SortSpans(a: array<Span>)
    modifies a
    ensures a[..] == SortedSpans(old(a[..]))
  {
    SpanLeTotalOrder();
    InsertionSort(a, SpanLe);
    SortedUnique(a[..], SortedSpans(old(a[..])), SpanLe);
  }

  /** One of the two `for` loops of `main`: parses `texts` in order and
      stores them from `a[offset]` on, stopping at the first text that fails
      with that text's message. */
  method ParseInto(texts: seq<string>, parse: string -> Result<Span>, a: array<Span>, offset: nat)
    returns (failure: Option<string>)
    requires offset + |texts| <= a.Length
    modifies a
    ensures failure.Some? <==> ParseAll(texts, parse).Err?
    ensures failure.Some? ==> failure.value == ParseAll(texts, parse).error
    ensures failure.None? ==> a[offset..offset + |texts|] == ParseAll(texts, parse).value
    ensures a[..offset] == old(a[..offset])
  {
    for i := 0 to |texts|
      invariant forall k :: 0 <= k < i ==> parse(texts[k]) == Ok(a[offset + k])
      invariant a[..offset] == old(a[..offset])
    {
      var parsed := parse(texts[i]);
      if parsed.Err? {
        FirstFailure(texts, i, parse);
        return Some(CannotParse(texts[i]));
      }
      a[offset + i] := parsed.value;
    }
    return None;
  }

  /** Both `for` loops of `main`: the file lines, then the clip values,
      stored in order into `a`. */
  method GatherInto(lines: seq<string>, clips: seq<string>, parse: string -> Result<Span>, a: array<Span>)
    returns (failure: Option<string>)
    requires a.Length == |lines| + |clips|
    modifies a
    ensures failure.Some? <==> Gathered(lines, clips, parse).Err?
    ensures failure.Some? ==> failure.value == Gathered(lines, clips, parse).error
    ensures failure.None? ==> a[..] == Gathered(lines, clips, parse).value
  {
    failure := ParseInto(lines, parse, a, 0);
    if failure.Some? {
      return;
    }
    ghost var fromFile := a[..|lines|];
    failure := ParseInto(clips, parse, a, |lines|);
    if failure.Some? {
      return;
    }
    assert a[..] == fromFile + a[|lines|..];
  }

  /** Collects the file lines, then the clip values, and sorts them. */
  method CollectSpans(lines: seq<string>, clips: seq<string>) returns (r: Result<seq<Span>>)
    ensures r == Collected(lines, clips)
  {
    var spans := new Span[|lines| + |clips|];
    var failure := GatherInto(lines, clips, ParseSpan, spans);
    if failure.Some? {
      return Err(failure.value);
    }
    SortSpans(spans);
    r := Ok(spans[..]);
  }
}
