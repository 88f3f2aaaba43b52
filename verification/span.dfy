/** Spans: the `Span` record with its derived ordering and the `FromStr`
    parser built on the pattern `^(.*)-(.*)$`. */
module Spans {
  import opened Results
  import opened Decimal
  import opened Text
  import opened Timestamps
  import opened Sorting

  const NoDash := "doesn't contain a dash"
  const EndBeforeStart := "end is before start"

  datatype Span = Span(start: Timestamp, end: Timestamp)

  /** The derived `Ord`: start first, end as tie-break. */
  function CompareSpans(a: Span, b: Span): (r: Ordering)
    ensures r == Equal <==> a == b
    ensures r == Less <==> Compare(a.start, b.start) == Less || (a.start == b.start && Compare(a.end, b.end) == Less)
  {
    match Compare(a.start, b.start)
    case Equal => Compare(a.end, b.end)
    case other => other
  }

  predicate SpanLe(a: Span, b: Span) {
    CompareSpans(a, b) != Greater
  }

  /** What every parsed span satisfies: it does not end before it starts,
      and both ends have a millisecond part below 1000. */
  predicate Valid(sp: Span) {
    && Compare(sp.start, sp.end) != Greater
    && sp.start.milliseconds < 1000
    && sp.end.milliseconds < 1000
  }

  /** `Span::from_str`: split at the last dash, parse the start, then the end,
      and refuse a start that comes after the end. */
  function ParseSpan(s: string): (r: Result<Span>)
    ensures r.Ok? ==> Valid(r.value)
    ensures r.Err? ==> r.error == NoDash || r.error == NotATimestamp || r.error == EndBeforeStart
  {
    match SplitLast(s, '-')
    case None => Err(NoDash)
    case Some((startText, endText)) =>
      var start :- ParseTimestamp(startText);
      var end :- ParseTimestamp(endText);
      if Compare(start, end) == Greater then Err(EndBeforeStart)
      else Ok(Span(start, end))
  }

  /** Without a dash (or with a line feed, which the pattern's `.` does not
      match) the text is not a span. */
  lemma NoDashRejected(s: string)
    requires '-' !in s || '\n' in s
    ensures ParseSpan(s) == Err(NoDash)
  {
  }

  /** Either side failing to parse gives the timestamp error. */
  lemma SideRejected(s: string, startText: string, endText: string)
    requires SplitLast(s, '-') == Some((startText, endText))
    ensures ParseSpan(s) == Err(NotATimestamp) <==> ParseTimestamp(startText).Err? || ParseTimestamp(endText).Err?
  {
  }

  /** Two timestamp texts joined by a dash parse to the span of their values,
      unless the end comes before the start. Equal ends are accepted. */
  lemma ParseJoined(startText: string, endText: string)
    requires ParseTimestamp(startText).Ok? && ParseTimestamp(endText).Ok?
    ensures var start, end := ParseTimestamp(startText).value, ParseTimestamp(endText).value;
      ParseSpan(startText + "-" + endText)
        == if Compare(start, end) == Greater then Err(EndBeforeStart) else Ok(Span(start, end))
  {
    AcceptedChars(startText);
    AcceptedChars(endText);
    SplitLastJoin(startText, endText, '-');
  }

  /** For the timestamps the parser produces, the derived order on spans is
      the order of (start, end) as instants in milliseconds. */
  lemma CompareSpansByTotalMs(a: Span, b: Span)
    requires Valid(a) && Valid(b)
    ensures CompareSpans(a, b) == Less <==>
      TotalMs(a.start) < TotalMs(b.start) || (TotalMs(a.start) == TotalMs(b.start) && TotalMs(a.end) < TotalMs(b.end))
    ensures CompareSpans(a, b) == Equal <==> a == b
  {
    CompareByTotalMs(a.start, b.start);
    CompareByTotalMs(a.end, b.end);
    if TotalMs(a.start) == TotalMs(b.start) {
      assert a.start == b.start;
    }
    if TotalMs(a.end) == TotalMs(b.end) {
      assert a.end == b.end;
    }
  }

  /** The derived order on spans is a total order, so sorting by it is
      well defined. */
  lemma SpanLeTotalOrder()
    ensures TotalOrder(SpanLe)
  {
  }

  /** `3-5` is the span from 3 s to 5 s. */
  lemma OrderedSpanExample()
    ensures ParseSpan("3-5") == Ok(Span(Timestamp(3, 0), Timestamp(5, 0)))
  {
    ValueOfOne("3");
    ValueOfOne("5");
    BareDigitsAreSeconds("3");
    BareDigitsAreSeconds("5");
    assert "3" + "-" + "5" == "3-5";
    ParseJoined("3", "5");
  }

  /** `5-3` ends before it starts. */
  lemma ReversedSpanExample()
    ensures ParseSpan("5-3") == Err(EndBeforeStart)
  {
    ValueOfOne("3");
    ValueOfOne("5");
    BareDigitsAreSeconds("3");
    BareDigitsAreSeconds("5");
    assert "5" + "-" + "3" == "5-3";
    ParseJoined("5", "3");
  }

  /** With several dashes the start is everything before the last one, so
      it holds a dash and is not a timestamp. */
  lemma ManyDashesExample()
    ensures ParseSpan("1-2-3") == Err(NotATimestamp)
  {
    SplitLastJoin("1-2", "3", '-');
    assert "1-2" + "-" + "3" == "1-2-3";
    assert "1-2"[1] == '-';
    assert ParseTimestamp("1-2").Err? by {
      if ParseTimestamp("1-2").Ok? {
        AcceptedChars("1-2");
      }
    }
  }

  lemma MalformedSpanExample()
    ensures ParseSpan("abc-def") == Err(NotATimestamp)
  {
    SplitLastJoin("abc", "def", '-');
    assert "abc" + "-" + "def" == "abc-def";
    NonDigitStartRejected("abc");
  }
}
