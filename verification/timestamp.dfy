/** Timestamps: the `Timestamp` record with its derived ordering and the
    `FromStr` parser built from three anchored patterns tried in order,
    `^(\d+)\.?(\d{1,3})?$`, `^(\d+):(\d{2})\.?(\d{1,3})?$` and
    `^(\d+):(\d{2}):(\d{2})\.?(\d{1,3})?$`. The patterns are recognised by
    hand, reproducing the captures the regex engine would report. */
module Timestamps {
  import opened Results
  import opened Decimal

  const NotATimestamp := "not a valid timestamp"

  datatype Timestamp = Timestamp(seconds: nat, milliseconds: nat)

  datatype Ordering = Less | Equal | Greater

  function CompareNat(a: nat, b: nat): Ordering {
    if a < b then Less else if a == b then Equal else Greater
  }

  /** The derived `Ord`: seconds first, milliseconds as tie-break. */
  function Compare(a: Timestamp, b: Timestamp): (r: Ordering)
    ensures r == Equal <==> a == b
    ensures r == Less <==> a.seconds < b.seconds || (a.seconds == b.seconds && a.milliseconds < b.milliseconds)
  {
    match CompareNat(a.seconds, b.seconds)
    case Equal => CompareNat(a.milliseconds, b.milliseconds)
    case other => other
  }

  function TotalMs(t: Timestamp): nat {
    t.seconds * 1000 + t.milliseconds
  }

  /** For timestamps the parser can produce, the derived order is the order
      of the instants they denote in milliseconds. */
  lemma CompareByTotalMs(a: Timestamp, b: Timestamp)
    requires a.milliseconds < 1000 && b.milliseconds < 1000
    ensures Compare(a, b) == CompareNat(TotalMs(a), TotalMs(b))
  {
    if a.seconds < b.seconds {
      assert TotalMs(a) < (a.seconds + 1) * 1000 <= TotalMs(b);
    } else if b.seconds < a.seconds {
      assert TotalMs(b) < (b.seconds + 1) * 1000 <= TotalMs(a);
    }
  }

  // ---------------------------------------------------------------------
  // Recognising the three patterns

  /** What `\d{2}` matches. */
  predicate TwoDigits(s: string) {
    |s| == 2 && AllDigits(s)
  }

  /** What the optional group `(\d{1,3})?` may capture. */
  predicate FractionOk(f: Option<string>) {
    f.Some? ==> 1 <= |f.value| <= 3 && AllDigits(f.value)
  }

  /** Length of the longest run of digits at the start of `s`: what a greedy
      `\d+` at the start of the text consumes. */
  function DigitRun(s: string): (k: nat)
    ensures k <= |s| && (forall i :: 0 <= i < k ==> IsDigit(s[i])) && (k < |s| ==> !IsDigit(s[k]))
  {
    DigitRunFrom(s, 0)
  }

  /** The end of the run of digits that starts at index `i`. */
  function DigitRunFrom(s: string, i: nat): (k: nat)
    requires i <= |s|
    ensures i <= k <= |s| && (forall j :: i <= j < k ==> IsDigit(s[j])) && (k < |s| ==> !IsDigit(s[k]))
    decreases |s| - i
  {
    if i == |s| || !IsDigit(s[i]) then i else DigitRunFrom(s, i + 1)
  }

  /** The common tail `\.?(\d{1,3})?$`: `None` if the tail does not match,
      otherwise the capture of the fraction group (absent when empty). */
  function MatchFraction(t: string): (r: Option<Option<string>>)
    ensures r.Some? ==> FractionOk(r.value)
  {
    var digits := if t != [] && t[0] == '.' then t[1..] else t;
    if digits == [] then Some(None)
    else if |digits| <= 3 && AllDigits(digits) then Some(Some(digits))
    else None
  }

  /** `^(\d+)\.?(\d{1,3})?$`: the seconds group takes the whole leading run of digits. */
  function MatchSecondsForm(s: string): (r: Option<(string, Option<string>)>)
    ensures r.Some? ==> r.value.0 != [] && AllDigits(r.value.0) && FractionOk(r.value.1)
  {
    var k := DigitRun(s);
    if k == 0 then None
    else
      match MatchFraction(s[k..])
      case None => None
      case Some(f) => Some((s[..k], f))
  }

  /** `^(\d+):(\d{2})\.?(\d{1,3})?$` */
  function MatchMinutesForm(s: string): (r: Option<(string, string, Option<string>)>)
    ensures r.Some? ==> r.value.0 != [] && AllDigits(r.value.0) && TwoDigits(r.value.1) && FractionOk(r.value.2)
  {
    var k := DigitRun(s);
    if 0 < k && k + 3 <= |s| && s[k] == ':' && TwoDigits(s[k + 1..k + 3]) then
      match MatchFraction(s[k + 3..])
      case None => None
      case Some(f) => Some((s[..k], s[k + 1..k + 3], f))
    else None
  }

  /** `^(\d+):(\d{2}):(\d{2})\.?(\d{1,3})?$` */
  function MatchHoursForm(s: string): (r: Option<(string, string, string, Option<string>)>)
    ensures r.Some? ==>
      r.value.0 != [] && AllDigits(r.value.0) && TwoDigits(r.value.1) && TwoDigits(r.value.2) && FractionOk(r.value.3)
  {
    var k := DigitRun(s);
    if 0 < k && k + 6 <= |s| && s[k] == ':' && TwoDigits(s[k + 1..k + 3])
      && s[k + 3] == ':' && TwoDigits(s[k + 4..k + 6])
    then
      match MatchFraction(s[k + 6..])
      case None => None
      case Some(f) => Some((s[..k], s[k + 1..k + 3], s[k + 4..k + 6], f))
    else None
  }

  /** `parse_ms`: a fraction of n digits is worth its value times 10^(3-n)
      milliseconds (the scale written out for n = 1, 2, 3); no fraction is
      worth 0. */
  function ParseMs(ms: Option<string>): (r: nat)
    requires FractionOk(ms)
    ensures r < 1000
  {
    match ms
    case None => 0
    case Some(v) =>
      ValueBelowPow10(v);
      assert Pow10(1) == 10 && Pow10(2) == 100 && Pow10(3) == 1000;
      if |v| == 1 then 100 * Value(v)
      else if |v| == 2 then 10 * Value(v)
      else Value(v)
  }

  /** The scaling of `parse_ms` as the source writes it: `n * 10^(3 - len)`. */
  lemma ParseMsScale(v: string)
    requires FractionOk(Some(v))
    ensures ParseMs(Some(v)) == Value(v) * Pow10(3 - |v|)
  {
    assert Pow10(0) == 1 && Pow10(1) == 10 && Pow10(2) == 100;
  }

  /** `Timestamp::from_str`. */
  function ParseTimestamp(s: string): (r: Result<Timestamp>)
    ensures r.Ok? ==> r.value.milliseconds < 1000
    ensures r.Err? ==> r.error == NotATimestamp
  {
    match MatchSecondsForm(s)
    case Some((sec, frac)) =>
      Ok(Timestamp(Value(sec), ParseMs(frac)))
    case None =>
      match MatchMinutesForm(s)
      case Some((m, sec, frac)) =>
        Ok(Timestamp(60 * Value(m) + Value(sec), ParseMs(frac)))
      case None =>
        match MatchHoursForm(s)
        case Some((h, m, sec, frac)) =>
          Ok(Timestamp(60 * 60 * Value(h) + 60 * Value(m) + Value(sec), ParseMs(frac)))
        case None =>
          Err(NotATimestamp)
  }

  // ---------------------------------------------------------------------
  // The accepted language, stated independently of the recogniser

  /** The layouts a timestamp may be written in: a leading field of any
      number of digits, up to two further fields of exactly two digits, an
      optional '.' and up to three fraction digits. */
  datatype Layout =
    | SecondsOnly(sec: string, dot: bool, frac: string)
    | MinSec(min: string, sec: string, dot: bool, frac: string)
    | HourMinSec(hour: string, min: string, sec: string, dot: bool, frac: string)

  predicate WellFormed(l: Layout) {
    && |l.frac| <= 3 && AllDigits(l.frac)
    && match l
       // a bare digit run is all seconds, so fraction digits need the '.'
       case SecondsOnly(sec, dot, frac) => sec != [] && AllDigits(sec) && (dot || frac == [])
       case MinSec(min, sec, _, _) => min != [] && AllDigits(min) && TwoDigits(sec)
       case HourMinSec(hour, min, sec, _, _) => hour != [] && AllDigits(hour) && TwoDigits(min) && TwoDigits(sec)
  }

  function Tail(dot: bool, frac: string): string {
    (if dot then "." else "") + frac
  }

  function Render(l: Layout): string {
    match l
    case SecondsOnly(sec, dot, frac) => sec + Tail(dot, frac)
    case MinSec(min, sec, dot, frac) => min + ":" + sec + Tail(dot, frac)
    case HourMinSec(hour, min, sec, dot, frac) => hour + ":" + min + ":" + sec + Tail(dot, frac)
  }

  /** Fraction digits read as milliseconds: right-padded with zeros to three digits. */
  function FractionMillis(frac: string): nat
    requires |frac| <= 3 && AllDigits(frac)
  {
    AllDigitsAppend(frac, Zeros(3 - |frac|));
    Value(frac + Zeros(3 - |frac|))
  }

  /** The instant a layout denotes: fields used as linear multipliers, never range-checked. */
  function Denotation(l: Layout): Timestamp
    requires WellFormed(l)
  {
    var ms := FractionMillis(l.frac);
    match l
    case SecondsOnly(sec, _, _) => Timestamp(Value(sec), ms)
    case MinSec(min, sec, _, _) => Timestamp(Value(min) * 60 + Value(sec), ms)
    case HourMinSec(hour, min, sec, _, _) => Timestamp(Value(hour) * 3600 + Value(min) * 60 + Value(sec), ms)
  }

  /** Fraction scaling: `parse_ms` equals the pad-to-three-digits reading. */
  lemma ParseMsPadded(v: string)
    requires FractionOk(Some(v))
    ensures ParseMs(Some(v)) == FractionMillis(v)
  {
    ValueAppend(v, Zeros(3 - |v|));
    ValueOfZeros(3 - |v|);
    ParseMsScale(v);
  }

  /** What the fraction group captures when the fraction digits are `frac`. */
  function FractionCapture(frac: string): Option<string> {
    if frac == [] then None else Some(frac)
  }

  lemma DigitRunOf(a: string, b: string)
    requires AllDigits(a) && (b == [] || !IsDigit(b[0]))
    ensures DigitRun(a + b) == |a|
  {
    assert forall i :: 0 <= i < |a| ==> (a + b)[i] == a[i];
    assert b != [] ==> (a + b)[|a|] == b[0];
  }

  lemma MatchTail(dot: bool, frac: string)
    requires |frac| <= 3 && AllDigits(frac)
    ensures MatchFraction(Tail(dot, frac)) == Some(FractionCapture(frac))
  {
    if dot {
      assert Tail(dot, frac)[1..] == frac;
    } else {
      assert Tail(dot, frac) == frac;
      assert frac != [] ==> IsDigit(frac[0]);
    }
  }

  lemma MatchColon(t: string)
    requires t != [] && t[0] == ':'
    ensures MatchFraction(t) == None
  {
    assert !IsDigit(t[0]);
  }

  lemma ParseMsOfTail(frac: string)
    requires |frac| <= 3 && AllDigits(frac)
    ensures ParseMs(FractionCapture(frac)) == FractionMillis(frac)
  {
    if frac == [] {
      ValueOfZeros(3);
      assert frac + Zeros(3) == Zeros(3);
    } else {
      ParseMsPadded(frac);
    }
  }

  /** The tail a successful `MatchFraction` consumed, as a '.' flag and fraction digits. */
  lemma MatchedTail(t: string) returns (dot: bool, frac: string)
    requires MatchFraction(t).Some?
    ensures |frac| <= 3 && AllDigits(frac) && t == Tail(dot, frac)
    ensures MatchFraction(t).value == FractionCapture(frac)
    ensures !dot ==> t == frac
  {
    dot := t != [] && t[0] == '.';
    frac := if dot then t[1..] else t;
  }

  // The three cases of `ParseTimestamp`, each stated on the captures.

  lemma ParseSecondsCase(s: string, sec: string, f: Option<string>)
    requires MatchSecondsForm(s) == Some((sec, f))
    ensures ParseTimestamp(s) == Ok(Timestamp(Value(sec), ParseMs(f)))
  {
  }

  /** The second pattern is tried only when the first fails. */
  lemma ParseMinutesCase(s: string, min: string, sec: string, f: Option<string>)
    requires MatchSecondsForm(s) == None && MatchMinutesForm(s) == Some((min, sec, f))
    ensures ParseTimestamp(s) == Ok(Timestamp(60 * Value(min) + Value(sec), ParseMs(f)))
  {
  }

  /** The third pattern is tried only when the first two fail. */
  lemma ParseHoursCase(s: string, hour: string, min: string, sec: string, f: Option<string>)
    requires MatchSecondsForm(s) == None && MatchMinutesForm(s) == None
    requires MatchHoursForm(s) == Some((hour, min, sec, f))
    ensures ParseTimestamp(s) == Ok(Timestamp(60 * 60 * Value(hour) + 60 * Value(min) + Value(sec), ParseMs(f)))
  {
  }

  // Rendered layouts match the pattern of their shape, and no earlier one.

  lemma SecondsFormRejectsColon(s: string)
    requires DigitRun(s) < |s| && s[DigitRun(s)] == ':'
    ensures MatchSecondsForm(s) == None
  {
    MatchColon(s[DigitRun(s)..]);
  }

  lemma MinutesFormRejectsColon(s: string)
    requires DigitRun(s) + 3 < |s| && s[DigitRun(s) + 3] == ':'
    ensures MatchMinutesForm(s) == None
  {
    MatchColon(s[DigitRun(s) + 3..]);
  }

  lemma SecondsFormOf(sec: string, dot: bool, frac: string)
    requires sec != [] && AllDigits(sec) && |frac| <= 3 && AllDigits(frac) && (dot || frac == [])
    ensures MatchSecondsForm(sec + Tail(dot, frac)) == Some((sec, FractionCapture(frac)))
  {
    var tail := Tail(dot, frac);
    var s := sec + tail;
    MatchTail(dot, frac);
    assert tail != [] ==> tail[0] == '.';
    DigitRunOf(sec, tail);
    assert s[..|sec|] == sec && s[|sec|..] == tail;
  }

  lemma MinutesFormOf(min: string, sec: string, tail: string)
    requires min != [] && AllDigits(min) && TwoDigits(sec) && MatchFraction(tail).Some?
    ensures var s := min + ":" + sec + tail;
      && MatchSecondsForm(s) == None
      && MatchMinutesForm(s) == Some((min, sec, MatchFraction(tail).value))
  {
    var s := min + ":" + sec + tail;
    var k := |min|;
    assert s == min + (":" + sec + tail);
    DigitRunOf(min, ":" + sec + tail);
    assert s[k] == ':';
    SecondsFormRejectsColon(s);
    assert s[..k] == min;
    assert s[k + 1..k + 3] == sec;
    assert s[k + 3..] == tail;
  }

  lemma HoursFormOf(hour: string, min: string, sec: string, tail: string)
    requires hour != [] && AllDigits(hour) && TwoDigits(min) && TwoDigits(sec) && MatchFraction(tail).Some?
    ensures var s := hour + ":" + min + ":" + sec + tail;
      && MatchSecondsForm(s) == None && MatchMinutesForm(s) == None
      && MatchHoursForm(s) == Some((hour, min, sec, MatchFraction(tail).value))
  {
    var s := hour + ":" + min + ":" + sec + tail;
    var k := |hour|;
    assert s == hour + (":" + min + ":" + sec + tail);
    DigitRunOf(hour, ":" + min + ":" + sec + tail);
    assert s[k] == ':' && s[k + 3] == ':';
    SecondsFormRejectsColon(s);
    MinutesFormRejectsColon(s);
    assert s[..k] == hour;
    assert s[k + 1..k + 3] == min;
    assert s[k + 4..k + 6] == sec;
    assert s[k + 6..] == tail;
  }

  lemma ParseRenderedSeconds(l: Layout)
    requires WellFormed(l) && l.SecondsOnly?
    ensures ParseTimestamp(Render(l)) == Ok(Denotation(l))
  {
    SecondsFormOf(l.sec, l.dot, l.frac);
    ParseSecondsCase(Render(l), l.sec, FractionCapture(l.frac));
    ParseMsOfTail(l.frac);
  }

  lemma ParseRenderedMinSec(l: Layout)
    requires WellFormed(l) && l.MinSec?
    ensures ParseTimestamp(Render(l)) == Ok(Denotation(l))
  {
    var tail := Tail(l.dot, l.frac);
    MatchTail(l.dot, l.frac);
    MinutesFormOf(l.min, l.sec, tail);
    var s := l.min + ":" + l.sec + tail;
    assert Render(l) == s;
    ParseMinutesCase(s, l.min, l.sec, FractionCapture(l.frac));
    ParseMsOfTail(l.frac);
  }

  lemma HoursFormOfLayout(l: Layout)
    requires WellFormed(l) && l.HourMinSec?
    ensures MatchSecondsForm(Render(l)) == None && MatchMinutesForm(Render(l)) == None
    ensures MatchHoursForm(Render(l)) == Some((l.hour, l.min, l.sec, FractionCapture(l.frac)))
  {
    var tail := Tail(l.dot, l.frac);
    MatchTail(l.dot, l.frac);
    HoursFormOf(l.hour, l.min, l.sec, tail);
    assert Render(l) == l.hour + ":" + l.min + ":" + l.sec + tail;
  }

  /** What `from_str` computes from the captures of a rendered `H:MM:SS` layout is its denotation. */
  lemma HoursMeaning(l: Layout)
    requires WellFormed(l) && l.HourMinSec?
    ensures Denotation(l) == Timestamp(60 * 60 * Value(l.hour) + 60 * Value(l.min) + Value(l.sec), ParseMs(FractionCapture(l.frac)))
  {
    ParseMsOfTail(l.frac);
  }

  lemma ParseRenderedHourMinSec(l: Layout)
    requires WellFormed(l) && l.HourMinSec?
    ensures ParseTimestamp(Render(l)) == Ok(Denotation(l))
  {
    HoursFormOfLayout(l);
    ParseHoursCase(Render(l), l.hour, l.min, l.sec, FractionCapture(l.frac));
    HoursMeaning(l);
  }

  /** Every well-formed layout is accepted and denotes what it should. */
  lemma ParseRendered(l: Layout)
    requires WellFormed(l)
    ensures ParseTimestamp(Render(l)) == Ok(Denotation(l))
  {
    match l
    case SecondsOnly(_, _, _) => ParseRenderedSeconds(l);
    case MinSec(_, _, _, _) => ParseRenderedMinSec(l);
    case HourMinSec(_, _, _, _, _) => ParseRenderedHourMinSec(l);
  }

  // What each pattern matched is a rendered layout of its shape.

  lemma ParsedSeconds(s: string) returns (l: Layout)
    requires MatchSecondsForm(s).Some?
    ensures WellFormed(l) && l.SecondsOnly? && Render(l) == s
    ensures MatchSecondsForm(s).value == (l.sec, FractionCapture(l.frac))
  {
    var k := DigitRun(s);
    var dot, frac := MatchedTail(s[k..]);
    l := SecondsOnly(s[..k], dot, frac);
    assert s == s[..k] + s[k..];
  }

  lemma ParsedMinSec(s: string) returns (l: Layout)
    requires MatchMinutesForm(s).Some?
    ensures WellFormed(l) && l.MinSec? && Render(l) == s
    ensures MatchMinutesForm(s).value == (l.min, l.sec, FractionCapture(l.frac))
  {
    var k := DigitRun(s);
    assert k + 3 <= |s| && s[k] == ':' && MatchFraction(s[k + 3..]).Some?;
    var dot, frac := MatchedTail(s[k + 3..]);
    l := MinSec(s[..k], s[k + 1..k + 3], dot, frac);
    assert s[k..k + 1] == ":";
    assert s == s[..k] + s[k..k + 1] + s[k + 1..k + 3] + s[k + 3..];
  }

  lemma ParsedHourMinSec(s: string) returns (l: Layout)
    requires MatchHoursForm(s).Some?
    ensures WellFormed(l) && l.HourMinSec? && Render(l) == s
    ensures MatchHoursForm(s).value == (l.hour, l.min, l.sec, FractionCapture(l.frac))
  {
    var k := DigitRun(s);
    assert k + 6 <= |s| && s[k] == ':' && s[k + 3] == ':' && MatchFraction(s[k + 6..]).Some?;
    var dot, frac := MatchedTail(s[k + 6..]);
    l := HourMinSec(s[..k], s[k + 1..k + 3], s[k + 4..k + 6], dot, frac);
    FiveParts(s, k);
  }

  /** A text with colons at `k` and `k + 3` is its five pieces joined. */
  lemma FiveParts(s: string, k: nat)
    requires k + 6 <= |s| && s[k] == ':' && s[k + 3] == ':'
    ensures s == s[..k] + ":" + s[k + 1..k + 3] + ":" + s[k + 4..k + 6] + s[k + 6..]
  {
    assert s[k..k + 1] == ":" && s[k + 3..k + 4] == ":";
    assert s == s[..k] + s[k..k + 1] + s[k + 1..k + 3] + s[k + 3..k + 4] + s[k + 4..k + 6] + s[k + 6..];
  }

  /** Everything the parser accepts is the rendering of a well-formed layout, with that layout's meaning. */
  lemma ParsedIsRendered(s: string) returns (l: Layout)
    requires ParseTimestamp(s).Ok?
    ensures WellFormed(l) && Render(l) == s && Denotation(l) == ParseTimestamp(s).value
  {
    if MatchSecondsForm(s).Some? {
      l := ParsedSeconds(s);
      ParseSecondsCase(s, l.sec, FractionCapture(l.frac));
    } else if MatchMinutesForm(s).Some? {
      l := ParsedMinSec(s);
      ParseMinutesCase(s, l.min, l.sec, FractionCapture(l.frac));
    } else {
      l := ParsedHourMinSec(s);
      ParseHoursCase(s, l.hour, l.min, l.sec, FractionCapture(l.frac));
    }
    ParseMsOfTail(l.frac);
  }

  /** The parser accepts exactly the renderings of well-formed layouts. */
  lemma AcceptedIffLayout(s: string)
    ensures ParseTimestamp(s).Ok? <==> exists l :: WellFormed(l) && Render(l) == s
  {
    if ParseTimestamp(s).Ok? {
      var l := ParsedIsRendered(s);
    }
    if l :| WellFormed(l) && Render(l) == s {
      ParseRendered(l);
    }
  }

  /** Text made of digits, ':' and '.' only. */
  predicate TimestampChars(s: string) {
    forall i :: 0 <= i < |s| ==> IsDigit(s[i]) || s[i] == ':' || s[i] == '.'
  }

  lemma RenderChars(l: Layout)
    requires WellFormed(l)
    ensures TimestampChars(Render(l))
  {
    var tail := Tail(l.dot, l.frac);
    assert TimestampChars(tail);
    match l
    case SecondsOnly(sec, _, _) =>
    case MinSec(min, sec, _, _) =>
      assert Render(l) == min + ":" + sec + tail;
    case HourMinSec(hour, min, sec, _, _) =>
      assert Render(l) == hour + ":" + min + ":" + sec + tail;
  }

  /** An accepted timestamp holds neither a dash nor a line feed, so it can
      stand on either side of a span's dash. */
  lemma AcceptedChars(s: string)
    requires ParseTimestamp(s).Ok?
    ensures TimestampChars(s) && '-' !in s && '\n' !in s
  {
    var l := ParsedIsRendered(s);
    RenderChars(l);
  }

  /** Text that does not start with a digit (the empty text, a sign, a bare
      fraction) is not a timestamp. */
  lemma NonDigitStartRejected(s: string)
    requires s == [] || !IsDigit(s[0])
    ensures ParseTimestamp(s) == Err(NotATimestamp)
  {
    assert DigitRun(s) == 0;
  }

  /** The canonical `H:MM:SS.mmm` text: hours unpadded, minutes and seconds
      two digits, milliseconds three. */
  function FormatHMS(h: nat, m: nat, sec: nat, ms: nat): string {
    ToDecimal(h) + ":" + PadLeft(ToDecimal(m), 2) + ":" + PadLeft(ToDecimal(sec), 2) + "." + PadLeft(ToDecimal(ms), 3)
  }

  lemma PaddedWidth(n: nat, k: nat)
    requires 1 <= k && n < Pow10(k)
    ensures |PadLeft(ToDecimal(n), k)| == k
  {
    ToDecimalShort(n, k);
  }

  /** Round trip: formatting as `H:MM:SS.mmm` and parsing gives back the
      normalised timestamp. */
  lemma RoundTripHMS(h: nat, m: nat, sec: nat, ms: nat)
    requires m < 100 && sec < 100 && ms < 1000
    ensures ParseTimestamp(FormatHMS(h, m, sec, ms)) == Ok(Timestamp(3600 * h + 60 * m + sec, ms))
  {
    assert Pow10(2) == 100 && Pow10(3) == 1000;
    PaddedWidth(m, 2);
    PaddedWidth(sec, 2);
    PaddedWidth(ms, 3);
    var frac := PadLeft(ToDecimal(ms), 3);
    var l := HourMinSec(ToDecimal(h), PadLeft(ToDecimal(m), 2), PadLeft(ToDecimal(sec), 2), true, frac);
    assert WellFormed(l);
    assert Render(l) == FormatHMS(h, m, sec, ms);
    assert Denotation(l) == Timestamp(3600 * h + 60 * m + sec, ms) by {
      assert frac + Zeros(0) == frac;
    }
    ParseRendered(l);
  }

  lemma ExampleOf(l: Layout, s: string, t: Timestamp)
    requires WellFormed(l) && Render(l) == s && Denotation(l) == t
    ensures ParseTimestamp(s) == Ok(t)
  {
    ParseRendered(l);
  }

  /** Fraction scaling: one and two fraction digits are right-padded to milliseconds. */
  lemma FractionExamples()
    ensures ParseTimestamp("1.5") == Ok(Timestamp(1, 500))
    ensures ParseTimestamp("1.05") == Ok(Timestamp(1, 50))
  {
    ValueOfOne("1");
    assert FractionMillis("5") == 500 by { assert "5" + Zeros(2) == "500"; ValueOfThree("500"); }
    assert FractionMillis("05") == 50 by { assert "05" + Zeros(1) == "050"; ValueOfThree("050"); }
    ExampleOf(SecondsOnly("1", true, "5"), "1.5", Timestamp(1, 500));
    ExampleOf(SecondsOnly("1", true, "05"), "1.05", Timestamp(1, 50));
  }

  /** Three fraction digits are exact milliseconds; a '.' with nothing after it is 0 ms. */
  lemma MoreFractionExamples()
    ensures ParseTimestamp("1.005") == Ok(Timestamp(1, 5))
    ensures ParseTimestamp("12.") == Ok(Timestamp(12, 0))
  {
    ValueOfOne("1");
    ValueOfTwo("12");
    assert FractionMillis("005") == 5 by { assert "005" + Zeros(0) == "005"; ValueOfThree("005"); }
    assert FractionMillis("") == 0 by { assert "" + Zeros(3) == "000"; ValueOfThree("000"); }
    ExampleOf(SecondsOnly("1", true, "005"), "1.005", Timestamp(1, 5));
    ExampleOf(SecondsOnly("12", true, ""), "12.", Timestamp(12, 0));
  }

  /** The three formats, as in `90`, `1:30` and `1:01:30`. */
  lemma FormatExamples()
    ensures ParseTimestamp("90") == Ok(Timestamp(90, 0))
    ensures ParseTimestamp("1:30") == Ok(Timestamp(90, 0))
  {
    assert FractionMillis("") == 0 by { assert "" + Zeros(3) == "000"; ValueOfThree("000"); }
    ValueOfOne("1");
    ValueOfTwo("30");
    ValueOfTwo("90");
    ExampleOf(SecondsOnly("90", false, ""), "90", Timestamp(90, 0));
    ExampleOf(MinSec("1", "30", false, ""), "1:30", Timestamp(90, 0));
  }

  lemma HoursExample()
    ensures ParseTimestamp("1:01:30") == Ok(Timestamp(3690, 0))
  {
    assert FractionMillis("") == 0 by { assert "" + Zeros(3) == "000"; ValueOfThree("000"); }
    ValueOfOne("1");
    ValueOfTwo("01");
    ValueOfTwo("30");
    ExampleOf(HourMinSec("1", "01", "30", false, ""), "1:01:30", Timestamp(3690, 0));
  }

  /** Two-digit fields are not range-checked. */
  lemma UncheckedFieldExample()
    ensures ParseTimestamp("1:99") == Ok(Timestamp(159, 0))
  {
    assert FractionMillis("") == 0 by { assert "" + Zeros(3) == "000"; ValueOfThree("000"); }
    ValueOfOne("1");
    ValueOfTwo("99");
    ExampleOf(MinSec("1", "99", false, ""), "1:99", Timestamp(159, 0));
  }

  /** Digits right after the two-digit seconds field are read as the fraction. */
  lemma UndottedFractionExample()
    ensures ParseTimestamp("1:3045") == Ok(Timestamp(90, 450))
  {
    assert FractionMillis("45") == 450 by { assert "45" + Zeros(1) == "450"; ValueOfThree("450"); }
    ValueOfOne("1");
    ValueOfTwo("30");
    ExampleOf(MinSec("1", "30", false, "45"), "1:3045", Timestamp(90, 450));
  }

  /** A bare run of digits is all seconds (the greedy `\d+`), never seconds plus a fraction. */
  lemma BareDigitsAreSeconds(s: string)
    requires s != [] && AllDigits(s)
    ensures ParseTimestamp(s) == Ok(Timestamp(Value(s), 0))
  {
    ParseRendered(SecondsOnly(s, false, ""));
    assert Render(SecondsOnly(s, false, "")) == s;
    ValueOfZeros(3);
    assert "" + Zeros(3) == Zeros(3);
  }

  /** Rejected: one-digit minute/second fields, four fraction digits, no leading digits. */
  lemma RejectedExamples()
    ensures ParseTimestamp("1:5") == Err(NotATimestamp)
    ensures ParseTimestamp("1.2345") == Err(NotATimestamp)
    ensures ParseTimestamp("1:30:5") == Err(NotATimestamp)
    ensures ParseTimestamp("") == Err(NotATimestamp)
    ensures ParseTimestamp("-1") == Err(NotATimestamp)
    ensures ParseTimestamp(".5") == Err(NotATimestamp)
  {
    NonDigitStartRejected("");
    NonDigitStartRejected("-1");
    NonDigitStartRejected(".5");
    assert DigitRun("1:5") == 1;
    assert DigitRun("1.2345") == 1;
    assert DigitRun("1:30:5") == 1;
  }
}
