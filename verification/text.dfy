/** The split performed by the patterns `^(.*)-(.*)$` (spans) and
    `^(.*)\.(.*)$` (output file names): the greedy first group runs up to the
    LAST separator, and `.` does not match a line feed, so text containing
    '\n' does not match at all. */
module Text {
  import opened Results

  function SplitLast(s: string, sep: char): (r: Option<(string, string)>)
    requires sep != '\n'
    ensures r.Some? ==> s == r.value.0 + [sep] + r.value.1 && sep !in r.value.1 && '\n' !in s
    ensures r.None? <==> sep !in s || '\n' in s
  {
    if '\n' in s then None else LastOccurrence(s, sep)
  }

  function LastOccurrence(s: string, sep: char): (r: Option<(string, string)>)
    ensures r.Some? ==> s == r.value.0 + [sep] + r.value.1 && sep !in r.value.1
    ensures r.None? <==> sep !in s
  {
    if s == [] then None
    else if s[|s| - 1] == sep then Some((s[..|s| - 1], []))
    else
      assert s == s[..|s| - 1] + [s[|s| - 1]];
      match LastOccurrence(s[..|s| - 1], sep)
      case None => None
      case Some((a, b)) => Some((a, b + [s[|s| - 1]]))
  }

  /** Splitting a joined text gives back its parts, as long as the second
      part holds no separator and neither holds a line feed. */
  lemma SplitLastJoin(a: string, b: string, sep: char)
    requires sep != '\n' && sep !in b && '\n' !in a && '\n' !in b
    ensures SplitLast(a + [sep] + b, sep) == Some((a, b))
  {
    var s := a + [sep] + b;
    assert s[|a|] == sep;
    assert '\n' !in s by {
      forall i | 0 <= i < |s| ensures s[i] != '\n' {
        if i < |a| { assert s[i] == a[i]; } else if i > |a| { assert s[i] == b[i - |a| - 1]; }
      }
    }
    var r := SplitLast(s, sep);
    var (a', b') := r.value;
    assert s[|a'|] == sep;
    assert forall i :: |a| < i < |s| ==> s[i] == b[i - |a| - 1];
    assert forall i :: |a'| < i < |s| ==> s[i] == b'[i - |a'| - 1];
    assert |b| == |b'|;
    assert b == s[|s| - |b|..] == b';
    assert a == s[..|a|] == a';
  }
}
