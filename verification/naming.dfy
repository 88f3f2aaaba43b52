/** Output file names: the path is split at its last `.` into a base and an
    extension, and each clip gets `<base>_clip<index>.<ext>`, the index being
    zero-padded to the width `log10_ceil` gives for the number of spans. */
module Naming {
  import opened Results
  import opened Decimal
  import opened Text

  const NoExtension := "output filename does not have a file extension"

  /** What `log10_ceil` computes: one digit up to 10, then one more for each
      division by 10 while the value exceeds 10. */
  function Width(n: nat): (w: nat)
    ensures w >= 1
  {
    if n <= 10 then 1 else 1 + Width(n / 10)
  }

  /** `log10_ceil`. */
  method Log10Ceil(n: nat) returns (digits: nat)
    ensures digits == Width(n)
  {
    var m := n;
    digits := 1;
    while m > 10
      invariant digits + Width(m) == Width(n) + 1
    {
      m := m / 10;
      digits := digits + 1;
    }
  }

  lemma {:induction false} Pow10Monotone(a: nat, b: nat)
    requires a <= b
    ensures Pow10(a) <= Pow10(b)
  {
    if a < b {
      Pow10Monotone(a, b - 1);
    }
  }

  /** The width is the least `w >= 1` with `n < 11 * 10^(w-1)`: it is 1 up to
      10, 2 from 11 to 109, 3 from 110 to 1099, and so on. */
  lemma {:induction false} WidthBounds(n: nat)
    ensures n < 11 * Pow10(Width(n) - 1)
    ensures Width(n) > 1 ==> 11 * Pow10(Width(n) - 2) <= n
  {
    if n > 10 {
      var w := Width(n / 10);
      WidthBounds(n / 10);
      assert Pow10(w) == 10 * Pow10(w - 1);
      assert n < 10 * (n / 10 + 1);
      if w > 1 {
        assert Pow10(w - 1) == 10 * Pow10(w - 2);
        assert 10 * (n / 10) <= n;
      }
    }
  }

  /** Conversely, a `w` meeting those bounds is the width. */
  lemma WidthUnique(n: nat, w: nat)
    requires w >= 1 && n < 11 * Pow10(w - 1)
    requires w > 1 ==> 11 * Pow10(w - 2) <= n
    ensures Width(n) == w
  {
    WidthBounds(n);
    if Width(n) < w {
      Pow10Monotone(Width(n) - 1, w - 2);
    } else if Width(n) > w {
      Pow10Monotone(w - 1, Width(n) - 2);
    }
  }

  lemma {:induction false} WidthMonotone(a: nat, b: nat)
    requires a <= b
    ensures Width(a) <= Width(b)
  {
    if a > 10 {
      WidthMonotone(a / 10, b / 10);
    }
  }

  /** The stepping rule at its boundaries: 10 needs one digit, 11 two, and
      101 still two. */
  lemma WidthExamples()
    ensures Width(10) == 1 && Width(11) == 2 && Width(100) == 2
    ensures Width(101) == 2 && Width(109) == 2 && Width(110) == 3
  {
  }

  /** Every index below `n` fits in one digit more than the width. */
  lemma IndexDigits(i: nat, n: nat)
    requires i < n
    ensures |ToDecimal(i)| <= Width(n) + 1
  {
    WidthBounds(n);
    var w := Width(n);
    assert Pow10(w + 1) == 100 * Pow10(w - 1) by {
      assert Pow10(w + 1) == 10 * Pow10(w);
      assert Pow10(w) == 10 * Pow10(w - 1);
    }
    ToDecimalShort(i, w + 1);
  }

  /** The extra digit happens: with 101 spans the width is 2 but index 100
      has three digits, so that name is longer than the others. */
  lemma WidthShortfall()
    ensures Width(101) == 2 && |ToDecimal(100)| == 3
  {
    ToDecimalLong(100, 2);
    ToDecimalShort(100, 3);
  }

  /** The `{:0width$}` field for an index: its decimal digits, zero-padded on
      the left to at least `width` characters. */
  function IndexField(index: nat, width: nat): (d: string)
    ensures AllDigits(d) && Value(d) == index
    ensures |d| == if |ToDecimal(index)| < width then width else |ToDecimal(index)|
  {
    PadLeft(ToDecimal(index), width)
  }

  /** Where the base, the index field and the extension sit in a name. */
  lemma NameParts(base: string, field: string, ext: string)
    ensures var name := base + "_clip" + field + "." + ext;
      && |name| == |base| + 6 + |field| + |ext|
      && name[..|base| + 5] == base + "_clip"
      && name[|base| + 5..|name| - |ext| - 1] == field
      && name[|name| - |ext| - 1..] == "." + ext
  {
  }

  /** The index field of clip `index` out of `count`: none when there is
      only one clip. */
  function FieldFor(count: nat, index: nat): string {
    if count == 1 then "" else IndexField(index, Width(count))
  }

  /** The part of a clip name before its last `.`. */
  function OutputStem(base: string, count: nat, index: nat): string {
    base + "_clip" + FieldFor(count, index)
  }

  /** How a clip name is laid out: the base and `_clip`, then the index
      field, then `.` and the extension. With one clip there is no field;
      otherwise the field is digits denoting the index, exactly as long as
      the wider of the width and the index's own digits, as `{:0width$}`
      pads it. */
  predicate NameLayout(name: string, base: string, ext: string, count: nat, index: nat) {
    && |name| >= |base| + 6 + |ext|
    && name[..|base| + 5] == base + "_clip" && name[|name| - |ext| - 1..] == "." + ext
    && var field := name[|base| + 5..|name| - |ext| - 1];
      && (count == 1 ==> field == [])
      && (count != 1 ==> AllDigits(field) && Value(field) == index)
      && (count != 1 ==>
            |field| == if |ToDecimal(index)| < Width(count) then Width(count) else |ToDecimal(index)|)
  }

  /** The name of clip number `index` out of `count`: its stem and the
      extension. */
  function OutputName(base: string, ext: string, count: nat, index: nat): (name: string)
    ensures NameLayout(name, base, ext, count, index)
  {
    NameShape(base, ext, count, index);
    OutputStem(base, count, index) + "." + ext
  }

  /** The stem and the extension are laid out as `NameLayout` says. */
  lemma NameShape(base: string, ext: string, count: nat, index: nat)
    ensures NameLayout(base + "_clip" + FieldFor(count, index) + "." + ext, base, ext, count, index)
  {
    NameParts(base, FieldFor(count, index), ext);
  }

  /** A clip name splits back, at its last `.`, into its stem and the
      extension of the output path, so clips keep the output's file type. */
  lemma OutputNameExtension(base: string, ext: string, count: nat, index: nat)
    requires '.' !in ext && '\n' !in base && '\n' !in ext
    ensures SplitLast(OutputName(base, ext, count, index), '.') == Some((OutputStem(base, count, index), ext))
  {
    var stem := OutputStem(base, count, index);
    assert OutputName(base, ext, count, index) == stem + ['.'] + ext;
    assert '\n' !in stem by {
      if count != 1 {
        var d := IndexField(index, Width(count));
        assert stem == base + "_clip" + d;
        assert forall k :: 0 <= k < |d| ==> IsDigit(d[k]);
      }
    }
    SplitLastJoin(stem, ext, '.');
  }

  /** Digit strings followed by a `.` can be told apart. */
  lemma DigitsThenDot(a: string, b: string, x: string, y: string)
    requires AllDigits(a) && AllDigits(b)
    requires a + "." + x == b + "." + y
    ensures a == b
  {
    var n := if |a| < |b| then |a| else |b|;
    assert (a + "." + x)[n] == (b + "." + y)[n];
    assert a == (a + "." + x)[..|a|];
    assert b == (b + "." + y)[..|b|];
  }

  /** Two names with the same stem prefix and extension but different digit
      fields differ. */
  lemma FieldsDistinguish(p: string, di: string, dj: string, ext: string)
    requires AllDigits(di) && AllDigits(dj) && di != dj
    ensures p + di + "." + ext != p + dj + "." + ext
  {
    if p + di + "." + ext == p + dj + "." + ext {
      assert di + "." + ext == (p + di + "." + ext)[|p|..];
      assert dj + "." + ext == (p + dj + "." + ext)[|p|..];
      DigitsThenDot(di, dj, ext, ext);
    }
  }

  /** Different clips of one run never overwrite each other. */
  lemma OutputNamesDistinct(base: string, ext: string, count: nat, i: nat, j: nat)
    requires i < count && j < count && i != j
    ensures OutputName(base, ext, count, i) != OutputName(base, ext, count, j)
  {
    if count != 1 {
      var w := Width(count);
      FieldsDistinguish(base + "_clip", IndexField(i, w), IndexField(j, w), ext);
    }
  }

  /** `movie.mp4` cut into one clip, then into twelve. */
  lemma OutputNameExamples()
    ensures OutputName("movie", "mp4", 1, 0) == "movie_clip.mp4"
    ensures OutputName("movie", "mp4", 12, 3) == "movie_clip03.mp4"
  {
    assert Width(12) == 2;
    assert ToDecimal(3) == "3";
    assert IndexField(3, 2) == "03";
  }
}
