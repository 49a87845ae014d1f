/** The label's text: the window's inner width and height, each rounded to a
    whole pixel, as "<width>px × <height>px". */
module DimensionLabel {
  import opened Wrappers
  import opened Numerals

  /** What stands between the two numbers, and after the second. */
  const Separator := "px \U{D7} "
  const Unit := "px"

  /** The text for whole-pixel dimensions, as the template literal renders it. */
  function Format(width: int, height: int): string {
    ToRadixString(width, 10) + Separator + ToRadixString(height, 10) + Unit
  }

  /** The label text for a window of the given inner size: each dimension is
      rounded on its own. */
  function DimensionText(width: real, height: real): string {
    Format(Round(width), Round(height))
  }

  /** Index of the first `c` in `s`, or `|s|` when there is none. */
  function IndexOf(s: string, c: char): (i: nat)
    ensures i <= |s|
    ensures i < |s| ==> s[i] == c
    ensures forall j :: 0 <= j < i ==> s[j] != c
  {
    if |s| == 0 then 0
    else if s[0] == c then 0
    else 1 + IndexOf(s[1..], c)
  }

  /** Reads a label text back into its two rounded dimensions; `None` for a
      text the formatter cannot produce. */
  function ParseDimensionText(t: string): Option<(int, int)> {
    var i := IndexOf(t, 'p');
    if i + |Separator| + |Unit| <= |t| && t[i..i + |Separator|] == Separator && t[|t| - |Unit|..] == Unit then
      match (ParseRadixString(t[..i], 10), ParseRadixString(t[i + |Separator|..|t| - |Unit|], 10))
      case (Some(w), Some(h)) => Some((w, h))
      case _ => None
    else None
  }

  /** A rendered number contains no 'p'. */
  lemma NumberHasNoP(n: int)
    ensures forall j :: 0 <= j < |ToRadixString(n, 10)| ==> ToRadixString(n, 10)[j] != 'p'
  {
  }

  /** In `a + rest` with no `c` in `a` and `rest` starting with `c`, the first
      `c` is at `|a|`. */
  lemma IndexOfJoin(a: string, rest: string, c: char)
    requires forall j :: 0 <= j < |a| ==> a[j] != c
    requires |rest| > 0 && rest[0] == c
    ensures IndexOf(a + rest, c) == |a|
  {
    var t := a + rest;
    var i := IndexOf(t, c);
    assert t[|a|] == c;
  }

  /** The slices the parser takes of a joined text. */
  lemma SlicesOfJoin(a: string, b: string)
    ensures var t := a + Separator + b + Unit;
      |a| + |Separator| + |Unit| <= |t| &&
      t[|a|..|a| + |Separator|] == Separator &&
      t[|t| - |Unit|..] == Unit &&
      t[..|a|] == a &&
      t[|a| + |Separator|..|t| - |Unit|] == b
  {
  }

  /** The parser splits a joined text at the first 'p' and reads both
      halves. */
  lemma ParseJoin(a: string, b: string, width: int, height: int)
    requires forall j :: 0 <= j < |a| ==> a[j] != 'p'
    requires ParseRadixString(a, 10) == Some(width) && ParseRadixString(b, 10) == Some(height)
    ensures ParseDimensionText(a + Separator + b + Unit) == Some((width, height))
  {
    var t := a + Separator + b + Unit;
    assert t == a + (Separator + b + Unit);
    IndexOfJoin(a, Separator + b + Unit, 'p');
    SlicesOfJoin(a, b);
  }

  /** The formatter loses nothing: parsing its text gives back both
      numbers. */
  lemma ParseFormatted(width: int, height: int)
    ensures ParseDimensionText(Format(width, height)) == Some((width, height))
  {
    NumberHasNoP(width);
    ParseToRadixString(width, 10);
    ParseToRadixString(height, 10);
    ParseJoin(ToRadixString(width, 10), ToRadixString(height, 10), width, height);
  }

  /** The label text reads back as exactly the rounded width and the rounded
      height. */
  lemma DimensionTextReadsBack(width: real, height: real)
    ensures ParseDimensionText(DimensionText(width, height)) == Some((Round(width), Round(height)))
  {
    ParseFormatted(Round(width), Round(height));
  }

  /** Two windows get the same label exactly when their rounded widths agree
      and their rounded heights agree. */
  lemma SameTextIffSameRounding(w1: real, h1: real, w2: real, h2: real)
    ensures DimensionText(w1, h1) == DimensionText(w2, h2) <==>
      Round(w1) == Round(w2) && Round(h1) == Round(h2)
  {
    DimensionTextReadsBack(w1, h1);
    DimensionTextReadsBack(w2, h2);
  }

  /** Each dimension is rounded on its own: 1024.4 by 768.6 reads
      "1024px × 769px". */
  lemma RoundsEachDimension()
    ensures DimensionText(1024.4, 768.6) == "1024px \U{D7} 769px"
  {
    assert Round(1024.4) == 1024 && Round(768.6) == 769;
    Decimal1024();
    Decimal769();
    assert DimensionText(1024.4, 768.6) == "1024" + Separator + "769" + Unit;
  }

  lemma Decimal1024()
    ensures ToRadixString(1024, 10) == "1024"
  {
    var one := ToRadix(1, 10);
    var ten := ToRadix(10, 10);
    var hundred := ToRadix(102, 10);
    assert one == "1";
    assert ten == one + [DigitChar(0)];
    assert hundred == ten + [DigitChar(2)];
    assert ToRadix(1024, 10) == hundred + [DigitChar(4)];
  }

  lemma Decimal769()
    ensures ToRadixString(769, 10) == "769"
  {
    var seven := ToRadix(7, 10);
    var seventy := ToRadix(76, 10);
    assert seven == "7";
    assert seventy == seven + [DigitChar(6)];
    assert ToRadix(769, 10) == seventy + [DigitChar(9)];
  }
}
