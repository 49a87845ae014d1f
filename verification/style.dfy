/** The inline style the display computes from its settings, and how that
    style is written onto the label element. */
module LabelStyle {
  import opened Wrappers
  import opened Numerals
  import opened ViewportSettings

  /** The four offset properties; an unset one is left as it was. */
  datatype Anchor = Anchor(top: Option<string>, right: Option<string>,
                           bottom: Option<string>, left: Option<string>)

  /** The style properties that carry behaviour. Font family, padding, border
      radius and the opacity transition are constant strings and are not
      modelled. */
  datatype Style = Style(
    positioning: string,      // CSS `position`
    zIndex: string,
    color: string,
    fontSize: string,
    opacity: string,
    pointerEvents: string,
    backgroundColor: string,
    anchor: Anchor)

  const Offset := "16px"

  /** The edges a corner name denotes. */
  datatype Edge = Top | Right | Bottom | Left

  /** Reference reading of a corner name, independent of the switch below:
      only "top-left" and "top-right" hang from the top edge, only "top-left"
      and "bottom-left" from the left edge; every other name, recognised or
      not, means the bottom-right corner. */
  function VerticalEdge(position: string): Edge {
    if position == "top-left" || position == "top-right" then Top else Bottom
  }

  function HorizontalEdge(position: string): Edge {
    if position == "top-left" || position == "bottom-left" then Left else Right
  }

  /** The offset an anchor gives an edge. */
  function At(a: Anchor, e: Edge): Option<string> {
    match e
    case Top => a.top
    case Right => a.right
    case Bottom => a.bottom
    case Left => a.left
  }

  /** Exactly the two edges of the corner named by `position` are set, both to
      the offset; the other two are unset. */
  predicate AnchoredAt(a: Anchor, position: string) {
    forall e: Edge :: At(a, e) == (if e == VerticalEdge(position) || e == HorizontalEdge(position) then Some(Offset) else None)
  }

  /** The corner switch of the style computation. */
  function CornerAnchor(position: string): (a: Anchor)
    ensures position !in {"top-left", "top-right", "bottom-left"} ==>
      a == Anchor(None, Some(Offset), Some(Offset), None)
  {
    match position
    case "top-left" => Anchor(Some(Offset), None, None, Some(Offset))
    case "top-right" => Anchor(Some(Offset), Some(Offset), None, None)
    case "bottom-left" => Anchor(None, None, Some(Offset), Some(Offset))
    case _ => Anchor(None, Some(Offset), Some(Offset), None)
  }

  /** For every position, exactly the vertical and the horizontal edge of its
      corner are set, both to 16px, and the other two are unset. */
  lemma CornerAnchorSetsItsTwoEdges(position: string)
    ensures AnchoredAt(CornerAnchor(position), position)
  {
  }

  /** The font-size switch: "small" and "large" have their own sizes, and every
      other value, "medium" included, gets the middle size. */
  function FontPixels(fontSize: string): (px: string)
    ensures px == "12px" <==> fontSize == "small"
    ensures px == "16px" <==> fontSize == "large"
    ensures px == "14px" <==> fontSize != "small" && fontSize != "large"
  {
    match fontSize
    case "small" => "12px"
    case "large" => "16px"
    case _ => "14px"
  }

  /** The background alpha as an integer: `Math.round(bgOpacity * 255)`, a
      byte whenever the opacity lies in [0, 1]. */
  function AlphaByte(bgOpacity: real): (b: int)
    ensures bgOpacity * 255.0 - 0.5 < b as real <= bgOpacity * 255.0 + 0.5
    ensures 0.0 <= bgOpacity <= 1.0 ==> 0 <= b <= 255
  {
    Round(bgOpacity * 255.0)
  }

  /** The alpha suffix: the byte in lower-case hexadecimal, zero-padded on the
      left to at least two characters. */
  function AlphaSuffix(bgOpacity: real): (h: string)
    ensures |h| >= 2
  {
    PadStart(ToRadixString(AlphaByte(bgOpacity), 16), 2, '0')
  }

  /** The base colour followed by the alpha suffix. */
  function Background(s: Settings): (c: string)
    ensures |c| == |s.bgColor| + |AlphaSuffix(s.bgOpacity)|
    ensures c[..|s.bgColor|] == s.bgColor
    ensures c[|s.bgColor|..] == AlphaSuffix(s.bgOpacity)
  {
    s.bgColor + AlphaSuffix(s.bgOpacity)
  }

  /** For an opacity in [0, 1] the suffix is exactly two lower-case
      hexadecimal digits whose value is the rounded opacity scaled to 255,
      which is a byte. */
  lemma AlphaSuffixIsTwoHexDigits(bgOpacity: real)
    requires 0.0 <= bgOpacity <= 1.0
    ensures 0 <= AlphaByte(bgOpacity) <= 255
    ensures |AlphaSuffix(bgOpacity)| == 2
    ensures IsNumeral(AlphaSuffix(bgOpacity), 16)
    ensures FromRadix(AlphaSuffix(bgOpacity), 16) == AlphaByte(bgOpacity)
  {
    var b := AlphaByte(bgOpacity);
    var digits := ToRadix(b, 16);
    assert ToRadixString(b, 16) == digits;
    FromToRadix(b, 16);
    if b < 16 {
      assert AlphaSuffix(bgOpacity) == "0" + digits;
      LeadingZero(digits, 16);
    } else {
      assert digits == ToRadix(b / 16, 16) + [DigitChar(b % 16)];
      assert AlphaSuffix(bgOpacity) == digits;
    }
  }

  /** The worked example of the defaults: opacity 0.7 gives byte 179, suffix
      "b3", background "#000000b3". */
  lemma DefaultBackground()
    ensures AlphaByte(0.7) == 179
    ensures AlphaSuffix(0.7) == "b3"
    ensures Background(Defaults) == "#000000b3"
  {
    assert AlphaByte(0.7) == 179;
    assert ToRadix(179, 16) == ToRadix(11, 16) + [DigitChar(3)];
    assert ToRadixString(179, 16) == "b3";
    assert PadStart("b3", 2, '0') == "b3";
  }

  /** An opacity above 1 is not clamped: 2.0 gives byte 510 and a
      three-character suffix. */
  lemma OverrangeOpacityLengthensSuffix()
    ensures AlphaSuffix(2.0) == "1fe"
  {
    assert AlphaByte(2.0) == 510;
    assert ToRadix(510, 16) == ToRadix(31, 16) + [DigitChar(14)];
    assert ToRadix(31, 16) == ToRadix(1, 16) + [DigitChar(15)];
    assert ToRadixString(510, 16) == "1fe";
  }

  /** The style computed from the settings. */
  function Compute(s: Settings): (st: Style)
    ensures st.positioning == "fixed"
    ensures st.zIndex == "9999999"
    ensures st.pointerEvents == "none"
    ensures st.opacity == "1" <==> s.enabled
    ensures st.opacity == "0" <==> !s.enabled
    ensures st.color == s.textColor
    ensures st.fontSize == FontPixels(s.fontSize)
    ensures st.backgroundColor == Background(s)
    ensures AnchoredAt(st.anchor, s.position)
  {
    CornerAnchorSetsItsTwoEdges(s.position);
    Style(
      positioning := "fixed",
      zIndex := "9999999",
      color := s.textColor,
      fontSize := FontPixels(s.fontSize),
      opacity := if s.enabled then "1" else "0",
      pointerEvents := "none",
      backgroundColor := Background(s),
      anchor := CornerAnchor(s.position))
  }

  /** The computed style does not depend on the auto-hide fields. */
  lemma ComputeIgnoresAutoHide(s: Settings, alwaysShow: bool, hideAfter: int)
    ensures Compute(s.(alwaysShow := alwaysShow, hideAfter := hideAfter)) == Compute(s)
  {
  }

  /** `Object.assign(element.style, computed)`: every property the computed
      style sets overwrites the element's, and the offsets it leaves unset
      keep whatever the element had. */
  function Assign(current: Style, computed: Style): (r: Style)
    ensures r.(anchor := computed.anchor) == computed
    ensures forall e: Edge :: At(r.anchor, e) == At(computed.anchor, e).Or(At(current.anchor, e))
  {
    computed.(anchor := Anchor(
      computed.anchor.top.Or(current.anchor.top),
      computed.anchor.right.Or(current.anchor.right),
      computed.anchor.bottom.Or(current.anchor.bottom),
      computed.anchor.left.Or(current.anchor.left)))
  }

  /** The style of a newly created element: nothing set. */
  const Blank := Style("", "", "", "", "", "", "", Anchor(None, None, None, None))

  /** Assigning onto a new element yields exactly the computed style. */
  lemma AssignOntoBlank(computed: Style)
    ensures Assign(Blank, computed) == computed
  {
  }

  /** Assigning the same style twice is assigning it once. */
  lemma AssignIdempotent(current: Style, computed: Style)
    ensures Assign(Assign(current, computed), computed) == Assign(current, computed)
  {
  }

  /** Restyling in place keeps the offsets of the earlier corner: a label
      placed top-left and then moved to bottom-right has all four offsets
      set. */
  lemma StaleOffsetsAfterCornerChange(s: Settings)
    requires s.position == "top-left"
    ensures var moved := Assign(Compute(s), Compute(s.(position := "bottom-right")));
      moved.anchor == Anchor(Some(Offset), Some(Offset), Some(Offset), Some(Offset))
  {
    var before := Compute(s);
    var after := Compute(s.(position := "bottom-right"));
    OppositeCornersFillAllEdges(before, after);
  }

  lemma OppositeCornersFillAllEdges(before: Style, after: Style)
    requires AnchoredAt(before.anchor, "top-left") && AnchoredAt(after.anchor, "bottom-right")
    ensures Assign(before, after).anchor == Anchor(Some(Offset), Some(Offset), Some(Offset), Some(Offset))
  {
    var moved := Assign(before, after);
    assert At(moved.anchor, Top) == Some(Offset) && At(moved.anchor, Right) == Some(Offset);
    assert At(moved.anchor, Bottom) == Some(Offset) && At(moved.anchor, Left) == Some(Offset);
  }
}
