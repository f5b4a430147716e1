/**
  Page geometry of the calendar: an A0 page in points, twelve month columns,
  a header box per month and up to 31 day boxes below it, and the placement of
  a text relative to a reference point. Lengths are exact reals.
 */
module Geometry {

  // size of A0 in points
  const WIDTH: real := 3370.39
  const HEIGHT: real := 2383.94

  const PADDING_TOP: real := 300.0
  const PADDING_RIGHT: real := 100.0
  const PADDING_LEFT: real := 100.0
  const PADDING_BOTTOM: real := 50.0

  const BOX_WIDTH: real := 240.0
  const BOX_HEIGHT: real := 50.0

  const SIZE_MONTH: real := 30.0
  const SIZE_DAY_NUMBER: real := 35.0
  const SIZE_DAY: real := 20.0

  datatype Point = Point(x: real, y: real)

  /** What the drawing surface reports for a text at a font size. */
  datatype Extents = Extents(xBearing: real, yBearing: real, width: real, height: real)

  /**
    The gaps between boxes: twelve columns with eleven equal gaps fill the page
    width, and one header row, 31 day rows, one header gap of the horizontal
    size and 30 equal vertical gaps fill the page height.
   */
  function SpaceBoxes(): (s: (real, real))
    ensures s.0 > 0.0 && s.1 > 0.0
    ensures PADDING_LEFT + 12.0 * BOX_WIDTH + 11.0 * s.0 + PADDING_RIGHT == WIDTH
    ensures PADDING_TOP + 32.0 * BOX_HEIGHT + s.0 + 30.0 * s.1 + PADDING_BOTTOM == HEIGHT
  {
    var spaceX := (WIDTH - PADDING_LEFT - PADDING_RIGHT - 12.0 * BOX_WIDTH) / 11.0;
    var spaceY := (HEIGHT - PADDING_TOP - PADDING_BOTTOM - 32.0 * BOX_HEIGHT - spaceX) / 30.0;
    (spaceX, spaceY)
  }

  /** Top-left corner of the header box of `month`. */
  function MonthOrigin(month: int): (p: Point)
    requires 1 <= month <= 12
    ensures p.y == PADDING_TOP
    ensures PADDING_LEFT <= p.x && p.x + BOX_WIDTH <= WIDTH - PADDING_RIGHT
    ensures month == 1 ==> p.x == PADDING_LEFT
    ensures month == 12 ==> p.x + BOX_WIDTH == WIDTH - PADDING_RIGHT
  {
    var s := SpaceBoxes();
    assert 0.0 <= (month - 1) as real * (s.0 + BOX_WIDTH) <= 11.0 * (s.0 + BOX_WIDTH);
    Point(PADDING_LEFT + (month - 1) as real * (s.0 + BOX_WIDTH), PADDING_TOP)
  }

  /** Top-left corner of the box of day `day` of `month`. */
  function DayOrigin(month: int, day: int): (p: Point)
    requires 1 <= month <= 12 && 1 <= day <= 31
    ensures p.x == MonthOrigin(month).x
    ensures MonthOrigin(month).y + BOX_HEIGHT + SpaceBoxes().0 <= p.y
    ensures p.y + BOX_HEIGHT <= HEIGHT - PADDING_BOTTOM
    ensures day == 1 ==> p.y == MonthOrigin(month).y + BOX_HEIGHT + SpaceBoxes().0
    ensures day == 31 ==> p.y + BOX_HEIGHT == HEIGHT - PADDING_BOTTOM
  {
    var m := MonthOrigin(month);
    var s := SpaceBoxes();
    assert 0.0 <= (day - 1) as real * (s.1 + BOX_HEIGHT) <= 30.0 * (s.1 + BOX_HEIGHT);
    Point(m.x, m.y + BOX_HEIGHT + s.0 + (day - 1) as real * (s.1 + BOX_HEIGHT))
  }

  /** Neighbouring month columns are one box width and one horizontal gap apart. */
  lemma MonthColumnStep(month: int)
    requires 1 <= month < 12
    ensures MonthOrigin(month + 1).x == MonthOrigin(month).x + BOX_WIDTH + SpaceBoxes().0
  {
    var k := SpaceBoxes().0 + BOX_WIDTH;
    StepTimes((month - 1) as real, k);
    assert ((month + 1) - 1) as real == (month - 1) as real + 1.0;
  }

  /** One more step of length `k` lies `k` further on. */
  lemma StepTimes(a: real, k: real)
    ensures (a + 1.0) * k == a * k + k
  {
  }

  /** Month columns are disjoint and ordered left to right, a full gap apart. */
  lemma {:induction false} MonthColumnsDisjoint(m1: int, m2: int)
    requires 1 <= m1 < m2 <= 12
    ensures MonthOrigin(m1).x + BOX_WIDTH + SpaceBoxes().0 <= MonthOrigin(m2).x
    decreases m2 - m1
  {
    MonthColumnStep(m1);
    if m1 + 1 < m2 {
      MonthColumnsDisjoint(m1 + 1, m2);
    }
  }

  /** Each next day's box is one box height and one vertical gap lower. */
  lemma DayRowStep(month: int, day: int)
    requires 1 <= month <= 12 && 1 <= day < 31
    ensures DayOrigin(month, day + 1).y == DayOrigin(month, day).y + BOX_HEIGHT + SpaceBoxes().1
  {
    var m, s := MonthOrigin(month), SpaceBoxes();
    var k := s.1 + BOX_HEIGHT;
    assert DayOrigin(month, day).y == m.y + BOX_HEIGHT + s.0 + (day - 1) as real * k;
    assert DayOrigin(month, day + 1).y == m.y + BOX_HEIGHT + s.0 + ((day + 1) - 1) as real * k;
    StepTimes((day - 1) as real, k);
    assert ((day + 1) - 1) as real == (day - 1) as real + 1.0;
  }

  /** Day boxes of one column never overlap: a later day lies wholly below an earlier one. */
  lemma {:induction false} DayRowsDisjoint(month: int, d1: int, d2: int)
    requires 1 <= month <= 12 && 1 <= d1 < d2 <= 31
    ensures DayOrigin(month, d1).y + BOX_HEIGHT + SpaceBoxes().1 <= DayOrigin(month, d2).y
    decreases d2 - d1
  {
    DayRowStep(month, d1);
    if d1 + 1 < d2 {
      DayRowsDisjoint(month, d1 + 1, d2);
    }
  }

  /** The anchor codes of a text: which point of the text the reference point fixes. */
  datatype Anchor = Center | TopLeft | TopRight | BottomRight | NoAnchor

  /** The anchor a code names: "c", "tl", "tr" and "br"; any other code names none. */
  function ParseAnchor(relative: string): (a: Anchor)
    ensures a == Center <==> relative == "c"
    ensures a == TopLeft <==> relative == "tl"
    ensures a == TopRight <==> relative == "tr"
    ensures a == BottomRight <==> relative == "br"
  {
    if relative == "c" then Center
    else if relative == "tl" then TopLeft
    else if relative == "tr" then TopRight
    else if relative == "br" then BottomRight
    else NoAnchor
  }

  /** Where a text is drawn from, for the reference point (x, y) and an anchor. */
  function TextOrigin(x: real, y: real, e: Extents, anchor: Anchor := Center): Point {
    var diff :=
      match anchor
      case Center => Point(-(e.width / 2.0 + e.xBearing), -(e.height / 2.0 + e.yBearing))
      case TopLeft => Point(0.0, e.height)
      case TopRight => Point(-e.width - e.xBearing, e.height)
      case BottomRight => Point(-e.width - e.xBearing, 0.0)
      case NoAnchor => Point(0.0, 0.0);
    Point(x + diff.x, y + diff.y)
  }

  /**
    What the anchor codes mean: "c" centres the text's ink box on the
    reference point; "tl" starts the text at the point with the baseline one
    text height lower; "tr" ends the ink at the point with the same baseline;
    "br" ends the ink at the point and puts the baseline on it; any other code
    draws at the point itself. The default is "c".
   */
  lemma TextOriginAnchors(x: real, y: real, e: Extents, relative: string)
    ensures relative == "c" ==>
      var o := TextOrigin(x, y, e, ParseAnchor(relative));
      o.x + e.xBearing + e.width / 2.0 == x && o.y + e.yBearing + e.height / 2.0 == y
    ensures relative == "tl" ==>
      var o := TextOrigin(x, y, e, ParseAnchor(relative));
      o.x == x && o.y == y + e.height
    ensures relative == "tr" ==>
      var o := TextOrigin(x, y, e, ParseAnchor(relative));
      o.x + e.xBearing + e.width == x && o.y == y + e.height
    ensures relative == "br" ==>
      var o := TextOrigin(x, y, e, ParseAnchor(relative));
      o.x + e.xBearing + e.width == x && o.y == y
    ensures relative !in {"c", "tl", "tr", "br"} ==> TextOrigin(x, y, e, ParseAnchor(relative)) == Point(x, y)
    ensures TextOrigin(x, y, e) == TextOrigin(x, y, e, ParseAnchor("c"))
  {
  }

  /** Inset of a text from its box's border: a tenth of the font size, but at least 3 points. */
  function TextPadding(size: real): (p: real)
    ensures p >= 3.0 && p >= 0.1 * size
    ensures p == 3.0 || p == 0.1 * size
  {
    if 0.1 * size > 3.0 then 0.1 * size else 3.0
  }
}
