/**
  The wall calendar: a colour table that setup appends to, and the drawing of
  twelve month headers followed by one box per date of the year. The drawing
  surface is represented by the sequence of drawings issued against it.
 */
module CalendarModel {
  import opened Wrappers
  import opened Dates
  import opened Geometry

  /** A fill colour; channel values are passed through to the surface. */
  datatype Color = Rgb(red: real, green: real, blue: real)

  const DEFAULT_COLOR: Color := Rgb(0.0, 0.0, 0.0)

  /** One entry of the colour table: `[normal, light]`. */
  datatype ColorPair = ColorPair(normal: Color, light: Color)

  /**
    The texts drawn. Month and weekday names come from the locale and are kept
    symbolic; the day number is `strftime("%d")`, two digits with a leading zero.
   */
  datatype Label = MonthName(month: int) | DayNumber(text: string) | WeekdayName(weekday: int)

  /** A rectangle, filled when a colour is given and always outlined. */
  datatype Box = Box(x: real, y: real, width: real, height: real, fill: Option<Color>)

  /** A text shown at size `size` from the point `origin`. */
  datatype TextDraw = TextDraw(text: Label, size: real, origin: Point)

  datatype Drawing =
    | MonthLabel(month: int, box: Box, name: TextDraw)
    | DayCell(date: Date, box: Box, number: TextDraw, weekday: TextDraw)
    | FinalStroke

  /** The calls issued against the drawing surface. */
  datatype Op =
    | Rectangle(x: real, y: real, width: real, height: real)
    | SetSourceRgb(color: Color)
    | Fill
    | Stroke
    | SetFontSize(size: real)
    | MoveTo(x: real, y: real)
    | ShowText(text: Label)

  /** The entry of the colour table used for `month`: the table is used in rotation. */
  function Slot(colors: seq<ColorPair>, month: int): (c: ColorPair)
    requires colors != [] && 1 <= month
    ensures c in colors
    ensures month <= |colors| ==> c == colors[month - 1]
  {
    colors[(month - 1) % |colors|]
  }

  /** Fill of a month header: the normal colour of its slot, none without a colour table. */
  function MonthFill(colors: seq<ColorPair>, month: int): (c: Option<Color>)
    requires 1 <= month <= 12
    ensures c.None? <==> colors == []
    ensures c.Some? ==> c.value == Slot(colors, month).normal
  {
    if |colors| > 0 then Some(Slot(colors, month).normal) else None
  }

  /**
    Fill of a day box: Saturday takes the light colour of its month's slot,
    Sunday the normal colour, Monday to Friday are not filled, and nothing is
    filled without a colour table.
   */
  function DayFill(colors: seq<ColorPair>, d: Date): (c: Option<Color>)
    requires ValidDate(d)
    ensures c.Some? <==> colors != [] && Weekday(d) >= 5
    ensures c.Some? && Weekday(d) == 5 ==> c.value == Slot(colors, d.month).light
    ensures c.Some? && Weekday(d) == 6 ==> c.value == Slot(colors, d.month).normal
  {
    if |colors| > 0 then
      var tmp := Slot(colors, d.month);
      if Weekday(d) == 5 then Some(tmp.light)
      else if Weekday(d) == 6 then Some(tmp.normal)
      else None
    else None
  }

  /** `strftime("%d")` of a day of the month. */
  function TwoDigits(day: int): (s: string)
    requires 1 <= day <= 31
    ensures |s| == 2 && '0' <= s[0] <= '3' && '0' <= s[1] <= '9'
    ensures ((s[0] - '0') as int) * 10 + (s[1] - '0') as int == day
  {
    [('0' as int + day / 10) as char, ('0' as int + day % 10) as char]
  }

  /** The header of `month`: its box, filled per `MonthFill`, with the month name centred in it. */
  function MonthLabelCell(colors: seq<ColorPair>, month: int, extents: (Label, real) -> Extents): (r: Drawing)
    requires 1 <= month <= 12
    ensures r.MonthLabel? && r.month == month
  {
    var p := MonthOrigin(month);
    var xCenter := p.x + BOX_WIDTH / 2.0;
    var yCenter := p.y + BOX_HEIGHT / 2.0;
    var name := MonthName(month);
    MonthLabel(month, Box(p.x, p.y, BOX_WIDTH, BOX_HEIGHT, MonthFill(colors, month)),
               TextDraw(name, SIZE_MONTH, TextOrigin(xCenter, yCenter, extents(name, SIZE_MONTH))))
  }

  /**
    The box of date `d`, filled per `DayFill`, with the day number inset from
    its top-left corner and the weekday name inset from its bottom-right corner.
   */
  function DayCellFor(colors: seq<ColorPair>, d: Date, extents: (Label, real) -> Extents): (r: Drawing)
    requires ValidDate(d)
    ensures r.DayCell? && r.date == d
  {
    var p := DayOrigin(d.month, d.day);
    var number := DayNumber(TwoDigits(d.day));
    var numberPadding := TextPadding(SIZE_DAY_NUMBER);
    var weekday := WeekdayName(Weekday(d));
    var weekdayPadding := TextPadding(SIZE_DAY);
    DayCell(d, Box(p.x, p.y, BOX_WIDTH, BOX_HEIGHT, DayFill(colors, d)),
            TextDraw(number, SIZE_DAY_NUMBER,
                     TextOrigin(p.x + numberPadding, p.y + numberPadding, extents(number, SIZE_DAY_NUMBER), TopLeft)),
            TextDraw(weekday, SIZE_DAY,
                     TextOrigin(p.x + BOX_WIDTH - weekdayPadding, p.y + BOX_HEIGHT - weekdayPadding,
                                extents(weekday, SIZE_DAY), BottomRight)))
  }

  /**
    The calls of one rectangle: the path, then, when filled, the fill colour,
    the fill and the default colour again, and always the outline last.
   */
  function RectangleOps(b: Box): (ops: seq<Op>)
    ensures |ops| == if b.fill.Some? then 6 else 3
    ensures ops[0] == Rectangle(b.x, b.y, b.width, b.height)
    ensures ops[|ops| - 2..] == [Rectangle(b.x, b.y, b.width, b.height), Stroke]
    ensures Fill in ops <==> b.fill.Some?
    ensures b.fill.Some? ==> ops[1..4] == [SetSourceRgb(b.fill.value), Fill, SetSourceRgb(DEFAULT_COLOR)]
  {
    var path := Rectangle(b.x, b.y, b.width, b.height);
    [path]
      + (if b.fill.Some? then [SetSourceRgb(b.fill.value), Fill, SetSourceRgb(DEFAULT_COLOR)] else [])
      + [path, Stroke]
  }

  /** The calls of one text: font size, move to the origin, show. */
  function TextOps(t: TextDraw): seq<Op> {
    [SetFontSize(t.size), MoveTo(t.origin.x, t.origin.y), ShowText(t.text)]
  }

  /** The calls one drawing stands for, in the order they are issued. */
  function DrawingOps(d: Drawing): seq<Op> {
    match d
    case MonthLabel(_, box, name) => RectangleOps(box) + TextOps(name)
    case DayCell(_, box, number, weekday) => RectangleOps(box) + TextOps(number) + TextOps(weekday)
    case FinalStroke => [Stroke]
  }

  /** The source colour after the calls `ops`, starting from `current`: the one set last. */
  function SourceAfter(current: Color, ops: seq<Op>): Color
    decreases |ops|
  {
    if ops == [] then current
    else if ops[|ops| - 1].SetSourceRgb? then ops[|ops| - 1].color
    else SourceAfter(current, ops[..|ops| - 1])
  }

  /** The source colour after a sequence of calls is that after its two halves in turn. */
  lemma {:induction false} SourceAfterAppend(current: Color, a: seq<Op>, b: seq<Op>)
    ensures SourceAfter(current, a + b) == SourceAfter(SourceAfter(current, a), b)
    decreases |b|
  {
    if b != [] {
      var n := |b|;
      assert (a + b)[..|a + b| - 1] == a + b[..n - 1];
      SourceAfterAppend(current, a, b[..n - 1]);
    } else {
      assert a + b == a;
    }
  }

  /**
    A filled rectangle leaves the default colour in place when its outline is
    stroked and afterwards; an unfilled one leaves the colour untouched.
   */
  lemma RectangleRestoresColor(current: Color, b: Box)
    ensures var ops := RectangleOps(b);
      SourceAfter(current, ops[..|ops| - 1]) == SourceAfter(current, ops)
    ensures SourceAfter(current, RectangleOps(b)) == if b.fill.Some? then DEFAULT_COLOR else current
  {
    var ops := RectangleOps(b);
    var path := Rectangle(b.x, b.y, b.width, b.height);
    assert ops[..|ops| - 1][..|ops| - 2] == ops[..|ops| - 2];
    if b.fill.Some? {
      assert ops[..|ops| - 2][..3] == [path, SetSourceRgb(b.fill.value), Fill];
    } else {
      assert ops == [path, path, Stroke];
      assert ops[..2] == [path, path] && ops[..2][..1] == [path] && [path][..0] == [];
      assert SourceAfter(current, [path]) == current;
      assert SourceAfter(current, [path, path]) == current;
    }
  }

  /**
    Every text among the calls `ops` is shown in the default colour, when the
    calls start from it (cairo's initial source is opaque black).
   */
  predicate TextsInDefaultColor(ops: seq<Op>) {
    forall k :: 0 <= k < |ops| && ops[k].ShowText? ==> SourceAfter(DEFAULT_COLOR, ops[..k]) == DEFAULT_COLOR
  }

  /** Calls that set no colour leave the source colour as it was. */
  lemma {:induction false} NoColorOps(current: Color, ops: seq<Op>)
    requires forall i :: 0 <= i < |ops| ==> !ops[i].SetSourceRgb?
    ensures SourceAfter(current, ops) == current
    decreases |ops|
  {
    if ops != [] {
      NoColorOps(current, ops[..|ops| - 1]);
    }
  }

  /**
    Two runs of calls that each show their texts in the default colour and
    end in it, run one after the other, do so as a whole.
   */
  lemma TextsAppend(a: seq<Op>, b: seq<Op>)
    requires TextsInDefaultColor(a) && SourceAfter(DEFAULT_COLOR, a) == DEFAULT_COLOR
    requires TextsInDefaultColor(b) && SourceAfter(DEFAULT_COLOR, b) == DEFAULT_COLOR
    ensures TextsInDefaultColor(a + b) && SourceAfter(DEFAULT_COLOR, a + b) == DEFAULT_COLOR
  {
    forall k | 0 <= k < |a + b| && (a + b)[k].ShowText?
      ensures SourceAfter(DEFAULT_COLOR, (a + b)[..k]) == DEFAULT_COLOR
    {
      if k < |a| {
        assert (a + b)[..k] == a[..k];
      } else {
        var j := k - |a|;
        assert (a + b)[..k] == a + b[..j];
        assert b[j] == (a + b)[k];
        SourceAfterAppend(DEFAULT_COLOR, a, b[..j]);
      }
    }
    SourceAfterAppend(DEFAULT_COLOR, a, b);
  }

  /** A rectangle shows no text and ends in the default colour when it starts in it. */
  lemma RectangleInDefaultColor(b: Box)
    ensures TextsInDefaultColor(RectangleOps(b)) && SourceAfter(DEFAULT_COLOR, RectangleOps(b)) == DEFAULT_COLOR
  {
    RectangleRestoresColor(DEFAULT_COLOR, b);
  }

  /** A text sets no colour, so it is shown in the colour it starts from. */
  lemma TextInDefaultColor(t: TextDraw)
    ensures TextsInDefaultColor(TextOps(t)) && SourceAfter(DEFAULT_COLOR, TextOps(t)) == DEFAULT_COLOR
  {
    var ops := TextOps(t);
    forall k | 0 <= k <= |ops| ensures SourceAfter(DEFAULT_COLOR, ops[..k]) == DEFAULT_COLOR {
      NoColorOps(DEFAULT_COLOR, ops[..k]);
    }
    assert ops[..|ops|] == ops;
  }

  /** Each drawing shows its texts in the default colour and ends in it. */
  lemma DrawingInDefaultColor(d: Drawing)
    ensures TextsInDefaultColor(DrawingOps(d)) && SourceAfter(DEFAULT_COLOR, DrawingOps(d)) == DEFAULT_COLOR
  {
    match d
    case MonthLabel(_, box, name) =>
      RectangleInDefaultColor(box);
      TextInDefaultColor(name);
      TextsAppend(RectangleOps(box), TextOps(name));
    case DayCell(_, box, number, weekday) =>
      RectangleInDefaultColor(box);
      TextInDefaultColor(number);
      TextInDefaultColor(weekday);
      TextsAppend(RectangleOps(box), TextOps(number));
      TextsAppend(RectangleOps(box) + TextOps(number), TextOps(weekday));
    case FinalStroke =>
      NoColorOps(DEFAULT_COLOR, [Stroke]);
  }

  /** The calls a sequence of drawings issues, drawing by drawing. */
  function TraceOps(ds: seq<Drawing>): seq<Op>
    decreases |ds|
  {
    if ds == [] then [] else TraceOps(ds[..|ds| - 1]) + DrawingOps(ds[|ds| - 1])
  }

  /** Any sequence of drawings shows all its texts in the default colour. */
  lemma {:induction false} TraceInDefaultColor(ds: seq<Drawing>)
    ensures TextsInDefaultColor(TraceOps(ds)) && SourceAfter(DEFAULT_COLOR, TraceOps(ds)) == DEFAULT_COLOR
    decreases |ds|
  {
    if ds != [] {
      TraceInDefaultColor(ds[..|ds| - 1]);
      DrawingInDefaultColor(ds[|ds| - 1]);
      TextsAppend(TraceOps(ds[..|ds| - 1]), DrawingOps(ds[|ds| - 1]));
    }
  }

  /** Sundays are filled like their month's header. */
  lemma SundayMatchesMonthHeader(colors: seq<ColorPair>, d: Date)
    requires ValidDate(d) && Weekday(d) == 6
    ensures DayFill(colors, d) == MonthFill(colors, d.month)
  {
  }

  /** The colour table is used in rotation: months `|colors|` apart share a slot. */
  lemma SlotRotation(colors: seq<ColorPair>, month: int)
    requires colors != [] && 1 <= month
    ensures Slot(colors, month + |colors|) == Slot(colors, month)
  {
    ModShift(month - 1, |colors|);
  }

  /** Adding the modulus does not change a remainder. */
  lemma ModShift(a: int, n: int)
    requires a >= 0 && n > 0
    ensures (a + n) % n == a % n
  {
    var q, r := a / n, a % n;
    var q', r' := (a + n) / n, (a + n) % n;
    var k := q' - q - 1;
    assert k * n == r - r' by {
      assert q * n + r + n == q' * n + r';
      assert (q' - q - 1) * n == q' * n - q * n - n;
    }
    if k >= 1 {
      MulAtLeast(k, n);
    } else if k <= -1 {
      MulAtLeast(-k, n);
    }
  }

  lemma {:induction false} MulAtLeast(k: int, n: int)
    requires k >= 1 && n > 0
    ensures k * n >= n
    decreases k
  {
    if k > 1 {
      MulAtLeast(k - 1, n);
      assert k * n == (k - 1) * n + n;
    }
  }

  /**
    Layout of a month header: at the month's grid position, filled per
    `MonthFill`, with the month name's ink box centred in it.
   */
  lemma MonthLabelLayout(colors: seq<ColorPair>, month: int, extents: (Label, real) -> Extents)
    requires 1 <= month <= 12
    ensures var c := MonthLabelCell(colors, month, extents);
      c.box == Box(MonthOrigin(month).x, PADDING_TOP, BOX_WIDTH, BOX_HEIGHT, MonthFill(colors, month))
    ensures var c := MonthLabelCell(colors, month, extents);
      c.name.text == MonthName(month) && c.name.size == SIZE_MONTH
    ensures var c := MonthLabelCell(colors, month, extents);
      var e := extents(MonthName(month), SIZE_MONTH);
      && c.name.origin.x + e.xBearing + e.width / 2.0 == c.box.x + BOX_WIDTH / 2.0
      && c.name.origin.y + e.yBearing + e.height / 2.0 == c.box.y + BOX_HEIGHT / 2.0
  {
  }

  /**
    Layout of a day box: at the day's grid position, filled per `DayFill`,
    with the two-digit day number anchored "tl" at a reference point inset
    from the box's top-left corner by the padding of its size (3.5 points),
    and the weekday name anchored "br" at a point 3 points inside the
    bottom-right corner; both reference points lie strictly inside the box.
   */
  lemma DayCellLayout(colors: seq<ColorPair>, d: Date, extents: (Label, real) -> Extents)
    requires ValidDate(d)
    ensures var c := DayCellFor(colors, d, extents);
      c.box == Box(DayOrigin(d.month, d.day).x, DayOrigin(d.month, d.day).y, BOX_WIDTH, BOX_HEIGHT, DayFill(colors, d))
    ensures var c := DayCellFor(colors, d, extents);
      && c.number.text == DayNumber(TwoDigits(d.day)) && c.number.size == SIZE_DAY_NUMBER
      && c.weekday.text == WeekdayName(Weekday(d)) && c.weekday.size == SIZE_DAY
    ensures var c := DayCellFor(colors, d, extents);
      var pn := TextPadding(SIZE_DAY_NUMBER);
      && pn == 3.5
      && c.number.origin.x == c.box.x + pn
      && c.number.origin.y == c.box.y + pn + extents(c.number.text, SIZE_DAY_NUMBER).height
      && c.box.x < c.box.x + pn < c.box.x + BOX_WIDTH && c.box.y < c.box.y + pn < c.box.y + BOX_HEIGHT
    ensures var c := DayCellFor(colors, d, extents);
      var pw := TextPadding(SIZE_DAY);
      var e := extents(c.weekday.text, SIZE_DAY);
      && pw == 3.0
      && c.weekday.origin.x + e.xBearing + e.width == c.box.x + BOX_WIDTH - pw
      && c.weekday.origin.y == c.box.y + BOX_HEIGHT - pw
      && c.box.x < c.box.x + BOX_WIDTH - pw < c.box.x + BOX_WIDTH
      && c.box.y < c.box.y + BOX_HEIGHT - pw < c.box.y + BOX_HEIGHT
  {
  }

  /** The headers of the first `n` months, in order. */
  function MonthLabels(colors: seq<ColorPair>, n: int, extents: (Label, real) -> Extents): seq<Drawing>
    requires 0 <= n <= 12
  {
    if n == 0 then [] else MonthLabels(colors, n - 1, extents) + [MonthLabelCell(colors, n, extents)]
  }

  /** The `k`-th header is that of month `k + 1`. */
  lemma {:induction false} MonthLabelsAt(colors: seq<ColorPair>, n: int, extents: (Label, real) -> Extents)
    requires 0 <= n <= 12
    ensures |MonthLabels(colors, n, extents)| == n
    ensures forall k :: 0 <= k < n ==> MonthLabels(colors, n, extents)[k] == MonthLabelCell(colors, k + 1, extents)
  {
    if n > 0 {
      MonthLabelsAt(colors, n - 1, extents);
    }
  }

  /** The boxes of the dates `ds`, in order. */
  function DayCells(colors: seq<ColorPair>, ds: seq<Date>, extents: (Label, real) -> Extents): seq<Drawing>
    requires forall k :: 0 <= k < |ds| ==> ValidDate(ds[k])
  {
    if ds == [] then [] else DayCells(colors, ds[..|ds| - 1], extents) + [DayCellFor(colors, ds[|ds| - 1], extents)]
  }

  /** The `k`-th cell is the box of the `k`-th date. */
  lemma {:induction false} DayCellsAt(colors: seq<ColorPair>, ds: seq<Date>, extents: (Label, real) -> Extents)
    requires forall k :: 0 <= k < |ds| ==> ValidDate(ds[k])
    ensures |DayCells(colors, ds, extents)| == |ds|
    ensures forall k :: 0 <= k < |ds| ==> DayCells(colors, ds, extents)[k] == DayCellFor(colors, ds[k], extents)
    decreases |ds|
  {
    if ds != [] {
      var init := ds[..|ds| - 1];
      DayCellsAt(colors, init, extents);
      var cells := DayCells(colors, init, extents);
      assert DayCells(colors, ds, extents) == cells + [DayCellFor(colors, ds[|ds| - 1], extents)];
      forall k | 0 <= k < |ds|
        ensures DayCells(colors, ds, extents)[k] == DayCellFor(colors, ds[k], extents)
      {
        if k < |init| {
          assert ds[k] == init[k];
        }
      }
    }
  }

  /** The boxes of one more date are those of the dates before it, then its own. */
  lemma DayCellsSnoc(prefix: seq<Drawing>, colors: seq<ColorPair>, ds: seq<Date>, i: nat, extents: (Label, real) -> Extents)
    requires i < |ds| && forall k :: 0 <= k < |ds| ==> ValidDate(ds[k])
    ensures prefix + DayCells(colors, ds[..i + 1], extents)
      == prefix + DayCells(colors, ds[..i], extents) + [DayCellFor(colors, ds[i], extents)]
  {
    assert ds[..i + 1][..i] == ds[..i];
  }

  /** The boxes of all dates of a prefix as long as the sequence are the boxes of the whole sequence. */
  lemma DayCellsAll(prefix: seq<Drawing>, colors: seq<ColorPair>, ds: seq<Date>, i: nat, extents: (Label, real) -> Extents)
    requires i == |ds| && forall k :: 0 <= k < |ds| ==> ValidDate(ds[k])
    ensures prefix + DayCells(colors, ds[..i], extents) == prefix + DayCells(colors, ds, extents)
  {
    assert ds[..i] == ds;
  }

  /** What drawing a whole year leaves on the surface: twelve headers, the box of every date, the final stroke. */
  function YearTrace(colors: seq<ColorPair>, year: int, extents: (Label, real) -> Extents): seq<Drawing>
    requires MIN_YEAR <= year < MAX_YEAR
  {
    MonthLabels(colors, 12, extents) + DayCells(colors, YearDates(year, DaysInYear(year)), extents) + [FinalStroke]
  }

  /** The `k`-th entry after the headers is the box of the `k`-th date of the year. */
  lemma {:induction false} YearTraceAt(colors: seq<ColorPair>, year: int, extents: (Label, real) -> Extents)
    requires MIN_YEAR <= year < MAX_YEAR
    ensures var t, ds := YearTrace(colors, year, extents), YearDates(year, DaysInYear(year));
      && |t| == 12 + DaysInYear(year) + 1
      && (forall k :: 0 <= k < 12 ==> t[k] == MonthLabelCell(colors, k + 1, extents))
      && (forall k :: 12 <= k < |t| - 1 ==> t[k] == DayCellFor(colors, ds[k - 12], extents))
      && t[|t| - 1] == FinalStroke
  {
    var ds := YearDates(year, DaysInYear(year));
    var labels, cells := MonthLabels(colors, 12, extents), DayCells(colors, ds, extents);
    var t := YearTrace(colors, year, extents);
    assert t == labels + cells + [FinalStroke];
    MonthLabelsAt(colors, 12, extents);
    DayCellsAt(colors, ds, extents);
    forall k | 12 <= k < |t| - 1
      ensures t[k] == DayCellFor(colors, ds[k - 12], extents)
    {
      assert t[k] == cells[k - 12];
    }
  }

  /** The trace holds the twelve headers in month order, then one entry per day of the year, then the final stroke. */
  lemma YearTraceShape(colors: seq<ColorPair>, year: int, extents: (Label, real) -> Extents)
    requires MIN_YEAR <= year < MAX_YEAR
    ensures var t := YearTrace(colors, year, extents);
      && |t| == 12 + DaysInYear(year) + 1
      && (forall k :: 0 <= k < 12 ==> t[k] == MonthLabelCell(colors, k + 1, extents))
      && t[|t| - 1] == FinalStroke
  {
    YearTraceAt(colors, year, extents);
  }

  /** Every entry between the headers and the final stroke is the box of a date of the year. */
  lemma YearTraceDaysInYear(colors: seq<ColorPair>, year: int, extents: (Label, real) -> Extents)
    requires MIN_YEAR <= year < MAX_YEAR
    ensures var t := YearTrace(colors, year, extents);
      forall k :: 12 <= k < |t| - 1 ==>
        && t[k].DayCell? && ValidDate(t[k].date) && t[k].date.year == year
        && t[k] == DayCellFor(colors, t[k].date, extents)
  {
    var t, ds := YearTrace(colors, year, extents), YearDates(year, DaysInYear(year));
    YearTraceAt(colors, year, extents);
    YearDatesComplete(year);
    forall k | 12 <= k < |t| - 1
      ensures t[k].DayCell? && t[k].date == ds[k - 12]
    {
    }
  }

  /** The day boxes come in chronological order. */
  lemma YearTraceChronological(colors: seq<ColorPair>, year: int, extents: (Label, real) -> Extents)
    requires MIN_YEAR <= year < MAX_YEAR
    ensures var t := YearTrace(colors, year, extents);
      forall i, j :: 12 <= i < j < |t| - 1 ==>
        t[i].DayCell? && t[j].DayCell? && Before(t[i].date, t[j].date)
  {
    var t, ds := YearTrace(colors, year, extents), YearDates(year, DaysInYear(year));
    YearTraceAt(colors, year, extents);
    YearDatesComplete(year);
    forall i, j | 12 <= i < j < |t| - 1
      ensures t[i].DayCell? && t[j].DayCell? && Before(t[i].date, t[j].date)
    {
      assert t[i].date == ds[i - 12] && t[j].date == ds[j - 12];
    }
  }

  /** Every date of the year has its box in the trace. */
  lemma YearTraceComplete(colors: seq<ColorPair>, year: int, extents: (Label, real) -> Extents)
    requires MIN_YEAR <= year < MAX_YEAR
    ensures var t := YearTrace(colors, year, extents);
      forall d :: ValidDate(d) && d.year == year ==>
        exists k :: 12 <= k < |t| - 1 && t[k] == DayCellFor(colors, d, extents)
  {
    var t, ds := YearTrace(colors, year, extents), YearDates(year, DaysInYear(year));
    YearTraceAt(colors, year, extents);
    YearDatesComplete(year);
    forall d | ValidDate(d) && d.year == year
      ensures exists k :: 12 <= k < |t| - 1 && t[k] == DayCellFor(colors, d, extents)
    {
      var i :| 0 <= i < |ds| && ds[i] == d;
      assert t[12 + i] == DayCellFor(colors, d, extents);
    }
  }

  /**
    Every month name, day number and weekday name of a year is shown in black:
    the fills of weekend boxes and headers never leak into the texts.
   */
  lemma YearTraceTextsBlack(colors: seq<ColorPair>, year: int, extents: (Label, real) -> Extents)
    requires MIN_YEAR <= year < MAX_YEAR
    ensures TextsInDefaultColor(TraceOps(YearTrace(colors, year, extents)))
  {
    TraceInDefaultColor(YearTrace(colors, year, extents));
  }

  /** A calendar of `year`; `trace` is what has been drawn on its surface so far. */
  class Calendar {
    const year: int
    const locale: string
    var colors: seq<ColorPair>
    var trace: seq<Drawing>

    constructor (year: int, locale: string := "de_DE")
      ensures this.year == year && this.locale == locale
      ensures colors == [] && trace == []
    {
      this.year := year;
      this.locale := locale;
      colors := [];
      trace := [];
    }

    /** Appends one `[normal, light]` entry to the colour table. */
    method AddColor(normal: Color, light: Color)
      modifies this`colors
      ensures colors == old(colors) + [ColorPair(normal, light)]
    {
      colors := colors + [ColorPair(normal, light)];
    }

    method PrintMonthLabel(date: Date, extents: (Label, real) -> Extents)
      requires 1 <= date.month <= 12
      modifies this`trace
      ensures trace == old(trace) + [MonthLabelCell(colors, date.month, extents)]
    {
      trace := trace + [MonthLabelCell(colors, date.month, extents)];
    }

    method PrintDay(date: Date, extents: (Label, real) -> Extents)
      requires ValidDate(date)
      modifies this`trace
      ensures trace == old(trace) + [DayCellFor(colors, date, extents)]
    {
      trace := trace + [DayCellFor(colors, date, extents)];
    }

    /**
      Draws the calendar on a fresh surface: the twelve month headers in
      order, then every date of the year once, in chronological order, and a
      final stroke.
     */
    method Create(extents: (Label, real) -> Extents)
      requires MIN_YEAR <= year < MAX_YEAR
      modifies this`trace
      ensures trace == YearTrace(colors, year, extents)
    {
      trace := [];

      for m := 0 to 12
        invariant trace == MonthLabels(colors, m, extents)
      {
        var month := Date(year, m + 1, 1);
        PrintMonthLabel(month, extents);
      }

      ghost var labels := trace;
      ghost var days := DaysInYear(year);
      ghost var all := YearDates(year, days);
      var day := Date(year, 1, 1);
      ghost var i: nat := 0;
      YearDateStep(year, 0);
      while day.year == year
        invariant i <= days
        invariant day == if i < days then all[i] else Date(year + 1, 1, 1)
        invariant day.year == year <==> i < days
        invariant trace == labels + DayCells(colors, all[..i], extents)
        decreases days - i
      {
        YearDateStep(year, i);
        PrintDay(day, extents);
        DayCellsSnoc(labels, colors, all, i, extents);
        day := NextDay(day);
        i := i + 1;
      }
      DayCellsAll(labels, colors, all, i, extents);
      trace := trace + [FinalStroke];
    }
  }
}
