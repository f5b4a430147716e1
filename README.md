# wall-calendar, modelled in Dafny

wall-calendar draws a year as a wall calendar on an A0 page. There are twelve
month columns. Each has a coloured header box with the month name, and below
it one box per day. A day box shows the two-digit day number in its top-left
corner and the weekday name in its bottom-right corner. A colour table of
`[normal, light]` pairs is used in rotation, one entry per month. Saturdays
are filled with the month's light colour, Sundays and headers with its normal
colour. Two companions are modelled alongside:
- the base conversion of the year that the "FS" variant prints (bases 2 to 36);
- the ICS-to-CSV converter, which writes one `month,day,"summary",no` row for
  each event that starts in the chosen year.

Modules:

- `Wrappers`: `Option` and `Result`.
- `Dates`: `datetime.date` as the calendar uses it. It covers years 1..9999,
  ordinals, `weekday()` (Monday = 0) and `date + timedelta(1)`.
- `Geometry`: the page constants and the gaps between boxes. It also holds the
  corner of each header and day box, the placement of a text relative to an
  anchor code, and the text inset. Lengths are exact reals.
- `CalendarModel`: the colour choices and the drawings of a header and a day
  box. Each drawing maps to the surface calls it issues (rectangle path, fill
  colour, fill, default colour, outline; font size, move, show). The class
  `Calendar` holds the colour table and the trace of drawings issued by
  `Create`.
- `BaseConversion`: `__digit_str` and the `__to_base` loop.
- `IcsToCsv`: the filter-and-format loop of `convert_ics_csv` over the list of
  events. Failing to open a file is reported as a `ConversionError`.

Some inputs come from outside the model and are parameters:
- The text extents reported by cairo are a function `(Label, real) -> Extents`.
- The parsed calendar file and the outcome of opening both files are the
  `Io` values passed to `ConvertIcsCsv`.

## Model

| member | source | states |
|---|---|---|
| Dates.Weekday | calendar.py:118-121 | `weekday()` lies in 0..6 and counts from the Monday 0001-01-01 (ordinal 1) |
| Dates.NextDay | calendar.py:58-62 | `day += timedelta(1)` gives a valid date for every date but 9999-12-31 |
| Dates.NextDayOrdinal | calendar.py:58-62 | the day after a date has the next ordinal |
| Dates.NextDayIsSuccessor | calendar.py:58-62 | the next day is later than `day`, and no valid date lies strictly between them |
| Dates.WeekdayStep | calendar.py:58-62 | stepping one day advances the weekday by one, wrapping Sunday to Monday |
| Dates.OrdinalOrder | calendar.py:58-62 | chronological order of valid dates is the order of their ordinals, and equal ordinals mean equal dates |
| Dates.YearStep | calendar.py:60-62 | a year spans exactly 365 or 366 ordinals (Gregorian leap rule), so the walk leaves the year after that many days |
| Dates.AdvanceWithinYear | calendar.py:58-62 | stepping n days from January 1st stays in the year exactly while n is below the year's length, and reaches the next January 1st at that length |
| Dates.YearDateStep | calendar.py:58-62 | the walk starts on January 1st, and the day after the n-th date of the year is the (n+1)-th, or next January 1st after the last |
| Dates.YearDatesComplete | calendar.py:58-62 | the dates walked through a year are all in the year, strictly chronological, and include every valid date of the year |
| Geometry.SpaceBoxes | calendar.py:70-75 | both gaps are positive; 12 boxes and 11 horizontal gaps fill the padded width; a header, 31 day rows, one horizontal gap and 30 vertical gaps fill the padded height |
| Geometry.MonthOrigin | calendar.py:77-83 | every header sits at the top padding and inside the side paddings; January starts at the left padding, December ends at the right one |
| Geometry.MonthColumnsDisjoint | calendar.py:77-83 | the columns are ordered left to right, with at least one full gap between any two |
| Geometry.DayOrigin | calendar.py:85-92 | a day box lies in its month's column, below the header and a horizontal gap, above the bottom padding; day 1 directly under the header gap, day 31 ending on the bottom padding |
| Geometry.DayRowsDisjoint | calendar.py:85-92 | the day boxes of a column never overlap; a later day lies wholly below an earlier one, at least one vertical gap apart |
| Geometry.ParseAnchor | calendar.py:153-168 | the codes "c", "tl", "tr" and "br" and only they select the centre and the three corner anchors |
| Geometry.TextOriginAnchors | calendar.py:144-170 | "c" centres the ink box on the point; "tl" starts the text at x with the baseline one text height below y; "tr" and "br" put the ink's right edge at x, with the baseline one text height below y ("tr") or on y ("br"); any other code draws at the point; the default is "c" |
| Geometry.TextPadding | calendar.py:124-130 | `max(0.1*size, 3)`: at least 3 and at least a tenth of the size, and equal to one of them |
| CalendarModel.Slot | calendar.py:101-117 | the colour entry of a month is in the table; while the month is within the table's length it is the month's own entry |
| CalendarModel.SlotRotation | calendar.py:103 | months the table's length apart share an entry |
| CalendarModel.MonthFill | calendar.py:101-103 | a header is unfilled exactly when the table is empty; otherwise it takes the normal colour of its slot |
| CalendarModel.DayFill | calendar.py:115-121 | a day box is filled exactly when the table is non-empty and the day is a Saturday or Sunday: light colour on Saturday, normal colour on Sunday |
| CalendarModel.SundayMatchesMonthHeader | calendar.py:101-121 | a Sunday is filled exactly like its month's header |
| CalendarModel.TwoDigits | calendar.py:126 | `strftime("%d")` is two decimal digits that read back as the day |
| CalendarModel.RectangleOps | calendar.py:135-142 | a rectangle issues exactly 3 calls, or 6 with a fill: the path first and the path and stroke last; fill colour, fill and default colour come in between exactly when a fill is given |
| CalendarModel.RectangleRestoresColor | calendar.py:137-142 | after a filled rectangle the source colour is the default black, both for its outline and afterwards; an unfilled one leaves the colour as it was |
| CalendarModel.MonthLabelLayout | calendar.py:94-108 | a header box lies at its month's corner with `MonthFill`; the month name at the month size has its ink box centred in the box |
| CalendarModel.DayCellLayout | calendar.py:110-133 | a day box lies at its day's corner with `DayFill`; the day number (size 35) has its reference point inset 3.5 from the top-left corner, so it starts 3.5 right of the box's left edge with its baseline one text height below that point; the weekday (size 20) has its reference point 3 inside the bottom-right corner, so its ink ends 3 left of the box's right edge and its baseline lies 3 above the bottom; both reference points lie inside the box |
| CalendarModel.TextsAppend | calendar.py:135-142 | runs of calls that each show their texts in the default colour and end in it do so when run one after the other |
| CalendarModel.DrawingInDefaultColor | calendar.py:94-142 | started in the default colour, a header or day box shows its texts in that colour and leaves it in place, because every fill colour is reset before the outline |
| CalendarModel.TraceInDefaultColor | calendar.py:52-65 | any sequence of drawings, started in the default colour, shows every text in it |
| CalendarModel.YearTraceTextsBlack | calendar.py:52-65 | every month name, day number and weekday name of a year is shown in black (cairo's initial colour), whatever the colour table |
| CalendarModel.YearTraceShape | calendar.py:52-65 | a year's trace holds 13 + days-in-year drawings: the headers of months 1..12 in order first, the final stroke last |
| CalendarModel.YearTraceDaysInYear | calendar.py:57-62 | every entry between the headers and the final stroke is the box of a valid date of the year, drawn per `DayCellFor` |
| CalendarModel.YearTraceChronological | calendar.py:57-62 | the day boxes come in strictly chronological order, so no date is drawn twice |
| CalendarModel.YearTraceComplete | calendar.py:57-62 | every valid date of the year has its box in the trace |
| CalendarModel.Calendar.constructor | calendar.py:38-42 | a calendar keeps its year and locale (default "de_DE") and starts with an empty colour table and nothing drawn |
| CalendarModel.Calendar.AddColor | calendar.py:67-68 | appends `[normal, light]` to the colour table and leaves the rest of it as it was |
| CalendarModel.Calendar.PrintMonthLabel | calendar.py:94-108 | appends the header drawing of the date's month to the trace |
| CalendarModel.Calendar.PrintDay | calendar.py:110-133 | appends the day box of the date to the trace |
| CalendarModel.Calendar.Create | calendar.py:44-65 | the surface's trace is `YearTrace` of the colour table and year: the twelve headers, the box of each date stepped through the year, the final stroke (whose shape, order and completeness the `YearTrace` lemmas state) |
| BaseConversion.DigitStr | fs-calendar.py:84-90 | a single character exactly for 0..35: '0'..'9' then 'A'..'Z', reading back as the digit; `None` otherwise |
| BaseConversion.ToBase | fs-calendar.py:70-82 | `None` exactly when the base is outside 2..36; otherwise the digits of the loop, which read back as the number when it is not negative |
| BaseConversion.RoundTrip | fs-calendar.py:74-82 | the digits of a non-negative number, read most significant first, give the number back |
| BaseConversion.DigitsInBase | fs-calendar.py:78-80 | every digit produced is smaller than the base, so `__digit_str` always yields a character there |
| BaseConversion.ZeroIsEmpty | fs-calendar.py:74-82 | 0 converts to the empty string, because the loop does not run |
| BaseConversion.NoLeadingZero | fs-calendar.py:74-82 | a positive number has no leading zero digit |
| BaseConversion.DigitCount | fs-calendar.py:74-82 | a positive number has k digits exactly when base^(k-1) <= n < base^k |
| IcsToCsv.Decimal | ics2csv.py:30 | `str(n)` is non-empty decimal digits with no leading zero, reading back as n |
| IcsToCsv.ConvertIcsCsv | ics2csv.py:15-37 | a failure to open the input or the output file gives `ConversionError("Can't open file: " + in_file + " (" + reason + ")")`; otherwise the written lines are the rows of the year's events, in walk order |
| IcsToCsv.RowsAppend | ics2csv.py:26-31 | rows follow the walk order: the rows of two runs of events are those of the first, then those of the second |
| IcsToCsv.RowsCount | ics2csv.py:29-31 | as many rows as there are positions of events that start in the year |
| IcsToCsv.RowsMembership | ics2csv.py:29-31 | every row is the row of an event of the year, and every event of the year has its row written |
| IcsToCsv.RowReadsBack | ics2csv.py:30-31 | month and day are comma-free decimals that end at the row's first two commas and read back as the event's month and day; the row ends with `",no` and a newline |

## Left out

- Drawing: cairo's SVG surface and context are not modelled. A run is the trace of drawings and the surface calls each one stands for. Text extents are a parameter.
- Names: the locale and the `strftime("%B")` / `strftime("%a")` names are kept symbolic as month and weekday numbers, because they come from the C library's locale tables.
- Floating point: lengths are exact reals. `0.1*35` is exactly 3.5 in the model. `int(div_result / base)` is an exact truncating division, so the rounding of float division for numbers above 2^53 is not modelled.
- CalendarModel.Calendar.Create: requires 1 <= year < 9999. For year 9999 the source raises `OverflowError` when stepping past 9999-12-31, and years outside 1..9999 make `datetime.date` raise `ValueError`. Neither error path is modelled.
- CalendarModel.Calendar.AddColor: in the source `colors` is a class attribute shared by every `Calendar` object. The model keeps one table per object, so it does not capture sharing between calendars.
- `__rectangle`'s default fill colour `DEFAULT_COLOR` is never used, because every caller passes a colour or `None`.
- BaseConversion.ToBase: for a negative number the model follows the loop as written (floor remainder, truncating quotient) and every digit is still below the base, but no round trip is claimed. The calendar only converts its year, which is positive.
- The rest of the FS calendar (logo, texts, PNG output) is not part of this model. Neither is the annotation data read from CSV files.
- IcsToCsv.ConvertIcsCsv: the reading and parsing of the ICS file (icalendar) and the file system are parameters. Only the failure to open either file is modelled; an `IOError` while writing is not. The output file's lines are the method's result. Two exceptions escape the source's `except IOError` uncaught and are not modelled: the `ValueError` of `Calendar.from_ical` on a malformed file (ics2csv.py:19), and the `KeyError` of an event without a SUMMARY (ics2csv.py:27), raised after the output file was opened. Events whose start is a datetime are modelled by their date. The command-line front end is left out.
