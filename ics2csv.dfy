/**
  Conversion of calendar events to the CSV rows the wall calendar reads:
  one row `month,day,"summary",no` per event that starts in the chosen year,
  in the order the events are walked.
 */
module IcsToCsv {
  import opened Wrappers
  import opened Dates
  import BaseConversion

  /** An event as walked from the calendar file: its start date and summary. */
  datatype Event = Event(start: Date, summary: string)

  /** What opening (and reading) a file gave: its contents, or the error's text. */
  datatype Io<T> = Done(value: T) | IOError(reason: string)

  datatype ConversionError = ConversionError(value: string)

  /** `str(n)` of a natural number: decimal digits, no leading zero. */
  function Decimal(n: nat): (s: string)
    ensures |s| >= 1 && (n > 0 ==> s[0] != '0')
    ensures forall i :: 0 <= i < |s| ==> '0' <= s[i] <= '9'
    ensures BaseConversion.FromDigits(s, 10) == n
  {
    if n == 0 then "0"
    else
      BaseConversion.NoLeadingZero(n, 10);
      DecimalDigits(n);
      BaseConversion.RoundTrip(n, 10);
      BaseConversion.Digits(n, 10)
  }

  /** In base 10 every digit produced is a decimal digit character. */
  lemma DecimalDigits(n: int)
    ensures var s := BaseConversion.Digits(n, 10);
      forall i :: 0 <= i < |s| ==> '0' <= s[i] <= '9'
  {
    var s := BaseConversion.Digits(n, 10);
    BaseConversion.DigitsInBase(n, 10);
    forall i | 0 <= i < |s| ensures '0' <= s[i] <= '9' {
      assert 0 <= BaseConversion.DigitValue(s[i]) < 10;
    }
  }

  /** The CSV row of one event; the highlight column is always `no`. */
  function Row(e: Event): string
    requires ValidDate(e.start)
  {
    Decimal(e.start.month) + "," + Decimal(e.start.day) + ",\"" + e.summary + "\",no\n"
  }

  predicate AllValid(events: seq<Event>) {
    forall k :: 0 <= k < |events| ==> ValidDate(events[k].start)
  }

  /** The rows written for `events`: those starting in `year`, in order. */
  function Rows(events: seq<Event>, year: int): seq<string>
    requires AllValid(events)
  {
    if events == [] then []
    else
      var last := events[|events| - 1];
      Rows(events[..|events| - 1], year) + (if last.start.year == year then [Row(last)] else [])
  }

  function CantOpen(inFile: string, reason: string): ConversionError {
    ConversionError("Can't open file: " + inFile + " (" + reason + ")")
  }

  /**
    Converts the events read from `inFile` into the rows of the output file.
    `input` is the outcome of opening and reading `inFile`, `output`
    that of opening the output file; either error is reported naming `inFile`.
   */
  method ConvertIcsCsv(inFile: string, input: Io<seq<Event>>, output: Io<()>, year: int)
    returns (r: Result<seq<string>, ConversionError>)
    requires input.Done? ==> AllValid(input.value)
    ensures input.IOError? ==> r == Failure(CantOpen(inFile, input.reason))
    ensures input.Done? && output.IOError? ==> r == Failure(CantOpen(inFile, output.reason))
    ensures input.Done? && output.Done? ==> r == Success(Rows(input.value, year))
  {
    if input.IOError? {
      return Failure(CantOpen(inFile, input.reason));
    }
    var events := input.value;
    if output.IOError? {
      return Failure(CantOpen(inFile, output.reason));
    }

    var lines: seq<string> := [];
    for i := 0 to |events|
      invariant lines == Rows(events[..i], year)
    {
      var event := events[i];
      assert events[..i + 1][..i] == events[..i];
      if event.start.year == year {
        lines := lines + [Row(event)];
      }
    }
    assert events[..|events|] == events;
    return Success(lines);
  }

  /** Rows keep the walk order: the rows of two runs of events are those of each, in turn. */
  lemma {:induction false} RowsAppend(a: seq<Event>, b: seq<Event>, year: int)
    requires AllValid(a) && AllValid(b)
    ensures AllValid(a + b)
    ensures Rows(a + b, year) == Rows(a, year) + Rows(b, year)
    decreases |b|
  {
    if b != [] {
      var b' := b[..|b| - 1];
      assert (a + b)[..|a + b| - 1] == a + b';
      RowsAppend(a, b', year);
    } else {
      assert a + b == a;
    }
  }

  /** The positions of the events that start in `year`. */
  function Matches(events: seq<Event>, year: int): set<int> {
    set i | 0 <= i < |events| && events[i].start.year == year
  }

  /** A row is written for exactly the events starting in `year`, one per event. */
  lemma {:induction false} RowsCount(events: seq<Event>, year: int)
    requires AllValid(events)
    ensures |Rows(events, year)| == |Matches(events, year)|
    decreases |events|
  {
    var n := |events|;
    if n > 0 {
      RowsCount(events[..n - 1], year);
      MatchesSnoc(events, year);
    } else {
      assert Matches(events, year) == {};
    }
  }

  /** The matching positions of a run of events are those of all but its last event, plus the last one when it matches. */
  lemma MatchesSnoc(events: seq<Event>, year: int)
    requires events != []
    ensures var n := |events|;
      && n - 1 !in Matches(events[..n - 1], year)
      && Matches(events, year)
        == Matches(events[..n - 1], year) + (if events[n - 1].start.year == year then {n - 1} else {})
  {
    var n := |events|;
    var init := events[..n - 1];
    var extra: set<int> := if events[n - 1].start.year == year then {n - 1} else {};
    forall i ensures i in Matches(events, year) <==> i in Matches(init, year) + extra {
      if 0 <= i < n - 1 {
        assert init[i] == events[i];
      }
    }
  }

  /** Every row is that of an event of `year`, and every event of `year` has its row. */
  lemma {:induction false} RowsMembership(events: seq<Event>, year: int)
    requires AllValid(events)
    ensures forall row :: row in Rows(events, year) ==>
      exists k :: 0 <= k < |events| && events[k].start.year == year && row == Row(events[k])
    ensures forall k :: 0 <= k < |events| && events[k].start.year == year ==> Row(events[k]) in Rows(events, year)
    decreases |events|
  {
    var n := |events|;
    if n > 0 {
      var init := events[..n - 1];
      RowsMembership(init, year);
      forall row | row in Rows(events, year)
        ensures exists k :: 0 <= k < n && events[k].start.year == year && row == Row(events[k])
      {
        if row in Rows(init, year) {
          var k :| 0 <= k < n - 1 && init[k].start.year == year && row == Row(init[k]);
          assert events[k] == init[k];
        } else {
          assert events[n - 1].start.year == year && row == Row(events[n - 1]);
        }
      }
      forall k | 0 <= k < n && events[k].start.year == year
        ensures Row(events[k]) in Rows(events, year)
      {
        if k < n - 1 {
          assert events[k] == init[k];
        }
      }
    }
  }

  /**
    The month and day columns of a row read back as the event's month and day:
    both are unpadded decimals holding no comma, so the first two commas of the
    row end them, whatever the summary holds. The row ends with the closing
    quote and the highlight column `no`.
   */
  lemma RowReadsBack(e: Event)
    requires ValidDate(e.start)
    ensures var r, m, d := Row(e), Decimal(e.start.month), Decimal(e.start.day);
      && ',' !in m && ',' !in d
      && r[..|m|] == m && r[|m|] == ','
      && r[|m| + 1..|m| + 1 + |d|] == d && r[|m| + 1 + |d|] == ','
      && BaseConversion.FromDigits(m, 10) == e.start.month
      && BaseConversion.FromDigits(d, 10) == e.start.day
      && r[|r| - 5..] == "\",no\n"
  {
    var r, m, d := Row(e), Decimal(e.start.month), Decimal(e.start.day);
    assert r == m + "," + d + ",\"" + e.summary + "\",no\n";
    assert ',' !in m by {
      forall i | 0 <= i < |m| ensures m[i] != ',' { }
    }
    assert ',' !in d by {
      forall i | 0 <= i < |d| ensures d[i] != ',' { }
    }
  }
}
