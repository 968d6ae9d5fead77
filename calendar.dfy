/** The forecast-history calendar page (calendar.js): the badge class and
    text of a day's change, the date keys it looks up in the calendar data,
    which record a day cell shows, the month grid, the rule that hides
    future months without data, and the rotating loading message. HTML is
    modelled as the sequence of cells the page emits. */
module Calendar {

  import opened Wrappers
  import opened Records
  import Text
  import CalendarData

  // ---------------------------------------------------------------------
  // Delta badge
  // ---------------------------------------------------------------------

  /** `getDeltaClass`. */
  function DeltaClass(delta: int): (r: string)
    ensures r == "up" <==> delta > 0
    ensures r == "down" <==> delta < 0
    ensures r == "unchanged" <==> delta == 0
  {
    if delta > 0 then "up" else if delta < 0 then "down" else "unchanged"
  }

  /** `formatDelta`: `0`, `+n` or `-n`. */
  function FormatDelta(delta: int): (r: string)
    ensures |r| >= 1
    ensures r == "0" <==> delta == 0
    ensures r[0] == '+' <==> delta > 0
    ensures r[0] == '-' <==> delta < 0
  {
    if delta == 0 then "0" else if delta > 0 then "+" + Text.IntToString(delta) else Text.IntToString(delta)
  }

  /** The badge text reads back as the change it shows. */
  lemma FormatDeltaRoundTrip(delta: int)
    ensures Text.ParseInt(FormatDelta(delta)) == Some(delta)
  {
    if delta > 0 {
      Text.NatToStringRoundTrip(delta);
      assert FormatDelta(delta)[1..] == Text.NatToString(delta);
    } else {
      Text.IntToStringRoundTrip(delta);
    }
  }

  // ---------------------------------------------------------------------
  // Date keys
  // ---------------------------------------------------------------------

  /** `${year}-${String(month + 1).padStart(2, '0')}-${String(day).padStart(2, '0')}`. */
  function DateKey(year: int, month: nat, day: nat): string
  {
    Text.IntToString(year) + "-" + Text.PadStart2(Text.NatToString(month + 1)) + "-" + Text.PadStart2(Text.NatToString(day))
  }

  function NightKey(year: int, month: nat, day: nat): string
  {
    DateKey(year, month, day) + CalendarData.NightMarker
  }

  lemma FourDigits(n: nat)
    requires 1000 <= n < 10000
    ensures |Text.NatToString(n)| == 4
  {
    assert Text.NatToString(n) == Text.NatToString(n / 10) + [Text.DigitChar(n % 10)];
    assert Text.NatToString(n / 10) == Text.NatToString(n / 100) + [Text.DigitChar(n / 10 % 10)];
    assert Text.NatToString(n / 100) == Text.NatToString(n / 1000) + [Text.DigitChar(n / 100 % 10)];
  }

  /** Two-digit padding of a number below 100 keeps its value. */
  lemma PaddedValue(n: nat)
    requires n < 100
    ensures var p := Text.PadStart2(Text.NatToString(n));
      |p| == 2 && Text.AllDigits(p) && Text.DigitsValue(p) == n
  {
    var s := Text.NatToString(n);
    Text.NatToStringRoundTrip(n);
    if n >= 10 {
      assert s == Text.NatToString(n / 10) + [Text.DigitChar(n % 10)];
    } else {
      var p := Text.PadStart2(s);
      assert p == "0" + s;
      assert p[..1] == "0";
    }
  }

  /** For a four-digit year the page's key is a `YYYY-MM-DD` date of that
      year, month and day: the shape the calendar data is keyed by. */
  lemma DateKeyIsDate(year: int, month: nat, day: nat)
    requires 1000 <= year < 10000 && month < 12 && day < 100
    ensures var k := DateKey(year, month, day);
      && CalendarData.IsDatePattern(k)
      && CalendarData.YearOf(k) == year
      && Text.DigitsValue(k[5..7]) == month + 1
      && Text.DigitsValue(k[8..10]) == day
  {
    FourDigits(year);
    Text.NatToStringRoundTrip(year);
    PaddedValue(month + 1);
    PaddedValue(day);
    var y := Text.IntToString(year);
    var mm := Text.PadStart2(Text.NatToString(month + 1));
    var dd := Text.PadStart2(Text.NatToString(day));
    var k := DateKey(year, month, day);
    assert k == y + "-" + mm + "-" + dd;
    assert k[..4] == y && k[5..7] == mm && k[8..10] == dd;
  }

  // ---------------------------------------------------------------------
  // A day cell
  // ---------------------------------------------------------------------

  /** A rendered day: the no-data placeholder, or the badge class, the last
      amount, the badge text and the figures of the hover title. */
  datatype Cell =
    | NoDataCell(day: nat)
    | DataCell(day: nat, deltaClass: string, lastAmount: int, deltaText: string, firstAmount: int, historyCount: nat)

  /** `dayData || nightData`: the bare date's summary when there is one. */
  function Effective(data: map<string, CalendarData.DaySummary>, year: int, month: nat, day: nat): (r: Option<CalendarData.DaySummary>)
    ensures DateKey(year, month, day) in data ==> r == Some(data[DateKey(year, month, day)])
    ensures DateKey(year, month, day) !in data && NightKey(year, month, day) in data ==> r == Some(data[NightKey(year, month, day)])
    ensures r.None? <==> DateKey(year, month, day) !in data && NightKey(year, month, day) !in data
  {
    var dateStr := DateKey(year, month, day);
    if dateStr in data then Some(data[dateStr])
    else if dateStr + CalendarData.NightMarker in data then Some(data[dateStr + CalendarData.NightMarker])
    else None
  }

  /** `renderDayCell`. */
  function RenderDayCell(year: int, month: nat, day: nat, data: map<string, CalendarData.DaySummary>): (c: Cell)
    ensures c.day == day
    ensures c.DataCell? <==> Effective(data, year, month, day).Some? && |Effective(data, year, month, day).value.history| > 0
    ensures c.DataCell? ==> var e := Effective(data, year, month, day).value;
      c.deltaClass == DeltaClass(e.delta) && c.deltaText == FormatDelta(e.delta)
      && c.lastAmount == e.lastAmount && c.firstAmount == e.firstAmount && c.historyCount == e.historyCount
  {
    var effective := Effective(data, year, month, day);
    if effective.None? || |effective.value.history| == 0 then NoDataCell(day)
    else
      var e := effective.value;
      DataCell(day, DeltaClass(e.delta), e.lastAmount, FormatDelta(e.delta), e.firstAmount, e.historyCount)
  }

  /** A bare-date summary with an empty history hides the night summary of
      the same date: the fallback happens only when the bare key is absent. */
  lemma BareDateShadowsNight(year: int, month: nat, day: nat, data: map<string, CalendarData.DaySummary>)
    requires DateKey(year, month, day) in data && |data[DateKey(year, month, day)].history| == 0
    ensures RenderDayCell(year, month, day, data) == NoDataCell(day)
  {
  }

  // ---------------------------------------------------------------------
  // Dates of the Gregorian calendar
  // ---------------------------------------------------------------------

  /** `new Date(y, m, d)` reads a year from 0 to 99 as 1900 + y. */
  function FullYear(y: int): int
  {
    if 0 <= y <= 99 then 1900 + y else y
  }

  predicate IsLeap(y: int)
  {
    y % 4 == 0 && (y % 100 != 0 || y % 400 == 0)
  }

  /** `new Date(year, month + 1, 0).getDate()`: the last day of `month`. */
  function DaysInMonth(year: int, month: nat): (r: nat)
    requires month < 12
    ensures 28 <= r <= 31
  {
    MonthLength(FullYear(year), month)
  }

  /** The length of `month` in the full year `y`. */
  function MonthLength(y: int, month: nat): (r: nat)
    requires month < 12
    ensures 28 <= r <= 31
    ensures r == 29 <==> month == 1 && IsLeap(y)
  {
    if month == 1 then (if IsLeap(y) then 29 else 28)
    else if month == 3 || month == 5 || month == 8 || month == 10 then 30
    else 31
  }

  const MonthOffsets: seq<int> := [0, 3, 2, 5, 0, 3, 5, 1, 4, 6, 2, 4]

  /** The weekday (0 is Sunday) of the first of `month` in the full year
      `y`; the year counts from March so that a leap day ends it. Division
      is floor division, as the proleptic calendar needs for any year. */
  function FirstWeekdayOf(y: int, month: nat): (r: nat)
    requires month < 12
    ensures r < 7
  {
    var yy := if month < 2 then y - 1 else y;
    (yy + yy / 4 - yy / 100 + yy / 400 + MonthOffsets[month] + 1) % 7
  }

  /** `new Date(year, month, 1).getDay()`. */
  function FirstWeekday(year: int, month: nat): (r: nat)
    requires month < 12
    ensures r < 7
  {
    FirstWeekdayOf(FullYear(year), month)
  }

  lemma LeapSteps(y: int)
    ensures (y + y / 4 - y / 100 + y / 400) - ((y - 1) + (y - 1) / 4 - (y - 1) / 100 + (y - 1) / 400)
      == if IsLeap(y) then 2 else 1
  {
    Quarter(y);
    Century(y);
    QuadCentury(y);
  }

  // Floor division by a constant steps up exactly at its multiples.
  lemma Quarter(y: int)
    ensures y / 4 - (y - 1) / 4 == if y % 4 == 0 then 1 else 0
  {
  }

  lemma Century(y: int)
    ensures y / 100 - (y - 1) / 100 == if y % 100 == 0 then 1 else 0
  {
  }

  lemma QuadCentury(y: int)
    ensures y / 400 - (y - 1) / 400 == if y % 400 == 0 then 1 else 0
  {
  }

  lemma ModStep(a: int, len: int, b: int)
    requires (a + len - b) % 7 == 0
    ensures b % 7 == (a % 7 + len) % 7
  {
    var q := (a + len - b) / 7;
    assert a + len - b == 7 * q;
  }

  /** Each month begins the weekday after the previous month's last day:
      the weekday rule agrees with the month lengths. */
  lemma MonthsFollowOn(y: int, month: nat)
    requires month < 11
    ensures FirstWeekdayOf(y, month + 1) == (FirstWeekdayOf(y, month) + MonthLength(y, month)) % 7
  {
    if month == 1 {
      FebruaryFollowsOn(y);
    } else {
      OffsetsFollowOn(y, month);
      var yy := if month < 2 then y - 1 else y;
      var sy := yy + yy / 4 - yy / 100 + yy / 400;
      ModStep(sy + MonthOffsets[month] + 1, MonthLength(y, month), sy + MonthOffsets[month + 1] + 1);
    }
  }

  // The step from February to March crosses the start of the Sakamoto year.
  lemma FebruaryFollowsOn(y: int)
    ensures FirstWeekdayOf(y, 2) == (FirstWeekdayOf(y, 1) + MonthLength(y, 1)) % 7
  {
    LeapSteps(y);
    var s0 := (y - 1) + (y - 1) / 4 - (y - 1) / 100 + (y - 1) / 400;
    var s1 := y + y / 4 - y / 100 + y / 400;
    ModStep(s0 + MonthOffsets[1] + 1, MonthLength(y, 1), s1 + MonthOffsets[2] + 1);
  }

  // Within one Sakamoto year the offsets differ by the month lengths.
  lemma OffsetsFollowOn(y: int, month: nat)
    requires month < 11 && month != 1
    ensures (MonthOffsets[month] + MonthLength(y, month) - MonthOffsets[month + 1]) % 7 == 0
  {
  }

  /** December is followed by January of the next year. */
  lemma YearsFollowOn(y: int)
    ensures FirstWeekdayOf(y + 1, 0) == (FirstWeekdayOf(y, 11) + 31) % 7
  {
    var sy := y + y / 4 - y / 100 + y / 400;
    ModStep(sy + MonthOffsets[11] + 1, 31, sy + MonthOffsets[0] + 1);
  }

  /** 1 January 2026 is a Thursday. */
  lemma FirstOf2026()
    ensures FirstWeekday(2026, 0) == 4
  {
  }

  // ---------------------------------------------------------------------
  // The month grid
  // ---------------------------------------------------------------------

  const DayNames: seq<string> := ["Sun", "Mon", "Tue", "Wed", "Thu", "Fri", "Sat"]

  const MonthNames: seq<string> := ["January", "February", "March", "April", "May", "June",
    "July", "August", "September", "October", "November", "December"]

  datatype GridCell = Header(name: string) | Blank | Day(cell: Cell)

  /** `(7 - (totalCells % 7)) % 7`. */
  function TrailingBlanks(totalCells: nat): nat
  {
    (7 - totalCells % 7) % 7
  }

  /** The trailing blanks are the fewest that complete the last week. */
  lemma TrailingBlanksComplete(totalCells: nat)
    ensures TrailingBlanks(totalCells) < 7
    ensures (totalCells + TrailingBlanks(totalCells)) % 7 == 0
    ensures TrailingBlanks(totalCells) == 0 <==> totalCells % 7 == 0
  {
  }

  function Blanks(n: nat): (r: seq<GridCell>)
    ensures |r| == n && forall i :: 0 <= i < n ==> r[i] == Blank
  {
    seq(n, _ => Blank)
  }

  function Headers(): (r: seq<GridCell>)
    ensures |r| == 7 && forall i :: 0 <= i < 7 ==> r[i] == Header(DayNames[i])
  {
    seq(7, i requires 0 <= i < 7 => Header(DayNames[i]))
  }

  /** The cells of days 1 to `n`. */
  function DayCells(year: int, month: nat, data: map<string, CalendarData.DaySummary>, n: nat): (r: seq<GridCell>)
    ensures |r| == n
  {
    if n == 0 then [] else DayCells(year, month, data, n - 1) + [Day(RenderDayCell(year, month, n, data))]
  }

  lemma {:induction false} DayCellsAt(year: int, month: nat, data: map<string, CalendarData.DaySummary>, n: nat)
    ensures forall d :: 1 <= d <= n ==> DayCells(year, month, data, n)[d - 1] == Day(RenderDayCell(year, month, d, data))
  {
    if n > 0 {
      DayCellsAt(year, month, data, n - 1);
      var prev := DayCells(year, month, data, n - 1);
      assert DayCells(year, month, data, n) == prev + [Day(RenderDayCell(year, month, n, data))];
    }
  }

  /** The grid of `renderMonth`: headers, leading blanks, the days, trailing blanks. */
  function MonthCells(year: int, month: nat, data: map<string, CalendarData.DaySummary>): seq<GridCell>
    requires month < 12
  {
    var firstDay := FirstWeekday(year, month);
    var daysInMonth := DaysInMonth(year, month);
    Headers() + Blanks(firstDay) + DayCells(year, month, data, daysInMonth) + Blanks(TrailingBlanks(firstDay + daysInMonth))
  }

  /** The grid is whole weeks: the seven headers and `firstDay` blanks,
      the days, then fewer than seven blanks. */
  lemma MonthCellsWeeks(year: int, month: nat, data: map<string, CalendarData.DaySummary>)
    requires month < 12
    ensures var c := MonthCells(year, month, data);
      var lead := FirstWeekday(year, month);
      var days := DaysInMonth(year, month);
      && |c| % 7 == 0
      && 7 + lead + days <= |c| < 14 + lead + days
      && (forall i :: 0 <= i < 7 ==> c[i] == Header(DayNames[i]))
      && (forall i :: 7 <= i < 7 + lead ==> c[i] == Blank)
      && (forall i :: 7 + lead + days <= i < |c| ==> c[i] == Blank)
  {
    var lead := FirstWeekday(year, month);
    var days := DaysInMonth(year, month);
    TrailingBlanksComplete(lead + days);
    var h := Headers();
    var b := Blanks(lead);
    var dc := DayCells(year, month, data, days);
    var t := Blanks(TrailingBlanks(lead + days));
    var c := MonthCells(year, month, data);
    assert c == h + b + dc + t;
    ConcatParts(h, b, dc, t);
    WholeWeeks(lead + days + |t|);
  }

  lemma WholeWeeks(x: int)
    requires x % 7 == 0
    ensures (7 + x) % 7 == 0
  {
    var q := x / 7;
    assert 7 + x == 7 * (q + 1);
  }

  /** Indexing into four sequences laid end to end. */
  lemma ConcatParts(h: seq<GridCell>, b: seq<GridCell>, dc: seq<GridCell>, t: seq<GridCell>)
    ensures var c := h + b + dc + t;
      && |c| == |h| + |b| + |dc| + |t|
      && (forall i :: 0 <= i < |h| ==> c[i] == h[i])
      && (forall i :: |h| <= i < |h| + |b| ==> c[i] == b[i - |h|])
      && (forall i :: |h| + |b| <= i < |h| + |b| + |dc| ==> c[i] == dc[i - |h| - |b|])
      && (forall i :: |h| + |b| + |dc| <= i < |c| ==> c[i] == t[i - |h| - |b| - |dc|])
  {
  }

  /** Day `d` sits in cell `6 + firstDay + d`, under its weekday's header. */
  lemma MonthCellsDays(year: int, month: nat, data: map<string, CalendarData.DaySummary>)
    requires month < 12
    ensures var c := MonthCells(year, month, data);
      var lead := FirstWeekday(year, month);
      forall d :: 1 <= d <= DaysInMonth(year, month) ==>
        6 + lead + d < |c| && c[6 + lead + d] == Day(RenderDayCell(year, month, d, data))
  {
    var lead := FirstWeekday(year, month);
    var days := DaysInMonth(year, month);
    var dc := DayCells(year, month, data, days);
    var h := Headers();
    var b := Blanks(lead);
    var t := Blanks(TrailingBlanks(lead + days));
    var c := MonthCells(year, month, data);
    assert c == (h + b) + dc + t;
    forall d | 1 <= d <= days ensures 6 + lead + d < |c| && c[6 + lead + d] == Day(RenderDayCell(year, month, d, data)) {
      DayCellAt(year, month, data, days, d);
      InMiddle(h + b, dc, t, d - 1);
    }
  }

  lemma DayCellAt(year: int, month: nat, data: map<string, CalendarData.DaySummary>, n: nat, d: nat)
    requires 1 <= d <= n
    ensures DayCells(year, month, data, n)[d - 1] == Day(RenderDayCell(year, month, d, data))
  {
    DayCellsAt(year, month, data, n);
  }

  lemma InMiddle(a: seq<GridCell>, m: seq<GridCell>, z: seq<GridCell>, i: nat)
    requires i < |m|
    ensures |a| + i < |a + m + z| && (a + m + z)[|a| + i] == m[i]
  {
  }

  datatype MonthCard = MonthCard(month: nat, name: string, cells: seq<GridCell>)

  /** `renderMonth`, loop by loop. */
  method RenderMonth(year: int, month: nat, data: map<string, CalendarData.DaySummary>) returns (card: MonthCard)
    requires month < 12
    ensures card == CardFor(year, month, data)
  {
    var firstDay := FirstWeekday(year, month);
    var daysInMonth := DaysInMonth(year, month);
    var cells: seq<GridCell> := [];
    for i := 0 to 7
      invariant cells == Headers()[..i]
    {
      cells := cells + [Header(DayNames[i])];
    }
    assert Headers()[..7] == Headers();
    cells := PushBlanks(cells, firstDay);
    cells := PushDays(cells, year, month, data, daysInMonth);
    var totalCells := firstDay + daysInMonth;
    var remainingCells := (7 - (totalCells % 7)) % 7;
    cells := PushBlanks(cells, remainingCells);
    card := MonthCard(month, MonthNames[month], cells);
  }

  /** A loop pushing `n` empty cells. */
  method PushBlanks(cells: seq<GridCell>, n: nat) returns (r: seq<GridCell>)
    ensures r == cells + Blanks(n)
  {
    r := cells;
    for i := 0 to n
      invariant r == cells + Blanks(i)
    {
      r := r + [Blank];
    }
  }

  /** The loop pushing the cells of days 1 to `n`. */
  method PushDays(cells: seq<GridCell>, year: int, month: nat, data: map<string, CalendarData.DaySummary>, n: nat)
    returns (r: seq<GridCell>)
    ensures r == cells + DayCells(year, month, data, n)
  {
    r := cells;
    for day := 1 to n + 1
      invariant r == cells + DayCells(year, month, data, day - 1)
    {
      r := r + [Day(RenderDayCell(year, month, day, data))];
    }
  }

  // ---------------------------------------------------------------------
  // Which months are shown
  // ---------------------------------------------------------------------

  /** Some day of the month has a bare or a night summary. */
  predicate HasData(year: int, month: nat, data: map<string, CalendarData.DaySummary>)
    requires month < 12
  {
    exists d :: 1 <= d <= DaysInMonth(year, month) && (DateKey(year, month, d) in data || NightKey(year, month, d) in data)
  }

  /** `monthHasData`: stops at the first day that has a record. */
  method MonthHasData(year: int, month: nat, data: map<string, CalendarData.DaySummary>) returns (r: bool)
    requires month < 12
    ensures r <==> HasData(year, month, data)
  {
    var daysInMonth := DaysInMonth(year, month);
    for day := 1 to daysInMonth + 1
      invariant forall d :: 1 <= d < day ==> DateKey(year, month, d) !in data && NightKey(year, month, d) !in data
    {
      var dateStr := DateKey(year, month, day);
      if dateStr in data || dateStr + CalendarData.NightMarker in data {
        return true;
      }
    }
    return false;
  }

  /** `isMonthInFuture`, with the current year and month as parameters. */
  function IsMonthInFuture(year: int, month: int, currentYear: int, currentMonth: int): (r: bool)
    ensures r <==> year > currentYear || (year == currentYear && month > currentMonth)
  {
    if year > currentYear then true
    else if year == currentYear && month > currentMonth then true
    else false
  }

  /** `renderYear` skips a month only when it is in the future and empty. */
  predicate Shown(year: int, month: nat, data: map<string, CalendarData.DaySummary>, currentYear: int, currentMonth: int)
    requires month < 12
  {
    !(IsMonthInFuture(year, month, currentYear, currentMonth) && !HasData(year, month, data))
  }

  function CardFor(year: int, month: nat, data: map<string, CalendarData.DaySummary>): MonthCard
    requires month < 12
  {
    MonthCard(month, MonthNames[month], MonthCells(year, month, data))
  }

  /** The cards of the shown months among the first `n`. */
  function ShownCards(year: int, data: map<string, CalendarData.DaySummary>, currentYear: int, currentMonth: int, n: nat): seq<MonthCard>
    requires n <= 12
  {
    if n == 0 then []
    else
      ShownCards(year, data, currentYear, currentMonth, n - 1)
      + (if Shown(year, n - 1, data, currentYear, currentMonth) then [CardFor(year, n - 1, data)] else [])
  }

  /** The year view: the month cards, or the no-data message when there are none. */
  datatype YearGrid = NoDataMessage | Months(cards: seq<MonthCard>)

  function YearView(cards: seq<MonthCard>): YearGrid
  {
    if cards == [] then NoDataMessage else Months(cards)
  }

  /** `renderYear`. */
  method RenderYear(year: int, data: map<string, CalendarData.DaySummary>, currentYear: int, currentMonth: int) returns (grid: YearGrid)
    ensures grid == YearView(ShownCards(year, data, currentYear, currentMonth, 12))
  {
    var cards: seq<MonthCard> := [];
    for month := 0 to 12
      invariant cards == ShownCards(year, data, currentYear, currentMonth, month)
    {
      var future := IsMonthInFuture(year, month, currentYear, currentMonth);
      var hasData := MonthHasData(year, month, data);
      if future && !hasData {
        continue;
      }
      var card := RenderMonth(year, month, data);
      cards := cards + [card];
    }
    grid := YearView(cards);
  }

  /** Every card is its month's card, for a month below `n`. */
  ghost predicate CardsOf(c: seq<MonthCard>, year: int, data: map<string, CalendarData.DaySummary>, n: nat)
  {
    forall i :: 0 <= i < |c| ==> c[i].month < n && c[i].month < 12 && c[i] == CardFor(year, c[i].month, data)
  }

  ghost predicate InMonthOrder(c: seq<MonthCard>)
  {
    forall i, j :: 0 <= i < j < |c| ==> c[i].month < c[j].month
  }

  ghost predicate HasCard(c: seq<MonthCard>, m: nat)
  {
    exists i :: 0 <= i < |c| && c[i].month == m
  }

  /** The shown cards are in month order, and a month has a card exactly
      when it is not a future month without data. */
  lemma ShownCardsExact(year: int, data: map<string, CalendarData.DaySummary>, currentYear: int, currentMonth: int, n: nat)
    requires n <= 12
    ensures CardsOf(ShownCards(year, data, currentYear, currentMonth, n), year, data, n)
    ensures InMonthOrder(ShownCards(year, data, currentYear, currentMonth, n))
    ensures forall m: nat :: m < n ==>
      (Shown(year, m, data, currentYear, currentMonth) <==> HasCard(ShownCards(year, data, currentYear, currentMonth, n), m))
  {
    ShownCardsOrdered(year, data, currentYear, currentMonth, n);
    ShownCardsHas(year, data, currentYear, currentMonth, n);
  }

  lemma {:induction false} ShownCardsOrdered(year: int, data: map<string, CalendarData.DaySummary>, currentYear: int, currentMonth: int, n: nat)
    requires n <= 12
    ensures CardsOf(ShownCards(year, data, currentYear, currentMonth, n), year, data, n)
    ensures InMonthOrder(ShownCards(year, data, currentYear, currentMonth, n))
  {
    if n > 0 {
      ShownCardsOrdered(year, data, currentYear, currentMonth, n - 1);
      var c0 := ShownCards(year, data, currentYear, currentMonth, n - 1);
      var shown := Shown(year, n - 1, data, currentYear, currentMonth);
      var extra := if shown then [CardFor(year, n - 1, data)] else [];
      assert ShownCards(year, data, currentYear, currentMonth, n) == c0 + extra;
      AppendCard(c0, extra, year, data, n);
    }
  }

  /** One more month's card, or none, after the cards of earlier months. */
  lemma AppendCard(c0: seq<MonthCard>, extra: seq<MonthCard>, year: int, data: map<string, CalendarData.DaySummary>, n: nat)
    requires 0 < n <= 12
    requires CardsOf(c0, year, data, n - 1) && InMonthOrder(c0)
    requires extra == [] || extra == [CardFor(year, n - 1, data)]
    ensures CardsOf(c0 + extra, year, data, n) && InMonthOrder(c0 + extra)
  {
    var c := c0 + extra;
    assert forall i :: 0 <= i < |c0| ==> c[i] == c0[i];
    assert extra != [] ==> c[|c0|] == CardFor(year, n - 1, data) && c[|c0|].month == n - 1;
  }

  lemma {:induction false} ShownCardsHas(year: int, data: map<string, CalendarData.DaySummary>, currentYear: int, currentMonth: int, n: nat)
    requires n <= 12
    ensures forall m: nat :: m < n ==>
      (Shown(year, m, data, currentYear, currentMonth) <==> HasCard(ShownCards(year, data, currentYear, currentMonth, n), m))
  {
    if n > 0 {
      ShownCardsHas(year, data, currentYear, currentMonth, n - 1);
      ShownCardsOrdered(year, data, currentYear, currentMonth, n - 1);
      var c0 := ShownCards(year, data, currentYear, currentMonth, n - 1);
      var shown := Shown(year, n - 1, data, currentYear, currentMonth);
      var extra := if shown then [CardFor(year, n - 1, data)] else [];
      assert ShownCards(year, data, currentYear, currentMonth, n) == c0 + extra;
      forall i | 0 <= i < |c0| ensures c0[i].month != n - 1 {
        assert c0[i].month < n - 1;
      }
      assert !HasCard(c0, n - 1);
      forall m: nat | m < n
        ensures Shown(year, m, data, currentYear, currentMonth) <==> HasCard(c0 + extra, m)
      {
        HasCardAppend(c0, extra, m);
      }
    }
  }

  lemma HasCardAppend(c0: seq<MonthCard>, extra: seq<MonthCard>, m: nat)
    requires |extra| <= 1
    ensures HasCard(c0 + extra, m) <==> HasCard(c0, m) || (extra != [] && extra[0].month == m)
  {
    var c := c0 + extra;
    if HasCard(c, m) {
      var i :| 0 <= i < |c| && c[i].month == m;
      if i < |c0| { assert c0[i].month == m; } else { assert extra[0] == c[i]; }
    }
    if HasCard(c0, m) {
      var i :| 0 <= i < |c0| && c0[i].month == m;
      assert c[i] == c0[i];
    }
    if extra != [] && extra[0].month == m {
      assert c[|c0|] == extra[0];
    }
  }

  /** The no-data message appears only for a year after the current one
      (in any other year January is never in the future), and only when no
      month of the year has data. */
  lemma MessageOnlyAfterCurrentYear(year: int, data: map<string, CalendarData.DaySummary>, currentYear: int, currentMonth: int)
    requires 0 <= currentMonth < 12
    requires YearView(ShownCards(year, data, currentYear, currentMonth, 12)) == NoDataMessage
    ensures year > currentYear
    ensures forall m: nat :: m < 12 ==> !HasData(year, m, data)
  {
    ShownCardsExact(year, data, currentYear, currentMonth, 12);
    assert ShownCards(year, data, currentYear, currentMonth, 12) == [];
    forall m: nat | m < 12 ensures !Shown(year, m, data, currentYear, currentMonth) && !HasData(year, m, data) {
      assert !HasCard(ShownCards(year, data, currentYear, currentMonth, 12), m);
    }
    assert !Shown(year, 0, data, currentYear, currentMonth);
  }

  // ---------------------------------------------------------------------
  // The loading message
  // ---------------------------------------------------------------------

  const LoadingMessages: seq<string> := [
    "Digging through the snow archives...",
    "Asking the mountain for its secrets...",
    "Counting snowflakes from the past...",
    "Waking up the forecast gnomes...",
    "Consulting the powder gods...",
    "Interrogating old storm cycles...",
    "Dusting off historical dumps...",
    "Bribing the weather station...",
    "Reading ancient lift reports...",
    "Summoning data from the cloud (the actual cloud)..."]

  /** `startLoadingAnimation`'s state: the indicator's visibility, the
      message index and the text shown. The random starting index is a
      parameter; the two-second timer is the caller calling `Tick`. */
  class LoadingAnimation {
    var active: bool
    var index: int
    var text: string

    ghost predicate Valid()
      reads this
    {
      0 <= index < |LoadingMessages| && text == LoadingMessages[index]
    }

    /** Shows the indicator with the message at `start`. */
    constructor (start: nat)
      requires start < |LoadingMessages|
      ensures Valid() && active && index == start
    {
      active := true;
      index := start;
      text := LoadingMessages[start];
    }

    /** One timer tick: the next message, wrapping after the last. */
    method Tick()
      requires Valid()
      modifies this
      ensures Valid()
      ensures index == (old(index) + 1) % |LoadingMessages|
      ensures active == old(active)
    {
      index := (index + 1) % |LoadingMessages|;
      text := LoadingMessages[index];
    }

    /** `stopLoadingAnimation`. */
    method Stop()
      modifies this
      ensures !active && index == old(index) && text == old(text)
    {
      active := false;
    }
  }
}
