/** Forecast-history trends (shared.js, and its copy in app.js): the change
    from the first to the last observed amount, its direction, and the
    small arrow badge shown next to a forecast. */
module Trend {

  import opened Wrappers
  import opened Records
  import Text

  /** `'up'`, `'down'` or `'none'`. */
  datatype Direction = Up | Down | Flat

  /** The two copies differ only in their colours and in the arrow badge's
      spacing: shared.js uses CSS variables with fallbacks and a space after
      the arrow, app.js bare colours and no space. */
  datatype Palette = SharedPalette | DashboardPalette

  /** A trend; a history too short to compare carries no colour. */
  datatype TrendInfo = TrendInfo(direction: Direction, change: int, color: Option<string>)

  function Color(d: Direction, p: Palette): string
  {
    match (d, p)
    case (Up, SharedPalette) => "var(--trend-up, #4ade80)"
    case (Down, SharedPalette) => "var(--trend-down, #f87171)"
    case (Flat, SharedPalette) => "var(--trend-neutral, #94a3b8)"
    case (Up, DashboardPalette) => "#4ade80"
    case (Down, DashboardPalette) => "#f87171"
    case (Flat, DashboardPalette) => "#94a3b8"
  }

  /** A history that is null or has fewer than two entries has no trend. */
  predicate Comparable(history: Option<seq<HistoryEntry>>)
  {
    history.Some? && |history.value| >= 2
  }

  /** The last amount minus the first. */
  function Change(h: seq<HistoryEntry>): int
    requires |h| >= 2
  {
    h[|h| - 1].amount - h[0].amount
  }

  /** `calculateTrend`: up exactly when the amount grew, down exactly when it
      shrank, and otherwise no trend with change 0. */
  function CalculateTrend(history: Option<seq<HistoryEntry>>, p: Palette): (t: TrendInfo)
    ensures t.direction == Up <==> Comparable(history) && Change(history.value) > 0
    ensures t.direction == Down <==> Comparable(history) && Change(history.value) < 0
    ensures t.direction == Flat ==> t.change == 0
    ensures t.direction != Flat ==> t.change == Change(history.value)
    ensures t.color.None? <==> !Comparable(history)
    ensures t.color.Some? ==> t.color.value == Color(t.direction, p)
  {
    if !Comparable(history) then TrendInfo(Flat, 0, None)
    else
      var amounts := seq(|history.value|, i requires 0 <= i < |history.value| => history.value[i].amount);
      var firstVal := amounts[0];
      var lastVal := amounts[|amounts| - 1];
      var change := lastVal - firstVal;
      if change > 0 then TrendInfo(Up, change, Some(Color(Up, p)))
      else if change < 0 then TrendInfo(Down, change, Some(Color(Down, p)))
      else TrendInfo(Flat, 0, Some(Color(Flat, p)))
  }

  /** Only the first and last amounts matter: histories that agree on them
      (for instance, one whose interior is a permutation of the other's)
      have the same trend. */
  lemma TrendDependsOnEndpoints(h1: seq<HistoryEntry>, h2: seq<HistoryEntry>, p: Palette)
    requires |h1| >= 2 && |h2| >= 2
    requires h1[0].amount == h2[0].amount && h1[|h1| - 1].amount == h2[|h2| - 1].amount
    ensures CalculateTrend(Some(h1), p) == CalculateTrend(Some(h2), p)
  {
  }

  /** The two copies agree on direction and change. */
  lemma PalettesAgree(history: Option<seq<HistoryEntry>>)
    ensures CalculateTrend(history, SharedPalette).direction == CalculateTrend(history, DashboardPalette).direction
    ensures CalculateTrend(history, SharedPalette).change == CalculateTrend(history, DashboardPalette).change
  {
  }

  function Glyph(d: Direction): string
  {
    if d == Up then "\U{25B2}" else "\U{25BC}"
  }

  function Abs(n: int): nat
  {
    if n < 0 then -n else n
  }

  /** The badge's opening tag and the signed change in its tooltip. */
  function BadgeHead(t: TrendInfo): string
    requires t.color.Some?
  {
    "<span class=\"trend-arrow\" style=\"color: " + t.color.value + "\" title=\"Changed "
      + (if t.direction == Up then "+" else "") + Text.IntToString(t.change) + "cm\">"
  }

  /** The badge's visible text and closing tag: the arrow, a space in the
      shared copy, and the size of the change. */
  function BadgeTail(t: TrendInfo, p: Palette): string
  {
    Glyph(t.direction) + (if p == SharedPalette then " " else "") + Text.NatToString(Abs(t.change)) + "</span>"
  }

  /** `generateTrendArrow`: the badge, empty when there is no trend. */
  function TrendArrow(history: Option<seq<HistoryEntry>>, p: Palette): (r: string)
    ensures r == "" <==> CalculateTrend(history, p).direction == Flat
  {
    var t := CalculateTrend(history, p);
    if t.direction == Flat then ""
    else BadgeHead(t) + BadgeTail(t, p)
  }

  lemma SuffixOf(head: string, tail: string)
    ensures |tail| <= |head + tail| && (head + tail)[|head + tail| - |tail|..] == tail
  {
  }

  /** A badge ends with the arrow of its direction and the size of the change,
      which is positive and reads back as that number. */
  lemma TrendArrowShowsMagnitude(h: seq<HistoryEntry>, p: Palette)
    requires |h| >= 2 && Change(h) != 0
    ensures var r := TrendArrow(Some(h), p);
      var tail := Glyph(if Change(h) > 0 then Up else Down) + (if p == SharedPalette then " " else "")
        + Text.NatToString(Abs(Change(h))) + "</span>";
      |tail| <= |r| && r[|r| - |tail|..] == tail
    ensures Abs(Change(h)) > 0 && Text.ParseInt(Text.NatToString(Abs(Change(h)))) == Some(Abs(Change(h)))
  {
    var t := CalculateTrend(Some(h), p);
    assert t.direction == (if Change(h) > 0 then Up else Down) && t.change == Change(h);
    assert TrendArrow(Some(h), p) == BadgeHead(t) + BadgeTail(t, p);
    SuffixOf(BadgeHead(t), BadgeTail(t, p));
    Text.NatToStringRoundTrip(Abs(Change(h)));
  }

  /** The dashboard's guard `day.history?.length > 1` before drawing the
      badge. */
  function ForecastTrendArrow(history: Option<seq<HistoryEntry>>): string
  {
    if history.Some? && |history.value| > 1 then TrendArrow(history, DashboardPalette) else ""
  }

  /** The guard agrees with `calculateTrend`'s own: a history of fewer than
      two entries gives no badge either way. */
  lemma ForecastTrendArrowGuard(history: Option<seq<HistoryEntry>>)
    ensures ForecastTrendArrow(history) == TrendArrow(history, DashboardPalette)
    ensures ForecastTrendArrow(history) != "" ==> Comparable(history)
  {
  }

  /** `(day.amount || 0) > 0`: an absent, null or zero amount is no snow. */
  function HasSnow(amount: Option<int>): (r: bool)
    ensures r <==> amount.Some? && amount.value > 0
  {
    var a := if amount.Some? && amount.value != 0 then amount.value else 0;
    a > 0
  }
}
