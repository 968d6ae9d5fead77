/** The calendar endpoint (api/calendar-data.js): the stored forecast records
    of one year, keyed by date (day) or `date:night`, each with the amounts
    at the ends of its history. Nothing is written. */
module CalendarData {

  import opened Wrappers
  import opened Records
  import opened Storage
  import Text

  const ForecastPrefix := "forecast:"
  const NightMarker := ":night"

  /** `parseInt(req.query.year)`: nothing for an absent parameter, and a
      repeated parameter, which is an array, read through its comma-joined
      string. `None` is `NaN`. */
  function ParsedYear(q: Query): Option<int>
  {
    match q
    case Missing => None
    case One(s) => Text.JsParseInt(s)
    case Many(vs) => Text.JsParseInt(Text.Join(vs, ","))
  }

  /** `parseInt(req.query.year) || currentYear`: an absent, unparseable or
      zero year falls back to the current one; any other parse is the year. */
  function ResolveYear(q: Query, currentYear: int): (year: int)
    ensures ParsedYear(q).None? || ParsedYear(q) == Some(0) ==> year == currentYear
    ensures ParsedYear(q).Some? && ParsedYear(q).value != 0 ==> year == ParsedYear(q).value
    ensures q.Missing? ==> year == currentYear
  {
    var parsed := ParsedYear(q);
    if parsed.Some? && parsed.value != 0 then parsed.value else currentYear
  }

  /** `NaN` falls back: an empty or non-numeric query. */
  lemma ResolveYearNotANumber(currentYear: int)
    ensures ResolveYear(One(""), currentYear) == currentYear
    ensures ResolveYear(One("abc"), currentYear) == currentYear
  {
    Text.JsParseIntNoNumber("");
    Text.JsParseIntNoNumber("abc");
  }

  /** A bare sign is `NaN`, and `-0` is zero: both fall back. */
  lemma ResolveYearBareSign(currentYear: int)
    ensures ResolveYear(One("-"), currentYear) == currentYear
    ensures ResolveYear(One("-0"), currentYear) == currentYear
  {
    assert "-" == "-" + "" && "-0" == "-" + "0";
    Text.JsParseIntNegative("-", "");
    Text.ParseRunEmpty();
    Text.JsParseIntNegative("-0", "0");
    Text.ParseRunZero();
  }

  /** Leading whitespace is skipped and trailing text ignored, so ` 2024abc`
      is 2024. */
  lemma ResolveYearLenient(currentYear: int)
    ensures ResolveYear(One(" 2024abc"), currentYear) == 2024
  {
    var s := " 2024abc";
    var t := s[1..];
    assert Text.IsWhitespace(s[0]);
    assert t[0] == '2';
    Text.TrimStartNoLead(t);
    Text.TrimStartSkip(s);
    NatToStringOf(2024);
    assert t == Text.NatToString(2024) + "abc";
    Text.JsParseIntOfNat(2024, "abc", t);
  }

  /** A repeated parameter is read through its comma-joined string, so its
      first value decides. */
  lemma ResolveYearRepeated(currentYear: int)
    ensures ResolveYear(Many(["2025", "2026"]), currentYear) == 2025
  {
    var vs := ["2025", "2026"];
    assert vs[1..] == ["2026"];
    var j := Text.Join(vs, ",");
    assert j == "2025" + "," + "2026";
    NatToStringOf(2025);
    assert j == Text.NatToString(2025) + ",2026";
    Text.JsParseIntOfNat(2025, ",2026", j);
  }

  /** The decimal digits of a four-digit number, unfolded. */
  lemma NatToStringOf(n: nat)
    requires 1000 <= n < 10000
    ensures Text.NatToString(n)
      == [Text.DigitChar(n / 1000), Text.DigitChar(n / 100 % 10), Text.DigitChar(n / 10 % 10), Text.DigitChar(n % 10)]
  {
    var a, b, c := n / 1000, n / 100, n / 10;
    assert b / 10 == a && c / 10 == b && b % 10 == n / 100 % 10 && c % 10 == n / 10 % 10;
    assert Text.NatToString(a) == [Text.DigitChar(a)];
    assert Text.NatToString(b) == Text.NatToString(a) + [Text.DigitChar(b % 10)];
    assert Text.NatToString(c) == Text.NatToString(b) + [Text.DigitChar(c % 10)];
    assert Text.NatToString(n) == Text.NatToString(c) + [Text.DigitChar(n % 10)];
  }

  /** A non-zero year written in decimal is that year. */
  lemma ResolveYearCases(y: int, currentYear: int)
    requires y != 0
    ensures ResolveYear(One(Text.IntToString(y)), currentYear) == y
  {
    Text.JsParseIntOfIntToString(y, "");
    assert Text.IntToString(y) + "" == Text.IntToString(y);
  }

  /** Year 0 and a missing year both mean the current year. */
  lemma ResolveYearDefault(currentYear: int)
    ensures ResolveYear(One(Text.IntToString(0)), currentYear) == currentYear
    ensures ResolveYear(Missing, currentYear) == currentYear
  {
    Text.JsParseIntOfIntToString(0, "");
    assert Text.IntToString(0) + "" == Text.IntToString(0);
  }

  /** `\d{4}-\d{2}-\d{2}`. */
  predicate IsDatePattern(d: string)
  {
    |d| == 10 && d[4] == '-' && d[7] == '-'
    && forall i :: 0 <= i < 10 && i != 4 && i != 7 ==> Text.IsDigit(d[i])
  }

  /** `/forecast:(\d{4}-\d{2}-\d{2})/` matches at position `p` of `key`. */
  predicate MatchAt(key: string, p: nat)
  {
    p + 19 <= |key| && key[p..p + 9] == ForecastPrefix && IsDatePattern(key[p + 9..p + 19])
  }

  /** The captured date of the leftmost match, as `key.match` returns it. */
  function DateMatch(key: string): (r: Option<string>)
    ensures r.Some? ==> IsDatePattern(r.value)
    decreases |key|
  {
    if MatchAt(key, 0) then Some(key[9..19])
    else if key == [] then None
    else DateMatch(key[1..])
  }

  lemma MatchAtTail(key: string, p: nat)
    requires 1 <= p <= |key|
    ensures MatchAt(key, p) <==> MatchAt(key[1..], p - 1)
  {
    var t := key[1..];
    if p + 19 <= |key| {
      assert forall j :: 0 <= j < |t| ==> t[j] == key[j + 1];
      assert key[p..p + 9] == t[p - 1..p + 8];
      assert key[p + 9..p + 19] == t[p + 8..p + 18];
    }
  }

  /** The regex finds a date exactly when the pattern occurs somewhere, and
      then captures the date of its leftmost occurrence. */
  lemma {:induction false} DateMatchLeftmost(key: string)
    ensures DateMatch(key).None? <==> forall p :: 0 <= p <= |key| ==> !MatchAt(key, p)
    ensures DateMatch(key).Some? ==> exists p :: (0 <= p <= |key| && MatchAt(key, p)
      && DateMatch(key).value == key[p + 9..p + 19] && (forall q :: 0 <= q < p ==> !MatchAt(key, q)))
    decreases |key|
  {
    if !MatchAt(key, 0) && key != [] {
      var t := key[1..];
      DateMatchLeftmost(t);
      forall p | 1 <= p <= |key| ensures MatchAt(key, p) <==> MatchAt(t, p - 1) {
        MatchAtTail(key, p);
      }
      if DateMatch(t).Some? {
        var p :| 0 <= p <= |t| && MatchAt(t, p) && DateMatch(t).value == t[p + 9..p + 19]
          && forall q :: 0 <= q < p ==> !MatchAt(t, q);
        assert t[p + 9..p + 19] == key[p + 1 + 9..p + 1 + 19];
        assert MatchAt(key, p + 1);
        forall q | 0 <= q < p + 1 ensures !MatchAt(key, q) {
          if q > 0 {
            assert !MatchAt(t, q - 1);
          }
        }
      } else {
        forall p | 0 <= p <= |key| ensures !MatchAt(key, p) {
          if p > 0 {
            assert !MatchAt(t, p - 1);
          }
        }
      }
    }
  }

  /** A date at the very start of the key is the one captured. */
  lemma DateMatchAtStart(key: string)
    requires MatchAt(key, 0)
    ensures DateMatch(key) == Some(key[9..19])
  {
  }

  /** `parseInt(dateStr.substring(0, 4))`. */
  function YearOf(date: string): nat
    requires IsDatePattern(date)
  {
    Text.DigitsValue(date[..4])
  }

  /** The key of `yearData`: the date, marked `:night` when the record key
      contains `:night` anywhere. */
  function DisplayKey(key: string, date: string): string
  {
    if Text.Contains(key, NightMarker) then date + NightMarker else date
  }

  /** One element of `yearData`. */
  datatype DaySummary = DaySummary(
    date: string,
    isNight: bool,
    history: seq<HistoryEntry>,
    firstAmount: int,
    lastAmount: int,
    delta: int,
    historyCount: nat)

  /** What one record contributes: its display key and summary, or `None`
      when it is skipped (no history, no date in the key, another year). */
  function Visible(e: Entry, year: int): Option<(string, DaySummary)>
  {
    match NonEmptyHistory(e.1)
    case None => None
    case Some(h) =>
      match DateMatch(e.0)
      case None => None
      case Some(date) =>
        if YearOf(date) != year then None
        else
          var isNight := Text.Contains(e.0, NightMarker);
          var first := h[0].amount;
          var last := h[|h| - 1].amount;
          Some((DisplayKey(e.0, date), DaySummary(date, isNight, h, first, last, last - first, |h|)))
  }

  /** A record is included exactly when it has a non-empty history and its
      key holds a date of the requested year; its summary has that date, the
      night flag of its key, its history as stored, and `delta` equal to the
      last amount minus the first. */
  lemma VisibleFacts(e: Entry, year: int)
    ensures var r := Visible(e, year);
      && (r.Some? <==> NonEmptyHistory(e.1).Some? && DateMatch(e.0).Some?
                       && IsDatePattern(DateMatch(e.0).value) && YearOf(DateMatch(e.0).value) == year)
      && (r.Some? ==>
        var h := NonEmptyHistory(e.1).value;
        var s := r.value.1;
        && s.date == DateMatch(e.0).value
        && s.isNight == Text.Contains(e.0, NightMarker)
        && r.value.0 == (if s.isNight then s.date + NightMarker else s.date)
        && s.history == h && s.historyCount == |h|
        && s.delta == s.lastAmount - s.firstAmount
        && s.firstAmount == h[0].amount && s.lastAmount == h[|h| - 1].amount)
  {
    DateMatchLeftmost(e.0);
  }

  /** Each record's contribution, in visiting order. */
  function Visibles(entries: seq<Entry>, year: int): (vs: seq<Option<(string, DaySummary)>>)
    ensures |vs| == |entries|
  {
    seq(|entries|, i requires 0 <= i < |entries| => Visible(entries[i], year))
  }

  /** Storing contributions one after another: a later one replaces an
      earlier one under the same key. */
  function Collect(vs: seq<Option<(string, DaySummary)>>): map<string, DaySummary>
  {
    if vs == [] then map[]
    else
      var d := Collect(vs[..|vs| - 1]);
      match vs[|vs| - 1]
      case None => d
      case Some(v) => d[v.0 := v.1]
  }

  /** `yearData` after the loop has visited `entries`. */
  function YearData(entries: seq<Entry>, year: int): map<string, DaySummary>
  {
    Collect(Visibles(entries, year))
  }

  datatype Reply =
    | Preflight
    | Calendar(year: int, data: map<string, DaySummary>, count: nat, fetchedAt: string, storageMode: string)

  function Status(r: Reply): int { 200 }

  /** The endpoint over the local store; `currentYear` and `now` stand for
      the clock. Any method other than OPTIONS is served. */
  method Handler(store: Store, httpMethod: string, yearParam: Query, currentYear: int, now: string)
    returns (reply: Reply)
    requires store.Valid()
    ensures httpMethod == "OPTIONS" ==> reply == Preflight
    ensures httpMethod != "OPTIONS" ==>
      var year := ResolveYear(yearParam, currentYear);
      var data := YearData(WithPrefix(ListEntries(store.keys, store.data), ForecastPrefix), year);
      reply == Calendar(year, data, |data|, now, "local-json")
  {
    if httpMethod == "OPTIONS" {
      return Preflight;
    }
    var year := ResolveYear(yearParam, currentYear);
    var records := store.GetAllByPrefix(ForecastPrefix);
    var yearData := BuildYearData(records, year);
    return Calendar(year, yearData, |yearData|, now, "local-json");
  }

  /** The loop of the endpoint over the records read. */
  method BuildYearData(records: seq<Entry>, year: int) returns (yearData: map<string, DaySummary>)
    ensures yearData == YearData(records, year)
  {
    yearData := map[];
    ghost var vs := Visibles(records, year);
    for i := 0 to |records|
      invariant yearData == Collect(vs[..i])
    {
      assert vs[..i + 1][..i] == vs[..i];
      ghost var visible := vs[i];
      assert visible == Visible(records[i], year);
      assert Collect(vs[..i + 1]) == if visible.None? then yearData else yearData[visible.value.0 := visible.value.1];
      var (key, record) := records[i];
      if !(record.Forecast? && record.rec.history.Some? && |record.rec.history.value| > 0) {
        assert visible.None?;
        continue;
      }
      var dateMatch := DateMatch(key);
      if dateMatch.None? {
        assert visible.None?;
        continue;
      }
      var dateStr := dateMatch.value;
      var recordYear := Text.DigitsValue(dateStr[..4]);
      if recordYear != year {
        assert visible.None?;
        continue;
      }
      var isNight := Text.Contains(key, NightMarker);
      var displayKey := if isNight then dateStr + NightMarker else dateStr;
      var history := record.rec.history.value;
      var firstAmount := history[0].amount;
      var lastAmount := history[|history| - 1].amount;
      var delta := lastAmount - firstAmount;
      var summary := DaySummary(dateStr, isNight, history, firstAmount, lastAmount, delta, |history|);
      assert visible == Some((displayKey, summary));
      yearData := yearData[displayKey := summary];
    }
    assert vs[..|records|] == vs;
  }

  /** A key is present exactly when some contribution has it. */
  lemma {:induction false} CollectKeys(vs: seq<Option<(string, DaySummary)>>)
    ensures forall k :: k in Collect(vs) <==> exists i :: 0 <= i < |vs| && vs[i].Some? && vs[i].value.0 == k
  {
    if vs != [] {
      var init := vs[..|vs| - 1];
      CollectKeys(init);
      assert forall i :: 0 <= i < |init| ==> init[i] == vs[i];
    }
  }

  /** No contribution after index `i` has key `k`. */
  ghost predicate NotOverwritten(vs: seq<Option<(string, DaySummary)>>, i: int, k: string)
  {
    forall j :: i < j < |vs| && j >= 0 ==> vs[j].None? || vs[j].value.0 != k
  }

  /** The value under a key is that of the last contribution with the key. */
  lemma {:induction false} CollectLastWins(vs: seq<Option<(string, DaySummary)>>, k: string)
    requires k in Collect(vs)
    ensures exists i :: (0 <= i < |vs| && vs[i] == Some((k, Collect(vs)[k])) && NotOverwritten(vs, i, k))
  {
    var n := |vs| - 1;
    var init := vs[..n];
    if vs[n].Some? && vs[n].value.0 == k {
      assert NotOverwritten(vs, n, k);
    } else {
      assert k in Collect(init) && Collect(vs)[k] == Collect(init)[k];
      CollectLastWins(init, k);
      var i :| 0 <= i < |init| && init[i] == Some((k, Collect(init)[k])) && NotOverwritten(init, i, k);
      assert vs[i] == init[i];
      forall j | i < j < |vs| ensures vs[j].None? || vs[j].value.0 != k {
        if j < n {
          assert vs[j] == init[j];
        }
      }
      assert NotOverwritten(vs, i, k);
    }
  }

  /** A display key is present exactly when some included record maps to it. */
  lemma YearDataKeys(entries: seq<Entry>, year: int)
    ensures forall k :: k in YearData(entries, year) <==>
      exists i :: 0 <= i < |entries| && Visible(entries[i], year).Some? && Visible(entries[i], year).value.0 == k
  {
    var vs := Visibles(entries, year);
    CollectKeys(vs);
    assert forall i :: 0 <= i < |entries| ==> vs[i] == Visible(entries[i], year);
  }

  /** The last writer wins: the summary under a display key is that of the
      last included record mapping to it, so a bare key and a `:day` key of
      one date overwrite each other in visiting order. */
  lemma YearDataLastWins(entries: seq<Entry>, year: int, k: string)
    requires k in YearData(entries, year)
    ensures exists i :: (0 <= i < |entries| && Visible(entries[i], year) == Some((k, YearData(entries, year)[k]))
      && forall j :: i < j < |entries| ==> Visible(entries[j], year).None? || Visible(entries[j], year).value.0 != k)
  {
    var vs := Visibles(entries, year);
    CollectLastWins(vs, k);
    var i :| 0 <= i < |vs| && vs[i] == Some((k, Collect(vs)[k])) && NotOverwritten(vs, i, k);
    assert forall j :: i < j < |entries| ==> vs[j] == Visible(entries[j], year);
  }

  /** Every summary is of the year asked for, sits under the key its night
      flag gives, and carries a stored history unmodified. */
  lemma YearDataSummaries(entries: seq<Entry>, year: int)
    ensures forall k :: k in YearData(entries, year) ==>
      var s := YearData(entries, year)[k];
      && IsDatePattern(s.date) && YearOf(s.date) == year
      && (exists i :: 0 <= i < |entries| && NonEmptyHistory(entries[i].1) == Some(s.history))
      && k == (if s.isNight then s.date + NightMarker else s.date)
      && s.delta == s.lastAmount - s.firstAmount
  {
    forall k | k in YearData(entries, year)
      ensures var s := YearData(entries, year)[k];
        && IsDatePattern(s.date) && YearOf(s.date) == year
        && (exists i :: 0 <= i < |entries| && NonEmptyHistory(entries[i].1) == Some(s.history))
        && k == (if s.isNight then s.date + NightMarker else s.date)
        && s.delta == s.lastAmount - s.firstAmount
    {
      YearDataLastWins(entries, year, k);
      var i :| 0 <= i < |entries| && Visible(entries[i], year) == Some((k, YearData(entries, year)[k]));
      VisibleFacts(entries[i], year);
    }
  }

  /** A bare key and a `:day` key of the same date share one display key;
      a `:night` key has its own. */
  lemma DisplayKeysOfOneDate(date: string)
    requires IsDatePattern(date)
    ensures DateMatch(ForecastPrefix + date) == Some(date)
    ensures DateMatch(ForecastPrefix + date + ":day") == Some(date)
    ensures DateMatch(ForecastPrefix + date + NightMarker) == Some(date)
    ensures DisplayKey(ForecastPrefix + date, date) == date
    ensures DisplayKey(ForecastPrefix + date + ":day", date) == date
    ensures DisplayKey(ForecastPrefix + date + NightMarker, date) == date + NightMarker
  {
    var bare := ForecastPrefix + date;
    var day := bare + ":day";
    var night := bare + NightMarker;
    assert MatchAt(bare, 0) && bare[9..19] == date;
    assert MatchAt(day, 0) && day[9..19] == date;
    assert MatchAt(night, 0) && night[9..19] == date;
    NoNightInDate(date, "");
    NoNightInDate(date, ":day");
    assert bare + "" == bare;
    assert night[19..] == NightMarker;
  }

  lemma NightNeedsN(key: string)
    ensures Text.Contains(key, NightMarker) ==> 'n' in key
  {
    if Text.Contains(key, NightMarker) {
      var i :| 0 <= i <= |key| && NightMarker <= key[i..];
      assert key[i..][1] == key[i + 1];
    }
  }

  lemma NoNInKey(date: string, suffix: string)
    requires |date| == 10 && forall j :: 0 <= j < 10 ==> date[j] != 'n'
    requires forall i :: 0 <= i < |suffix| ==> suffix[i] != 'n'
    ensures 'n' !in ForecastPrefix + date + suffix
  {
    assert 'n' !in ForecastPrefix;
  }

  /** `:night` cannot occur in `forecast:` + a date + a suffix that holds no `n`. */
  lemma NoNightInDate(date: string, suffix: string)
    requires IsDatePattern(date)
    requires forall i :: 0 <= i < |suffix| ==> suffix[i] != 'n'
    ensures !Text.Contains(ForecastPrefix + date + suffix, NightMarker)
  {
    NoNInKey(date, suffix);
    NightNeedsN(ForecastPrefix + date + suffix);
  }
}
