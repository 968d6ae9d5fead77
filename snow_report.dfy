/** The snow-report endpoint (api/snow-report.js). The page's regular
    expressions are not modelled: their captures are the inputs. A forecast
    section is what the heading pattern found for one label, the weather and
    snow captures are optional integers. */
module SnowReport {

  import opened Wrappers
  import opened Records
  import Text

  // ---------------------------------------------------------------------
  // Labels and their order
  // ---------------------------------------------------------------------

  /** The labels searched for, in search order. */
  const Days: seq<string> := ["Today", "Tonight", "Monday", "Tuesday", "Wednesday", "Thursday", "Friday", "Saturday", "Sunday"]

  /** `getDay()` numbering: 0 is Sunday. */
  const Weekdays: seq<string> := ["Sunday", "Monday", "Tuesday", "Wednesday", "Thursday", "Friday", "Saturday"]

  /** `weekdays.indexOf(d)`, -1 when absent. */
  function WeekdayIndex(d: string): (r: int)
    ensures -1 <= r < 7
    ensures r >= 0 ==> Weekdays[r] == d
    ensures r == -1 <==> d !in Weekdays
  {
    if d == "Sunday" then 0 else if d == "Monday" then 1 else if d == "Tuesday" then 2
    else if d == "Wednesday" then 3 else if d == "Thursday" then 4 else if d == "Friday" then 5
    else if d == "Saturday" then 6 else -1
  }

  /** The comparator's key: Today, Tonight, then the weekdays starting from
      tomorrow; today's own weekday comes last, a week away. */
  function SortOrder(d: string, todayIndex: int): int
  {
    if d == "Today" then 0
    else if d == "Tonight" then 1
    else
      var dayIndex := WeekdayIndex(d);
      if dayIndex == -1 then 99
      else
        var daysFromToday := dayIndex - todayIndex;
        1 + (if daysFromToday <= 0 then daysFromToday + 7 else daysFromToday)
  }

  /** Today is 0, Tonight 1, a weekday `1 + d` with `d` in 1..7 (today's
      weekday is 8, tomorrow's 2), anything else 99. */
  lemma SortOrderValues(d: string, todayIndex: int)
    requires 0 <= todayIndex < 7
    ensures d == "Today" ==> SortOrder(d, todayIndex) == 0
    ensures d == "Tonight" ==> SortOrder(d, todayIndex) == 1
    ensures d in Weekdays ==> 2 <= SortOrder(d, todayIndex) <= 8
    ensures d in Weekdays ==> (SortOrder(d, todayIndex) == 8 <==> d == Weekdays[todayIndex])
    ensures d in Weekdays ==> (SortOrder(d, todayIndex) == 2 <==> d == Weekdays[(todayIndex + 1) % 7])
    ensures d !in Days ==> SortOrder(d, todayIndex) == 99
  {
  }

  lemma SortOrderNonNegative(d: string, todayIndex: int)
    requires 0 <= todayIndex < 7
    ensures SortOrder(d, todayIndex) >= 0
  {
  }

  /** Different labels never share a key, so the sort's result is unique. */
  lemma SortOrderInjective(a: string, b: string, todayIndex: int)
    requires 0 <= todayIndex < 7
    requires a in Days && b in Days && a != b
    ensures SortOrder(a, todayIndex) != SortOrder(b, todayIndex)
  {
  }

  // ---------------------------------------------------------------------
  // One forecast section
  // ---------------------------------------------------------------------

  /** What the section patterns captured: `Snow: N cm`, `Freezing level: N
      metres`, whether `Freezing level at valley bottom` occurs, and the
      leading sentence. */
  datatype Section = Section(snow: Option<nat>, freezing: Option<nat>, valley: bool, sentence: Option<string>)

  /** One element of `forecast`. */
  datatype ForecastDay = ForecastDay(day: string, amount: nat, freezingLevel: FreezingLevel, description: Option<string>)

  /** The amount is the captured number, 0 when there is none. */
  function Amount(s: Section): (r: nat)
    ensures s.snow.Some? ==> r == s.snow.value
    ensures s.snow.None? ==> r == 0
  {
    s.snow.GetOr(0)
  }

  /** A numeric level wins over the valley phrase; neither is null. */
  function Level(s: Section): (r: FreezingLevel)
    ensures r.Metres? <==> s.freezing.Some?
    ensures r.Metres? ==> r.m == s.freezing.value
    ensures r == ValleyBottom <==> s.freezing.None? && s.valley
    ensures r == NoLevel <==> s.freezing.None? && !s.valley
  {
    if s.freezing.Some? then Metres(s.freezing.value)
    else if s.valley then ValleyBottom
    else NoLevel
  }

  function Describe(day: string, s: Section): ForecastDay
  {
    ForecastDay(day, Amount(s), Level(s),
                if s.sentence.Some? then Some(Text.Trim(s.sentence.value)) else None)
  }

  // ---------------------------------------------------------------------
  // The label loop
  // ---------------------------------------------------------------------

  /** `forecast` after the loop has visited `labels`: a label found on the
      page and not already added contributes one entry. */
  function Pushed(sections: map<string, Section>, labels: seq<string>): seq<ForecastDay>
  {
    if labels == [] then []
    else
      var init := labels[..|labels| - 1];
      var day := labels[|labels| - 1];
      Pushed(sections, init) + (if day in sections && day !in init then [Describe(day, sections[day])] else [])
  }

  /** The loop over the labels, with the `addedDays` set. */
  method CollectSections(sections: map<string, Section>, labels: seq<string>) returns (forecast: seq<ForecastDay>)
    ensures forecast == Pushed(sections, labels)
  {
    forecast := [];
    var addedDays: set<string> := {};
    for i := 0 to |labels|
      invariant forecast == Pushed(sections, labels[..i])
      invariant addedDays == set d | d in labels[..i] && d in sections
    {
      assert labels[..i + 1][..i] == labels[..i];
      var day := labels[i];
      if day in addedDays {
        continue;
      }
      if day in sections {
        forecast := forecast + [Describe(day, sections[day])];
        addedDays := addedDays + {day};
      }
    }
    assert labels[..|labels|] == labels;
  }

  /** Every entry carries a label of the list that was found on the page,
      described from its own section. */
  lemma {:induction false} PushedFromLabels(sections: map<string, Section>, labels: seq<string>)
    ensures forall e :: e in Pushed(sections, labels) ==> e.day in labels && e.day in sections && e == Describe(e.day, sections[e.day])
  {
    if labels != [] {
      var init := labels[..|labels| - 1];
      PushedFromLabels(sections, init);
      var f0 := Pushed(sections, init);
      var f := Pushed(sections, labels);
      forall e | e in f
        ensures e.day in labels && e.day in sections && e == Describe(e.day, sections[e.day])
      {
        if e in f0 {
          assert e.day in init;
        }
      }
    }
  }

  ghost predicate DistinctDays(f: seq<ForecastDay>)
  {
    forall i, j :: 0 <= i < j < |f| ==> f[i].day != f[j].day
  }

  /** No label is pushed twice: the `addedDays` guard. */
  lemma {:induction false} PushedDistinct(sections: map<string, Section>, labels: seq<string>)
    ensures DistinctDays(Pushed(sections, labels))
  {
    if labels != [] {
      var init := labels[..|labels| - 1];
      var day := labels[|labels| - 1];
      PushedDistinct(sections, init);
      PushedFromLabels(sections, init);
      var f0 := Pushed(sections, init);
      var f := Pushed(sections, labels);
      assert DistinctDays(f0);
      forall i, j | 0 <= i < j < |f| ensures f[i].day != f[j].day {
        assert f[i] == f0[i] && f0[i] in f0;
        if j == |f0| {
          assert f[j].day == day;
        } else {
          assert f[j] == f0[j];
        }
      }
    }
  }

  /** Every label of the list found on the page is pushed. */
  lemma {:induction false} PushedComplete(sections: map<string, Section>, labels: seq<string>, d: string)
    requires d in labels && d in sections
    ensures exists i :: 0 <= i < |Pushed(sections, labels)| && Pushed(sections, labels)[i].day == d
  {
    var init := labels[..|labels| - 1];
    var day := labels[|labels| - 1];
    var f0 := Pushed(sections, init);
    var f := Pushed(sections, labels);
    assert labels == init + [day];
    if d in init {
      PushedComplete(sections, init, d);
      var i :| 0 <= i < |f0| && f0[i].day == d;
      assert f[i] == f0[i];
    } else {
      assert f[|f0|].day == d;
    }
  }

  ghost predicate DistinctLabels(labels: seq<string>)
  {
    forall i, j :: 0 <= i < j < |labels| ==> labels[i] != labels[j]
  }

  /** The loop pushes at most one entry per label, and over labels without
      repeats, one for each exactly when every label has a section. */
  lemma {:induction false} PushedCount(sections: map<string, Section>, labels: seq<string>)
    ensures |Pushed(sections, labels)| <= |labels|
    ensures DistinctLabels(labels) ==>
      (|Pushed(sections, labels)| == |labels| <==> forall i :: 0 <= i < |labels| ==> labels[i] in sections)
  {
    if labels != [] {
      var init := labels[..|labels| - 1];
      var day := labels[|labels| - 1];
      PushedCount(sections, init);
      if DistinctLabels(labels) {
        assert DistinctLabels(init);
        assert day !in init by {
          forall i | 0 <= i < |init| ensures init[i] != day {
            assert init[i] == labels[i];
          }
        }
        if forall i :: 0 <= i < |labels| ==> labels[i] in sections {
          forall i | 0 <= i < |init| ensures init[i] in sections {
            assert init[i] == labels[i];
          }
        }
        if (forall i :: 0 <= i < |init| ==> init[i] in sections) && day in sections {
          forall i | 0 <= i < |labels| ensures labels[i] in sections {
            if i < |init| {
              assert labels[i] == init[i];
            }
          }
        }
      }
    }
  }

  /** The nine labels are distinct strings. */
  lemma DaysDistinct()
    ensures DistinctLabels(Days)
  {
  }

  /** The forecast has at most nine entries, and nine exactly when every
      label of the list has a section on the page. */
  lemma ForecastFull(sections: map<string, Section>, todayIndex: int)
    ensures |SortForecast(Pushed(sections, Days), todayIndex)| <= |Days|
    ensures |SortForecast(Pushed(sections, Days), todayIndex)| == |Days| <==> forall d :: d in Days ==> d in sections
  {
    var p := Pushed(sections, Days);
    var f := SortForecast(p, todayIndex);
    assert |f| == |multiset(f)| == |multiset(p)| == |p|;
    PushedCount(sections, Days);
    DaysDistinct();
    if forall d :: d in Days ==> d in sections {
      assert forall i :: 0 <= i < |Days| ==> Days[i] in sections;
    }
    if forall i :: 0 <= i < |Days| ==> Days[i] in sections {
      forall d | d in Days ensures d in sections {
        var i :| 0 <= i < |Days| && Days[i] == d;
      }
    }
  }

  // ---------------------------------------------------------------------
  // The sort
  // ---------------------------------------------------------------------

  ghost predicate SortedBy<T>(s: seq<T>, key: T -> int)
  {
    forall i, j :: 0 <= i < j < |s| ==> key(s[i]) <= key(s[j])
  }

  ghost predicate StrictlySortedBy<T>(s: seq<T>, key: T -> int)
  {
    forall i, j :: 0 <= i < j < |s| ==> key(s[i]) < key(s[j])
  }

  /** In a sorted sequence nothing after the head has a smaller key. */
  lemma SortedHead<T>(s: seq<T>, key: T -> int)
    requires s != [] && SortedBy(s, key)
    ensures forall e :: e in s[1..] ==> key(s[0]) <= key(e)
  {
    forall e | e in s[1..] ensures key(s[0]) <= key(e) {
      var k :| 0 <= k < |s[1..]| && s[1..][k] == e;
      assert s[k + 1] == e;
    }
  }

  lemma StrictHead<T>(s: seq<T>, key: T -> int)
    requires s != [] && StrictlySortedBy(s, key)
    ensures forall e :: e in s[1..] ==> key(s[0]) < key(e)
  {
    forall e | e in s[1..] ensures key(s[0]) < key(e) {
      var k :| 0 <= k < |s[1..]| && s[1..][k] == e;
      assert s[k + 1] == e;
    }
  }

  lemma ConsSorted<T>(h: T, rest: seq<T>, key: T -> int)
    requires SortedBy(rest, key)
    requires forall e :: e in rest ==> key(h) <= key(e)
    ensures SortedBy([h] + rest, key)
  {
    var r := [h] + rest;
    forall i, j | 0 <= i < j < |r| ensures key(r[i]) <= key(r[j]) {
      assert r[j] == rest[j - 1] && r[j] in rest;
      if i > 0 {
        assert r[i] == rest[i - 1];
      }
    }
  }

  lemma ConsStrict<T>(h: T, rest: seq<T>, key: T -> int)
    requires StrictlySortedBy(rest, key)
    requires forall e :: e in rest ==> key(h) < key(e)
    ensures StrictlySortedBy([h] + rest, key)
  {
    var r := [h] + rest;
    forall i, j | 0 <= i < j < |r| ensures key(r[i]) < key(r[j]) {
      assert r[j] == rest[j - 1] && r[j] in rest;
      if i > 0 {
        assert r[i] == rest[i - 1];
      }
    }
  }

  /** An element of `t` plus `x` is `x` or an element of `t`. */
  lemma InsertedFrom<T>(x: T, t: seq<T>, r: seq<T>)
    requires multiset(r) == multiset(t) + multiset{x}
    ensures forall e :: e in r ==> e == x || e in t
  {
    forall e | e in r ensures e == x || e in t {
      assert e in multiset(r);
    }
  }

  /** Places `x` before the first element of a larger key. */
  function Insert<T>(x: T, s: seq<T>, key: T -> int): (r: seq<T>)
    requires SortedBy(s, key)
    ensures SortedBy(r, key)
    ensures multiset(r) == multiset(s) + multiset{x}
  {
    if s == [] then [x]
    else if key(x) <= key(s[0]) then
      SortedHead(s, key);
      assert s == [s[0]] + s[1..];
      ConsSorted(x, s, key);
      [x] + s
    else
      assert s == [s[0]] + s[1..];
      var rest := Insert(x, s[1..], key);
      SortedHead(s, key);
      InsertedFrom(x, s[1..], rest);
      ConsSorted(s[0], rest, key);
      [s[0]] + rest
  }

  /** A stable sort by `key`: ordered and a permutation of its input. */
  function InsertionSort<T>(s: seq<T>, key: T -> int): (r: seq<T>)
    ensures SortedBy(r, key)
    ensures multiset(r) == multiset(s)
  {
    if s == [] then []
    else
      assert s == [s[0]] + s[1..];
      Insert(s[0], InsertionSort(s[1..], key), key)
  }

  lemma {:induction false} InsertStrict<T>(x: T, s: seq<T>, key: T -> int)
    requires SortedBy(s, key) && StrictlySortedBy(s, key)
    requires forall e :: e in s ==> key(e) != key(x)
    ensures StrictlySortedBy(Insert(x, s, key), key)
  {
    if s == [] {
      assert Insert(x, s, key) == [x];
    } else if key(x) <= key(s[0]) {
      assert s[0] in s;
      StrictHead(s, key);
      assert s == [s[0]] + s[1..];
      ConsStrict(x, s, key);
    } else {
      assert s == [s[0]] + s[1..];
      assert forall e :: e in s[1..] ==> e in s;
      assert StrictlySortedBy(s[1..], key) by {
        forall i, j | 0 <= i < j < |s[1..]| ensures key(s[1..][i]) < key(s[1..][j]) {
          assert s[1..][i] == s[i + 1] && s[1..][j] == s[j + 1];
        }
      }
      InsertStrict(x, s[1..], key);
      var rest := Insert(x, s[1..], key);
      StrictHead(s, key);
      InsertedFrom(x, s[1..], rest);
      ConsStrict(s[0], rest, key);
    }
  }

  /** Distinct keys make the sorted sequence strictly ordered. */
  lemma {:induction false} SortStrict<T>(s: seq<T>, key: T -> int)
    requires forall i, j :: 0 <= i < j < |s| ==> key(s[i]) != key(s[j])
    ensures StrictlySortedBy(InsertionSort(s, key), key)
  {
    if s != [] {
      var rest := InsertionSort(s[1..], key);
      SortStrict(s[1..], key);
      forall e | e in rest ensures key(e) != key(s[0]) {
        assert e in multiset(s[1..]);
        var j :| 0 <= j < |s[1..]| && s[1..][j] == e;
        assert s[j + 1] == e;
      }
      InsertStrict(s[0], rest, key);
    }
  }

  /** The comparator `sortOrder(a.day) - sortOrder(b.day)` as a key. */
  function ByDay(todayIndex: int): ForecastDay -> int
  {
    (d: ForecastDay) => SortOrder(d.day, todayIndex)
  }

  /** The forecast in the comparator's order. */
  function SortForecast(f: seq<ForecastDay>, todayIndex: int): seq<ForecastDay>
  {
    InsertionSort(f, ByDay(todayIndex))
  }

  /** `extractForecast`: the labels in search order, then the sort. The
      current weekday stands for `new Date().getDay()`. */
  method ExtractForecast(sections: map<string, Section>, todayIndex: int) returns (forecast: seq<ForecastDay>)
    requires 0 <= todayIndex < 7
    ensures forecast == SortForecast(Pushed(sections, Days), todayIndex)
  {
    forecast := CollectSections(sections, Days);
    forecast := InsertionSort(forecast, ByDay(todayIndex));
  }

  /** Each forecast entry is a label of the list found on the page, described
      from its own section. */
  lemma ForecastEntries(sections: map<string, Section>, todayIndex: int)
    ensures forall e :: e in SortForecast(Pushed(sections, Days), todayIndex) ==>
      e.day in Days && e.day in sections && e == Describe(e.day, sections[e.day])
  {
    var p := Pushed(sections, Days);
    var f := SortForecast(p, todayIndex);
    PushedFromLabels(sections, Days);
    forall e | e in f ensures e.day in Days && e.day in sections && e == Describe(e.day, sections[e.day]) {
      assert e in multiset(p);
    }
  }

  /** Every label of the list found on the page has an entry. */
  lemma ForecastComplete(sections: map<string, Section>, todayIndex: int, d: string)
    requires d in Days && d in sections
    ensures var f := SortForecast(Pushed(sections, Days), todayIndex);
      exists i :: 0 <= i < |f| && f[i].day == d
  {
    var p := Pushed(sections, Days);
    var f := SortForecast(p, todayIndex);
    PushedComplete(sections, Days, d);
    var j :| 0 <= j < |p| && p[j].day == d;
    assert p[j] in multiset(f);
    var i :| 0 <= i < |f| && f[i] == p[j];
  }

  /** The forecast is strictly ordered: Today, Tonight, then the weekdays
      from tomorrow on, so no label appears twice. */
  lemma ForecastOrdered(sections: map<string, Section>, todayIndex: int)
    requires 0 <= todayIndex < 7
    ensures var f := SortForecast(Pushed(sections, Days), todayIndex);
      forall i, j :: 0 <= i < j < |f| ==> SortOrder(f[i].day, todayIndex) < SortOrder(f[j].day, todayIndex)
  {
    var p := Pushed(sections, Days);
    PushedFromLabels(sections, Days);
    PushedDistinct(sections, Days);
    forall i, j | 0 <= i < j < |p| ensures ByDay(todayIndex)(p[i]) != ByDay(todayIndex)(p[j]) {
      assert p[i] in p && p[j] in p;
      SortOrderInjective(p[i].day, p[j].day, todayIndex);
    }
    SortStrict(p, ByDay(todayIndex));
  }

  /** When the page has a Today section, it opens the forecast. */
  lemma TodayFirst(sections: map<string, Section>, todayIndex: int)
    requires 0 <= todayIndex < 7
    requires "Today" in sections
    ensures var f := SortForecast(Pushed(sections, Days), todayIndex);
      |f| > 0 && f[0].day == "Today"
  {
    var f := SortForecast(Pushed(sections, Days), todayIndex);
    ForecastComplete(sections, todayIndex, "Today");
    ForecastOrdered(sections, todayIndex);
    var i :| 0 <= i < |f| && f[i].day == "Today";
    assert i == 0 by {
      SortOrderNonNegative(f[0].day, todayIndex);
    }
  }

  // ---------------------------------------------------------------------
  // parseSnowReport
  // ---------------------------------------------------------------------

  /** The captures of the weather and snow patterns on the tag-stripped page. */
  datatype Captures = Captures(
    alpineTemp: Option<int>,
    condition: Option<string>,
    wind: Option<(string, nat)>,
    newSnow: Option<nat>,
    lastHour: Option<nat>,
    twentyFourHour: Option<nat>,
    fortyEightHour: Option<nat>,
    sevenDay: Option<nat>,
    baseDepth: Option<nat>,
    seasonTotal: Option<nat>)

  /** `result.weather`: a field that was never assigned is `None`. */
  datatype Weather = Weather(
    alpineTemp: Option<int>,
    subpeakTemp: Option<int>,
    ripperTemp: Option<int>,
    condition: Option<string>,
    windSpeed: Option<int>,
    windDirection: Option<string>)

  datatype Snow = Snow(
    newSnow: nat, lastHour: nat, twentyFourHour: nat, fortyEightHour: nat,
    sevenDay: nat, baseDepth: nat, seasonTotal: nat)

  datatype Report = Report(weather: Weather, snow: Snow, forecast: seq<ForecastDay>)

  /** `w.charAt(0).toUpperCase() + w.slice(1).toLowerCase()`. */
  function Capitalize(w: string): (r: string)
    ensures |r| == |w|
    ensures r != [] ==> r[0] == Text.UpperChar(w[0])
    ensures forall i :: 1 <= i < |r| ==> r[i] == Text.LowerChar(w[i])
  {
    if w == [] then [] else [Text.UpperChar(w[0])] + Text.ToLower(w[1..])
  }

  /** Capitalizing a capitalized word changes nothing. */
  lemma CapitalizeIdempotent(w: string)
    ensures Capitalize(Capitalize(w)) == Capitalize(w)
  {
    var c := Capitalize(w);
    if w != [] {
      Text.UpperCharIdempotent(w[0]);
      forall i | 1 <= i < |c| ensures Capitalize(c)[i] == c[i] {
        assert !Text.IsAsciiUpper(c[i]);
      }
    }
  }

  /** The weather half of `parseSnowReport`: the subpeak and ripper
      temperatures are estimated one degree above the alpine reading, the
      condition is lower-cased and the wind direction capitalized. */
  method ParseWeather(cap: Captures) returns (weather: Weather)
    ensures weather.alpineTemp == cap.alpineTemp
    ensures weather.subpeakTemp.Some? <==> cap.alpineTemp.Some?
    ensures weather.ripperTemp.Some? <==> cap.alpineTemp.Some?
    ensures cap.alpineTemp.Some? ==>
      weather.subpeakTemp.value == cap.alpineTemp.value + 1 == weather.ripperTemp.value
    ensures weather.condition == if cap.condition.Some? then Some(Text.ToLower(cap.condition.value)) else None
    ensures weather.windSpeed.Some? <==> cap.wind.Some?
    ensures weather.windDirection.Some? <==> cap.wind.Some?
    ensures cap.wind.Some? ==>
      weather.windSpeed.value == cap.wind.value.1 && weather.windDirection.value == Capitalize(cap.wind.value.0)
  {
    var alpine: Option<int>, subpeak: Option<int>, ripper: Option<int> := None, None, None;
    if cap.alpineTemp.Some? {
      alpine := cap.alpineTemp;
      subpeak := Some(alpine.value + 1);
      ripper := Some(alpine.value + 1);
    }
    var condition: Option<string> := None;
    if cap.condition.Some? {
      condition := Some(Text.ToLower(cap.condition.value));
    }
    var windSpeed: Option<int>, windDirection: Option<string> := None, None;
    if cap.wind.Some? {
      windSpeed := Some(cap.wind.value.1 as int);
      windDirection := Some(Capitalize(cap.wind.value.0));
    }
    weather := Weather(alpine, subpeak, ripper, condition, windSpeed, windDirection);
  }

  /** What `parseSnowReport` makes of a page: the weather (the subpeak and
      ripper temperatures one degree above the alpine reading and only with
      it, the condition lower-cased, the wind only when it matched, with the
      direction capitalized), every snow figure its capture or 0, and the
      forecast sorted by weekday. */
  predicate ParsedFrom(result: Report, cap: Captures, sections: map<string, Section>, todayIndex: int)
    requires 0 <= todayIndex < 7
  {
    && result.weather.alpineTemp == cap.alpineTemp
    && (cap.alpineTemp.Some? ==>
         result.weather.subpeakTemp == result.weather.ripperTemp == Some(cap.alpineTemp.value + 1))
    && (cap.alpineTemp.None? ==> result.weather.subpeakTemp.None? && result.weather.ripperTemp.None?)
    && result.weather.condition == (if cap.condition.Some? then Some(Text.ToLower(cap.condition.value)) else None)
    && (cap.wind.Some? ==>
         result.weather.windSpeed == Some(cap.wind.value.1 as int)
         && result.weather.windDirection == Some(Capitalize(cap.wind.value.0)))
    && (cap.wind.None? ==> result.weather.windSpeed.None? && result.weather.windDirection.None?)
    && result.snow == Snow(cap.newSnow.GetOr(0), cap.lastHour.GetOr(0), cap.twentyFourHour.GetOr(0),
         cap.fortyEightHour.GetOr(0), cap.sevenDay.GetOr(0), cap.baseDepth.GetOr(0), cap.seasonTotal.GetOr(0))
    && result.forecast == SortForecast(Pushed(sections, Days), todayIndex)
  }

  /** The parse is determined by its inputs: two reports parsed from the
      same page are the same report. */
  lemma ParsedFromUnique(a: Report, b: Report, cap: Captures, sections: map<string, Section>, todayIndex: int)
    requires 0 <= todayIndex < 7
    requires ParsedFrom(a, cap, sections, todayIndex) && ParsedFrom(b, cap, sections, todayIndex)
    ensures a == b
  {
  }

  /** `parseSnowReport`: the weather, the snow figures with 0 for a figure
      the page does not show, and the sorted forecast. */
  method ParseSnowReport(cap: Captures, sections: map<string, Section>, todayIndex: int) returns (result: Report)
    requires 0 <= todayIndex < 7
    ensures ParsedFrom(result, cap, sections, todayIndex)
  {
    var weather := ParseWeather(cap);
    var snow := Snow(cap.newSnow.GetOr(0), cap.lastHour.GetOr(0), cap.twentyFourHour.GetOr(0),
      cap.fortyEightHour.GetOr(0), cap.sevenDay.GetOr(0), cap.baseDepth.GetOr(0), cap.seasonTotal.GetOr(0));
    var forecast := ExtractForecast(sections, todayIndex);
    result := Report(weather, snow, forecast);
  }

  // ---------------------------------------------------------------------
  // The endpoint
  // ---------------------------------------------------------------------

  const SnowReportUrl := "https://www.revelstokemountainresort.com/mountain/conditions/snow-report/"

  /** What fetching the page gave: the page's captures, a response that is
      not ok with its status, or a request that failed with its message. */
  datatype Fetch =
    | Page(cap: Captures, sections: map<string, Section>)
    | NotOk(status: int)
    | FetchFailed(message: string)

  datatype Reply =
    | Preflight
    | Served(report: Report, fetchedAt: string, source: string)
    | Failed(error: string, message: string)

  function Status(r: Reply): int
  {
    match r
    case Preflight => 200
    case Served(_, _, _) => 200
    case Failed(_, _) => 500
  }

  /** `HTTP ${status}`, the error of a response that is not ok. */
  function HttpError(status: int): string
  {
    "HTTP " + Text.IntToString(status)
  }

  /** The handler: OPTIONS is answered at once, a fetch failure is a 500,
      a page is parsed and stamped with the time and the source URL. */
  method Handler(httpMethod: string, fetched: Fetch, todayIndex: int, now: string) returns (reply: Reply)
    requires 0 <= todayIndex < 7
    ensures httpMethod == "OPTIONS" ==> reply == Preflight
    ensures httpMethod != "OPTIONS" && fetched.NotOk? ==>
      reply == Failed("Failed to fetch snow report", HttpError(fetched.status)) && Status(reply) == 500
    ensures httpMethod != "OPTIONS" && fetched.FetchFailed? ==>
      reply == Failed("Failed to fetch snow report", fetched.message) && Status(reply) == 500
    ensures httpMethod != "OPTIONS" && fetched.Page? ==>
      && reply.Served? && reply.fetchedAt == now && reply.source == SnowReportUrl
      && ParsedFrom(reply.report, fetched.cap, fetched.sections, todayIndex)
  {
    if httpMethod == "OPTIONS" {
      return Preflight;
    }
    match fetched
    case NotOk(status) =>
      return Failed("Failed to fetch snow report", HttpError(status));
    case FetchFailed(message) =>
      return Failed("Failed to fetch snow report", message);
    case Page(cap, sections) =>
      var data := ParseSnowReport(cap, sections, todayIndex);
      return Served(data, now, SnowReportUrl);
  }
}
