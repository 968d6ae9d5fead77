/** The repair endpoint for forecast histories (api/cleanup-forecasts.js):
    every `forecast:` record keeps, for each distinct `firstSeen` timestamp,
    only its first history entry; the pass counts what it checked and
    removed, and writes the repaired records back only when asked to. */
module CleanupForecasts {

  import opened Wrappers
  import opened Records
  import opened Storage

  const ForecastPrefix := "forecast:"

  // ---------------------------------------------------------------------
  // The per-record dedup and its reference definitions
  // ---------------------------------------------------------------------

  /** The timestamps occurring in a history. */
  ghost function Stamps(h: seq<HistoryEntry>): set<string>
  {
    set e | e in h :: e.firstSeen
  }

  /** No timestamp occurs twice. */
  ghost predicate DistinctStamps(h: seq<HistoryEntry>)
  {
    forall i, j :: 0 <= i < j < |h| ==> h[i].firstSeen != h[j].firstSeen
  }

  /** `a` is `b` with some entries dropped and the rest in their order. */
  ghost predicate SubseqOf(a: seq<HistoryEntry>, b: seq<HistoryEntry>)
    decreases |b|
  {
    if a == [] then true
    else if b == [] then false
    else (a[0] == b[0] && SubseqOf(a[1..], b[1..])) || SubseqOf(a, b[1..])
  }

  /** Reference definition, read from the end: an entry survives exactly
      when no earlier entry has its timestamp. */
  ghost function FirstOccurrences(h: seq<HistoryEntry>): seq<HistoryEntry>
  {
    if h == [] then []
    else
      var init := h[..|h| - 1];
      var last := h[|h| - 1];
      FirstOccurrences(init) + (if last.firstSeen in Stamps(init) then [] else [last])
  }

  /** The inner loop read from the front: `seen` holds the timestamps already
      kept, an entry whose timestamp is in it is dropped. */
  function KeepFirst(h: seq<HistoryEntry>, seen: set<string>): (r: seq<HistoryEntry>)
    ensures |r| <= |h|
  {
    if h == [] then []
    else if h[0].firstSeen in seen then KeepFirst(h[1..], seen)
    else [h[0]] + KeepFirst(h[1..], seen + {h[0].firstSeen})
  }

  /** The cleaned history of one record. */
  function Dedup(h: seq<HistoryEntry>): (r: seq<HistoryEntry>)
    ensures |r| <= |h|
  {
    KeepFirst(h, {})
  }

  lemma StampsCons(h: seq<HistoryEntry>)
    requires h != []
    ensures Stamps(h) == {h[0].firstSeen} + Stamps(h[1..])
  {
    assert h == [h[0]] + h[1..];
  }

  /** What the front-to-back pass produces from a history and a set of
      timestamps already seen. */
  lemma {:induction false} KeepFirstFacts(h: seq<HistoryEntry>, seen: set<string>)
    ensures var r := KeepFirst(h, seen);
      && DistinctStamps(r)
      && Stamps(r) == Stamps(h) - seen
      && SubseqOf(r, h)
  {
    if h != [] {
      StampsCons(h);
      var r := KeepFirst(h, seen);
      if h[0].firstSeen in seen {
        KeepFirstFacts(h[1..], seen);
        assert r == [] || SubseqOf(r, h[1..]);
      } else {
        var seen' := seen + {h[0].firstSeen};
        var rest := KeepFirst(h[1..], seen');
        KeepFirstFacts(h[1..], seen');
        assert r == [h[0]] + rest;
        assert r[1..] == rest;
        StampsCons(r);
        forall i, j | 0 <= i < j < |r| ensures r[i].firstSeen != r[j].firstSeen {
          if i == 0 {
            assert r[j] == rest[j - 1] && r[j] in rest;
            assert r[j].firstSeen in Stamps(rest);
          } else {
            assert r[i] == rest[i - 1] && r[j] == rest[j - 1];
          }
        }
      }
    }
  }

  /** Appending one entry to the input appends it to the output exactly when
      its timestamp is new. */
  lemma {:induction false} KeepFirstSnoc(init: seq<HistoryEntry>, last: HistoryEntry, seen: set<string>)
    ensures KeepFirst(init + [last], seen)
         == KeepFirst(init, seen) + (if last.firstSeen in seen || last.firstSeen in Stamps(init) then [] else [last])
  {
    var h := init + [last];
    if init == [] {
      assert h == [last];
      assert h[1..] == [];
    } else {
      assert h[0] == init[0];
      assert h[1..] == init[1..] + [last];
      StampsCons(init);
      if init[0].firstSeen in seen {
        KeepFirstSnoc(init[1..], last, seen);
      } else {
        KeepFirstSnoc(init[1..], last, seen + {init[0].firstSeen});
      }
    }
  }

  /** The loop's result agrees with the reference definition. */
  lemma {:induction false} DedupIsFirstOccurrences(h: seq<HistoryEntry>)
    ensures Dedup(h) == FirstOccurrences(h)
  {
    if h != [] {
      var init := h[..|h| - 1];
      assert h == init + [h[|h| - 1]];
      KeepFirstSnoc(init, h[|h| - 1], {});
      DedupIsFirstOccurrences(init);
    }
  }

  /** The cleaned history has pairwise distinct timestamps, keeps every
      timestamp of the original, and is a subsequence of it. */
  lemma DedupFacts(h: seq<HistoryEntry>)
    ensures DistinctStamps(Dedup(h))
    ensures Stamps(Dedup(h)) == Stamps(h)
    ensures SubseqOf(Dedup(h), h)
  {
    KeepFirstFacts(h, {});
  }

  /** A repeated first timestamp makes a history unclean. */
  lemma RepeatedHead(h: seq<HistoryEntry>)
    requires h != [] && h[0].firstSeen in Stamps(h[1..])
    ensures !DistinctStamps(h)
  {
    var e :| e in h[1..] && e.firstSeen == h[0].firstSeen;
    var j :| 0 <= j < |h[1..]| && h[1..][j] == e;
    assert h[j + 1] == e;
  }

  /** A history is clean exactly when its tail is clean and does not repeat
      the first timestamp. */
  lemma DistinctCons(h: seq<HistoryEntry>)
    requires h != []
    ensures DistinctStamps(h) <==> DistinctStamps(h[1..]) && h[0].firstSeen !in Stamps(h[1..])
  {
    var t := h[0].firstSeen;
    if h[0].firstSeen in Stamps(h[1..]) {
      RepeatedHead(h);
    } else if DistinctStamps(h[1..]) {
      forall i, j | 0 <= i < j < |h| ensures h[i].firstSeen != h[j].firstSeen {
        assert h[j] == h[1..][j - 1];
        if i == 0 {
          assert h[j] in h[1..];
        } else {
          assert h[i] == h[1..][i - 1];
        }
      }
    } else {
      var i, j :| 0 <= i < j < |h[1..]| && h[1..][i].firstSeen == h[1..][j].firstSeen;
      assert h[i + 1] == h[1..][i] && h[j + 1] == h[1..][j];
    }
  }

  /** Nothing is dropped exactly when the history is already clean and none
      of its timestamps has been seen. */
  lemma {:induction false} KeepFirstKeepsAll(h: seq<HistoryEntry>, seen: set<string>)
    ensures |KeepFirst(h, seen)| == |h| <==> DistinctStamps(h) && Stamps(h) !! seen
    ensures |KeepFirst(h, seen)| == |h| ==> KeepFirst(h, seen) == h
  {
    if h != [] {
      StampsCons(h);
      var t := h[0].firstSeen;
      var tail := h[1..];
      DistinctCons(h);
      if t in seen {
        assert KeepFirst(h, seen) == KeepFirst(tail, seen);
        assert |KeepFirst(tail, seen)| <= |tail|;
        assert t in Stamps(h) * seen;
      } else {
        var seen' := seen + {t};
        KeepFirstKeepsAll(tail, seen');
        var rest := KeepFirst(tail, seen');
        assert KeepFirst(h, seen) == [h[0]] + rest;
        assert (Stamps(tail) !! seen') <==> (Stamps(tail) !! seen && t !in Stamps(tail));
        assert (Stamps(h) !! seen) <==> (Stamps(tail) !! seen);
        assert rest == tail ==> [h[0]] + rest == h;
      }
    }
  }

  /** Nothing is removed from a history exactly when its timestamps are already
      distinct, and then the history is returned as it was. */
  lemma DedupRemovesNothingIffClean(h: seq<HistoryEntry>)
    ensures |Dedup(h)| == |h| <==> DistinctStamps(h)
    ensures DistinctStamps(h) ==> Dedup(h) == h
  {
    KeepFirstKeepsAll(h, {});
  }

  /** Cleaning a cleaned history changes nothing. */
  lemma DedupIdempotent(h: seq<HistoryEntry>)
    ensures Dedup(Dedup(h)) == Dedup(h)
  {
    DedupFacts(h);
    DedupRemovesNothingIffClean(Dedup(h));
  }

  lemma KeepFirstStep(h: seq<HistoryEntry>, i: nat, seen: set<string>)
    requires i < |h|
    ensures KeepFirst(h[i..], seen) == if h[i].firstSeen in seen then KeepFirst(h[i + 1..], seen)
      else [h[i]] + KeepFirst(h[i + 1..], seen + {h[i].firstSeen})
  {
    assert h[i..][1..] == h[i + 1..];
  }

  /** The inner loop of the handler: one pass with a `seen` set, counting the
      entries it skips. */
  method DedupHistory(h: seq<HistoryEntry>) returns (cleaned: seq<HistoryEntry>, removed: nat)
    ensures cleaned == Dedup(h)
    ensures removed == |h| - |cleaned|
  {
    var seen: set<string> := {};
    cleaned := [];
    removed := 0;
    for i := 0 to |h|
      invariant cleaned + KeepFirst(h[i..], seen) == Dedup(h)
      invariant |cleaned| <= i && removed == i - |cleaned|
    {
      KeepFirstStep(h, i, seen);
      if h[i].firstSeen in seen {
        removed := removed + 1;
      } else {
        assert cleaned + [h[i]] + KeepFirst(h[i + 1..], seen + {h[i].firstSeen})
          == cleaned + ([h[i]] + KeepFirst(h[i + 1..], seen + {h[i].firstSeen}));
        seen := seen + {h[i].firstSeen};
        cleaned := cleaned + [h[i]];
      }
    }
  }

  // ---------------------------------------------------------------------
  // The pass over all records
  // ---------------------------------------------------------------------

  /** One element of `details`. */
  datatype Detail = Detail(key: string, before: nat, after: nat, removed: nat)

  /** The `results` object. */
  datatype Results = Results(checked: nat, cleaned: nat, entriesRemoved: nat, details: seq<Detail>)

  /** The response: 405 for a method other than POST, 200 with the report. */
  datatype Reply = PostOnly | Report(dryRun: bool, message: string, results: Results)

  function Status(r: Reply): int
  {
    if r.PostOnly? then 405 else 200
  }

  /** `req.query.dryRun !== 'false'`: only the single value 'false' applies. */
  function IsDryRun(q: Query): (dry: bool)
    ensures !dry <==> q == One("false")
  {
    !(q.One? && q.s == "false")
  }

  function Message(dryRun: bool): string
  {
    if dryRun then "Dry run complete. POST with ?dryRun=false to apply changes."
    else "Cleanup complete."
  }

  const NoResults := Results(0, 0, 0, [])

  /** One iteration of the outer loop, as it changes `results`. */
  function Step(res: Results, e: Entry): Results
  {
    match NonEmptyHistory(e.1)
    case None => res
    case Some(h) =>
      var after := |Dedup(h)|;
      var removed := |h| - after;
      if removed > 0 then
        Results(res.checked + 1, res.cleaned + 1, res.entriesRemoved + removed,
                res.details + [Detail(e.0, |h|, after, removed)])
      else res.(checked := res.checked + 1)
  }

  /** `results` after the outer loop has visited `entries`. */
  function Tally(entries: seq<Entry>): Results
  {
    if entries == [] then NoResults
    else Step(Tally(entries[..|entries| - 1]), entries[|entries| - 1])
  }

  /** The record written back for an entry whose history lost entries, if any. */
  function Rewrite(e: Entry): Option<Value>
  {
    match NonEmptyHistory(e.1)
    case None => None
    case Some(h) =>
      if |Dedup(h)| < |h| then Some(Forecast(e.1.rec.(history := Some(Dedup(h))))) else None
  }

  /** The store contents after apply mode has visited `entries`. */
  function Apply(data: map<string, Value>, entries: seq<Entry>): (r: map<string, Value>)
    ensures data.Keys <= r.Keys
  {
    if entries == [] then data
    else
      var d := Apply(data, entries[..|entries| - 1]);
      var last := entries[|entries| - 1];
      match Rewrite(last)
      case Some(v) => d[last.0 := v]
      case None => d
  }

  /** One iteration of the outer loop: checks one record and, in apply mode,
      writes back its cleaned history when entries were removed. */
  method Visit(store: Store, e: Entry, dry: bool, results: Results) returns (next: Results)
    requires store.Valid() && e.0 in store.data
    modifies store
    ensures store.Valid() && store.keys == old(store.keys)
    ensures next == Step(results, e)
    ensures store.data == if dry || Rewrite(e).None? then old(store.data) else old(store.data)[e.0 := Rewrite(e).value]
  {
    var (key, record) := e;
    next := results;
    if record.Forecast? && record.rec.history.Some? && |record.rec.history.value| > 0 {
      var history := record.rec.history.value;
      var cleaned, removed := DedupHistory(history);
      if removed > 0 {
        next := Results(results.checked + 1, results.cleaned + 1, results.entriesRemoved + removed,
                        results.details + [Detail(key, |history|, |cleaned|, removed)]);
        if !dry {
          store.Set(key, Forecast(record.rec.(history := Some(cleaned))));
        }
      } else {
        next := results.(checked := results.checked + 1);
      }
    }
  }

  /** The outer loop: every entry is visited in order. */
  method VisitAll(store: Store, entries: seq<Entry>, dry: bool) returns (results: Results)
    requires store.Valid()
    requires forall k, v :: (k, v) in entries ==> k in store.data
    modifies store
    ensures store.Valid() && store.keys == old(store.keys)
    ensures results == Tally(entries)
    ensures store.data == if dry then old(store.data) else Apply(old(store.data), entries)
  {
    ghost var data0 := store.data;
    results := NoResults;
    for i := 0 to |entries|
      invariant store.Valid() && store.keys == old(store.keys)
      invariant store.data.Keys == data0.Keys
      invariant results == Tally(entries[..i])
      invariant store.data == if dry then data0 else Apply(data0, entries[..i])
    {
      assert entries[..i + 1][..i] == entries[..i];
      assert entries[i] in entries;
      results := Visit(store, entries[i], dry, results);
    }
    assert entries[..|entries|] == entries;
  }

  /** The endpoint. The store is the local store; a failing storage call
      (the 500 branch) is not modelled. */
  method Handler(store: Store, httpMethod: string, dryRunParam: Query) returns (reply: Reply)
    requires store.Valid()
    modifies store
    ensures store.Valid()
    ensures httpMethod != "POST" ==> reply == PostOnly && unchanged(store)
    ensures httpMethod == "POST" ==>
      var entries := WithPrefix(ListEntries(old(store.keys), old(store.data)), ForecastPrefix);
      var dry := IsDryRun(dryRunParam);
      && reply == Report(dry, Message(dry), Tally(entries))
      && store.keys == old(store.keys)
      && store.data == (if dry then old(store.data) else Apply(old(store.data), entries))
  {
    if httpMethod != "POST" {
      return PostOnly;
    }
    var dry := IsDryRun(dryRunParam);
    var entries := store.GetAllByPrefix(ForecastPrefix);
    var results := VisitAll(store, entries, dry);
    return Report(dry, Message(dry), results);
  }

  // ---------------------------------------------------------------------
  // What the report and the write-back promise
  // ---------------------------------------------------------------------

  function SumRemoved(details: seq<Detail>): nat
  {
    if details == [] then 0 else SumRemoved(details[..|details| - 1]) + details[|details| - 1].removed
  }

  /** The counters agree with the details: `cleaned` is the number of details,
      `entriesRemoved` their total, and each detail's `removed` is positive
      and equal to `before - after`; nothing is counted twice. */
  lemma {:induction false} TallyBookkeeping(entries: seq<Entry>)
    ensures var r := Tally(entries);
      && r.cleaned == |r.details|
      && r.entriesRemoved == SumRemoved(r.details)
      && r.cleaned <= r.checked <= |entries|
      && forall d :: d in r.details ==> d.removed == d.before - d.after && d.removed > 0 && d.after > 0
  {
    if entries != [] {
      var init := entries[..|entries| - 1];
      TallyBookkeeping(init);
      var last := entries[|entries| - 1];
      var r0 := Tally(init);
      match NonEmptyHistory(last.1)
      case None =>
      case Some(h) =>
        var r := Tally(entries);
        if |Dedup(h)| < |h| {
          DedupFacts(h);
          assert h[0].firstSeen in Stamps(h);
          assert Dedup(h) != [];
          assert r.details[..|r.details| - 1] == r0.details;
        }
    }
  }

  /** An entry is reported exactly when its record has a non-empty history
      with a repeated timestamp. */
  ghost predicate Dirty(e: Entry)
  {
    NonEmptyHistory(e.1).Some? && !DistinctStamps(NonEmptyHistory(e.1).value)
  }

  function DetailFor(e: Entry): Detail
    requires NonEmptyHistory(e.1).Some?
  {
    var h := NonEmptyHistory(e.1).value;
    Detail(e.0, |h|, |Dedup(h)|, |h| - |Dedup(h)|)
  }

  lemma RewriteIffDirty(e: Entry)
    ensures Rewrite(e).Some? <==> Dirty(e)
    ensures Dirty(e) ==> Rewrite(e).value.Forecast?
  {
    if NonEmptyHistory(e.1).Some? {
      DedupRemovesNothingIffClean(NonEmptyHistory(e.1).value);
    }
  }

  /** A step adds the detail of its record exactly when the record is dirty. */
  lemma StepDetails(res: Results, e: Entry)
    ensures Step(res, e).details == res.details + (if Dirty(e) then [DetailFor(e)] else [])
  {
    if NonEmptyHistory(e.1).Some? {
      DedupRemovesNothingIffClean(NonEmptyHistory(e.1).value);
    }
  }

  /** `details` lists, in order of visit, exactly the dirty records. */
  lemma {:induction false} TallyDetailsExact(entries: seq<Entry>)
    ensures forall d :: d in Tally(entries).details <==>
      exists i :: 0 <= i < |entries| && Dirty(entries[i]) && d == DetailFor(entries[i])
  {
    if entries != [] {
      var init := entries[..|entries| - 1];
      var last := entries[|entries| - 1];
      TallyDetailsExact(init);
      StepDetails(Tally(init), last);
      var ds := Tally(entries).details;
      assert ds == Tally(init).details + (if Dirty(last) then [DetailFor(last)] else []);
      forall d | d in ds
        ensures exists i :: 0 <= i < |entries| && Dirty(entries[i]) && d == DetailFor(entries[i])
      {
        if d in Tally(init).details {
          var i :| 0 <= i < |init| && Dirty(init[i]) && d == DetailFor(init[i]);
          assert entries[i] == init[i];
        } else {
          assert entries[|entries| - 1] == last && Dirty(last) && d == DetailFor(last);
        }
      }
      forall i | 0 <= i < |entries| && Dirty(entries[i])
        ensures DetailFor(entries[i]) in ds
      {
        if i < |init| {
          assert entries[i] == init[i];
        }
      }
    }
  }

  /** A record that is null, has no history or has an empty one is skipped:
      inserting it anywhere leaves the report as it was. */
  lemma {:induction false} SkippedRecordIgnored(a: seq<Entry>, e: Entry, b: seq<Entry>)
    requires NonEmptyHistory(e.1).None?
    ensures Tally(a + [e] + b) == Tally(a + b)
    decreases |b|
  {
    if b == [] {
      assert (a + [e] + b)[..|a + [e] + b| - 1] == a;
      assert a + b == a;
    } else {
      var b' := b[..|b| - 1];
      SkippedRecordIgnored(a, e, b');
      assert (a + [e] + b)[..|a + [e] + b| - 1] == a + [e] + b';
      assert (a + b)[..|a + b| - 1] == a + b';
    }
  }

  /** Apply mode adds no key. */
  lemma {:induction false} ApplyKeys(data: map<string, Value>, entries: seq<Entry>)
    requires forall i :: 0 <= i < |entries| ==> entries[i].0 in data
    ensures Apply(data, entries).Keys == data.Keys
  {
    if entries != [] {
      ApplyKeys(data, entries[..|entries| - 1]);
    }
  }

  /** Apply mode rewrites every dirty record with its cleaned history. */
  lemma {:induction false} ApplyRewrites(data: map<string, Value>, entries: seq<Entry>)
    requires DistinctKeys(entries)
    requires forall i :: 0 <= i < |entries| ==> entries[i].0 in data
    ensures forall i :: 0 <= i < |entries| && Rewrite(entries[i]).Some? ==>
      Apply(data, entries)[entries[i].0] == Rewrite(entries[i]).value
  {
    if entries != [] {
      var init := entries[..|entries| - 1];
      var last := entries[|entries| - 1];
      assert DistinctKeys(init);
      ApplyRewrites(data, init);
      forall i | 0 <= i < |entries| && Rewrite(entries[i]).Some?
        ensures Apply(data, entries)[entries[i].0] == Rewrite(entries[i]).value
      {
        if i < |init| {
          assert entries[i] == init[i] && entries[i].0 != last.0;
        }
      }
    }
  }

  /** Apply mode leaves every key that no dirty record carries as it was. */
  lemma {:induction false} ApplyLeavesRest(data: map<string, Value>, entries: seq<Entry>, k: string)
    requires k in data
    requires forall i :: 0 <= i < |entries| ==> entries[i].0 != k || Rewrite(entries[i]).None?
    ensures Apply(data, entries)[k] == data[k]
  {
    if entries != [] {
      var init := entries[..|entries| - 1];
      assert forall i :: 0 <= i < |init| ==> init[i] == entries[i];
      ApplyLeavesRest(data, init, k);
    }
  }

  /** A store whose forecast histories are all clean reports nothing in
      `details` and is not written even in apply mode. */
  lemma {:induction false} CleanRecordsUntouched(data: map<string, Value>, entries: seq<Entry>)
    requires forall i :: 0 <= i < |entries| ==> !Dirty(entries[i])
    ensures Tally(entries).cleaned == 0 && Tally(entries).details == []
    ensures Apply(data, entries) == data
  {
    if entries != [] {
      var init := entries[..|entries| - 1];
      assert forall i :: 0 <= i < |init| ==> init[i] == entries[i];
      CleanRecordsUntouched(data, init);
      RewriteIffDirty(entries[|entries| - 1]);
      TallyBookkeeping(init);
    }
  }

  /** A rewritten record is clean. */
  lemma RewriteIsClean(e: Entry, k: string)
    requires Rewrite(e).Some?
    ensures !Dirty((k, Rewrite(e).value))
  {
    var h := NonEmptyHistory(e.1).value;
    DedupFacts(h);
    assert h[0].firstSeen in Stamps(h);
    assert Dedup(h) != [];
    assert NonEmptyHistory(Rewrite(e).value) == Some(Dedup(h));
  }

  /** After apply mode, every visited key holds a clean record. */
  lemma ApplyCleansVisited(data: map<string, Value>, entries: seq<Entry>, k: string)
    requires DistinctKeys(entries)
    requires forall i :: 0 <= i < |entries| ==> entries[i].0 in data
    requires k in data && (k, data[k]) in entries
    ensures !Dirty((k, Apply(data, entries)[k]))
  {
    var i :| 0 <= i < |entries| && entries[i] == (k, data[k]);
    if Rewrite(entries[i]).Some? {
      ApplyRewrites(data, entries);
      RewriteIsClean(entries[i], k);
    } else {
      RewriteIffDirty(entries[i]);
      forall j | 0 <= j < |entries| ensures entries[j].0 != k || Rewrite(entries[j]).None? {
        if j != i {
          assert entries[j].0 != entries[i].0;
        }
      }
      ApplyLeavesRest(data, entries, k);
    }
  }

  /** Running the repair a second time after apply mode finds nothing to do. */
  lemma SecondRunFindsNothing(keys: seq<string>, data: map<string, Value>)
    requires Distinct(keys) && forall k :: k in keys <==> k in data
    ensures var entries := WithPrefix(ListEntries(keys, data), ForecastPrefix);
      var data' := Apply(data, entries);
      var again := WithPrefix(ListEntries(keys, data'), ForecastPrefix);
      && Tally(again).cleaned == 0
      && Apply(data', again) == data'
  {
    var entries := WithPrefix(ListEntries(keys, data), ForecastPrefix);
    PrefixScanExact(keys, data, ForecastPrefix);
    forall i | 0 <= i < |entries| ensures entries[i].0 in data {
      assert entries[i] in entries;
    }
    var data' := Apply(data, entries);
    ApplyKeys(data, entries);
    var again := WithPrefix(ListEntries(keys, data'), ForecastPrefix);
    PrefixScanExact(keys, data', ForecastPrefix);
    forall j | 0 <= j < |again| ensures !Dirty(again[j]) {
      var k := again[j].0;
      assert again[j] in again;
      assert (k, data[k]) in entries;
      ApplyCleansVisited(data, entries, k);
    }
    CleanRecordsUntouched(data', again);
  }

  // ---------------------------------------------------------------------
  // The recorded corruption pattern
  // ---------------------------------------------------------------------

  function Amounts(h: seq<HistoryEntry>): seq<int>
  {
    seq(|h|, i requires 0 <= i < |h| => h[i].amount)
  }

  /** Two forecast pages written to the same key twelve minutes apart: each
      timestamp keeps its first entry. */
  lemma RepeatedDayNamesRepaired()
    ensures var t1 := "2026-02-10T12:05:19.062Z";
      var t2 := "2026-02-10T12:25:19.146Z";
      var t3 := "2026-02-10T15:45:19.288Z";
      var h := [HistoryEntry(t1, 6, Metres(1200)), HistoryEntry(t1, 2, Metres(800)),
                HistoryEntry(t2, 6, Metres(1200)), HistoryEntry(t2, 2, Metres(800)),
                HistoryEntry(t3, 3, Metres(800))];
      Dedup(h) == [h[0], h[2], h[4]] && Amounts(Dedup(h)) == [6, 6, 3]
  {
    var t1 := "2026-02-10T12:05:19.062Z";
    var t2 := "2026-02-10T12:25:19.146Z";
    var t3 := "2026-02-10T15:45:19.288Z";
    var e1, e2 := HistoryEntry(t1, 6, Metres(1200)), HistoryEntry(t1, 2, Metres(800));
    var e3, e4 := HistoryEntry(t2, 6, Metres(1200)), HistoryEntry(t2, 2, Metres(800));
    var e5 := HistoryEntry(t3, 3, Metres(800));
    assert t1 != t2 && t1 != t3 && t2 != t3;
    assert {} + {t1} == {t1} && {t1} + {t2} == {t1, t2};
    assert KeepFirst([e5], {t1, t2}) == [e5];
    assert KeepFirst([e4, e5], {t1, t2}) == [e5];
    assert KeepFirst([e3, e4, e5], {t1}) == [e3, e5];
    assert KeepFirst([e2, e3, e4, e5], {t1}) == [e3, e5];
    assert KeepFirst([e1, e2, e3, e4, e5], {}) == [e1, e3, e5];
  }

  /** The second corrupted record: the later of two entries sharing a
      timestamp is dropped. */
  lemma LaterDuplicateDropped()
    ensures var t1 := "2026-02-11T18:35:19.193Z";
      var t2 := "2026-02-11T22:45:19.417Z";
      var t3 := "2026-02-11T23:05:29.440Z";
      var h := [HistoryEntry(t1, 0, Metres(1200)), HistoryEntry(t2, 1, Metres(1200)),
                HistoryEntry(t2, 8, Metres(1300)), HistoryEntry(t3, 1, Metres(1200)),
                HistoryEntry(t3, 8, Metres(1300))];
      Dedup(h) == [h[0], h[1], h[3]] && Amounts(Dedup(h)) == [0, 1, 1]
  {
    var t1 := "2026-02-11T18:35:19.193Z";
    var t2 := "2026-02-11T22:45:19.417Z";
    var t3 := "2026-02-11T23:05:29.440Z";
    var e1, e2 := HistoryEntry(t1, 0, Metres(1200)), HistoryEntry(t2, 1, Metres(1200));
    var e3, e4 := HistoryEntry(t2, 8, Metres(1300)), HistoryEntry(t3, 1, Metres(1200));
    var e5 := HistoryEntry(t3, 8, Metres(1300));
    assert t1 != t2 && t1 != t3 && t2 != t3;
    assert {} + {t1} == {t1} && {t1} + {t2} == {t1, t2} && {t1, t2} + {t3} == {t1, t2, t3};
    assert KeepFirst([e5], {t1, t2, t3}) == [];
    assert KeepFirst([e4, e5], {t1, t2}) == [e4];
    assert KeepFirst([e3, e4, e5], {t1, t2}) == [e4];
    assert KeepFirst([e2, e3, e4, e5], {t1}) == [e2, e4];
    assert KeepFirst([e1, e2, e3, e4, e5], {}) == [e1, e2, e4];
  }

}
