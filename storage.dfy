/** The local-file branch of the storage abstraction (api/lib/storage.js):
    one JSON object on disk, read and rewritten whole. The object is the
    pair `keys` (its property order, which is the order `Object.entries`
    visits) and `data` (its contents). */
module Storage {

  import opened Wrappers
  import opened Records

  /** One `[key, value]` pair of `Object.entries`. */
  type Entry = (string, Value)

  /** `data[key] || null`: an absent key and a stored falsy value both read as null. */
  function Read(data: map<string, Value>, key: string): (r: Option<Value>)
    ensures r.Some? <==> key in data && ValueTruthy(data[key])
    ensures r.Some? ==> r.value == data[key]
  {
    if key in data && ValueTruthy(data[key]) then Some(data[key]) else None
  }

  ghost predicate Distinct(keys: seq<string>)
  {
    forall i, j :: 0 <= i < j < |keys| ==> keys[i] != keys[j]
  }

  /** `Object.entries(data)` in property order. */
  function ListEntries(keys: seq<string>, data: map<string, Value>): (r: seq<Entry>)
    requires forall k :: k in keys ==> k in data
    ensures |r| == |keys|
    ensures forall i :: 0 <= i < |r| ==> r[i] == (keys[i], data[keys[i]])
  {
    seq(|keys|, i requires 0 <= i < |keys| => (keys[i], data[keys[i]]))
  }

  /** The entries whose key starts with `prefix`, in their original order. */
  function WithPrefix(entries: seq<Entry>, prefix: string): seq<Entry>
  {
    if entries == [] then []
    else
      var last := entries[|entries| - 1];
      WithPrefix(entries[..|entries| - 1], prefix) + (if prefix <= last.0 then [last] else [])
  }

  /** An entry survives the prefix filter exactly when its key has the prefix. */
  lemma {:induction false} WithPrefixMembers(entries: seq<Entry>, prefix: string)
    ensures forall e :: e in WithPrefix(entries, prefix) <==> e in entries && prefix <= e.0
  {
    if entries != [] {
      var init := entries[..|entries| - 1];
      WithPrefixMembers(init, prefix);
      assert entries == init + [entries[|entries| - 1]];
    }
  }

  /** No key occurs twice among the entries. */
  ghost predicate DistinctKeys(entries: seq<Entry>)
  {
    forall i, j :: 0 <= i < j < |entries| ==> entries[i].0 != entries[j].0
  }

  /** The prefix filter keeps a subsequence of the entries, so distinct keys
      stay distinct. */
  lemma {:induction false} WithPrefixDistinct(entries: seq<Entry>, prefix: string)
    requires DistinctKeys(entries)
    ensures DistinctKeys(WithPrefix(entries, prefix))
  {
    if entries != [] {
      var init := entries[..|entries| - 1];
      var last := entries[|entries| - 1];
      assert DistinctKeys(init);
      WithPrefixDistinct(init, prefix);
      WithPrefixMembers(init, prefix);
      var w := WithPrefix(init, prefix);
      assert forall e :: e in init ==> e.0 != last.0;
      var r := WithPrefix(entries, prefix);
      assert r == w + (if prefix <= last.0 then [last] else []);
      forall i, j | 0 <= i < j < |r| ensures r[i].0 != r[j].0 {
        if j < |w| {
          assert r[i] == w[i] && r[j] == w[j];
        } else {
          assert r[i] == w[i] && r[j] == last && w[i] in init;
        }
      }
    }
  }

  /** `getAllByPrefix(prefix)` returns exactly the stored keys that start with
      `prefix`, each paired with its stored value, each key once. */
  lemma PrefixScanExact(keys: seq<string>, data: map<string, Value>, prefix: string)
    requires Distinct(keys)
    requires forall k :: k in keys <==> k in data
    ensures var r := WithPrefix(ListEntries(keys, data), prefix);
      && (forall k, v :: (k, v) in r <==> k in data && prefix <= k && data[k] == v)
      && DistinctKeys(r)
  {
    var all := ListEntries(keys, data);
    assert DistinctKeys(all);
    WithPrefixMembers(all, prefix);
    WithPrefixDistinct(all, prefix);
    forall k, v | k in data && prefix <= k && data[k] == v ensures (k, v) in all {
      var i :| 0 <= i < |keys| && keys[i] == k;
      assert all[i] == (k, v);
    }
  }

  /** What `getWithMock` answers in local mode: the stored record, or a
      freshly generated mock record (whose random contents are not modelled). */
  datatype MockLookup = Stored(r: Option<Value>) | Generated

  /** `v.history.length` when `v.history` is a truthy array or string. */
  function HistoryLength(v: Value): Option<nat>
  {
    match v
    case Forecast(rec) => if rec.history.Some? then Some(|rec.history.value|) else None
    case Doc(f) =>
      if "history" in f then
        match f["history"]
        case JArr(items) => Some(|items|)
        case JStr(s) => if s != "" then Some(|s|) else None
        case _ => None
      else None
    case _ => None
  }

  class Store {
    var keys: seq<string>
    var data: map<string, Value>

    ghost predicate Valid()
      reads this
    {
      Distinct(keys) && (forall k :: k in keys <==> k in data)
    }

    /** The file written by `ensureLocalStorage`: `{}`. */
    constructor ()
      ensures Valid() && keys == [] && data == map[]
    {
      keys := [];
      data := map[];
    }

    /** `localGet`. */
    method Get(key: string) returns (r: Option<Value>)
      ensures r == Read(data, key)
    {
      if key in data && ValueTruthy(data[key]) {
        r := Some(data[key]);
      } else {
        r := None;
      }
    }

    /** `localSet`: replaces the value of `key`; a new key goes last. */
    method Set(key: string, value: Value)
      requires Valid()
      modifies this
      ensures Valid()
      ensures data == old(data)[key := value]
      ensures keys == if key in old(data) then old(keys) else old(keys) + [key]
    {
      if key !in data {
        keys := keys + [key];
      }
      data := data[key := value];
    }

    /** `localGetAll`. */
    method GetAll() returns (all: seq<Entry>)
      requires Valid()
      ensures all == ListEntries(keys, data)
    {
      all := ListEntries(keys, data);
    }

    /** `getAllByPrefix` in local mode: one pass over all entries. */
    method GetAllByPrefix(prefix: string) returns (results: seq<Entry>)
      requires Valid()
      ensures results == WithPrefix(ListEntries(keys, data), prefix)
      ensures forall k, v :: (k, v) in results <==> k in data && prefix <= k && data[k] == v
    {
      var all := GetAll();
      results := [];
      var i := 0;
      while i < |all|
        invariant 0 <= i <= |all|
        invariant results == WithPrefix(all[..i], prefix)
      {
        assert all[..i + 1][..i] == all[..i];
        if prefix <= all[i].0 {
          results := results + [all[i]];
        }
        i := i + 1;
      }
      assert all[..i] == all;
      PrefixScanExact(keys, data, prefix);
    }

    /** `localGetWithMock`: a stored record whose history has more than one
        entry is returned unchanged; otherwise a mock is generated when an
        amount and a date are given, and the stored value is returned when
        they are not. */
    method GetWithMock(key: string, currentAmount: Option<int>, date: Option<string>) returns (r: MockLookup)
      ensures var existing := Read(data, key);
        if existing.Some? && HistoryLength(existing.value).Some? && HistoryLength(existing.value).value > 1
        then r == Stored(existing)
        else r == (if currentAmount.Some? && date.Some? && date.value != "" then Generated else Stored(existing))
    {
      var existing := Get(key);
      if existing.Some? {
        var n := HistoryLength(existing.value);
        if n.Some? && n.value > 1 {
          return Stored(existing);
        }
      }
      if currentAmount.Some? && date.Some? && date.value != "" {
        return Generated;
      }
      return Stored(existing);
    }
  }

  /** After `set(k, v)`, `get(k)` returns `v` when `v` is truthy and null otherwise;
      every other key reads as before. */
  lemma ReadAfterSet(data: map<string, Value>, k: string, v: Value, other: string)
    requires other != k
    ensures Read(data[k := v], k) == if ValueTruthy(v) then Some(v) else None
    ensures Read(data[k := v], other) == Read(data, other)
  {
  }
}
