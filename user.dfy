/** The per-user configuration endpoint (api/user.js): GET returns the
    user's document, creating the default one on first use; PUT validates
    the body and shallow-merges it into the stored document, keeping the
    original creation time. Authentication is a parameter (the user id, or
    none when the bearer token was refused); the clock is the parameter
    `now`. */
module User {

  import opened Wrappers
  import opened Records
  import opened Storage

  datatype Reply =
    | Preflight                          // 200, empty body
    | Served(doc: Json)                  // 200 with a document
    | Failed(status: nat, error: string)
    | Crashed                            // an exception escapes the handler

  /** The store key of a user's document. */
  function UserKey(userId: string): string
  {
    "user:" + userId
  }

  /** The document a first GET creates. */
  function DefaultDoc(now: string): map<string, Json>
  {
    map["playlist" := PlaylistToJson(DefaultVideos), "createdAt" := JStr(now), "updatedAt" := JStr(now)]
  }

  // ---------------------------------------------------------------------
  // PUT validation
  // ---------------------------------------------------------------------

  /** The outcome of the checks on a PUT body. */
  datatype Verdict = Accept | Reject(error: string) | Throws

  const InvalidBody := "Invalid request body"
  const InvalidPlaylist := "Playlist must be an array with max 50 items"
  const InvalidItem := "Each playlist item must have id and title strings"
  const MaxPlaylist := 50

  /** A property that is a non-empty string. */
  predicate NonEmptyString(p: Option<Json>)
  {
    p.Some? && p.value.JStr? && p.value.s != ""
  }

  /** An item passes `item.id && typeof item.id === 'string' && item.title
      && typeof item.title === 'string'`. */
  predicate ValidItem(item: Json)
  {
    NonEmptyString(Prop(item, "id")) && NonEmptyString(Prop(item, "title"))
  }

  /** The item loop, front to back: a null item throws when its `id` is
      read, any other invalid item is rejected. */
  function ScanItems(items: seq<Json>): Verdict
  {
    if items == [] then Accept
    else if items[0] == JNull then Throws
    else if !ValidItem(items[0]) then Reject(InvalidItem)
    else ScanItems(items[1..])
  }

  /** The loop accepts exactly the lists whose items are all valid, and
      otherwise stops at the first invalid one. */
  lemma {:induction false} ScanItemsMeaning(items: seq<Json>)
    ensures ScanItems(items) == Accept <==> forall i :: 0 <= i < |items| ==> ValidItem(items[i])
    ensures ScanItems(items) == Throws <==>
      exists i :: 0 <= i < |items| && items[i] == JNull && forall j :: 0 <= j < i ==> ValidItem(items[j])
    ensures ScanItems(items) != Accept ==> ScanItems(items) == Throws || ScanItems(items) == Reject(InvalidItem)
  {
    if items != [] {
      ScanItemsMeaning(items[1..]);
      if items[0] != JNull && ValidItem(items[0]) {
        if ScanItems(items) == Throws {
          var i :| 0 <= i < |items[1..]| && items[1..][i] == JNull
            && forall j :: 0 <= j < i ==> ValidItem(items[1..][j]);
          assert items[i + 1] == JNull;
          assert forall j :: 0 <= j < i + 1 ==> ValidItem(items[j]) by {
            forall j | 0 <= j < i + 1 ensures ValidItem(items[j]) {
              if j > 0 { assert items[j] == items[1..][j - 1]; }
            }
          }
        } else {
          forall i | 0 <= i < |items| && items[i] == JNull
            ensures !(forall j :: 0 <= j < i ==> ValidItem(items[j]))
          {
            assert i > 0 && items[1..][i - 1] == JNull;
            var j :| 0 <= j < i - 1 && !ValidItem(items[1..][j]);
            assert items[j + 1] == items[1..][j];
          }
        }
        forall i | 0 <= i < |items| - 1 ensures items[1..][i] == items[i + 1] { }
      } else if items[0] != JNull {
        assert !ValidItem(items[0]);
        forall i | 0 <= i < |items| && items[i] == JNull
          ensures !(forall j :: 0 <= j < i ==> ValidItem(items[j]))
        {
          assert i > 0 && !ValidItem(items[0]);
        }
      } else {
        assert !ValidItem(items[0]);
      }
    }
  }

  /** `for (const item of body.playlist)` with its early return. */
  method CheckItems(items: seq<Json>) returns (v: Verdict)
    ensures v == ScanItems(items)
  {
    var i := 0;
    while i < |items|
      invariant 0 <= i <= |items|
      invariant ScanItems(items) == ScanItems(items[i..])
    {
      assert items[i..][1..] == items[i + 1..];
      var item := items[i];
      if item == JNull {
        return Throws;
      }
      if !ValidItem(item) {
        return Reject(InvalidItem);
      }
      i := i + 1;
    }
    return Accept;
  }

  /** The checks on a PUT body; `None` is a missing body. */
  function Validate(body: Option<Json>): (v: Verdict)
    ensures v == Accept <==>
      body.Some? && IsObjectLike(body.value)
      && (var p := Prop(body.value, "playlist");
          p.None? || (p.value.JArr? && |p.value.items| <= MaxPlaylist
                      && forall i :: 0 <= i < |p.value.items| ==> ValidItem(p.value.items[i])))
    ensures v.Reject? ==> v.error in {InvalidBody, InvalidPlaylist, InvalidItem}
    ensures body.None? || !IsObjectLike(body.value) ==> v == Reject(InvalidBody)
  {
    if body.None? || !Truthy(body.value) || !IsObjectLike(body.value) then Reject(InvalidBody)
    else
      var p := Prop(body.value, "playlist");
      if p.None? then Accept
      else if !p.value.JArr? || |p.value.items| > MaxPlaylist then Reject(InvalidPlaylist)
      else (ScanItemsMeaning(p.value.items); ScanItems(p.value.items))
  }

  // ---------------------------------------------------------------------
  // PUT merge
  // ---------------------------------------------------------------------

  /** `{ ...existing }`: nothing for a missing document. */
  function Existing(existing: Option<Value>): map<string, Json>
  {
    if existing.Some? then Spread(ValueToJson(existing.value)) else map[]
  }

  /** `existing?.createdAt || now`. */
  function CreatedAt(existing: Option<Value>, now: string): Json
  {
    var c := if existing.Some? then Prop(ValueToJson(existing.value), "createdAt") else None;
    if c.Some? && Truthy(c.value) then c.value else JStr(now)
  }

  /** The stored document after a PUT: defaults, overridden by the existing
      document, overridden by the body; then `updatedAt` is the time of the
      request and `createdAt` is put back to the existing value. */
  function Merged(existing: Option<Value>, body: Json, now: string): (r: map<string, Json>)
    ensures forall k :: k in r <==>
      k in Spread(body) || k in Existing(existing) || k in {"playlist", "createdAt", "updatedAt"}
    ensures r["updatedAt"] == JStr(now)
    ensures r["createdAt"] == CreatedAt(existing, now)
    ensures forall k :: k in r && k != "createdAt" && k != "updatedAt" ==>
      r[k] == if k in Spread(body) then Spread(body)[k]
              else if k in Existing(existing) then Existing(existing)[k]
              else PlaylistToJson(DefaultVideos)
  {
    var defaults := map["playlist" := PlaylistToJson(DefaultVideos), "createdAt" := JStr(now)];
    var updated := (defaults + Existing(existing) + Spread(body))["updatedAt" := JStr(now)];
    updated["createdAt" := CreatedAt(existing, now)]
  }

  /** The body has no say over `createdAt`. */
  lemma CreatedAtNotFromBody(existing: Option<Value>, b1: Json, b2: Json, now: string)
    ensures Merged(existing, b1, now)["createdAt"] == Merged(existing, b2, now)["createdAt"]
  {
  }

  /** Merging a body into a document that already holds the body's
      properties and a truthy `createdAt` only moves `updatedAt`. */
  lemma MergeOverMerged(existing: Option<Value>, body: Json, m: map<string, Json>, now: string)
    requires Existing(existing) == m
    requires "playlist" in m && "createdAt" in m && "updatedAt" in m
    requires CreatedAt(existing, now) == m["createdAt"]
    requires forall k :: k in Spread(body) ==> k in m
    requires forall k :: k in Spread(body) && k != "createdAt" && k != "updatedAt" ==> m[k] == Spread(body)[k]
    ensures Merged(existing, body, now) == m["updatedAt" := JStr(now)]
  {
    var r := Merged(existing, body, now);
    var expected := m["updatedAt" := JStr(now)];
    assert r.Keys == expected.Keys;
    forall k | k in r ensures r[k] == expected[k] { }
  }

  /** Sending the same PUT again changes only `updatedAt`: in particular
      `createdAt` survives every later PUT. */
  lemma RepeatedPutOnlyTouchesUpdatedAt(existing: Option<Value>, body: Json, t1: string, t2: string)
    requires t1 != ""
    ensures Merged(Some(Doc(Merged(existing, body, t1))), body, t2)
         == Merged(existing, body, t1)["updatedAt" := JStr(t2)]
  {
    var m1 := Merged(existing, body, t1);
    var e := Some(Doc(m1));
    assert Existing(e) == m1;
    assert Truthy(m1["createdAt"]) by {
      var c := if existing.Some? then Prop(ValueToJson(existing.value), "createdAt") else None;
      assert m1["createdAt"] == if c.Some? && Truthy(c.value) then c.value else JStr(t1);
    }
    assert CreatedAt(e, t2) == m1["createdAt"];
    MergeOverMerged(e, body, m1, t2);
  }

  // ---------------------------------------------------------------------
  // The endpoint
  // ---------------------------------------------------------------------

  /** `handler` over the local store. */
  method Handler(store: Store, httpMethod: string, auth: Option<string>, body: Option<Json>, now: string)
    returns (reply: Reply)
    requires store.Valid()
    modifies store
    ensures store.Valid()
    ensures httpMethod == "OPTIONS" ==> reply == Preflight && unchanged(store)
    ensures httpMethod != "OPTIONS" && auth.None? ==> reply == Failed(401, "Unauthorized") && unchanged(store)
    ensures httpMethod == "GET" && auth.Some? ==>
      var key := UserKey(auth.value);
      var e := Read(old(store.data), key);
      if e.Some? then reply == Served(ValueToJson(e.value)) && unchanged(store)
      else reply == Served(JObj(DefaultDoc(now))) && store.data == old(store.data)[key := Doc(DefaultDoc(now))]
    ensures httpMethod == "PUT" && auth.Some? ==>
      var key := UserKey(auth.value);
      var v := Validate(body);
      (v.Reject? ==> reply == Failed(400, v.error) && unchanged(store))
      && (v.Throws? ==> reply == Crashed && unchanged(store))
      && (v.Accept? ==>
            var m := Merged(Read(old(store.data), key), body.value, now);
            reply == Served(JObj(m)) && store.data == old(store.data)[key := Doc(m)])
    ensures httpMethod !in {"OPTIONS", "GET", "PUT"} && auth.Some? ==>
      reply == Failed(405, "Method not allowed") && unchanged(store)
  {
    if httpMethod == "OPTIONS" {
      return Preflight;
    }
    if auth.None? {
      return Failed(401, "Unauthorized");
    }
    var key := UserKey(auth.value);
    if httpMethod == "GET" {
      var data := store.Get(key);
      if data.None? {
        var doc := DefaultDoc(now);
        store.Set(key, Doc(doc));
        return Served(JObj(doc));
      }
      return Served(ValueToJson(data.value));
    }
    if httpMethod == "PUT" {
      if body.None? || !Truthy(body.value) || !IsObjectLike(body.value) {
        return Failed(400, InvalidBody);
      }
      var playlist := Prop(body.value, "playlist");
      if playlist.Some? {
        if !playlist.value.JArr? || |playlist.value.items| > MaxPlaylist {
          return Failed(400, InvalidPlaylist);
        }
        var itemsVerdict := CheckItems(playlist.value.items);
        ScanItemsMeaning(playlist.value.items);
        if itemsVerdict == Throws {
          return Crashed;
        }
        if itemsVerdict.Reject? {
          return Failed(400, InvalidItem);
        }
      }
      var existing := store.Get(key);
      var updated := Merged(existing, body.value, now);
      store.Set(key, Doc(updated));
      return Served(JObj(updated));
    }
    return Failed(405, "Method not allowed");
  }
}
