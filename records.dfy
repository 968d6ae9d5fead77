/** The values the key-value store holds and the JSON documents the HTTP
    handlers exchange. */
module Records {

  import opened Wrappers
  import Text

  /** A JSON document. Numbers are integers: every number the core compares
      or computes with (amounts, levels, years, counters) is whole. */
  datatype Json =
    | JNull
    | JBool(b: bool)
    | JNum(n: int)
    | JStr(s: string)
    | JArr(items: seq<Json>)
    | JObj(fields: map<string, Json>)

  /** JavaScript truthiness of a JSON value. */
  predicate Truthy(j: Json)
  {
    match j
    case JNull => false
    case JBool(b) => b
    case JNum(n) => n != 0
    case JStr(s) => s != ""
    case _ => true
  }

  /** `typeof j === 'object'` for a value that is not null. */
  predicate IsObjectLike(j: Json) { j.JObj? || j.JArr? }

  /** Reading property `name` of a value: `None` is `undefined`. Only objects
      carry named properties in the places the code reads them. */
  function Prop(j: Json, name: string): Option<Json>
  {
    if j.JObj? && name in j.fields then Some(j.fields[name]) else None
  }

  /** The own enumerable properties that `{...j}` copies: an object's fields,
      an array's or a string's elements under their decimal indices, and
      nothing for null, booleans and numbers. */
  function Spread(j: Json): map<string, Json>
  {
    Text.NatToStringInjective();
    match j
    case JObj(f) => f
    case JArr(items) => map i | 0 <= i < |items| :: Text.NatToString(i) := items[i]
    case JStr(s) => map i | 0 <= i < |s| :: Text.NatToString(i) := JStr([s[i]])
    case _ => map[]
  }

  /** One query-string parameter: absent, given once, or repeated (which
      Node's query parser delivers as an array). */
  datatype Query = Missing | One(s: string) | Many(values: seq<string>)

  /** A forecast's freezing level: metres, the phrase 'valley bottom', or null. */
  datatype FreezingLevel = Metres(m: int) | ValleyBottom | NoLevel

  /** One timestamped observation of a forecast. */
  datatype HistoryEntry = HistoryEntry(firstSeen: string, amount: int, freezingLevel: FreezingLevel)

  /** A stored `forecast:` record; a missing or null `history` is `None`. */
  datatype ForecastRecord = ForecastRecord(
    date: string,
    key: string,
    dayNameAtCreation: Option<string>,
    history: Option<seq<HistoryEntry>>)

  /** One playlist item. */
  datatype Video = Video(id: string, title: string)

  /** The four-video list that app.js, tv.js and api/user.js each declare as
      their default playlist. */
  const DefaultVideos: seq<Video> := [
    Video("spJ5dqXi6ro", "Big mountain"),
    Video("BsbMhTEoQiM", "Famillia Fernie 2010"),
    Video("TPND631Dh-I", "Famillia Spring Break 2010"),
    Video("IRwZN2JvtYc", "Famillia Heli NZ 2013")]

  /** A value held under one key of the store: a JSON null, a string (a TV
      token maps to a user id), a forecast record, or a JSON object
      (a user's configuration document). */
  datatype Value =
    | Null
    | Str(s: string)
    | Forecast(rec: ForecastRecord)
    | Doc(fields: map<string, Json>)

  /** JavaScript truthiness of a stored value. */
  predicate ValueTruthy(v: Value)
  {
    match v
    case Null => false
    case Str(s) => s != ""
    case _ => true
  }

  /** The history that the guard `!record || !record.history ||
      record.history.length === 0` lets through, or `None` when it skips. */
  function NonEmptyHistory(v: Value): (r: Option<seq<HistoryEntry>>)
    ensures r.Some? ==> |r.value| > 0 && v.Forecast? && v.rec.history == r
  {
    if v.Forecast? && v.rec.history.Some? && |v.rec.history.value| > 0 then v.rec.history else None
  }

  function LevelToJson(f: FreezingLevel): Json
  {
    match f
    case Metres(m) => JNum(m)
    case ValleyBottom => JStr("valley bottom")
    case NoLevel => JNull
  }

  function EntryToJson(e: HistoryEntry): Json
  {
    JObj(map["firstSeen" := JStr(e.firstSeen), "amount" := JNum(e.amount),
             "freezingLevel" := LevelToJson(e.freezingLevel)])
  }

  function VideoToJson(v: Video): Json
  {
    JObj(map["id" := JStr(v.id), "title" := JStr(v.title)])
  }

  function PlaylistToJson(p: seq<Video>): Json
  {
    JArr(seq(|p|, i requires 0 <= i < |p| => VideoToJson(p[i])))
  }

  function RecordToJson(r: ForecastRecord): Json
  {
    var base := map["date" := JStr(r.date), "key" := JStr(r.key)];
    var withDay := if r.dayNameAtCreation.Some? then base["dayNameAtCreation" := JStr(r.dayNameAtCreation.value)] else base;
    JObj(if r.history.Some?
         then withDay["history" := JArr(seq(|r.history.value|, i requires 0 <= i < |r.history.value| => EntryToJson(r.history.value[i])))]
         else withDay)
  }

  /** The JSON form in which a stored value travels in a response body. */
  function ValueToJson(v: Value): Json
  {
    match v
    case Null => JNull
    case Str(s) => JStr(s)
    case Forecast(r) => RecordToJson(r)
    case Doc(f) => JObj(f)
  }
}
