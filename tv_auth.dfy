/** The TV-token endpoint (api/tv-auth.js): a four-character token, looked
    up without regard to letter case, names a user whose configuration
    document is returned. Nothing is written. */
module TvAuth {

  import opened Wrappers
  import opened Records
  import opened Storage
  import Text

  datatype Reply =
    | Preflight                          // 200, empty body
    | Served(doc: Json)                  // 200 with the user's document
    | Refused(status: nat, error: string)

  /** The store key of a token: `tvtoken:` and the token upper-cased. */
  function TokenKey(token: string): string
  {
    "tvtoken:" + Text.ToUpper(token)
  }

  /** `${userId}` for a stored (truthy) value. */
  function Interpolate(v: Value): string
  {
    match v
    case Str(s) => s
    case Null => "null"
    case _ => "[object Object]"
  }

  /** `!token || typeof token !== 'string' || token.length !== 4`, negated. */
  predicate WellFormedToken(token: Query)
  {
    token.One? && token.s != "" && |token.s| == 4
  }

  /** `handler`: guards, then the two lookups. */
  function Handle(httpMethod: string, token: Query, data: map<string, Value>): (r: Reply)
    ensures httpMethod == "OPTIONS" ==> r == Preflight
    ensures httpMethod != "OPTIONS" && httpMethod != "GET" ==> r == Refused(405, "Method not allowed")
    ensures httpMethod == "GET" && !WellFormedToken(token) ==> r == Refused(401, "Invalid token")
    ensures r.Served? <==>
      httpMethod == "GET" && WellFormedToken(token)
      && Read(data, TokenKey(token.s)).Some?
      && Read(data, "user:" + Interpolate(Read(data, TokenKey(token.s)).value)).Some?
    ensures r.Served? ==>
      r.doc == ValueToJson(Read(data, "user:" + Interpolate(Read(data, TokenKey(token.s)).value)).value)
    ensures httpMethod == "GET" && WellFormedToken(token) && Read(data, TokenKey(token.s)).None? ==>
      r == Refused(401, "Invalid token")
    ensures
      (&& httpMethod == "GET" && WellFormedToken(token) && Read(data, TokenKey(token.s)).Some?
       && Read(data, "user:" + Interpolate(Read(data, TokenKey(token.s)).value)).None?)
      ==> r == Refused(401, "User not found")
    ensures r.Refused? && r.error == "User not found" ==>
      WellFormedToken(token) && Read(data, TokenKey(token.s)).Some?
  {
    if httpMethod == "OPTIONS" then Preflight
    else if httpMethod != "GET" then Refused(405, "Method not allowed")
    else if !WellFormedToken(token) then Refused(401, "Invalid token")
    else
      var userId := Read(data, TokenKey(token.s));
      if userId.None? then Refused(401, "Invalid token")
      else
        var doc := Read(data, "user:" + Interpolate(userId.value));
        if doc.None? then Refused(401, "User not found")
        else Served(ValueToJson(doc.value))
  }

  /** Two tokens that differ only in the case of their letters get the same
      answer; in particular a token and its upper-case form do. */
  lemma CaseInsensitive(httpMethod: string, t1: string, t2: string, data: map<string, Value>)
    requires Text.ToUpper(t1) == Text.ToUpper(t2)
    ensures Handle(httpMethod, One(t1), data) == Handle(httpMethod, One(t2), data)
  {
    assert |t1| == |Text.ToUpper(t1)| == |t2|;
  }

  /** The upper-case form of a token is answered as the token is. */
  lemma UpperCaseTokenSame(httpMethod: string, t: string, data: map<string, Value>)
    ensures Handle(httpMethod, One(Text.ToUpper(t)), data) == Handle(httpMethod, One(t), data)
  {
    Text.ToUpperIdempotent(t);
    CaseInsensitive(httpMethod, Text.ToUpper(t), t, data);
  }
}
