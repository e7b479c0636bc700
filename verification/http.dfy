/**
 * Requests as plain descriptions (method, URL, headers, body) and responses
 * as an already-decoded status and body. The two response rules of the
 * client live here: `BodyIfOk` for authentication polling, `BodyAlways` for
 * every other call.
 */
module Http {
  import opened Wrappers
  import opened Dicts

  /** A decoded JSON value; objects keep their member order. */
  datatype Json =
    | JNull
    | JBool(b: bool)
    | JInt(n: int)
    | JString(s: string)
    | JArray(items: seq<Json>)
    | JObject(members: Dict<Json>)

  datatype Method = Get | Post

  datatype Body =
    | NoBody
    | Form(text: string)   // a form-encoded string sent as `data=`
    | JsonBody(value: Json) // a `json.dumps` payload, kept as its value

  datatype Request = Request(verb: Method, url: string, headers: Dict<string>, body: Body)

  datatype Response = Response(status: int, body: Json)

  const StatusOk: int := 200

  const ContentType: string := "Content-Type"
  const Accept: string := "Accept"
  const Authorization: string := "Authorization"
  const ApplicationJson: string := "application/json"
  const FormUrlEncoded: string := "application/x-www-form-urlencoded"

  /** The value of a request header. */
  function Header(req: Request, name: string): Option<string> {
    Lookup(req.headers, name)
  }

  /** The member of a JSON object, or `None` for a missing key or a non-object. */
  function Member(j: Json, key: string): Option<Json> {
    if j.JObject? then Lookup(j.members, key) else None
  }

  /** Check-and-null: the body for status 200, nothing otherwise. */
  function BodyIfOk(resp: Response): (r: Option<Json>)
    ensures r.Some? <==> resp.status == StatusOk
    ensures r.Some? ==> r.value == resp.body
  {
    if resp.status == StatusOk then Some(resp.body) else None
  }

  /** Propagate-raw: `response.json()` whatever the status. */
  function BodyAlways(resp: Response): Json {
    resp.body
  }

  /**
   * The two rules agree on status 200 and only there: the lenient rule
   * returns the same body for every status, and the strict rule is the
   * lenient one filtered by the status.
   */
  lemma ResponseRulesCompared(body: Json, status: int, other: int)
    ensures BodyAlways(Response(status, body)) == BodyAlways(Response(other, body)) == body
    ensures BodyIfOk(Response(status, body))
            == if status == StatusOk then Some(BodyAlways(Response(status, body))) else None
  {
  }

  /** A Python list of `str`, as JSON. */
  function StringArray(xs: seq<string>): (j: Json)
    ensures j.JArray? && |j.items| == |xs|
    ensures forall i :: 0 <= i < |xs| ==> j.items[i] == JString(xs[i])
  {
    JArray(seq(|xs|, i requires 0 <= i < |xs| => JString(xs[i])))
  }

  /** The strings of a JSON array whose every item is a string; `None` otherwise. */
  function Strings(j: Json): (r: Option<seq<string>>)
    ensures r.Some? ==> j.JArray? && |r.value| == |j.items|
  {
    if j.JArray? && forall i :: 0 <= i < |j.items| ==> j.items[i].JString? then
      Some(seq(|j.items|, i requires 0 <= i < |j.items| => j.items[i].s))
    else
      None
  }

  /** A list of strings is read back unchanged, in order. */
  lemma StringsOfStringArray(xs: seq<string>)
    ensures Strings(StringArray(xs)) == Some(xs)
  {
    var j := StringArray(xs);
    assert forall i :: 0 <= i < |j.items| ==> j.items[i].JString?;
    var r := seq(|j.items|, i requires 0 <= i < |j.items| => j.items[i].s);
    assert Strings(j) == Some(r);
    assert r == xs;
  }
}
