/** What the modelled code reads of an incoming request. The session and the
    parsed body are the results of collaborators (the session lookup and
    `req.json()`), given here as inputs. */
module Http {
  import opened Js
  import Json

  datatype Request = Request(
    pathname: string,
    /** Decoded query parameters, in order. */
    query: seq<(string, string)>,
    /** The `x-forwarded-for` header, if sent. */
    forwardedFor: Option<string>,
    /** `req.ip`, if the host reports one. */
    ip: Option<string>,
    /** The id of the signed-in user, if there is a session. */
    session: Option<string>,
    /** The parsed JSON body; None when the body is not JSON. */
    body: Option<Json.Value>)

  /** `searchParams.get(name)`: the first value given for `name`. */
  function QueryParam(query: seq<(string, string)>, name: string): (r: Option<string>)
    ensures r.None? <==> forall i :: 0 <= i < |query| ==> query[i].0 != name
    ensures r.Some? ==> exists i :: (0 <= i < |query| && query[i] == (name, r.value)
      && forall k :: 0 <= k < i ==> query[k].0 != name)
  {
    if query == [] then None
    else if query[0].0 == name then Some(query[0].1)
    else
      var r := QueryParam(query[1..], name);
      assert forall i :: 1 <= i < |query| ==> query[i] == query[1..][i - 1];
      if r.Some? then
        ghost var j :| 0 <= j < |query| - 1 && query[1..][j] == (name, r.value)
          && forall k :: 0 <= k < j ==> query[1..][k].0 != name;
        assert query[j + 1] == (name, r.value);
        r
      else r
  }
}
