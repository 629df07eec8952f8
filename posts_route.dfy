/** The posts API: the list query GET builds from the query string (the
    capped limit, the optional filters and the escaped search pattern), the
    record POST builds from a sanitized and validated body, and the two
    handlers behind the shared limiter (30 per minute for GET, 10 for POST).
    The database is not modelled: GET yields the query it would run, POST the
    row it would insert. */
module PostsRoute {
  import opened Js
  import opened Json
  import opened Http
  import Sanitize
  import Validators
  import RateLimiter

  const MaxLimit: int := 50
  const GetLimit: int := 30
  const PostLimit: int := 10
  const Window: int := 60000

  // ---------------------------------------------------------------------
  // GET: the list query

  /** `Math.min(parseInt(param || '10'), 50)`. */
  function SafeLimit(param: Option<string>): (r: JsNumber)
    ensures r.Num? ==> r.value <= MaxLimit
  {
    var raw := if param.None? || param.value == [] then "10" else param.value;
    Min(ParseInt(raw), MaxLimit)
  }

  /** Without a usable `limit` parameter the query asks for ten posts. */
  lemma SafeLimitDefault(param: Option<string>)
    requires param.None? || param == Some([])
    ensures SafeLimit(param) == Num(10)
  {
    assert ParseInt("10") == Num(10) by { ParseIntOfIntToString(10); assert IntToString(10) == "10"; }
  }

  /** A numeric `limit` is taken as given up to 50 and capped at 50 above
      it; negative values are not raised. */
  lemma SafeLimitOfNumber(n: int)
    ensures SafeLimit(Some(IntToString(n))) == Num(if n <= MaxLimit then n else MaxLimit)
  {
    ParseIntOfIntToString(n);
  }

  /** The cap does not catch a non-numeric `limit`: a non-empty parameter
      without a single digit in it stays NaN. */
  lemma SafeLimitNotANumber(param: string)
    requires param != []
    requires forall i :: 0 <= i < |param| ==> !IsDecimalDigit(param[i])
    ensures SafeLimit(Some(param)) == NaN
  {
    ParseIntDigitFree(param);
  }

  predicate IsLikeWildcard(c: char) {
    c == '%' || c == '_'
  }

  /** `search.replace(/[%_]/g, '\\$&')`: a backslash before every `%` and `_`. */
  function SafeSearch(s: string): (r: string)
    ensures |r| >= |s|
  {
    if s == [] then []
    else (if IsLikeWildcard(s[0]) then ['\\', s[0]] else [s[0]]) + SafeSearch(s[1..])
  }

  /** Inverse of `SafeSearch`: drops the backslash in front of `%` or `_`. */
  function UnescapeSearch(t: string): string {
    if t == [] then []
    else if |t| >= 2 && t[0] == '\\' && IsLikeWildcard(t[1]) then [t[1]] + UnescapeSearch(t[2..])
    else [t[0]] + UnescapeSearch(t[1..])
  }

  lemma {:induction false} SafeSearchConcat(a: string, b: string)
    ensures SafeSearch(a + b) == SafeSearch(a) + SafeSearch(b)
  {
    if a == [] {
      assert a + b == b;
    } else {
      assert (a + b)[0] == a[0] && (a + b)[1..] == a[1..] + b;
      SafeSearchConcat(a[1..], b);
    }
  }

  predicate WildcardsEscaped(r: string) {
    forall i :: 0 <= i < |r| && IsLikeWildcard(r[i]) ==> i > 0 && r[i - 1] == '\\'
  }

  /** Every `%` and `_` of the escaped search is preceded by a backslash. */
  lemma {:induction false} SafeSearchGuarded(s: string)
    ensures WildcardsEscaped(SafeSearch(s))
  {
    if s != [] {
      SafeSearchGuarded(s[1..]);
      var head := if IsLikeWildcard(s[0]) then ['\\', s[0]] else [s[0]];
      var tail := SafeSearch(s[1..]);
      var r := SafeSearch(s);
      assert r == head + tail;
      forall i | 0 <= i < |r| && IsLikeWildcard(r[i]) ensures i > 0 && r[i - 1] == '\\' {
        if i >= |head| {
          assert r[i] == tail[i - |head|];
          if i > |head| {
            assert r[i - 1] == tail[i - |head| - 1];
          }
        } else {
          assert r[i] == head[i];
        }
      }
    }
  }

  /** No character is lost or altered: the escaping is undone exactly. */
  lemma {:induction false} SafeSearchReversible(s: string)
    ensures UnescapeSearch(SafeSearch(s)) == s
  {
    if s != [] {
      var r := SafeSearch(s);
      SafeSearchReversible(s[1..]);
      if IsLikeWildcard(s[0]) {
        assert r[0] == '\\' && r[1] == s[0] && r[2..] == SafeSearch(s[1..]);
      } else {
        assert r[0] == s[0] && r[1..] == SafeSearch(s[1..]);
        assert !(|r| >= 2 && r[0] == '\\' && IsLikeWildcard(r[1])) by {
          if s[0] == '\\' && |r| >= 2 {
            assert r[1..] == SafeSearch(s[1..]);
            assert s[1..] != [];
            assert r[1] == (if IsLikeWildcard(s[1]) then '\\' else s[1]);
          }
        }
      }
    }
  }

  /** Text without `%` or `_` is left as it is; in particular a backslash in
      the search is not escaped. */
  lemma {:induction false} SafeSearchIdentity(s: string)
    requires forall i :: 0 <= i < |s| ==> !IsLikeWildcard(s[i])
    ensures SafeSearch(s) == s
  {
    if s != [] {
      SafeSearchIdentity(s[1..]);
    }
  }

  /** A backslash typed in front of `%` stays in front of the inserted one,
      wherever it occurs in the search. */
  lemma SafeSearchKeepsBackslash(a: string, b: string)
    ensures SafeSearch("\\%") == "\\\\%"
    ensures SafeSearch(a + "\\%" + b) == SafeSearch(a) + "\\\\%" + SafeSearch(b)
  {
    assert SafeSearch("%") == "\\%";
    SafeSearchConcat(a, "\\%");
    SafeSearchConcat(a + "\\%", b);
  }

  /** The PostgREST `or` filter over title and description. */
  function SearchFilter(search: string): string {
    var p := SafeSearch(search);
    "title.ilike.%" + p + "%,description.ilike.%" + p + "%"
  }

  /** Different searches give different filters: the search can be read back. */
  lemma SearchFilterInjective(a: string, b: string)
    requires SearchFilter(a) == SearchFilter(b)
    ensures a == b
  {
    var pa, pb := SafeSearch(a), SafeSearch(b);
    var prefix := "title.ilike.%";
    var fa := prefix + pa + "%,description.ilike.%" + pa + "%";
    var fb := prefix + pb + "%,description.ilike.%" + pb + "%";
    assert |fa| == 2 * |pa| + |prefix| + 22;
    assert |fb| == 2 * |pb| + |prefix| + 22;
    assert |pa| == |pb|;
    assert fa == prefix + pa + ("%,description.ilike.%" + pa + "%");
    assert fb == prefix + pb + ("%,description.ilike.%" + pb + "%");
    SliceOfConcat(prefix, pa, "%,description.ilike.%" + pa + "%");
    SliceOfConcat(prefix, pb, "%,description.ilike.%" + pb + "%");
    SafeSearchReversible(a);
    SafeSearchReversible(b);
  }

  lemma SliceOfConcat(x: string, p: string, y: string)
    ensures (x + p + y)[|x|..|x| + |p|] == p
  {
  }

  /** A query parameter that `if (param)` accepts: present and non-empty. */
  function NonEmpty(param: Option<string>): (r: Option<string>)
    ensures forall s :: r == Some(s) <==> param == Some(s) && s != []
  {
    if param.Some? && param.value != [] then param else None
  }

  /** The query GET runs: newest first, at most `limit` rows, and the
      filters that were given. */
  datatype PostQuery = PostQuery(
    limit: JsNumber,
    status: Option<string>,
    playType: Option<string>,
    orFilter: Option<string>)

  function ListQuery(req: Request): PostQuery {
    var search := QueryParam(req.query, "search");
    PostQuery(
      SafeLimit(QueryParam(req.query, "limit")),
      NonEmpty(QueryParam(req.query, "status")),
      NonEmpty(QueryParam(req.query, "play_type")),
      if search.Some? && search.value != [] then Some(SearchFilter(search.value)) else None)
  }

  /** The filters of the list query: `status` and `play_type` only when given
      non-empty, the search only for a non-empty `search`, with its wildcards
      neutralised, and never more than 50 rows. */
  lemma ListQueryFilters(req: Request)
    ensures var q := ListQuery(req);
      && (q.limit.Num? ==> q.limit.value <= MaxLimit)
      && (forall s :: q.status == Some(s) <==> QueryParam(req.query, "status") == Some(s) && s != [])
      && (forall s :: q.playType == Some(s) <==> QueryParam(req.query, "play_type") == Some(s) && s != [])
      && (q.orFilter.Some? <==> exists s :: QueryParam(req.query, "search") == Some(s) && s != [])
      && (forall s :: QueryParam(req.query, "search") == Some(s) && s != [] ==> q.orFilter == Some(SearchFilter(s)))
  {
  }

  // ---------------------------------------------------------------------
  // POST: the record to insert

  /** The `postData` row. An absent `game_id` or `description` is None. */
  datatype PostRecord = PostRecord(
    userId: string,
    gameId: Option<string>,
    title: string,
    playType: string,
    meetingDate: string,
    meetingTime: string,
    locationType: string,
    prefecture: Option<string>,
    city: Option<string>,
    railway: Option<string>,
    station: Option<string>,
    participantLimit: JsNumber,
    description: Option<string>,
    status: string)

  function BuildPostData(userId: string, f: Validators.PostForm): PostRecord {
    PostRecord(
      userId, f.gameId, f.title, f.playType, f.date, f.time, f.locationTab,
      if f.locationTab == "address" then f.prefecture else None,
      if f.locationTab == "address" then f.city else None,
      if f.locationTab == "station" then f.railway else None,
      if f.locationTab == "station" then f.station else None,
      ParseInt(f.participants),
      if Validators.Filled(f.description) then f.description else None,
      "open")
  }

  /** A record built from a valid form is open, keeps the location pair of
      its tab as sent (both filled) and nulls the other, stores an empty
      description as null and a filled one as sent, and copies the title,
      game id, play type, date, time and tab unchanged. */
  lemma BuildPostDataShape(userId: string, f: Validators.PostForm)
    requires Validators.PostFormValid(f)
    ensures var rec := BuildPostData(userId, f);
      && rec.status == "open"
      && rec.userId == userId
      && rec.participantLimit == ParseInt(f.participants)
      && (rec.locationType == "address" ==>
            Validators.Filled(rec.prefecture) && Validators.Filled(rec.city) && rec.railway.None? && rec.station.None?)
      && (rec.locationType == "station" ==>
            rec.prefecture.None? && rec.city.None? && Validators.Filled(rec.railway) && Validators.Filled(rec.station))
      && (rec.locationType == "address" || rec.locationType == "station")
      && (f.locationTab == "address" ==> rec.prefecture == f.prefecture && rec.city == f.city)
      && (f.locationTab == "station" ==> rec.railway == f.railway && rec.station == f.station)
      && (rec.description.None? <==> f.description.None? || f.description == Some([]))
      && (Validators.Filled(f.description) ==> rec.description == f.description)
      && rec.title == f.title && rec.gameId == f.gameId && rec.playType == f.playType
      && rec.meetingDate == f.date && rec.meetingTime == f.time && rec.locationType == f.locationTab
  {
    Validators.PostLocationIff(f);
  }

  /** The schema asks only for a non-empty number of participants, so a
      participants value without digits passes the participants rule and then
      inserts a NaN limit. */
  lemma ParticipantLimitMayBeNaN(userId: string, f: Validators.PostForm)
    requires f.participants != []
    requires forall i :: 0 <= i < |f.participants| ==> !IsDecimalDigit(f.participants[i])
    ensures |f.participants| >= 1
    ensures BuildPostData(userId, f).participantLimit == NaN
  {
    ParseIntDigitFree(f.participants);
  }

  /** What the POST handler answers (the insert itself is not modelled). */
  datatype PostResponse =
    | Unauthenticated            // 401 "Authentication required"
    | InternalError              // 500: the body is not JSON
    | ValidationFailed           // 400 "Validation failed"
    | Insert(record: PostRecord) // the row sent to the database

  /** The POST handler: the session first, then the body, then
      `sanitizeObject`, then the schema on the sanitized body. */
  function CreatePost(req: Request): PostResponse {
    if req.session.None? then Unauthenticated
    else if req.body.None? then InternalError
    else
      var parsed := Validators.ParsePostForm(Sanitize.SanitizeObject(req.body.value));
      if parsed.None? then ValidationFailed
      else Insert(BuildPostData(req.session.value, parsed.value))
  }

  /** Without a session nothing is parsed or inserted, whatever the body. */
  lemma CreatePostNeedsSession(req: Request)
    ensures CreatePost(req) == Unauthenticated <==> req.session.None?
  {
  }

  lemma CleanLookup(fs: seq<Field>, key: string, s: string)
    requires Sanitize.Clean(Object(fs))
    requires Json.Get(fs, key) == Some(Str(s))
    ensures Sanitize.NoMarkup(s)
  {
    var i :| 0 <= i < |fs| && fs[i] == Field(key, Str(s));
    assert Sanitize.Clean(fs[i].value);
  }

  /** Whatever body was sent, an inserted row is open, belongs to the
      session's user, and none of its free-text fields holds `<`, `>`, `"`
      or `'`. */
  lemma CreatePostInsertsClean(req: Request)
    requires CreatePost(req).Insert?
    ensures var rec := CreatePost(req).record;
      && rec.status == "open"
      && req.session == Some(rec.userId)
      && Sanitize.NoMarkup(rec.title)
      && (rec.description.Some? ==> Sanitize.NoMarkup(rec.description.value))
      && (rec.prefecture.Some? ==> Sanitize.NoMarkup(rec.prefecture.value))
      && (rec.city.Some? ==> Sanitize.NoMarkup(rec.city.value))
      && (rec.railway.Some? ==> Sanitize.NoMarkup(rec.railway.value))
      && (rec.station.Some? ==> Sanitize.NoMarkup(rec.station.value))
  {
    var sanitized := Sanitize.SanitizeObject(req.body.value);
    Sanitize.SanitizeObjectClean(req.body.value);
    var fs := sanitized.fields;
    var f := Validators.ParsePostForm(sanitized).value;
    assert Validators.PostFormShape(sanitized) == Some(f);
    CleanLookup(fs, "title", f.title);
    if f.description.Some? { CleanLookup(fs, "description", f.description.value); }
    if f.prefecture.Some? { CleanLookup(fs, "prefecture", f.prefecture.value); }
    if f.city.Some? { CleanLookup(fs, "city", f.city.value); }
    if f.railway.Some? { CleanLookup(fs, "railway", f.railway.value); }
    if f.station.Some? { CleanLookup(fs, "station", f.station.value); }
  }

  // ---------------------------------------------------------------------
  // The schema sees the escaped text

  function MapOption(s: Option<string>, g: string -> string): Option<string> {
    if s.Some? then Some(g(s.value)) else None
  }

  /** The form with `g` applied to every string. */
  function MapForm(f: Validators.PostForm, g: string -> string): Validators.PostForm {
    Validators.PostForm(
      g(f.gameTitle), g(f.gamePlatform), g(f.title), g(f.playType), g(f.date), g(f.time),
      g(f.locationTab), MapOption(f.prefecture, g), MapOption(f.city, g),
      MapOption(f.railway, g), MapOption(f.station, g), g(f.participants),
      MapOption(f.description, g), MapOption(f.gameId, g))
  }

  /** The form as `sanitizeObject` leaves it: every string escaped. */
  function SanitizeForm(f: Validators.PostForm): Validators.PostForm {
    MapForm(f, Sanitize.SanitizeText)
  }

  function MapValues(vals: seq<Option<string>>, g: string -> string): (r: seq<Option<string>>)
    ensures |r| == |vals|
    ensures forall i :: 0 <= i < |vals| ==> r[i] == MapOption(vals[i], g)
  {
    seq(|vals|, i requires 0 <= i < |vals| => MapOption(vals[i], g))
  }

  /** The fields of a sanitized object of strings. */
  function SanitizeFields(fs: seq<Field>): (r: seq<Field>)
  {
    if fs == [] then []
    else
      var v := if fs[0].value.Str? then Str(Sanitize.SanitizeText(fs[0].value.s)) else fs[0].value;
      [Field(fs[0].key, v)] + SanitizeFields(fs[1..])
  }

  predicate AllStrings(fs: seq<Field>) {
    forall i :: 0 <= i < |fs| ==> fs[i].value.Str?
  }

  lemma {:induction false} BuildObjectAllStrings(keys: seq<string>, vals: seq<Option<string>>)
    requires |keys| == |vals|
    ensures AllStrings(Validators.BuildObject(keys, vals))
  {
    if keys != [] {
      BuildObjectAllStrings(keys[1..], vals[1..]);
      var rest := Validators.BuildObject(keys[1..], vals[1..]);
      var fs := Validators.BuildObject(keys, vals);
      if vals[0].Some? {
        assert fs == [Field(keys[0], Str(vals[0].value))] + rest;
        assert forall i :: 1 <= i < |fs| ==> fs[i] == rest[i - 1];
      } else {
        assert fs == rest;
      }
    }
  }

  lemma {:induction false} SanitizeBuiltObject(keys: seq<string>, vals: seq<Option<string>>)
    requires |keys| == |vals|
    ensures SanitizeFields(Validators.BuildObject(keys, vals)) == Validators.BuildObject(keys, MapValues(vals, Sanitize.SanitizeText))
  {
    if keys != [] {
      SanitizeBuiltObject(keys[1..], vals[1..]);
      assert MapValues(vals, Sanitize.SanitizeText)[1..] == MapValues(vals[1..], Sanitize.SanitizeText);
    }
  }

  lemma {:induction false} SanitizeFieldsPointwise(fs: seq<Field>)
    requires AllStrings(fs)
    ensures |SanitizeFields(fs)| == |fs|
    ensures forall i :: 0 <= i < |fs| ==>
      SanitizeFields(fs)[i] == Field(fs[i].key, Str(Sanitize.SanitizeText(fs[i].value.s)))
  {
    if fs != [] {
      SanitizeFieldsPointwise(fs[1..]);
    }
  }

  /** Sanitizing an object whose values are all strings escapes each of them. */
  lemma SanitizeStringObject(fs: seq<Field>)
    requires AllStrings(fs)
    ensures Sanitize.SanitizeObject(Object(fs)) == Object(SanitizeFields(fs))
  {
    SanitizeFieldsPointwise(fs);
    var r := Sanitize.SanitizeObject(Object(fs)).fields;
    forall i | 0 <= i < |fs| ensures r[i] == SanitizeFields(fs)[i] {
      assert r[i] == Field(fs[i].key, Sanitize.SanitizeValue(fs[i].value));
    }
  }

  lemma MapFormValues(f: Validators.PostForm, g: string -> string)
    ensures MapValues(Validators.PostFormValues(f), g) == Validators.PostFormValues(MapForm(f, g))
  {
    var v := Validators.PostFormValues(f);
    var a, b := MapValues(v, g), Validators.PostFormValues(MapForm(f, g));
    assert v[7] == f.prefecture && v[8] == f.city && v[9] == f.railway && v[10] == f.station;
    assert v[12] == f.description && v[13] == f.gameId;
    assert a[7] == b[7] && a[8] == b[8] && a[9] == b[9] && a[10] == b[10] && a[12] == b[12] && a[13] == b[13];
    assert a[0] == b[0] && a[1] == b[1] && a[2] == b[2] && a[3] == b[3] && a[4] == b[4];
    assert a[5] == b[5] && a[6] == b[6] && a[11] == b[11];
  }

  /** `sanitizeObject` on a form sent as JSON is the JSON of the escaped form. */
  lemma SanitizeEncodedForm(f: Validators.PostForm)
    ensures Sanitize.SanitizeObject(Validators.EncodePostForm(f)) == Validators.EncodePostForm(SanitizeForm(f))
  {
    var keys, vals := Validators.PostFormKeys, Validators.PostFormValues(f);
    var fs := Validators.BuildObject(keys, vals);
    BuildObjectAllStrings(keys, vals);
    SanitizeStringObject(fs);
    SanitizeBuiltObject(keys, vals);
    MapFormValues(f, Sanitize.SanitizeText);
  }

  /** End to end: a signed-in user posting a form gets the row built from
      the escaped form when the escaped form satisfies the schema, and a 400
      otherwise. The length limits therefore apply to the escaped text. */
  lemma CreatePostOfForm(req: Request, f: Validators.PostForm)
    requires req.session.Some? && req.body == Some(Validators.EncodePostForm(f))
    ensures CreatePost(req) ==
      if Validators.PostFormValid(SanitizeForm(f)) then Insert(BuildPostData(req.session.value, SanitizeForm(f)))
      else ValidationFailed
  {
    SanitizeEncodedForm(f);
    Validators.ParsePostFormOfEncoded(SanitizeForm(f));
  }

  /** End to end: a signed-in user's form whose escaped form meets the
      schema, with a participants value free of digits and of the five
      special characters, is inserted with a NaN `participant_limit`. */
  lemma NaNParticipantsInserted(req: Request, f: Validators.PostForm)
    requires req.session.Some? && req.body == Some(Validators.EncodePostForm(f))
    requires Validators.PostFormValid(SanitizeForm(f))
    requires forall i :: 0 <= i < |f.participants| ==>
      !IsDecimalDigit(f.participants[i]) && !Sanitize.IsSpecial(f.participants[i])
    ensures CreatePost(req).Insert?
    ensures CreatePost(req).record.participantLimit == NaN
  {
    CreatePostOfForm(req, f);
    Sanitize.SanitizeTextIdentity(f.participants);
    assert SanitizeForm(f).participants == f.participants;
    ParseIntDigitFree(f.participants);
  }

  lemma {:induction false} EscapedAnglesLength(s: string)
    requires forall i :: 0 <= i < |s| ==> s[i] == '<'
    ensures |Sanitize.EscapeEach(s)| == 4 * |s|
  {
    if s != [] {
      EscapedAnglesLength(s[1..]);
    }
  }

  /** A title of 26 `<` is within 3..100 characters as typed but 104 once
      escaped, so a form carrying it is refused. */
  lemma EscapedTitleTooLong(f: Validators.PostForm)
    requires f.title == seq(26, _ => '<')
    ensures |f.title| == 26
    ensures !Validators.PostFormValid(SanitizeForm(f))
  {
    Sanitize.SanitizeTextEscapesEachChar(f.title);
    EscapedAnglesLength(f.title);
  }

  // ---------------------------------------------------------------------
  // The guarded handlers

  /** `GET`: the limiter at 30 requests per minute, then the list query. */
  method Get(limiter: RateLimiter.Limiter, now: int, req: Request)
    returns (reply: RateLimiter.Reply<PostQuery>)
    requires limiter.Valid()
    modifies limiter
    ensures limiter.Valid()
    ensures var s := RateLimiter.Step(old(limiter.ipRequests), RateLimiter.ClientIp(req), GetLimit, Window, now);
      && limiter.ipRequests == s.table
      && reply == if s.rejection.Some? then RateLimiter.Limited(s.rejection.value) else RateLimiter.Handled(ListQuery(req))
  {
    var invoked;
    reply, invoked := limiter.WithRateLimit(now, req, ListQuery, GetLimit, Window);
  }

  /** `POST`: the limiter at 10 requests per minute, then the handler. */
  method Post(limiter: RateLimiter.Limiter, now: int, req: Request)
    returns (reply: RateLimiter.Reply<PostResponse>)
    requires limiter.Valid()
    modifies limiter
    ensures limiter.Valid()
    ensures var s := RateLimiter.Step(old(limiter.ipRequests), RateLimiter.ClientIp(req), PostLimit, Window, now);
      && limiter.ipRequests == s.table
      && reply == if s.rejection.Some? then RateLimiter.Limited(s.rejection.value) else RateLimiter.Handled(CreatePost(req))
  {
    var invoked;
    reply, invoked := limiter.WithRateLimit(now, req, CreatePost, PostLimit, Window);
  }

  /** GET and POST count in the same table entry, keyed by IP only: an
      address that has made between 10 and 29 requests in its live window
      (of either kind) may still list posts but may not create one. */
  lemma SharedCounter(e: RateLimiter.Entry, now: int)
    requires PostLimit <= e.count < GetLimit
    requires !RateLimiter.Expired(e, Window, now)
    ensures RateLimiter.Decide(Some(e), GetLimit, Window, now).rejection.None?
    ensures RateLimiter.Decide(Some(e), PostLimit, Window, now).rejection.Some?
  {
  }

  /** Ten list requests within a minute from a fresh address use up its
      posting allowance for the rest of that minute. */
  lemma ListingExhaustsPosting(times: seq<int>, later: int)
    requires |times| == 10
    requires forall i :: 0 <= i < |times| ==> times[0] <= times[i] <= later
    requires later - times[0] <= Window
    ensures forall i :: 0 <= i < |times| ==> RateLimiter.Run(None, GetLimit, Window, times)[i]
    ensures var e := RateLimiter.After(None, GetLimit, Window, times);
      RateLimiter.Decide(e, PostLimit, Window, later).rejection.Some?
  {
    RateLimiter.WindowRun(None, GetLimit, Window, times);
  }
}
