/** The fixed-window rate limiter: a process-wide table from client IP to
    the request count and start time of that IP's current window, the
    per-request decision (`rateLimiter`), the wrapper that guards a handler
    (`withRateLimit`) and the sweep that evicts entries older than an hour
    (`cleanupOldEntries`). The clock is the parameter `now`, in milliseconds. */
module RateLimiter {
  import opened Js
  import opened Http

  const DefaultLimit: int := 10
  const DefaultWindow: int := 60000
  /** Entries older than this are evicted by the sweep (one hour, in ms);
      the sweep also runs once per this interval. */
  const CleanupAge: int := 60 * 60 * 1000
  /** The shared key of requests whose address cannot be determined. */
  const Unknown: string := "unknown"

  datatype Entry = Entry(count: int, timestamp: int)

  /** The client key: the first element of `x-forwarded-for`, trimmed; else a
      non-empty `req.ip`; else "unknown". An empty header counts as absent. */
  function ClientIp(req: Request): string {
    if req.forwardedFor.Some? && req.forwardedFor.value != [] then
      Trim(BeforeFirst(req.forwardedFor.value, ','))
    else if req.ip.Some? && req.ip.value != [] then req.ip.value
    else Unknown
  }

  lemma {:induction false} BeforeFirstOfPrefix(a: string, b: string, sep: char)
    requires sep !in a
    requires b == [] || b[0] == sep
    ensures BeforeFirst(a + b, sep) == a
  {
    if a == [] {
      assert a + b == b;
    } else {
      assert (a + b)[1..] == a[1..] + b;
      BeforeFirstOfPrefix(a[1..], b, sep);
    }
  }

  /** With a forwarded-for list, the key is its first hop without the
      surrounding whitespace, whatever follows the first comma. A sent header
      whose first hop is empty or only whitespace (", 1.2.3.4") gives the
      key "": the header is truthy, so `req.ip` is not consulted. (A header
      sent empty counts as absent; see `ClientIpFallback`.) */
  lemma ClientIpFirstHop(req: Request, lead: string, hop: string, trail: string, rest: string)
    requires req.forwardedFor == Some(lead + hop + trail + rest)
    requires AllWhitespace(lead) && AllWhitespace(trail)
    requires hop != [] ==> !IsWhitespace(hop[0]) && !IsWhitespace(hop[|hop| - 1])
    requires ',' !in lead + hop + trail
    requires rest == [] || rest[0] == ','
    ensures lead + hop + trail + rest != [] ==> ClientIp(req) == hop
  {
    var header := lead + hop + trail + rest;
    assert header == (lead + hop + trail) + rest;
    BeforeFirstOfPrefix(lead + hop + trail, rest, ',');
    if hop == [] {
      assert lead + hop + trail == (lead + trail) + [] + [];
      TrimRemovesPadding(lead + trail, [], []);
    } else {
      TrimRemovesPadding(lead, hop, trail);
    }
  }

  /** Without a (non-empty) forwarded-for header the key is `req.ip`, or
      "unknown" when there is none, so all unattributable requests share
      one counter. */
  lemma ClientIpFallback(req: Request)
    requires req.forwardedFor.None? || req.forwardedFor == Some([])
    ensures ClientIp(req) == if req.ip.Some? && req.ip.value != [] then req.ip.value else Unknown
    ensures req.ip.None? ==> ClientIp(req) == "unknown"
  {
  }

  /** `Math.ceil(x / 1000)`. */
  function CeilDiv1000(x: int): (r: int)
    ensures 1000 * (r - 1) < x <= 1000 * r
  {
    -((-x) / 1000)
  }

  /** The window has expired when strictly more than `timeWindow` ms have
      passed since it started. */
  predicate Expired(e: Entry, timeWindow: int, now: int) {
    now - e.timestamp > timeWindow
  }

  /** Whole seconds until the window ends, rounded up. */
  function RetryAfter(e: Entry, timeWindow: int, now: int): int {
    CeilDiv1000(timeWindow - (now - e.timestamp))
  }

  datatype Header = Header(name: string, value: string)

  /** The 429 response: JSON body fields and headers. */
  datatype Rejection = Rejection(
    status: int,
    error: string,
    message: string,
    retryAfter: int,
    headers: seq<Header>)

  function TooManyRequests(e: Entry, limit: int, timeWindow: int, now: int): Rejection {
    var retryAfter := RetryAfter(e, timeWindow, now);
    Rejection(429, "Too Many Requests", "Rate limit exceeded. Please try again later.", retryAfter,
      [ Header("Retry-After", IntToString(retryAfter)),
        Header("X-RateLimit-Limit", IntToString(limit)),
        Header("X-RateLimit-Remaining", "0"),
        Header("X-RateLimit-Reset", IntToString(CeilDiv1000(e.timestamp + timeWindow))) ])
  }

  /** The new entry for the client and the response, None meaning "go on". */
  datatype Verdict = Verdict(entry: Entry, rejection: Option<Rejection>)

  /** One call of `rateLimiter` on the client's current entry. */
  function Decide(prev: Option<Entry>, limit: int, timeWindow: int, now: int): Verdict {
    if prev.None? || Expired(prev.value, timeWindow, now) then
      Verdict(Entry(1, now), None)
    else
      var e := Entry(prev.value.count + 1, prev.value.timestamp);
      if e.count > limit then Verdict(e, Some(TooManyRequests(e, limit, timeWindow, now)))
      else Verdict(e, None)
  }

  /** The client's own entry in the table, if it has one. */
  function Lookup(table: map<string, Entry>, ip: string): Option<Entry> {
    if ip in table then Some(table[ip]) else None
  }

  /** The property names every plain object inherits from `Object.prototype`
      (section 20.1.3 of ECMA-262, with the Annex B accessors). On the table
      `{}`, `ipRequests[ip]` for such a name is a truthy function or object that
      has neither `count` nor `timestamp`. */
  const InheritedNames: set<string> := {
    "constructor", "hasOwnProperty", "isPrototypeOf", "propertyIsEnumerable",
    "toLocaleString", "toString", "valueOf", "__proto__",
    "__defineGetter__", "__defineSetter__", "__lookupGetter__", "__lookupSetter__" }

  /** The table and the response after one call. */
  datatype Outcome = Outcome(table: map<string, Entry>, rejection: Option<Rejection>)

  /** One call of `rateLimiter` on the whole table as the code reads it. An
      own entry, or no value at all, goes through `Decide` and the client's
      entry is replaced. An inherited name is truthy, `now - undefined` is NaN
      so the window never expires, and `count++` writes NaN onto the shared
      prototype member, which is never above the limit: the call is admitted
      and the table is left as it was. */
  function Step(table: map<string, Entry>, ip: string, limit: int, timeWindow: int, now: int): Outcome {
    if ip !in table && ip in InheritedNames then Outcome(table, None)
    else
      var v := Decide(Lookup(table, ip), limit, timeWindow, now);
      Outcome(table[ip := v.entry], v.rejection)
  }

  /** The tables the limiter can reach: no own key names an `Object.prototype`
      member (the code only ever assigns the other keys) and every count is at
      least one. */
  predicate TableValid(table: map<string, Entry>) {
    forall ip :: ip in table ==> ip !in InheritedNames && table[ip].count >= 1
  }

  /** On a reachable table an inherited name is admitted without a trace,
      every other key goes through `Decide`, and the table stays reachable. */
  lemma StepOnValidTable(table: map<string, Entry>, ip: string, limit: int, timeWindow: int, now: int)
    requires TableValid(table)
    ensures ip in InheritedNames ==> Step(table, ip, limit, timeWindow, now) == Outcome(table, None)
    ensures ip !in InheritedNames ==>
      Step(table, ip, limit, timeWindow, now).rejection == Decide(Lookup(table, ip), limit, timeWindow, now).rejection
    ensures TableValid(Step(table, ip, limit, timeWindow, now).table)
  {
    if ip !in InheritedNames {
      DecideKeepsCountPositive(Lookup(table, ip), limit, timeWindow, now);
    }
  }

  /** A new or expired window is replaced by `{count: 1, timestamp: now}` and
      the request goes on, whatever the limit. */
  lemma DecideFreshWindow(prev: Option<Entry>, limit: int, timeWindow: int, now: int)
    requires prev.None? || Expired(prev.value, timeWindow, now)
    ensures Decide(prev, limit, timeWindow, now) == Verdict(Entry(1, now), None)
  {
  }

  /** Inside a live window every call, admitted or not, adds one to the count
      and keeps the start time; it is rejected exactly when the new count
      exceeds the limit. */
  lemma DecideLiveWindow(e: Entry, limit: int, timeWindow: int, now: int)
    requires !Expired(e, timeWindow, now)
    ensures Decide(Some(e), limit, timeWindow, now).entry == Entry(e.count + 1, e.timestamp)
    ensures Decide(Some(e), limit, timeWindow, now).rejection.Some? <==> e.count + 1 > limit
  {
  }

  /** Every entry the limiter stores has a count of at least one. */
  lemma DecideKeepsCountPositive(prev: Option<Entry>, limit: int, timeWindow: int, now: int)
    requires prev.Some? ==> prev.value.count >= 1
    ensures Decide(prev, limit, timeWindow, now).entry.count >= 1
  {
  }

  /** A rejection is the 429 reply built from the incremented entry, whose
      count exceeds the limit; its hint of seconds left in the window is never
      negative, since the window is live. */
  lemma RejectionContents(prev: Option<Entry>, limit: int, timeWindow: int, now: int)
    requires Decide(prev, limit, timeWindow, now).rejection.Some?
    ensures var v := Decide(prev, limit, timeWindow, now);
      && v.rejection.value == TooManyRequests(v.entry, limit, timeWindow, now)
      && v.entry.count > limit
      && v.rejection.value.retryAfter >= 0
  {
  }

  /** The body and headers of a rejection: the numeric headers read back,
      through `parseInt`, as the values they encode. */
  lemma TooManyRequestsHeaders(e: Entry, limit: int, timeWindow: int, now: int)
    ensures var r := TooManyRequests(e, limit, timeWindow, now);
      && r.status == 429
      && r.retryAfter == CeilDiv1000(timeWindow - (now - e.timestamp))
      && |r.headers| == 4
      && r.headers[0].name == "Retry-After" && ParseInt(r.headers[0].value) == Num(r.retryAfter)
      && r.headers[1].name == "X-RateLimit-Limit" && ParseInt(r.headers[1].value) == Num(limit)
      && r.headers[2] == Header("X-RateLimit-Remaining", "0")
      && r.headers[3].name == "X-RateLimit-Reset"
      && ParseInt(r.headers[3].value) == Num(CeilDiv1000(e.timestamp + timeWindow))
  {
    var r := TooManyRequests(e, limit, timeWindow, now);
    var retryAfter := RetryAfter(e, timeWindow, now);
    var reset := CeilDiv1000(e.timestamp + timeWindow);
    assert r.headers[0].value == IntToString(retryAfter);
    assert r.headers[1].value == IntToString(limit);
    assert r.headers[3].value == IntToString(reset);
    ParseIntOfIntToString(retryAfter);
    ParseIntOfIntToString(limit);
    ParseIntOfIntToString(reset);
  }

  /** Within one window the retry hint counts down: a later rejection never
      asks the client to wait longer than an earlier one. */
  lemma RetryAfterNonIncreasing(e: Entry, timeWindow: int, earlier: int, later: int)
    requires earlier <= later
    ensures RetryAfter(e, timeWindow, later) <= RetryAfter(e, timeWindow, earlier)
  {
  }

  /** The admitted flags of a run of calls from one client at the given times. */
  function Run(prev: Option<Entry>, limit: int, timeWindow: int, times: seq<int>): (admitted: seq<bool>)
    ensures |admitted| == |times|
    decreases |times|
  {
    if times == [] then []
    else
      var v := Decide(prev, limit, timeWindow, times[0]);
      [v.rejection.None?] + Run(Some(v.entry), limit, timeWindow, times[1..])
  }

  /** The client's entry after a run of calls. */
  function After(prev: Option<Entry>, limit: int, timeWindow: int, times: seq<int>): Option<Entry>
    decreases |times|
  {
    if times == [] then prev
    else After(Some(Decide(prev, limit, timeWindow, times[0]).entry), limit, timeWindow, times[1..])
  }

  /** Calls that all fall inside a live window make the i-th of them count
      `e.count + i + 1`; each is admitted exactly when that stays within the
      limit. */
  lemma {:induction false} LiveRun(e: Entry, limit: int, timeWindow: int, times: seq<int>)
    requires forall i :: 0 <= i < |times| ==> !Expired(e, timeWindow, times[i])
    ensures forall i :: 0 <= i < |times| ==> (Run(Some(e), limit, timeWindow, times)[i] <==> e.count + i + 1 <= limit)
    ensures After(Some(e), limit, timeWindow, times) == Some(Entry(e.count + |times|, e.timestamp))
    decreases |times|
  {
    if times != [] {
      var next := Entry(e.count + 1, e.timestamp);
      assert Decide(Some(e), limit, timeWindow, times[0]).entry == next;
      LiveRun(next, limit, timeWindow, times[1..]);
      var run := Run(Some(e), limit, timeWindow, times);
      forall i | 1 <= i < |times| ensures run[i] <==> e.count + i + 1 <= limit {
        assert run[i] == Run(Some(next), limit, timeWindow, times[1..])[i - 1];
      }
    }
  }

  /** A run that opens a window at `times[0]` and stays within `timeWindow` ms
      of it: the first call is admitted, and so is every call up to the
      `limit`-th; every later one is rejected. */
  lemma WindowRun(prev: Option<Entry>, limit: int, timeWindow: int, times: seq<int>)
    requires |times| >= 1
    requires prev.None? || Expired(prev.value, timeWindow, times[0])
    requires forall i :: 0 <= i < |times| ==> times[i] - times[0] <= timeWindow
    ensures forall i :: 0 <= i < |times| ==> (Run(prev, limit, timeWindow, times)[i] <==> i == 0 || i < limit)
    ensures After(prev, limit, timeWindow, times) == Some(Entry(|times|, times[0]))
  {
    var first := Entry(1, times[0]);
    assert Decide(prev, limit, timeWindow, times[0]) == Verdict(first, None);
    assert forall i :: 0 <= i < |times[1..]| ==> times[1..][i] == times[i + 1];
    LiveRun(first, limit, timeWindow, times[1..]);
    var run := Run(prev, limit, timeWindow, times);
    forall i | 1 <= i < |times| ensures run[i] <==> i < limit {
      assert run[i] == Run(Some(first), limit, timeWindow, times[1..])[i - 1];
    }
  }

  /** Limit 10 per 60000 ms: ten requests from a fresh client within the
      first five seconds are all admitted, an eleventh at 5500 ms is rejected
      with a hint of 55 s, and a request at 61000 ms opens a new window. */
  lemma ScenarioTenPerMinute(times: seq<int>)
    requires |times| == 10 && times[0] == 0
    requires forall i :: 0 <= i < |times| ==> 0 <= times[i] <= 5000
    ensures forall i :: 0 <= i < |times| ==> Run(None, 10, 60000, times)[i]
    ensures After(None, 10, 60000, times) == Some(Entry(10, 0))
    ensures Decide(Some(Entry(10, 0)), 10, 60000, 5500).rejection.Some?
    ensures Decide(Some(Entry(10, 0)), 10, 60000, 5500).rejection.value.retryAfter == 55
    ensures Decide(Some(Entry(11, 0)), 10, 60000, 61000) == Verdict(Entry(1, 61000), None)
  {
    WindowRun(None, 10, 60000, times);
  }

  /** Expiry is strict: a request exactly `timeWindow` ms after the window
      opened still counts in the old window. A client that is rejected and
      waits exactly the advertised `Retry-After` seconds lands on that boundary
      when the time left was a whole number of seconds, and is then rejected
      again with a hint of 0; otherwise the rounding up carries it past the
      boundary into a fresh window. */
  lemma RetryAtBoundaryStillRejected(e: Entry, limit: int, timeWindow: int, now: int)
    requires !Expired(e, timeWindow, now) && e.count + 1 > limit
    ensures var first := Decide(Some(e), limit, timeWindow, now);
      && first.rejection.Some?
      && first.rejection.value.retryAfter >= 0
      && var later := now + 1000 * first.rejection.value.retryAfter;
      && (Decide(Some(first.entry), limit, timeWindow, later).rejection.Some?
          <==> (timeWindow - (now - e.timestamp)) % 1000 == 0)
      && ((timeWindow - (now - e.timestamp)) % 1000 == 0 ==>
          Decide(Some(first.entry), limit, timeWindow, later).rejection.value.retryAfter == 0)
  {
  }

  /** The admitted flags of a run of calls from one key against the whole
      table, as the code takes them. */
  function KeyRun(table: map<string, Entry>, ip: string, limit: int, timeWindow: int, times: seq<int>): (admitted: seq<bool>)
    ensures |admitted| == |times|
    decreases |times|
  {
    if times == [] then []
    else
      var s := Step(table, ip, limit, timeWindow, times[0]);
      [s.rejection.None?] + KeyRun(s.table, ip, limit, timeWindow, times[1..])
  }

  /** A key named after an `Object.prototype` member that has no own entry is
      never limited: every call of a run is admitted, whatever the limit and
      however close together the calls are. */
  lemma {:induction false} InheritedKeyUnlimited(table: map<string, Entry>, ip: string, limit: int, timeWindow: int, times: seq<int>)
    requires ip in InheritedNames && ip !in table
    ensures forall i :: 0 <= i < |times| ==> KeyRun(table, ip, limit, timeWindow, times)[i]
    decreases |times|
  {
    if times != [] {
      assert Step(table, ip, limit, timeWindow, times[0]) == Outcome(table, None);
      InheritedKeyUnlimited(table, ip, limit, timeWindow, times[1..]);
      var run := KeyRun(table, ip, limit, timeWindow, times);
      forall i | 1 <= i < |times| ensures run[i] {
        assert run[i] == KeyRun(table, ip, limit, timeWindow, times[1..])[i - 1];
      }
    }
  }

  /** Every other key is limited per key: its run against the table is the
      run of `Decide` on its own entry. */
  lemma {:induction false} OrdinaryKeyRun(table: map<string, Entry>, ip: string, limit: int, timeWindow: int, times: seq<int>)
    requires ip !in InheritedNames
    ensures KeyRun(table, ip, limit, timeWindow, times) == Run(Lookup(table, ip), limit, timeWindow, times)
    decreases |times|
  {
    if times != [] {
      var v := Decide(Lookup(table, ip), limit, timeWindow, times[0]);
      var next := table[ip := v.entry];
      assert Step(table, ip, limit, timeWindow, times[0]) == Outcome(next, v.rejection);
      assert Lookup(next, ip) == Some(v.entry);
      OrdinaryKeyRun(next, ip, limit, timeWindow, times[1..]);
    }
  }

  /** Eleven calls within five seconds at limit 10 from a fresh table: a
      client claiming the address "constructor" has all eleven admitted,
      where the address "1.2.3.4" has the eleventh refused. */
  lemma ConstructorKeyUnlimited(times: seq<int>)
    requires |times| == 11 && times[0] == 0
    requires forall i :: 0 <= i < |times| ==> 0 <= times[i] <= 5000
    ensures KeyRun(map[], "constructor", 10, 60000, times)[10]
    ensures !KeyRun(map[], "1.2.3.4", 10, 60000, times)[10]
  {
    InheritedKeyUnlimited(map[], "constructor", 10, 60000, times);
    OrdinaryKeyRun(map[], "1.2.3.4", 10, 60000, times);
    WindowRun(None, 10, 60000, times);
  }

  /** The sweep's test: strictly more than an hour old. */
  function Stale(e: Entry, now: int): bool {
    now - e.timestamp > CleanupAge
  }

  /** The table the sweep leaves. */
  function Retained(table: map<string, Entry>, now: int): map<string, Entry> {
    map ip | ip in table && !Stale(table[ip], now) :: table[ip]
  }

  /** The sweep removes exactly the entries older than an hour and leaves the
      others as they were. */
  lemma RetainedExactly(table: map<string, Entry>, now: int, ip: string)
    ensures ip in Retained(table, now) <==> ip in table && now - table[ip].timestamp <= CleanupAge
    ensures ip in Retained(table, now) ==> Retained(table, now)[ip] == table[ip]
  {
  }

  /** For windows no longer than an hour the sweep is unobservable: every
      later decision is the one the full table would give. */
  lemma CleanupUnobservable(table: map<string, Entry>, now: int, later: int, ip: string, limit: int, timeWindow: int)
    requires timeWindow <= CleanupAge
    requires now <= later
    ensures Decide(Lookup(Retained(table, now), ip), limit, timeWindow, later)
         == Decide(Lookup(table, ip), limit, timeWindow, later)
  {
  }

  /** For a window longer than the retention an evicted entry is lost mid-window:
      the full table would reject the next request, the swept one admits it. */
  lemma CleanupObservableForLongWindows()
    ensures var table := map["1.2.3.4" := Entry(5, 0)];
      var now := CleanupAge + 1;
      && Decide(Lookup(table, "1.2.3.4"), 5, 2 * CleanupAge, now).rejection.Some?
      && Decide(Lookup(Retained(table, now), "1.2.3.4"), 5, 2 * CleanupAge, now).rejection.None?
  {
    var table := map["1.2.3.4" := Entry(5, 0)];
    assert "1.2.3.4" !in Retained(table, CleanupAge + 1);
  }

  /** The response of a guarded route: the limiter's rejection, or what the
      handler returned. */
  datatype Reply<R> = Limited(rejection: Rejection) | Handled(response: R)

  /** The process-wide request table and the operations on it. */
  class Limiter {
    var ipRequests: map<string, Entry>

    ghost predicate Valid()
      reads this
    {
      TableValid(ipRequests)
    }

    constructor ()
      ensures Valid() && ipRequests == map[]
    {
      ipRequests := map[];
    }

    /** `rateLimiter(req, limit, timeWindow)` at time `now`: updates only the
        client's entry, as `Step` says, and returns the rejection if any. */
    method RateLimit(now: int, req: Request, limit: int := DefaultLimit, timeWindow: int := DefaultWindow)
      returns (rejection: Option<Rejection>)
      requires Valid()
      modifies this
      ensures Valid()
      ensures var s := Step(old(ipRequests), ClientIp(req), limit, timeWindow, now);
        ipRequests == s.table && rejection == s.rejection
      ensures ClientIp(req) in InheritedNames ==> ipRequests == old(ipRequests) && rejection.None?
      ensures forall other :: other != ClientIp(req) ==>
        (other in ipRequests <==> other in old(ipRequests))
        && (other in ipRequests ==> ipRequests[other] == old(ipRequests)[other])
    {
      var ip := ClientIp(req);
      StepOnValidTable(ipRequests, ip, limit, timeWindow, now);
      if ip !in ipRequests && ip in InheritedNames {
        // the inherited member: truthy, its window never expires and its
        // count becomes NaN, so the call goes on and no entry is stored
        return None;
      }
      ghost var v := Decide(Lookup(ipRequests, ip), limit, timeWindow, now);
      if ip !in ipRequests || now - ipRequests[ip].timestamp > timeWindow {
        assert v == Verdict(Entry(1, now), None);
        ipRequests := ipRequests[ip := Entry(1, now)];
        return None;
      }
      var entry := ipRequests[ip];
      assert v.entry == entry.(count := entry.count + 1);
      ipRequests := ipRequests[ip := entry.(count := entry.count + 1)];
      if ipRequests[ip].count > limit {
        rejection := Some(TooManyRequests(ipRequests[ip], limit, timeWindow, now));
        assert rejection == v.rejection;
        return;
      }
      rejection := None;
    }

    /** `withRateLimit(handler, limit, timeWindow)` applied to `req`: the
        rejection when the limiter gives one, otherwise the handler's reply.
        `invoked` says whether the handler ran. */
    method WithRateLimit<R>(now: int, req: Request, handler: Request -> R,
                            limit: int := DefaultLimit, timeWindow: int := DefaultWindow)
      returns (reply: Reply<R>, invoked: bool)
      requires Valid()
      modifies this
      ensures Valid()
      ensures var s := Step(old(ipRequests), ClientIp(req), limit, timeWindow, now);
        && ipRequests == s.table
        && invoked == s.rejection.None?
        && reply == if s.rejection.Some? then Limited(s.rejection.value) else Handled(handler(req))
    {
      var limitResponse := RateLimit(now, req, limit, timeWindow);
      if limitResponse.Some? {
        return Limited(limitResponse.value), false;
      }
      return Handled(handler(req)), true;
    }

    /** `cleanupOldEntries` at time `now`: deletes, key by key, every entry
        older than an hour. */
    method CleanupOldEntries(now: int)
      requires Valid()
      modifies this
      ensures Valid()
      ensures ipRequests == Retained(old(ipRequests), now)
    {
      var pending := ipRequests.Keys;
      while pending != {}
        invariant pending <= old(ipRequests).Keys
        invariant forall ip :: ip in ipRequests <==>
          ip in old(ipRequests) && (ip in pending || !Stale(old(ipRequests)[ip], now))
        invariant forall ip :: ip in ipRequests ==> ipRequests[ip] == old(ipRequests)[ip]
        decreases pending
      {
        var ip :| ip in pending;
        if now - ipRequests[ip].timestamp > CleanupAge {
          ipRequests := ipRequests - {ip};
        }
        pending := pending - {ip};
      }
      assert ipRequests.Keys == Retained(old(ipRequests), now).Keys;
    }
  }
}
