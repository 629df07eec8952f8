# offgameboard core — a Dafny model

This project models the request-handling core of the offgameboard meetup
board, a Next.js application, and proves properties of it. The model covers:

- **the in-memory rate limiter** (`rateLimiter`, `withRateLimit`,
  `cleanupOldEntries`). A class holds the process-wide table from client IP
  to `{count, timestamp}`. Its methods change that table in place and are
  proved against the pure step function `RateLimiter.Step`. `Step` applies
  the per-entry decision `RateLimiter.Decide` to the client's own entry.
- **sanitisation**:
  - `sanitizeText` is five chained replacements. It is proved equal to a
    per-character escape map, and shown to distribute over concatenation,
    to be reversible, and to remove markup.
  - `sanitizeObject` has two forms: the copy-then-overwrite loop of the
    source, and a recursive function it is proved equal to. Object spread
    of arrays and strings is included.
  - `isValidUsername` is a character-class scan.
- **the form schemas** as predicates: the post form with its location
  refinement, plus the profile, sign-up, sign-in, application and rating
  forms. `postFormSchema.safeParse` is modelled on JSON bodies: field types
  first, then the rules. The password pattern's lookaheads are modelled with
  the real meaning of `.`, which does not cross a line break.
- **the middleware decision**: a request passes, gets a 401, or is
  redirected to the login page.
- **the posts API**:
  - GET builds a list query: a numeric page size capped at 50 (a non-numeric one stays NaN), the optional
    filters, and the `%`/`_`-escaped search pattern.
  - POST builds its record from the sanitized and validated body.
  - GET and POST share the limiter, at 30 and 10 requests a minute.

The JavaScript built-ins the code relies on are written out in `Js`. Each is
modelled on integers and strings:

- `parseInt`: leading whitespace, a sign, `0x`, the longest digit run, or NaN;
- `trim`: all ECMAScript white space and line terminators;
- `split(',')[0]`;
- `Number.prototype.toString` for integers;
- `Math.min` with NaN.

The clock (`Date.now()`), the session lookup and `req.json()` become
inputs: `now` and the `session` and `body` fields of `Http.Request`.

Several behaviours of the code are easy to miss. The model follows the code
and states each of them:

- **Window expiry is strict.** A request exactly `timeWindow` ms after a
  window opened still counts in that window (`RetryAtBoundaryStillRejected`).
  So a client that waits exactly the advertised `Retry-After` can be refused
  again.
- **The table is a plain object.** A client key that names an
  `Object.prototype` member, such as "constructor", is never limited (see
  "## Findings").
- **An empty first forwarded hop is a key.** A header such as `", 1.2.3.4"`
  gives the key "", and `req.ip` is not consulted (`ClientIpFirstHop`).
- **The limiter keys by IP alone.** GET and POST of the posts API share one
  counter per address (`SharedCounter`, `ListingExhaustsPosting`).
- **Sweep retention.** The sweep keeps entries for one hour. It is
  unobservable for windows up to an hour (`CleanupUnobservable`) and
  observable for longer ones (`CleanupObservableForLongWindows`).
- **The schema checks the escaped text.** Length limits therefore apply
  after escaping (`CreatePostOfForm`, `EscapedTitleTooLong`).
- **The search escaping leaves backslashes alone** (`SafeSearchKeepsBackslash`).

## Model

| member | source | states |
|---|---|---|
| Js.Trim | src/app/api/rate-limiter.ts:48 | the trimmed string is no longer than the input and neither starts nor ends with white space |
| Js.TrimRemovesPadding | src/app/api/rate-limiter.ts:48 | trimming removes exactly the white-space padding around a string and keeps the string itself |
| Js.BeforeFirst | src/app/api/rate-limiter.ts:48 | `split(',')[0]` is a prefix free of commas that ends at the first comma or at the end of the input |
| Js.Min | src/app/api/posts/route.ts:24 | `Math.min(x, bound)` is NaN exactly for NaN, otherwise at most both `bound` and `x`, and equal to one of them |
| Js.ParseInt | src/app/api/posts/route.ts:21 | definition: `parseInt` without a radix: leading white space, one sign, a `0x` prefix, the longest digit run, or NaN; its properties are `ParseIntOfIntToString` and `ParseIntDigitFree` |
| Js.ParseIntDigitFree | src/app/api/posts/route.ts:21-24 | `parseInt` of a string without any decimal digit is NaN |
| Js.IntToString | src/app/api/rate-limiter.ts:75-78 | definition: `toString` of an integer, a minus sign then decimal digits without leading zeros; its property is `ParseIntOfIntToString` |
| Js.ParseIntOfIntToString | src/app/api/rate-limiter.ts:75-78 | `parseInt` reads back every integer from its `toString`, so the numeric headers carry their values |
| Json.Get | src/lib/utils/validators.ts:3-19 | a property lookup is absent exactly when no field has the key, and otherwise gives the value of a field with that key |
| Http.QueryParam | src/app/api/posts/route.ts:17-20 | `searchParams.get` is absent exactly when the name is not given; otherwise it is the value of the first pair with that name |
| RateLimiter.ClientIp | src/app/api/rate-limiter.ts:47-48 | definition: the trimmed text before the first comma of a non-empty forwarded-for header, else a non-empty `req.ip`, else "unknown"; its properties are `ClientIpFirstHop` and `ClientIpFallback` |
| RateLimiter.ClientIpFirstHop | src/app/api/rate-limiter.ts:47-48 | with a non-empty `x-forwarded-for` header the key is its first element without surrounding white space, whatever follows the first comma; an empty or all-white-space first element gives the key "" and `req.ip` is not used |
| RateLimiter.ClientIpFallback | src/app/api/rate-limiter.ts:48 | without a non-empty forwarded-for header the key is `req.ip` when non-empty, else "unknown" |
| RateLimiter.CeilDiv1000 | src/app/api/rate-limiter.ts:64 | the result is the least integer `r` with `x <= 1000 * r` (`Math.ceil(x / 1000)`) |
| RateLimiter.Expired | src/app/api/rate-limiter.ts:53 | definition: a window has expired when strictly more than `timeWindow` ms have passed since it opened; its properties are `DecideFreshWindow` and `RetryAtBoundaryStillRejected` |
| RateLimiter.RetryAfter | src/app/api/rate-limiter.ts:64 | definition: the seconds left in the window, rounded up; its properties are `RetryAfterNonIncreasing` and `TooManyRequestsHeaders` |
| RateLimiter.TooManyRequests | src/app/api/rate-limiter.ts:64-81 | definition: the 429 body and headers for an entry; its properties are `TooManyRequestsHeaders` |
| RateLimiter.Decide | src/app/api/rate-limiter.ts:53-62 | definition: one call on the client's own entry, or on none; its properties are `DecideFreshWindow`, `DecideLiveWindow`, `DecideKeepsCountPositive` and `RejectionContents` |
| RateLimiter.Step | src/app/api/rate-limiter.ts:13-62 | definition: one call on the whole table; a key named after an `Object.prototype` member with no own entry is admitted and the table is unchanged; any other key gets `Decide` on its own entry, and only that entry is replaced |
| RateLimiter.StepOnValidTable | src/app/api/rate-limiter.ts:13-62 | on a reachable table (no own key named after an `Object.prototype` member, every count at least one) an inherited name is admitted and leaves the table unchanged; any other key gets `Decide`'s verdict; the table stays reachable |
| RateLimiter.DecideFreshWindow | src/app/api/rate-limiter.ts:53-56 | with no entry or an expired one, the entry becomes `{count: 1, timestamp: now}` and the request is admitted, whatever the limit |
| RateLimiter.DecideLiveWindow | src/app/api/rate-limiter.ts:58-62 | in a live window each call adds exactly one to the count and keeps the timestamp; it is rejected iff the new count exceeds the limit |
| RateLimiter.DecideKeepsCountPositive | src/app/api/rate-limiter.ts:53-59 | every stored count is at least one, the table invariant the class keeps |
| RateLimiter.RejectionContents | src/app/api/rate-limiter.ts:62-81 | a rejection is the 429 response for the incremented entry, its count exceeds the limit, and its retry hint is never negative |
| RateLimiter.TooManyRequestsHeaders | src/app/api/rate-limiter.ts:64-80 | the rejection has status 429, `retryAfter = ceil((timeWindow - (now - timestamp)) / 1000)`, the headers Retry-After, X-RateLimit-Limit, X-RateLimit-Remaining "0" and X-RateLimit-Reset `ceil((timestamp + timeWindow) / 1000)`, and each numeric one parses back to its value |
| RateLimiter.RetryAfterNonIncreasing | src/app/api/rate-limiter.ts:64 | within a window a later rejection never gives a longer retry hint than an earlier one |
| RateLimiter.LiveRun | src/app/api/rate-limiter.ts:58-62 | over calls inside one live window the i-th call is admitted iff `count + i + 1 <= limit`, and the entry ends at `count + n` with the timestamp unchanged |
| RateLimiter.WindowRun | src/app/api/rate-limiter.ts:53-62 | in a run that opens a window and stays within it, call i is admitted iff `i == 0 or i < limit`: the first `limit` calls pass and every later one is refused |
| RateLimiter.ScenarioTenPerMinute | src/app/api/rate-limiter.ts:45-64 | at the defaults, ten calls in five seconds pass, the eleventh at 5.5 s is refused with a 55 s hint, and a call at 61 s opens a new window |
| RateLimiter.RetryAtBoundaryStillRejected | src/app/api/rate-limiter.ts:53-64 | for any refused call in a live window, a retry exactly `Retry-After` seconds later is refused again iff the time left was a whole number of seconds, and then the new hint is 0; because expiry is strict |
| RateLimiter.InheritedKeyUnlimited | src/app/api/rate-limiter.ts:13-62 | a key named after an `Object.prototype` member with no own entry has every call of any run admitted, whatever the limit and the call times |
| RateLimiter.OrdinaryKeyRun | src/app/api/rate-limiter.ts:13-62 | for every other key, a run of calls against the table is admitted exactly as `Decide` on its own entry admits it |
| RateLimiter.ConstructorKeyUnlimited | src/app/api/rate-limiter.ts:13-62 | eleven calls within five seconds at limit 10 from an empty table: all eleven are admitted for the key "constructor", while the eleventh is refused for "1.2.3.4" |
| RateLimiter.Stale | src/app/api/rate-limiter.ts:26 | definition: an entry is stale when it is strictly more than an hour old; its properties are `RetainedExactly` and `CleanupUnobservable` |
| RateLimiter.Retained | src/app/api/rate-limiter.ts:21-29 | definition: the table minus the entries more than an hour old; its properties are `RetainedExactly` and `CleanupUnobservable` |
| RateLimiter.RetainedExactly | src/app/api/rate-limiter.ts:21-29 | the sweep keeps exactly the entries at most one hour old, unchanged |
| RateLimiter.CleanupUnobservable | src/app/api/rate-limiter.ts:21-29 | for windows of at most an hour, every later decision on the swept table equals the one on the full table |
| RateLimiter.CleanupObservableForLongWindows | src/app/api/rate-limiter.ts:23-27 | for a two-hour window the sweep forgets a live entry, and a request the full table would refuse is admitted |
| RateLimiter.Limiter.constructor | src/app/api/rate-limiter.ts:13 | the table starts empty |
| RateLimiter.Limiter.RateLimit | src/app/api/rate-limiter.ts:45-85 | the new table and the result are those of `Step`: only the client's own entry is replaced; a key named after an `Object.prototype` member is admitted and the table is unchanged; every other entry is unchanged; the reachability invariant is kept |
| RateLimiter.Limiter.WithRateLimit | src/app/api/rate-limiter.ts:93-107 | the table is updated as by `Step`; the reply is the rejection when there is one, otherwise the handler's result; the handler is invoked iff there was no rejection |
| RateLimiter.Limiter.CleanupOldEntries | src/app/api/rate-limiter.ts:21-30 | the loop over the keys leaves exactly the entries not older than an hour, unchanged |
| Sanitize.ReplaceAll | src/lib/utils/sanitize.ts:10-14 | a global replacement removes every occurrence when the replacement does not contain the character, and leaves a string without it unchanged |
| Sanitize.ReplaceAllConcat | src/lib/utils/sanitize.ts:10-14 | a global single-character replacement distributes over concatenation |
| Sanitize.EscapeChar | src/lib/utils/sanitize.ts:10-14 | the special characters `& < > " '` map to entities longer than one character; every other character maps to itself (`!IsSpecial(c) ==> e == [c]`) |
| Sanitize.EscapeChainChar | src/lib/utils/sanitize.ts:9-14 | on one character the five chained replacements give that character's entity; `&` first means no entity is escaped twice |
| Sanitize.EscapeChain | src/lib/utils/sanitize.ts:9-14 | definition: the five chained global replacements, `&` first; its properties are `EscapeChainChar` and `EscapeChainConcat` |
| Sanitize.EscapeChainConcat | src/lib/utils/sanitize.ts:9-14 | the replacement chain distributes over concatenation |
| Sanitize.SanitizeText | src/lib/utils/sanitize.ts:5-15 | definition: the empty string as is, else the five chained replacements; its properties are the `SanitizeText…` lemmas |
| Sanitize.SanitizeTextEscapesEachChar | src/lib/utils/sanitize.ts:5-15 | `sanitizeText` equals the character-by-character escape map, and the empty string gives the empty string |
| Sanitize.SanitizeTextConcat | src/lib/utils/sanitize.ts:5-15 | `sanitizeText(a + b) == sanitizeText(a) + sanitizeText(b)` |
| Sanitize.SanitizeTextNoMarkup | src/lib/utils/sanitize.ts:9-14 | the output contains none of `< > " '` |
| Sanitize.SanitizeTextLength | src/lib/utils/sanitize.ts:9-14 | the output is at least as long as the input, and as long exactly when the input has none of the five special characters |
| Sanitize.SanitizeTextReversible | src/lib/utils/sanitize.ts:9-14 | decoding the five entities gives back the input, so escaping loses no text |
| Sanitize.SanitizeTextIdentity | src/lib/utils/sanitize.ts:5-15 | text without `& < > " '` is returned unchanged |
| Sanitize.SanitizeObject | src/lib/utils/sanitize.ts:20-34 | the result of `sanitizeObject` is always a plain object |
| Sanitize.SanitizeValue | src/lib/utils/sanitize.ts:24-30 | definition: the new value of one property, the escaped string, the sanitized object or array, or the value itself; its property is `SanitizeValueClean` |
| Sanitize.Spread | src/lib/utils/sanitize.ts:21 | `{ ...v }` has one field per own property, array element or string character, and none for other values |
| Sanitize.SanitizeObjectInPlace | src/lib/utils/sanitize.ts:20-34 | the loop that overwrites each key of the copy, recursing into nested objects, computes exactly `SanitizeObject` |
| Sanitize.SanitizeObjectFields | src/lib/utils/sanitize.ts:23-31 | the keys and their order are kept; string values are escaped, objects and arrays sanitized, other values left as they are |
| Sanitize.SanitizeObjectClean | src/lib/utils/sanitize.ts:20-34 | after `sanitizeObject` no string anywhere in the tree contains markup |
| Sanitize.SanitizeValueClean | src/lib/utils/sanitize.ts:26-30 | each overwritten property value is free of markup at every depth |
| Sanitize.SanitizeObjectArrayBecomesObject | src/lib/utils/sanitize.ts:28-29 | a nested array comes back as an object keyed "0", "1", … because the recursive call spreads it |
| Sanitize.IsValidUsername | src/lib/utils/sanitize.ts:63-67 | definition: the test of `^[a-zA-Z0-9_-]+$`; its property is `IsValidUsernameIff` |
| Sanitize.IsValidUsernameIff | src/lib/utils/sanitize.ts:63-67 | `isValidUsername(u)` holds iff `u` is non-empty and every character is in `[a-zA-Z0-9_-]` |
| Validators.LocationFilled | src/lib/utils/validators.ts:20-26 | definition: the refinement, the address pair for the address tab and the railway/station pair otherwise; its property is `PostLocationIff` |
| Validators.PostLocationIff | src/lib/utils/validators.ts:20-26 | for a form with valid fields the refinement holds iff the address tab has prefecture and city filled, or the station tab has railway and station filled |
| Validators.RequiredString | src/lib/utils/validators.ts:4-12 | a required string field parses to `s` exactly when the body holds the string `s` under that key |
| Validators.OptionalString | src/lib/utils/validators.ts:13-19 | an optional string field is absent when the key is missing, `s` when the key holds the string `s`, and fails otherwise |
| Validators.PostFormValid | src/lib/utils/validators.ts:3-30 | definition: the field rules of `postFormSchema` and its location refinement; its properties are `ValidFormBounds` and `PostLocationIff` |
| Validators.PostFormShape | src/lib/utils/validators.ts:3-19 | definition: the field types of `postFormSchema` on a JSON body; its properties are `ParsedPostForm` and `ParsePostFormOfEncoded` |
| Validators.ParsePostForm | src/lib/utils/validators.ts:3-30 | definition: `postFormSchema.safeParse`, the field types and then the rules; its properties are `ParsedPostForm` and `ParsePostFormOfEncoded` |
| Validators.ParsedPostForm | src/lib/utils/validators.ts:3-30 | an accepted body is an object in which every field of the form was sent as a string under its own key, each optional field absent exactly when the form holds none; the length bounds and both enumerations hold; and the location pair of the chosen tab is filled |
| Validators.ValidFormBounds | src/lib/utils/validators.ts:4-26 | a valid form has title length 3..100, game title 2..100, description at most 1000, a listed play type and tab, and the tab's pair filled |
| Validators.ParsePostFormOfEncoded | src/lib/utils/validators.ts:3-30 | a form sent as a JSON object parses back to itself exactly when it satisfies the rules, and is refused otherwise |
| Validators.UsernameRule | src/lib/utils/validators.ts:33-36 | definition: the username rule of the profile and sign-up forms, 3 to 20 characters from `[a-zA-Z0-9_-]`; its properties are `UsernameRuleAgrees` and `UserFormAccepted` |
| Validators.UsernameRuleAgrees | src/lib/utils/validators.ts:33-36 | the form's username rule implies `isValidUsername`, and the two agree on every string of 3 to 20 characters |
| Validators.UserFormValid | src/lib/utils/validators.ts:32-40 | definition: `userFormSchema`, the username rule and a bio of at most 200 characters; its property is `UserFormAccepted` |
| Validators.UserFormAccepted | src/lib/utils/validators.ts:32-40 | an accepted profile has a username that `isValidUsername` accepts and `sanitizeText` leaves unchanged, and a bio of at most 200 characters |
| Validators.LookaheadFinds | src/lib/utils/validators.ts:46 | definition: a lookahead `(?=.*[class])` anchored at the start; its properties are `LookaheadFindsIff` and `LookaheadStopsAtLineBreak` |
| Validators.LookaheadFindsIff | src/lib/utils/validators.ts:46 | a lookahead `(?=.*[class])` at the start succeeds iff a member of the class occurs before the first line terminator |
| Validators.PasswordRule | src/lib/utils/validators.ts:44-46 | definition: at least 8 characters and the three lookaheads; its properties are `PasswordRuleSingleLine`, `LookaheadStopsAtLineBreak` and `SignUpAccepted` |
| Validators.PasswordRuleSingleLine | src/lib/utils/validators.ts:44-46 | on a one-line password the rule is: at least 8 characters with a lowercase letter, an uppercase letter and a digit |
| Validators.LookaheadStopsAtLineBreak | src/lib/utils/validators.ts:46 | a character class that appears only after a line break does not satisfy its lookahead |
| Validators.SignUpValid | src/lib/utils/validators.ts:42-54 | definition: `signUpSchema` with the e-mail check as an input; its property is `SignUpAccepted` |
| Validators.SignUpAccepted | src/lib/utils/validators.ts:42-54 | an accepted sign-up agreed to the terms, has a 3–20 character username that `isValidUsername` accepts, and a password of at least 8 characters with a lowercase letter, an uppercase letter and a digit |
| Validators.SignInValid | src/lib/utils/validators.ts:56-59 | definition: `signInSchema`, the e-mail check and a non-empty password; its property is `SignInLooserThanSignUp` |
| Validators.SignInLooserThanSignUp | src/lib/utils/validators.ts:42-59 | credentials accepted at sign-up are accepted at sign-in, and sign-in also accepts the password "x", which sign-up refuses |
| Validators.ApplicationValid | src/lib/utils/validators.ts:61-63 | definition: `applicationSchema`, an optional message of at most 300 characters |
| Validators.ParseApplication | src/lib/utils/validators.ts:61-63 | definition: `applicationSchema.safeParse` on a JSON body; its property is `ParsedApplication` |
| Validators.ParsedApplication | src/lib/utils/validators.ts:61-63 | an application body is accepted iff it is an object whose `message` is absent or a string of at most 300 characters, and the accepted message is the one sent |
| Validators.RatingValid | src/lib/utils/validators.ts:65-70 | definition: `ratingSchema`, four scores from 1 to 5 and an optional comment of at most 300 characters |
| Validators.RequiredNumber | src/lib/utils/validators.ts:66-69 | a required number field parses to `x` exactly when the body holds the number `x` under that key |
| Validators.ParseRating | src/lib/utils/validators.ts:65-70 | definition: `ratingSchema.safeParse` on a JSON body; its properties are the four lemmas below |
| Validators.RatingScoreOutOfRange | src/lib/utils/validators.ts:66-69 | a body with a score below 1 or above 5 under any of the four score keys is refused |
| Validators.RatingCommentTooLong | src/lib/utils/validators.ts:70 | a body whose comment is longer than 300 characters is refused |
| Validators.ParsedRating | src/lib/utils/validators.ts:65-70 | an accepted rating took each score from its key as a number in [1, 5], fractions included, and the comment, if any, as sent and at most 300 characters long |
| Validators.RatingAccepted | src/lib/utils/validators.ts:65-70 | a body holding the four scores as numbers and the comment as a string, or no comment, is accepted as exactly that rating whenever the rating meets the rules; with `ParsedRating` this pins `ratingSchema` down in both directions |
| Middleware.AnyPrefix | src/middleware.ts:15-17 | definition: `paths.some(p => pathname.startsWith(p))`; its property is `AnyPrefixIff` |
| Middleware.AnyPrefixIff | src/middleware.ts:15-17 | `paths.some(p => pathname.startsWith(p))` holds iff one of the paths is a prefix |
| Middleware.IsProtectedPath | src/middleware.ts:14-17 | definition: the path starts with one of the protected prefixes; its property is `ProtectedPathIff` |
| Middleware.IsProtectedApi | src/middleware.ts:20-22 | definition: under `/api/` but not under `/api/public/` or `/api/auth/`; its property is `OpenApiRoutes` |
| Middleware.Blocked | src/middleware.ts:24 | definition: a protected page or protected API route requested without a session; its properties are `PassIff` and `BlockedOutcome` |
| Middleware.Decide | src/middleware.ts:24-40 | definition: the middleware's answer; its properties are `PassIff`, `BlockedOutcome` and `UnauthorizedOnlyForApi` |
| Middleware.ProtectedPathIff | src/middleware.ts:14-17 | a page is protected iff its path starts with `/profile`, `/posts/new` or `/messages` |
| Middleware.PassIff | src/middleware.ts:24-40 | a request passes iff it has a session or targets neither a protected page nor a protected API route |
| Middleware.BlockedOutcome | src/middleware.ts:24-37 | a blocked request under `/api/` gets the 401 body; any other blocked request is redirected to the login page with its own path as `redirect` |
| Middleware.UnauthorizedOnlyForApi | src/middleware.ts:14-37 | a 401 is given iff a protected API route is requested without a session, and a redirect iff a protected page is |
| Middleware.OpenApiRoutes | src/middleware.ts:20-22 | the `/api/public/` and `/api/auth/` routes and the bare `/api` are open; `/api/posts` and `/profileX` are protected |
| PostsRoute.SafeLimit | src/app/api/posts/route.ts:21-24 | the page size is never above 50 |
| PostsRoute.SafeLimitDefault | src/app/api/posts/route.ts:21 | a missing or empty `limit` gives 10 |
| PostsRoute.SafeLimitOfNumber | src/app/api/posts/route.ts:21-24 | a numeric `limit` n gives `min(n, 50)` |
| PostsRoute.SafeLimitNotANumber | src/app/api/posts/route.ts:21-24 | every non-empty `limit` without a digit gives NaN, which the cap lets through |
| PostsRoute.SafeSearch | src/app/api/posts/route.ts:50 | the escaped search is at least as long as the search |
| PostsRoute.SafeSearchConcat | src/app/api/posts/route.ts:50 | the escaping distributes over concatenation |
| PostsRoute.SafeSearchGuarded | src/app/api/posts/route.ts:50 | every `%` and `_` of the escaped search is preceded by a backslash |
| PostsRoute.SafeSearchReversible | src/app/api/posts/route.ts:50 | removing the inserted backslashes gives back the search, so every other character is unchanged |
| PostsRoute.SafeSearchIdentity | src/app/api/posts/route.ts:50 | a search without `%` or `_` is unchanged |
| PostsRoute.SafeSearchKeepsBackslash | src/app/api/posts/route.ts:50 | a backslash typed before `%`, anywhere in the search, is kept in front of the inserted one: `a + "\%" + b` escapes to the escaped `a`, then `\\%`, then the escaped `b` |
| PostsRoute.SearchFilter | src/app/api/posts/route.ts:51 | definition: the `or` filter matching the escaped search in title or description; its property is `SearchFilterInjective` |
| PostsRoute.SearchFilterInjective | src/app/api/posts/route.ts:50-51 | different searches give different `or` filters |
| PostsRoute.NonEmpty | src/app/api/posts/route.ts:39-45 | `if (param)` lets a filter through exactly when it is present and non-empty |
| PostsRoute.ListQuery | src/app/api/posts/route.ts:17-52 | definition: the list query built from the query string; its property is `ListQueryFilters` |
| PostsRoute.ListQueryFilters | src/app/api/posts/route.ts:17-52 | a numeric limit is at most 50, and a digit-free limit passes as NaN (`SafeLimitNotANumber`); the query filters by status and play type exactly when those are present and non-empty; it searches exactly when `search` is non-empty, with the escaped pattern |
| PostsRoute.BuildPostData | src/app/api/posts/route.ts:139-154 | definition: the `postData` row; its properties are `BuildPostDataShape` and `ParticipantLimitMayBeNaN` |
| PostsRoute.BuildPostDataShape | src/app/api/posts/route.ts:139-154 | a record from a valid form is open and belongs to the user; it keeps the tab's location pair as sent (both filled) and nulls the other; the participant limit is `parseInt(participants)`; a filled description is stored as sent and an empty or missing one as null; title, game id, play type, date, time and tab are copied unchanged |
| PostsRoute.ParticipantLimitMayBeNaN | src/app/api/posts/route.ts:151 | a non-empty participants value without a digit meets the schema's participants rule (at least one character) and yields a NaN `participant_limit` |
| PostsRoute.CreatePost | src/app/api/posts/route.ts:90-154 | definition: session, then body, then `sanitizeObject`, then the schema, then the row; its properties are `CreatePostNeedsSession`, `CreatePostInsertsClean` and `CreatePostOfForm` |
| PostsRoute.CreatePostNeedsSession | src/app/api/posts/route.ts:95-102 | the handler answers 401 iff there is no session, whatever the body |
| PostsRoute.CreatePostInsertsClean | src/app/api/posts/route.ts:105-154 | for any body, an inserted row is open, belongs to the session's user, and its free-text fields hold no markup |
| PostsRoute.SanitizeEncodedForm | src/app/api/posts/route.ts:108 | sanitizing a form sent as JSON gives the JSON of the form with every string escaped |
| PostsRoute.CreatePostOfForm | src/app/api/posts/route.ts:104-154 | a signed-in user's form is inserted as the record of its escaped form when the escaped form satisfies the schema, and refused with 400 otherwise |
| PostsRoute.NaNParticipantsInserted | src/app/api/posts/route.ts:104-154 | a signed-in user's form whose escaped form meets the schema, with a participants value without digits or special characters, is inserted with a NaN `participant_limit` |
| PostsRoute.EscapedTitleTooLong | src/app/api/posts/route.ts:108-121 | a 26-character title of `<` is refused, because it is 104 characters once escaped |
| PostsRoute.Get | src/app/api/posts/route.ts:12-85 | GET updates the limiter table as `Step` does at 30 per 60000 ms, and returns the rejection or the list query |
| PostsRoute.Post | src/app/api/posts/route.ts:90-180 | POST updates the limiter table as `Step` does at 10 per 60000 ms, and returns the rejection or the handler's answer |
| PostsRoute.SharedCounter | src/app/api/posts/route.ts:85-180 | an address with 10 to 29 requests in its live window may still list posts but may not create one |
| PostsRoute.ListingExhaustsPosting | src/app/api/posts/route.ts:85-180 | ten list requests within a minute from a fresh address all pass and use up its posting allowance for the rest of that minute |

## Left out

- String lengths count Unicode code points (Dafny `char`). JavaScript and zod count UTF-16 code units, so characters outside the Basic Multilingual Plane count once here and twice in the source. The same holds for spreading a string in `Sanitize.Spread` / `Sanitize.SanitizeObject`: the model gives one field per code point, whereas `{...s}` gives one field per UTF-16 code unit, so such a character becomes two lone-surrogate fields in the source.
- Numbers: query and form numbers are unbounded integers or NaN, and rating scores are `real`. Floating-point rounding, `Infinity` and `-0` are not modelled. `Js.IntToString` prints every integer in plain decimal, which matches `Number.prototype.toString` only below 1e21, where JavaScript switches to exponent form (`"1e+21"`); the header values (about 1.7e9 for the reset) stay far below that.
- Timestamps and `now` are unbounded integers. The arithmetic is exact where the source uses doubles.
- The e-mail format check of the sign-up and sign-in schemas is a zod internal. It is the input `emailAccepted`.
- The `setInterval` timer and the `global.cleanupTimer` guard are ambient scheduling. The sweep is the method `CleanupOldEntries(now)`, and nothing models when it runs.
- Concurrency between requests is not modelled. Each call is one atomic step, as single-threaded JavaScript runs it.
- `isSafeUrl` is not part of this model, because it relies on the WHATWG URL parser.
- The `config.matcher` patterns of the middleware are Next.js routing configuration. The decision is modelled for every path.
- The Supabase client is left out: the session lookup, the list query's execution, the insert and their errors. GET yields the query it would run and POST the row it would insert. The `applications_count` reshaping and the Cache-Control header of GET are left out with the query results.
- `NextResponse` construction is left out. A rejection is modelled by its status, body fields and headers; the redirect by the `redirect` value. The URL encoding of that value is not modelled.
- `req.json()` is an input, the parsed body or None. A body that is not JSON is answered with the 500 of the catch block.
- zod's error formats and messages, and its stripping of unknown keys, are left out, since no modelled consumer reads them. `postFormSchema` is modelled as a yes/no check plus the typed form.
- JavaScript enumerates integer-like keys first. The model keeps sent order, and nothing modelled depends on that order.
- The NaN that `count++` writes onto an inherited member is not modelled. For the key "__proto__" that member is `Object.prototype` itself. No modelled read observes it, since every stored entry carries its own `count`.
- Json.Get: an object's fields stand for its own properties, and JavaScript property names are distinct. For a field list with a repeated key, `Get` takes the first value, whereas `JSON.parse` keeps the last.

## Findings

| source | as written | input that shows it | evidently intended | confidence | as-written member | corrected member |
|---|---|---|---|---|---|---|
| src/app/api/rate-limiter.ts:13-62 | the table is the plain object `{}`, so `ipRequests[ip]` finds a truthy inherited member for a key such as "constructor"; the window then never expires (`now - undefined` is NaN), the count becomes NaN and is never above the limit | eleven requests with `X-Forwarded-For: constructor` within five seconds at limit 10: all eleven are admitted | every key is limited per key, as with a prototype-free table (`Object.create(null)` or a `Map`) | high, not executed | RateLimiter.ConstructorKeyUnlimited | RateLimiter.WindowRun |

The as-written behaviour is `RateLimiter.Step`, and the `Limiter` class
follows it, since the class models the code. The corrected behaviour is
`RateLimiter.Decide` applied to every key, what a prototype-free table
gives. `WindowRun`, `LiveRun` and the scenario lemmas are proved about it.
`OrdinaryKeyRun` shows that the two agree on every key that is not an
inherited name.
