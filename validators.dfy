/** The form schemas as predicates: the post form (field bounds, the two
    enumerations and the location refinement), the profile form, sign-up,
    sign-in, the application message and the rating. `ParsePostForm` models
    `postFormSchema.safeParse` on a JSON body: the type check of each field,
    then the rules. Lengths count characters. */
module Validators {
  import opened Js
  import opened Json
  import Sanitize

  /** `z.string().max(hi).optional()`. */
  predicate OptionalMaxLength(s: Option<string>, hi: nat) {
    s.None? || |s.value| <= hi
  }

  /** `!!s` on an optional string: present and non-empty. */
  predicate Filled(s: Option<string>) {
    s.Some? && s.value != []
  }

  const PlayTypes: seq<string> := ["battle", "coop", "trade", "other"]
  const LocationTabs: seq<string> := ["address", "station"]

  datatype PostForm = PostForm(
    gameTitle: string,
    gamePlatform: string,
    title: string,
    playType: string,
    date: string,
    time: string,
    locationTab: string,
    prefecture: Option<string>,
    city: Option<string>,
    railway: Option<string>,
    station: Option<string>,
    participants: string,
    description: Option<string>,
    gameId: Option<string>)

  /** The per-field rules of `postFormSchema`. */
  predicate PostFieldsValid(f: PostForm) {
    && 2 <= |f.gameTitle| <= 100
    && |f.gamePlatform| >= 1
    && 3 <= |f.title| <= 100
    && f.playType in PlayTypes
    && |f.date| >= 1
    && |f.time| >= 1
    && f.locationTab in LocationTabs
    && |f.participants| >= 1
    && OptionalMaxLength(f.description, 1000)
  }

  /** The refinement: the address pair is filled for the address tab, the
      railway/station pair for any other tab. */
  predicate LocationFilled(f: PostForm) {
    if f.locationTab == "address" then Filled(f.prefecture) && Filled(f.city)
    else Filled(f.railway) && Filled(f.station)
  }

  predicate PostFormValid(f: PostForm) {
    PostFieldsValid(f) && LocationFilled(f)
  }

  /** The location rule of a valid form, both directions: either the address
      tab with prefecture and city, or the station tab with railway and station. */
  lemma PostLocationIff(f: PostForm)
    requires PostFieldsValid(f)
    ensures LocationFilled(f) <==>
      (f.locationTab == "address" && Filled(f.prefecture) && Filled(f.city))
      || (f.locationTab == "station" && Filled(f.railway) && Filled(f.station))
  {
  }

  /** `z.string()` on a required key. */
  function RequiredString(fs: seq<Field>, key: string): (r: Option<string>)
    ensures forall s :: r == Some(s) <==> Get(fs, key) == Some(Str(s))
  {
    match Get(fs, key)
    case Some(Str(s)) => Some(s)
    case _ => None
  }

  /** `z.string().optional()`: an absent key parses to None, a string to that
      string, anything else fails (the outer None). */
  function OptionalString(fs: seq<Field>, key: string): (r: Option<Option<string>>)
    ensures r == Some(None) <==> Get(fs, key).None?
    ensures forall s :: r == Some(Some(s)) <==> Get(fs, key) == Some(Str(s))
  {
    match Get(fs, key)
    case None => Some(None)
    case Some(Str(s)) => Some(Some(s))
    case _ => None
  }

  /** The field types of `postFormSchema`: a form when the body is an object
      whose fields have the declared types. */
  function PostFormShape(body: Value): Option<PostForm> {
    if !body.Object? then None
    else
      var fs := body.fields;
      var gameTitle, gamePlatform, title := RequiredString(fs, "gameTitle"), RequiredString(fs, "gamePlatform"), RequiredString(fs, "title");
      var playType, date, time := RequiredString(fs, "playType"), RequiredString(fs, "date"), RequiredString(fs, "time");
      var locationTab, participants := RequiredString(fs, "locationTab"), RequiredString(fs, "participants");
      var prefecture, city := OptionalString(fs, "prefecture"), OptionalString(fs, "city");
      var railway, station := OptionalString(fs, "railway"), OptionalString(fs, "station");
      var description, gameId := OptionalString(fs, "description"), OptionalString(fs, "gameId");
      if gameTitle.None? || gamePlatform.None? || title.None? || playType.None? || date.None?
        || time.None? || locationTab.None? || participants.None? || prefecture.None? || city.None?
        || railway.None? || station.None? || description.None? || gameId.None?
      then None
      else Some(PostForm(gameTitle.value, gamePlatform.value, title.value, playType.value,
        date.value, time.value, locationTab.value, prefecture.value, city.value, railway.value,
        station.value, participants.value, description.value, gameId.value))
  }

  /** `postFormSchema.safeParse(body)`: the typed form when both the field
      types and the rules hold. */
  function ParsePostForm(body: Value): Option<PostForm> {
    var shape := PostFormShape(body);
    if shape.Some? && PostFormValid(shape.value) then shape else None
  }

  /** What an accepted post body guarantees, whatever else it holds: it is an
      object, every field of the form was sent as a string under its own key
      (an optional one absent exactly when the form holds None), the bounds and enumerations hold, and exactly one
      location pair is filled, the one of the chosen tab. */
  lemma ParsedPostForm(body: Value, f: PostForm)
    requires ParsePostForm(body) == Some(f)
    ensures body.Object?
    ensures Get(body.fields, "gameTitle") == Some(Str(f.gameTitle))
    ensures Get(body.fields, "gamePlatform") == Some(Str(f.gamePlatform))
    ensures Get(body.fields, "title") == Some(Str(f.title))
    ensures Get(body.fields, "playType") == Some(Str(f.playType))
    ensures Get(body.fields, "date") == Some(Str(f.date))
    ensures Get(body.fields, "time") == Some(Str(f.time))
    ensures Get(body.fields, "locationTab") == Some(Str(f.locationTab))
    ensures Get(body.fields, "participants") == Some(Str(f.participants))
    ensures SentAs(body.fields, "prefecture", f.prefecture) && SentAs(body.fields, "city", f.city)
    ensures SentAs(body.fields, "railway", f.railway) && SentAs(body.fields, "station", f.station)
    ensures SentAs(body.fields, "description", f.description) && SentAs(body.fields, "gameId", f.gameId)
    ensures 3 <= |f.title| <= 100 && 2 <= |f.gameTitle| <= 100
    ensures f.description.Some? ==> |f.description.value| <= 1000
    ensures f.playType in {"battle", "coop", "trade", "other"}
    ensures f.locationTab == "address" || f.locationTab == "station"
    ensures f.locationTab == "address" ==> Filled(f.prefecture) && Filled(f.city)
    ensures f.locationTab == "station" ==> Filled(f.railway) && Filled(f.station)
  {
    ShapeReadsFields(body, f);
    ValidFormBounds(f);
  }

  /** An optional string field as it was sent: under `key` as that string, or
      absent when the value is None. */
  predicate SentAs(fs: seq<Field>, key: string, v: Option<string>) {
    if v.Some? then Get(fs, key) == Some(Str(v.value)) else Get(fs, key).None?
  }

  lemma OptionalSent(fs: seq<Field>, key: string, v: Option<string>)
    requires OptionalString(fs, key) == Some(v)
    ensures SentAs(fs, key, v)
  {
  }

  lemma ShapeReadsFields(body: Value, f: PostForm)
    requires PostFormShape(body) == Some(f)
    ensures body.Object?
    ensures Get(body.fields, "gameTitle") == Some(Str(f.gameTitle))
    ensures Get(body.fields, "gamePlatform") == Some(Str(f.gamePlatform))
    ensures Get(body.fields, "title") == Some(Str(f.title))
    ensures Get(body.fields, "playType") == Some(Str(f.playType))
    ensures Get(body.fields, "date") == Some(Str(f.date))
    ensures Get(body.fields, "time") == Some(Str(f.time))
    ensures Get(body.fields, "locationTab") == Some(Str(f.locationTab))
    ensures Get(body.fields, "participants") == Some(Str(f.participants))
    ensures SentAs(body.fields, "prefecture", f.prefecture) && SentAs(body.fields, "city", f.city)
    ensures SentAs(body.fields, "railway", f.railway) && SentAs(body.fields, "station", f.station)
    ensures SentAs(body.fields, "description", f.description) && SentAs(body.fields, "gameId", f.gameId)
  {
    var fs := body.fields;
    OptionalSent(fs, "prefecture", f.prefecture);
    OptionalSent(fs, "city", f.city);
    OptionalSent(fs, "railway", f.railway);
    OptionalSent(fs, "station", f.station);
    OptionalSent(fs, "description", f.description);
    OptionalSent(fs, "gameId", f.gameId);
  }

  lemma ValidFormBounds(f: PostForm)
    requires PostFormValid(f)
    ensures 3 <= |f.title| <= 100 && 2 <= |f.gameTitle| <= 100
    ensures f.description.Some? ==> |f.description.value| <= 1000
    ensures f.playType in {"battle", "coop", "trade", "other"}
    ensures f.locationTab == "address" || f.locationTab == "station"
    ensures f.locationTab == "address" ==> Filled(f.prefecture) && Filled(f.city)
    ensures f.locationTab == "station" ==> Filled(f.railway) && Filled(f.station)
  {
    assert PlayTypes == ["battle", "coop", "trade", "other"];
    assert LocationTabs == ["address", "station"];
  }

  /** The keys `postFormSchema` reads, in declaration order. */
  const PostFormKeys: seq<string> := ["gameTitle", "gamePlatform", "title", "playType", "date",
    "time", "locationTab", "prefecture", "city", "railway", "station", "participants",
    "description", "gameId"]

  function PostFormValues(f: PostForm): (vs: seq<Option<string>>)
    ensures |vs| == |PostFormKeys|
  {
    [Some(f.gameTitle), Some(f.gamePlatform), Some(f.title), Some(f.playType), Some(f.date),
     Some(f.time), Some(f.locationTab), f.prefecture, f.city, f.railway, f.station,
     Some(f.participants), f.description, f.gameId]
  }

  /** An object with a string field per present value, in key order. */
  function BuildObject(keys: seq<string>, vals: seq<Option<string>>): seq<Field>
    requires |keys| == |vals|
  {
    if keys == [] then []
    else
      var rest := BuildObject(keys[1..], vals[1..]);
      if vals[0].Some? then [Field(keys[0], Str(vals[0].value))] + rest else rest
  }

  predicate DistinctKeys(keys: seq<string>) {
    forall i, j :: 0 <= i < j < |keys| ==> keys[i] != keys[j]
  }

  lemma {:induction false} BuildObjectGet(keys: seq<string>, vals: seq<Option<string>>, i: nat)
    requires |keys| == |vals| && DistinctKeys(keys) && i < |keys|
    ensures Get(BuildObject(keys, vals), keys[i]) == if vals[i].Some? then Some(Str(vals[i].value)) else None
  {
    var rest := BuildObject(keys[1..], vals[1..]);
    if i == 0 {
      if vals[0].None? {
        BuildObjectMissing(keys[1..], vals[1..], keys[0]);
      }
    } else {
      assert keys[1..][i - 1] == keys[i] && vals[1..][i - 1] == vals[i];
      assert keys[0] != keys[i];
      BuildObjectGet(keys[1..], vals[1..], i - 1);
    }
  }

  lemma {:induction false} BuildObjectMissing(keys: seq<string>, vals: seq<Option<string>>, key: string)
    requires |keys| == |vals| && key !in keys
    ensures Get(BuildObject(keys, vals), key).None?
  {
    if keys != [] {
      BuildObjectMissing(keys[1..], vals[1..], key);
    }
  }

  /** The JSON object a client sends for a form: required fields always,
      optional ones only when present. */
  function EncodePostForm(f: PostForm): Value {
    Object(BuildObject(PostFormKeys, PostFormValues(f)))
  }

  /** The schema reads every field from the key it is sent under: a form
      encoded as JSON parses back to itself exactly when it satisfies the rules. */
  lemma ParsePostFormOfEncoded(f: PostForm)
    ensures ParsePostForm(EncodePostForm(f)) == if PostFormValid(f) then Some(f) else None
  {
    PostFormKeysDistinct();
    ShapeOfBuiltObject(PostFormKeys, f);
    var body := EncodePostForm(f);
    assert PostFormShape(body) == Some(f);
  }

  lemma PostFormKeysDistinct()
    ensures DistinctKeys(PostFormKeys)
  {
  }

  lemma ShapeOfBuiltObject(keys: seq<string>, f: PostForm)
    requires |keys| == 14 && DistinctKeys(keys)
    requires keys[0] == "gameTitle" && keys[1] == "gamePlatform" && keys[2] == "title" && keys[3] == "playType" && keys[4] == "date" && keys[5] == "time" && keys[6] == "locationTab"
    requires keys[7] == "prefecture" && keys[8] == "city" && keys[9] == "railway" && keys[10] == "station" && keys[11] == "participants" && keys[12] == "description" && keys[13] == "gameId"
    ensures PostFormShape(Object(BuildObject(keys, PostFormValues(f)))) == Some(f)
  {
    var vals := PostFormValues(f);
    BuildObjectGet(keys, vals, 0);
    BuildObjectGet(keys, vals, 1);
    BuildObjectGet(keys, vals, 2);
    BuildObjectGet(keys, vals, 3);
    BuildObjectGet(keys, vals, 4);
    BuildObjectGet(keys, vals, 5);
    BuildObjectGet(keys, vals, 6);
    BuildObjectGet(keys, vals, 7);
    BuildObjectGet(keys, vals, 8);
    BuildObjectGet(keys, vals, 9);
    BuildObjectGet(keys, vals, 10);
    BuildObjectGet(keys, vals, 11);
    BuildObjectGet(keys, vals, 12);
    BuildObjectGet(keys, vals, 13);
    ShapeFromLookups(BuildObject(keys, vals), f);
  }

  lemma ShapeFromLookups(fs: seq<Field>, f: PostForm)
    requires RequiredString(fs, "gameTitle") == Some(f.gameTitle)
    requires RequiredString(fs, "gamePlatform") == Some(f.gamePlatform)
    requires RequiredString(fs, "title") == Some(f.title)
    requires RequiredString(fs, "playType") == Some(f.playType)
    requires RequiredString(fs, "date") == Some(f.date)
    requires RequiredString(fs, "time") == Some(f.time)
    requires RequiredString(fs, "locationTab") == Some(f.locationTab)
    requires OptionalString(fs, "prefecture") == Some(f.prefecture)
    requires OptionalString(fs, "city") == Some(f.city)
    requires OptionalString(fs, "railway") == Some(f.railway)
    requires OptionalString(fs, "station") == Some(f.station)
    requires RequiredString(fs, "participants") == Some(f.participants)
    requires OptionalString(fs, "description") == Some(f.description)
    requires OptionalString(fs, "gameId") == Some(f.gameId)
    ensures PostFormShape(Object(fs)) == Some(f)
  {
  }

  /** The username rule shared by the profile and sign-up forms: 3 to 20
      characters, each a letter, digit, `_` or `-`. */
  predicate UsernameRule(u: string) {
    3 <= |u| <= 20 && forall i :: 0 <= i < |u| ==> Sanitize.IsUsernameChar(u[i])
  }

  /** The form rule and `isValidUsername` agree on every string of an
      admissible length, and the form rule is the stricter of the two. */
  lemma UsernameRuleAgrees(u: string)
    ensures UsernameRule(u) ==> Sanitize.IsValidUsername(u)
    ensures 3 <= |u| <= 20 ==> (UsernameRule(u) <==> Sanitize.IsValidUsername(u))
  {
    Sanitize.IsValidUsernameIff(u);
  }

  datatype UserForm = UserForm(username: string, bio: Option<string>, prefecture: Option<string>, city: Option<string>)

  /** `userFormSchema`: the username rule and a bio of at most 200
      characters; prefecture and city are free. */
  predicate UserFormValid(f: UserForm) {
    UsernameRule(f.username) && OptionalMaxLength(f.bio, 200)
  }

  /** An accepted profile has a username that `isValidUsername` accepts and
      that `sanitizeText` leaves unchanged (none of its characters is
      escaped), and a bio of at most 200 characters. */
  lemma UserFormAccepted(f: UserForm)
    requires UserFormValid(f)
    ensures Sanitize.IsValidUsername(f.username)
    ensures Sanitize.SanitizeText(f.username) == f.username
    ensures f.bio.Some? ==> |f.bio.value| <= 200
  {
    UsernameRuleAgrees(f.username);
    Sanitize.SanitizeTextIdentity(f.username);
  }

  datatype CharClass = Lower | Upper | Digit

  predicate InClass(c: char, cls: CharClass) {
    match cls
    case Lower => 'a' <= c <= 'z'
    case Upper => 'A' <= c <= 'Z'
    case Digit => '0' <= c <= '9'
  }

  /** The lookahead `(?=.*[class])` anchored at the start: `.` stops at a line
      terminator, so a member of the class must occur on the first line. */
  function LookaheadFinds(s: string, cls: CharClass): bool {
    s != [] && !IsLineTerminator(s[0]) && (InClass(s[0], cls) || LookaheadFinds(s[1..], cls))
  }

  lemma {:induction false} LookaheadFindsIff(s: string, cls: CharClass)
    ensures LookaheadFinds(s, cls) <==>
      exists i :: 0 <= i < |s| && InClass(s[i], cls) && forall k :: 0 <= k <= i ==> !IsLineTerminator(s[k])
  {
    if s != [] {
      LookaheadFindsIff(s[1..], cls);
      if LookaheadFinds(s, cls) && !InClass(s[0], cls) {
        var j :| 0 <= j < |s| - 1 && InClass(s[1..][j], cls) && forall k :: 0 <= k <= j ==> !IsLineTerminator(s[1..][k]);
        assert forall k :: 0 <= k <= j + 1 ==> !IsLineTerminator(s[k]) by {
          forall k | 0 <= k <= j + 1 ensures !IsLineTerminator(s[k]) {
            if k > 0 { assert s[k] == s[1..][k - 1]; }
          }
        }
      }
      if exists i :: 0 <= i < |s| && InClass(s[i], cls) && forall k :: 0 <= k <= i ==> !IsLineTerminator(s[k]) {
        var i :| 0 <= i < |s| && InClass(s[i], cls) && forall k :: 0 <= k <= i ==> !IsLineTerminator(s[k]);
        if i > 0 {
          assert InClass(s[1..][i - 1], cls);
          assert forall k :: 0 <= k <= i - 1 ==> !IsLineTerminator(s[1..][k]) by {
            forall k | 0 <= k <= i - 1 ensures !IsLineTerminator(s[1..][k]) {
              assert s[1..][k] == s[k + 1];
            }
          }
        }
      }
    }
  }

  /** The sign-up password rule: at least 8 characters and the pattern
      `^(?=.*[a-z])(?=.*[A-Z])(?=.*\d)`. */
  predicate PasswordRule(p: string) {
    |p| >= 8 && LookaheadFinds(p, Lower) && LookaheadFinds(p, Upper) && LookaheadFinds(p, Digit)
  }

  predicate NoLineTerminator(s: string) {
    forall i :: 0 <= i < |s| ==> !IsLineTerminator(s[i])
  }

  /** On a single-line password the rule is: length at least 8 and some
      lowercase letter, some uppercase letter and some digit. */
  lemma PasswordRuleSingleLine(p: string)
    requires NoLineTerminator(p)
    ensures PasswordRule(p) <==>
      && |p| >= 8
      && (exists i :: 0 <= i < |p| && 'a' <= p[i] <= 'z')
      && (exists i :: 0 <= i < |p| && 'A' <= p[i] <= 'Z')
      && (exists i :: 0 <= i < |p| && '0' <= p[i] <= '9')
  {
    LookaheadFindsIff(p, Lower);
    LookaheadFindsIff(p, Upper);
    LookaheadFindsIff(p, Digit);
  }

  /** A character class that occurs only after a line break does not satisfy
      its lookahead. */
  lemma {:induction false} LookaheadStopsAtLineBreak(first: string, brk: char, rest: string, cls: CharClass)
    requires IsLineTerminator(brk)
    requires forall i :: 0 <= i < |first| ==> !InClass(first[i], cls)
    ensures !LookaheadFinds(first + [brk] + rest, cls)
  {
    var s := first + [brk] + rest;
    if first != [] {
      assert s[1..] == first[1..] + [brk] + rest;
      LookaheadStopsAtLineBreak(first[1..], brk, rest, cls);
    }
  }

  datatype SignUpForm = SignUpForm(email: string, password: string, username: string, terms: bool)

  /** `signUpSchema`; the e-mail format check is the outcome `emailAccepted`. */
  predicate SignUpValid(f: SignUpForm, emailAccepted: bool) {
    emailAccepted && PasswordRule(f.password) && UsernameRule(f.username) && f.terms
  }

  /** An accepted sign-up has agreed to the terms, a username `isValidUsername`
      accepts, and a password of at least 8 characters with a lowercase
      letter, an uppercase letter and a digit. */
  lemma SignUpAccepted(f: SignUpForm, emailAccepted: bool)
    requires SignUpValid(f, emailAccepted)
    ensures f.terms && emailAccepted
    ensures Sanitize.IsValidUsername(f.username) && 3 <= |f.username| <= 20
    ensures |f.password| >= 8
    ensures exists i :: 0 <= i < |f.password| && 'a' <= f.password[i] <= 'z'
    ensures exists i :: 0 <= i < |f.password| && 'A' <= f.password[i] <= 'Z'
    ensures exists i :: 0 <= i < |f.password| && '0' <= f.password[i] <= '9'
  {
    UsernameRuleAgrees(f.username);
    LookaheadFindsIff(f.password, Lower);
    LookaheadFindsIff(f.password, Upper);
    LookaheadFindsIff(f.password, Digit);
  }

  datatype SignInForm = SignInForm(email: string, password: string)

  /** `signInSchema`; the e-mail format check is the outcome `emailAccepted`. */
  predicate SignInValid(f: SignInForm, emailAccepted: bool) {
    emailAccepted && |f.password| >= 1
  }

  /** Sign-in is looser than sign-up: credentials that sign-up accepts are
      accepted at sign-in, and sign-in also takes a password that sign-up
      would refuse, as long as it is not empty. */
  lemma SignInLooserThanSignUp(f: SignUpForm, emailAccepted: bool)
    ensures SignUpValid(f, emailAccepted) ==> SignInValid(SignInForm(f.email, f.password), emailAccepted)
    ensures SignInValid(SignInForm(f.email, "x"), true) && !PasswordRule("x")
  {
  }

  datatype ApplicationForm = ApplicationForm(message: Option<string>)

  /** `applicationSchema`: an optional message of at most 300 characters. */
  predicate ApplicationValid(f: ApplicationForm) {
    OptionalMaxLength(f.message, 300)
  }

  /** `applicationSchema.safeParse(body)`. */
  function ParseApplication(body: Value): Option<ApplicationForm> {
    if !body.Object? then None
    else
      var message := OptionalString(body.fields, "message");
      if message.None? || !ApplicationValid(ApplicationForm(message.value)) then None
      else Some(ApplicationForm(message.value))
  }

  /** An application body is accepted exactly when it is an object whose
      `message` is absent or a string of at most 300 characters, and the
      message accepted is the one sent. */
  lemma ParsedApplication(body: Value)
    ensures ParseApplication(body).Some? <==>
      && body.Object?
      && (Get(body.fields, "message").None? || exists m :: Get(body.fields, "message") == Some(Str(m)) && |m| <= 300)
    ensures ParseApplication(body).Some? && body.Object? ==>
      forall m :: ParseApplication(body).value.message == Some(m) <==> Get(body.fields, "message") == Some(Str(m))
  {
  }

  datatype RatingForm = RatingForm(
    punctualityScore: real,
    mannerScore: real,
    skillScore: real,
    communicationScore: real,
    comment: Option<string>)

  predicate ScoreInRange(x: real) {
    1.0 <= x <= 5.0
  }

  /** `ratingSchema`: four scores from 1 to 5 and an optional comment of at
      most 300 characters. */
  predicate RatingValid(f: RatingForm) {
    && ScoreInRange(f.punctualityScore)
    && ScoreInRange(f.mannerScore)
    && ScoreInRange(f.skillScore)
    && ScoreInRange(f.communicationScore)
    && OptionalMaxLength(f.comment, 300)
  }

  /** `z.number()` on a required key. */
  function RequiredNumber(fs: seq<Field>, key: string): (r: Option<real>)
    ensures forall x :: r == Some(x) <==> Get(fs, key) == Some(Number(x))
  {
    match Get(fs, key)
    case Some(Number(x)) => Some(x)
    case _ => None
  }

  /** `ratingSchema.safeParse(body)`. */
  function ParseRating(body: Value): Option<RatingForm> {
    if !body.Object? then None
    else
      var fs := body.fields;
      var punctuality, manner := RequiredNumber(fs, "punctuality_score"), RequiredNumber(fs, "manner_score");
      var skill, communication := RequiredNumber(fs, "skill_score"), RequiredNumber(fs, "communication_score");
      var comment := OptionalString(fs, "comment");
      if punctuality.None? || manner.None? || skill.None? || communication.None? || comment.None? then None
      else
        var f := RatingForm(punctuality.value, manner.value, skill.value, communication.value, comment.value);
        if RatingValid(f) then Some(f) else None
  }

  const RatingScoreKeys: seq<string> := ["punctuality_score", "manner_score", "skill_score", "communication_score"]

  /** A rating body carrying a score below 1 or above 5 under any of the four
      score keys is refused. */
  lemma RatingScoreOutOfRange(body: Value, key: string, x: real)
    requires key in RatingScoreKeys
    requires body.Object? && Get(body.fields, key) == Some(Number(x))
    requires x < 1.0 || x > 5.0
    ensures ParseRating(body).None?
  {
  }

  /** A rating body whose comment is longer than 300 characters is refused. */
  lemma RatingCommentTooLong(body: Value, comment: string)
    requires body.Object? && Get(body.fields, "comment") == Some(Str(comment))
    requires |comment| > 300
    ensures ParseRating(body).None?
  {
  }

  /** An accepted rating took each score from its key as a number from 1 to
      5, fractions included, and the comment, if any, as sent and at most 300
      characters long. */
  lemma ParsedRating(body: Value, f: RatingForm)
    requires ParseRating(body) == Some(f)
    ensures body.Object?
    ensures Get(body.fields, "punctuality_score") == Some(Number(f.punctualityScore)) && 1.0 <= f.punctualityScore <= 5.0
    ensures Get(body.fields, "manner_score") == Some(Number(f.mannerScore)) && 1.0 <= f.mannerScore <= 5.0
    ensures Get(body.fields, "skill_score") == Some(Number(f.skillScore)) && 1.0 <= f.skillScore <= 5.0
    ensures Get(body.fields, "communication_score") == Some(Number(f.communicationScore)) && 1.0 <= f.communicationScore <= 5.0
    ensures f.comment.Some? ==> Get(body.fields, "comment") == Some(Str(f.comment.value)) && |f.comment.value| <= 300
    ensures f.comment.None? ==> Get(body.fields, "comment").None?
  {
  }

  /** The accepting side of `ratingSchema`: a body holding the four scores as
      numbers and the comment as a string (or no comment) is accepted as
      exactly that rating when the rating meets the rules. */
  lemma RatingAccepted(body: Value, f: RatingForm)
    requires body.Object?
    requires Get(body.fields, "punctuality_score") == Some(Number(f.punctualityScore))
    requires Get(body.fields, "manner_score") == Some(Number(f.mannerScore))
    requires Get(body.fields, "skill_score") == Some(Number(f.skillScore))
    requires Get(body.fields, "communication_score") == Some(Number(f.communicationScore))
    requires f.comment.None? ==> Get(body.fields, "comment").None?
    requires f.comment.Some? ==> Get(body.fields, "comment") == Some(Str(f.comment.value))
    requires RatingValid(f)
    ensures ParseRating(body) == Some(f)
  {
  }
}
