/** HTML escaping of user text (`sanitizeText`), its recursive application to
    every string of a JSON-like tree (`sanitizeObject`), and the username
    character check (`isValidUsername`). */
module Sanitize {
  import opened Js
  import opened Json

  /** `s.replace(/c/g, rep)` for a single-character pattern and a replacement
      without `$` patterns. */
  function ReplaceAll(s: string, c: char, rep: string): (r: string)
    ensures c !in rep ==> c !in r
    ensures c !in s ==> r == s
  {
    if s == [] then [] else (if s[0] == c then rep else [s[0]]) + ReplaceAll(s[1..], c, rep)
  }

  lemma {:induction false} ReplaceAllConcat(a: string, b: string, c: char, rep: string)
    ensures ReplaceAll(a + b, c, rep) == ReplaceAll(a, c, rep) + ReplaceAll(b, c, rep)
  {
    if a != [] {
      assert (a + b)[1..] == a[1..] + b;
      ReplaceAllConcat(a[1..], b, c, rep);
    } else {
      assert a + b == b;
    }
  }

  /** The five chained replacements, `&` first. */
  function EscapeChain(s: string): string {
    ReplaceAll(ReplaceAll(ReplaceAll(ReplaceAll(ReplaceAll(
      s, '&', "&amp;"), '<', "&lt;"), '>', "&gt;"), '"', "&quot;"), '\'', "&#039;")
  }

  /** `sanitizeText`: the empty string is returned as is, every other string
      goes through the five replacements. */
  function SanitizeText(text: string): string {
    if text == [] then [] else EscapeChain(text)
  }

  predicate IsSpecial(c: char) {
    c == '&' || c == '<' || c == '>' || c == '"' || c == '\''
  }

  /** The HTML entity for each of the five special characters; every other
      character stands for itself. */
  function EscapeChar(c: char): (e: string)
    ensures |e| >= 1
    ensures IsSpecial(c) <==> |e| > 1
    ensures !IsSpecial(c) ==> e == [c]
  {
    match c
    case '&' => "&amp;"
    case '<' => "&lt;"
    case '>' => "&gt;"
    case '"' => "&quot;"
    case '\'' => "&#039;"
    case _ => [c]
  }

  /** Reference definition: escape character by character. */
  function EscapeEach(s: string): string {
    if s == [] then [] else EscapeChar(s[0]) + EscapeEach(s[1..])
  }

  /** Markup characters that escaped text never contains. */
  predicate IsMarkup(c: char) {
    c == '<' || c == '>' || c == '"' || c == '\''
  }

  predicate NoMarkup(s: string) {
    forall i :: 0 <= i < |s| ==> !IsMarkup(s[i])
  }

  lemma EscapeChainChar(c: char)
    ensures EscapeChain([c]) == EscapeChar(c)
  {
    var amp := ReplaceAll([c], '&', "&amp;");
    if c == '&' {
      assert amp == "&amp;";
      assert '<' !in amp && '>' !in amp && '"' !in amp && '\'' !in amp;
    } else {
      assert amp == [c];
      var lt := ReplaceAll(amp, '<', "&lt;");
      if c == '<' {
        assert lt == "&lt;";
        assert '>' !in lt && '"' !in lt && '\'' !in lt;
      } else {
        assert lt == [c];
        var gt := ReplaceAll(lt, '>', "&gt;");
        if c == '>' {
          assert gt == "&gt;";
          assert '"' !in gt && '\'' !in gt;
        } else {
          assert gt == [c];
          var quot := ReplaceAll(gt, '"', "&quot;");
          if c == '"' {
            assert quot == "&quot;";
            assert '\'' !in quot;
          } else {
            assert quot == [c];
            assert ReplaceAll(quot, '\'', "&#039;") == EscapeChar(c);
          }
        }
      }
    }
  }

  lemma {:induction false} EscapeChainConcat(a: string, b: string)
    ensures EscapeChain(a + b) == EscapeChain(a) + EscapeChain(b)
  {
    var a1, b1 := ReplaceAll(a, '&', "&amp;"), ReplaceAll(b, '&', "&amp;");
    ReplaceAllConcat(a, b, '&', "&amp;");
    var a2, b2 := ReplaceAll(a1, '<', "&lt;"), ReplaceAll(b1, '<', "&lt;");
    ReplaceAllConcat(a1, b1, '<', "&lt;");
    var a3, b3 := ReplaceAll(a2, '>', "&gt;"), ReplaceAll(b2, '>', "&gt;");
    ReplaceAllConcat(a2, b2, '>', "&gt;");
    var a4, b4 := ReplaceAll(a3, '"', "&quot;"), ReplaceAll(b3, '"', "&quot;");
    ReplaceAllConcat(a3, b3, '"', "&quot;");
    ReplaceAllConcat(a4, b4, '\'', "&#039;");
  }

  /** Because `&` is replaced first, the chain of replacements escapes each
      character independently: no entity produced by one replacement is
      touched by a later one. */
  lemma {:induction false} SanitizeTextEscapesEachChar(s: string)
    ensures SanitizeText(s) == EscapeEach(s)
  {
    if s != [] {
      assert s == [s[0]] + s[1..];
      EscapeChainConcat([s[0]], s[1..]);
      EscapeChainChar(s[0]);
      SanitizeTextEscapesEachChar(s[1..]);
    }
  }

  lemma {:induction false} EscapeEachConcat(a: string, b: string)
    ensures EscapeEach(a + b) == EscapeEach(a) + EscapeEach(b)
  {
    if a == [] {
      assert a + b == b;
    } else {
      assert (a + b)[1..] == a[1..] + b;
      EscapeEachConcat(a[1..], b);
    }
  }

  /** `sanitizeText` distributes over concatenation. */
  lemma SanitizeTextConcat(a: string, b: string)
    ensures SanitizeText(a + b) == SanitizeText(a) + SanitizeText(b)
  {
    SanitizeTextEscapesEachChar(a);
    SanitizeTextEscapesEachChar(b);
    SanitizeTextEscapesEachChar(a + b);
    EscapeEachConcat(a, b);
  }

  lemma {:induction false} EscapeEachNoMarkup(s: string)
    ensures NoMarkup(EscapeEach(s))
  {
    if s != [] {
      EscapeEachNoMarkup(s[1..]);
      var head := EscapeChar(s[0]);
      assert NoMarkup(head);
      var r := EscapeEach(s);
      forall i | 0 <= i < |r| ensures !IsMarkup(r[i]) {
        if i >= |head| {
          assert r[i] == EscapeEach(s[1..])[i - |head|];
        }
      }
    }
  }

  /** Sanitized text contains none of `<`, `>`, `"` and `'`. */
  lemma SanitizeTextNoMarkup(s: string)
    ensures NoMarkup(SanitizeText(s))
  {
    SanitizeTextEscapesEachChar(s);
    EscapeEachNoMarkup(s);
  }

  lemma {:induction false} EscapeEachLength(s: string)
    ensures |EscapeEach(s)| >= |s|
    ensures |EscapeEach(s)| == |s| <==> forall i :: 0 <= i < |s| ==> !IsSpecial(s[i])
  {
    if s != [] {
      EscapeEachLength(s[1..]);
      assert forall i :: 1 <= i < |s| ==> s[i] == s[1..][i - 1];
    }
  }

  /** Escaping never shortens the text, and keeps its length exactly when no
      special character occurs. */
  lemma SanitizeTextLength(s: string)
    ensures |SanitizeText(s)| >= |s|
    ensures |SanitizeText(s)| == |s| <==> forall i :: 0 <= i < |s| ==> !IsSpecial(s[i])
  {
    SanitizeTextEscapesEachChar(s);
    EscapeEachLength(s);
  }

  /** Text without any of the five special characters passes unchanged. */
  lemma SanitizeTextIdentity(s: string)
    requires forall i :: 0 <= i < |s| ==> !IsSpecial(s[i])
    ensures SanitizeText(s) == s
  {
    SanitizeTextEscapesEachChar(s);
    EscapeEachIdentity(s);
  }

  lemma {:induction false} EscapeEachIdentity(s: string)
    requires forall i :: 0 <= i < |s| ==> !IsSpecial(s[i])
    ensures EscapeEach(s) == s
  {
    if s != [] {
      assert forall i :: 0 <= i < |s| - 1 ==> s[1..][i] == s[i + 1];
      EscapeEachIdentity(s[1..]);
      assert EscapeChar(s[0]) == [s[0]];
      assert s == [s[0]] + s[1..];
    }
  }

  /** Decoding of the five entities, left to right. */
  function Unescape(t: string): string {
    if t == [] then []
    else if StartsWith(t, "&amp;") then "&" + Unescape(t[5..])
    else if StartsWith(t, "&lt;") then "<" + Unescape(t[4..])
    else if StartsWith(t, "&gt;") then ">" + Unescape(t[4..])
    else if StartsWith(t, "&quot;") then "\"" + Unescape(t[6..])
    else if StartsWith(t, "&#039;") then "'" + Unescape(t[6..])
    else [t[0]] + Unescape(t[1..])
  }

  lemma UnescapeHead(c: char, rest: string)
    ensures Unescape(EscapeChar(c) + rest) == [c] + Unescape(rest)
  {
    var e := EscapeChar(c);
    var t := e + rest;
    assert t[..|e|] == e;
    assert t[|e|..] == rest;
    if !IsSpecial(c) {
      assert t[0] == c && t[1..] == rest;
      assert !StartsWith(t, "&amp;") && !StartsWith(t, "&lt;") && !StartsWith(t, "&gt;");
      assert !StartsWith(t, "&quot;") && !StartsWith(t, "&#039;");
    } else {
      // an entity is recognised by its second character
      assert StartsWith(t, e);
      if c == '<' || c == '>' {
        assert t[1] != "&amp;"[1];
        if c == '>' { assert t[1] != "&lt;"[1]; }
      } else if c == '"' || c == '\'' {
        assert t[1] != "&amp;"[1] && t[1] != "&lt;"[1] && t[1] != "&gt;"[1];
        if c == '\'' { assert t[1] != "&quot;"[1]; }
      }
    }
  }

  /** No information is lost: decoding the entities gives back the input. */
  lemma {:induction false} SanitizeTextReversible(s: string)
    ensures Unescape(SanitizeText(s)) == s
  {
    SanitizeTextEscapesEachChar(s);
    EscapeEachReversible(s);
  }

  lemma {:induction false} EscapeEachReversible(s: string)
    ensures Unescape(EscapeEach(s)) == s
  {
    if s != [] {
      UnescapeHead(s[0], EscapeEach(s[1..]));
      EscapeEachReversible(s[1..]);
    }
  }

  /** `sanitizeObject`: the spread copy `{ ...v }` with every string value
      escaped and every object or array value sanitized recursively. Spreading
      an array or a string gives an object keyed by the indices; spreading any
      other primitive gives the empty object. */
  function SanitizeObject(v: Value): (r: Value)
    decreases v, 0
    ensures r.Object?
  {
    match v
    case Object(fs) =>
      Object(seq(|fs|, i requires 0 <= i < |fs| => Field(fs[i].key, SanitizeValue(fs[i].value))))
    case Array(items) =>
      Object(seq(|items|, i requires 0 <= i < |items| => Field(IntToString(i), SanitizeValue(items[i]))))
    case Str(s) =>
      Object(seq(|s|, i requires 0 <= i < |s| => Field(IntToString(i), Str(SanitizeText([s[i]])))))
    case _ => Object([])
  }

  /** One property value: strings are escaped, non-null objects (arrays
      included) are sanitized, numbers, booleans and null are kept. */
  function SanitizeValue(v: Value): Value
    decreases v, 1
  {
    match v
    case Str(s) => Str(SanitizeText(s))
    case Object(_) => SanitizeObject(v)
    case Array(_) => SanitizeObject(v)
    case _ => v
  }

  /** The copy `{ ...v }`: own fields of an object, index-keyed elements of an
      array or characters of a string, nothing for other values. */
  function Spread(v: Value): (fs: seq<Field>)
    ensures |fs| == match v
      case Object(fields) => |fields|
      case Array(items) => |items|
      case Str(s) => |s|
      case _ => 0
  {
    match v
    case Object(fields) => fields
    case Array(items) => seq(|items|, i requires 0 <= i < |items| => Field(IntToString(i), items[i]))
    case Str(s) => seq(|s|, i requires 0 <= i < |s| => Field(IntToString(i), Str([s[i]])))
    case _ => []
  }

  /** `sanitizeObject` as written: copy, then overwrite each key's value in
      turn, recursing into nested objects and arrays. */
  method SanitizeObjectInPlace(obj: Value) returns (result: Value)
    ensures result == SanitizeObject(obj)
    decreases obj
  {
    var fields := Spread(obj);
    var i := 0;
    while i < |fields|
      invariant 0 <= i <= |fields| == |Spread(obj)|
      invariant forall k :: 0 <= k < i ==>
        fields[k] == Field(Spread(obj)[k].key, SanitizeValue(Spread(obj)[k].value))
      invariant forall k :: i <= k < |fields| ==> fields[k] == Spread(obj)[k]
    {
      var value := fields[i].value;
      if value.Str? {
        fields := fields[i := Field(fields[i].key, Str(SanitizeText(value.s)))];
      } else if value.Object? || value.Array? {
        var nested: Value;
        match obj {
          case Object(fs) => nested := SanitizeObjectInPlace(fs[i].value);
          case Array(items) => nested := SanitizeObjectInPlace(items[i]);
        }
        fields := fields[i := Field(fields[i].key, nested)];
      }
      i := i + 1;
    }
    result := Object(fields);
  }

  /** Every string in the tree is free of markup. Keys are not inspected. */
  predicate Clean(v: Value) {
    match v
    case Str(s) => NoMarkup(s)
    case Object(fs) => forall i :: 0 <= i < |fs| ==> Clean(fs[i].value)
    case Array(items) => forall i :: 0 <= i < |items| ==> Clean(items[i])
    case _ => true
  }

  /** Sanitizing an object keeps its keys in order, and turns each value into
      its sanitized form: strings escaped, objects sanitized, other values kept. */
  lemma SanitizeObjectFields(fs: seq<Field>)
    ensures Keys(SanitizeObject(Object(fs)).fields) == Keys(fs)
    ensures forall i :: 0 <= i < |fs| ==>
      var before, after := fs[i].value, SanitizeObject(Object(fs)).fields[i].value;
      match before
      case Str(s) => after == Str(SanitizeText(s))
      case Object(_) => after == SanitizeObject(before)
      case Array(_) => after == SanitizeObject(before)
      case _ => after == before
  {
  }

  /** After `sanitizeObject`, no string anywhere in the tree contains markup. */
  lemma {:induction false} SanitizeObjectClean(v: Value)
    decreases v, 0
    ensures Clean(SanitizeObject(v))
  {
    match v
    case Object(fs) =>
      forall i | 0 <= i < |fs| ensures Clean(SanitizeValue(fs[i].value)) {
        SanitizeValueClean(fs[i].value);
      }
    case Array(items) =>
      forall i | 0 <= i < |items| ensures Clean(SanitizeValue(items[i])) {
        SanitizeValueClean(items[i]);
      }
    case Str(s) =>
      forall i | 0 <= i < |s| ensures NoMarkup(SanitizeText([s[i]])) {
        SanitizeTextNoMarkup([s[i]]);
      }
    case _ =>
  }

  lemma {:induction false} SanitizeValueClean(v: Value)
    decreases v, 1
    ensures Clean(SanitizeValue(v))
  {
    match v
    case Str(s) => SanitizeTextNoMarkup(s);
    case Object(_) => SanitizeObjectClean(v);
    case Array(_) => SanitizeObjectClean(v);
    case _ =>
  }

  /** An array nested in an object comes back as an object keyed "0", "1", …,
      because the recursive call spreads it into a plain object. */
  lemma SanitizeObjectArrayBecomesObject(key: string, items: seq<Value>)
    ensures var r := SanitizeObject(Object([Field(key, Array(items))]));
      r.fields[0].value.Object? && Keys(r.fields[0].value.fields) == seq(|items|, i => IntToString(i))
  {
    var inner := SanitizeObject(Array(items));
    assert SanitizeObject(Object([Field(key, Array(items))])).fields[0].value == inner;
    assert Keys(inner.fields) == seq(|items|, i => IntToString(i));
  }

  predicate IsUsernameChar(c: char) {
    'a' <= c <= 'z' || 'A' <= c <= 'Z' || '0' <= c <= '9' || c == '_' || c == '-'
  }

  /** Scan for `^[a-zA-Z0-9_-]*$`. */
  function AllUsernameChars(s: string): bool {
    s == [] || (IsUsernameChar(s[0]) && AllUsernameChars(s[1..]))
  }

  /** `isValidUsername`: the test of `^[a-zA-Z0-9_-]+$`. */
  function IsValidUsername(username: string): bool {
    |username| >= 1 && AllUsernameChars(username)
  }

  /** A username is valid exactly when it is non-empty and made only of
      ASCII letters, digits, `_` and `-`. */
  lemma {:induction false} IsValidUsernameIff(u: string)
    ensures IsValidUsername(u) <==> |u| >= 1 && forall i :: 0 <= i < |u| ==> IsUsernameChar(u[i])
  {
    AllUsernameCharsIff(u);
  }

  lemma {:induction false} AllUsernameCharsIff(s: string)
    ensures AllUsernameChars(s) <==> forall i :: 0 <= i < |s| ==> IsUsernameChar(s[i])
  {
    if s != [] {
      AllUsernameCharsIff(s[1..]);
      assert forall i :: 1 <= i < |s| ==> s[i] == s[1..][i - 1];
    }
  }
}
