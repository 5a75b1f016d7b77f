/**
  The draft as it is kept in browser storage: the record serialised the way
  `JSON.stringify` writes it under the key `formData`, the step as a decimal
  string under `formStep`, and the reading back of both when the page mounts.
  Storage itself is a map from keys to strings.
 */
module Snapshot {
  import opened Optional
  import opened Text
  import opened Decimal
  import opened Form

  type Store = map<string, string>

  const FormDataKey := "formData"
  const FormStepKey := "formStep"

  // ---------------------------------------------------------------------
  // JSON string literals

  /** A lower-case hexadecimal digit, as `JSON.stringify` writes them. */
  function HexDigit(d: int): (c: char)
    requires 0 <= d < 16
    ensures HexValue(c) == Some(d)
  {
    if d < 10 then (d + '0' as int) as char else (d - 10 + 'a' as int) as char
  }

  /** The value of a hexadecimal digit of either case. */
  function HexValue(c: char): Option<int> {
    if '0' <= c <= '9' then Some(c as int - '0' as int)
    else if 'a' <= c <= 'f' then Some(c as int - 'a' as int + 10)
    else if 'A' <= c <= 'F' then Some(c as int - 'A' as int + 10)
    else None
  }

  /** How `JSON.stringify` writes one character inside a string literal: the
      quote, the backslash and the control characters are escaped, the short
      forms where JSON has one, `\u00XX` otherwise. */
  function EscapeChar(c: char): string {
    if c == '"' then "\\\""
    else if c == '\\' then "\\\\"
    else if c == '\U{0008}' then "\\b"
    else if c == '\t' then "\\t"
    else if c == '\n' then "\\n"
    else if c == '\U{000C}' then "\\f"
    else if c == '\r' then "\\r"
    else if c < '\U{0020}' then "\\u00" + [HexDigit(c as int / 16), HexDigit(c as int % 16)]
    else [c]
  }

  function Escape(s: string): string {
    if s == [] then [] else EscapeChar(s[0]) + Escape(s[1..])
  }

  /** `JSON.stringify` of a string. */
  function Quote(s: string): string {
    "\"" + Escape(s) + "\""
  }

  /** The character an escape sequence stands for, read after its backslash,
      with the text that follows it. A `\u` escape naming a surrogate code
      unit has no character of its own and is refused. */
  function ParseEscape(s: string): (r: Option<(char, string)>)
    ensures r.Some? ==> |r.value.1| < |s|
  {
    if |s| == 0 then None
    else if s[0] == '"' then Some(('"', s[1..]))
    else if s[0] == '\\' then Some(('\\', s[1..]))
    else if s[0] == '/' then Some(('/', s[1..]))
    else if s[0] == 'b' then Some(('\U{0008}', s[1..]))
    else if s[0] == 't' then Some(('\t', s[1..]))
    else if s[0] == 'n' then Some(('\n', s[1..]))
    else if s[0] == 'f' then Some(('\U{000C}', s[1..]))
    else if s[0] == 'r' then Some(('\r', s[1..]))
    else if s[0] == 'u' && |s| >= 5 then
      var h0 :- HexValue(s[1]);
      var h1 :- HexValue(s[2]);
      var h2 :- HexValue(s[3]);
      var h3 :- HexValue(s[4]);
      var v := 4096 * h0 + 256 * h1 + 16 * h2 + h3;
      if 0xD800 <= v < 0xE000 then None else Some((v as char, s[5..]))
    else None
  }

  /** The characters of a string literal up to its closing quote, and the text
      after that quote. A raw control character is refused. */
  function ParseChars(s: string): Option<(string, string)>
    decreases |s|
  {
    if |s| == 0 then None
    else if s[0] == '"' then Some(("", s[1..]))
    else if s[0] == '\\' then
      var (c, rest) :- ParseEscape(s[1..]);
      var (t, after) :- ParseChars(rest);
      Some(([c] + t, after))
    else if s[0] < '\U{0020}' then None
    else
      var (t, after) :- ParseChars(s[1..]);
      Some(([s[0]] + t, after))
  }

  /** A JSON string literal at the start of `s`: its value and what follows it. */
  function ParseString(s: string): Option<(string, string)> {
    if |s| > 0 && s[0] == '"' then ParseChars(s[1..]) else None
  }

  lemma EscapeCharParses(c: char, rest: string)
    ensures |EscapeChar(c)| >= 1
    ensures EscapeChar(c)[0] == '\\' ==> ParseEscape(EscapeChar(c)[1..] + rest) == Some((c, rest))
    ensures EscapeChar(c)[0] != '\\' ==> EscapeChar(c) == [c] && c != '"' && c >= '\U{0020}'
  {
    var e := EscapeChar(c);
    if c < '\U{0020}' && c !in "\U{0008}\t\n\U{000C}\r" {
      var d1, d2 := c as int / 16, c as int % 16;
      assert e[1..] + rest == ['u', '0', '0', HexDigit(d1), HexDigit(d2)] + rest;
    }
  }

  /** One written character followed by text that parses reads back as
      that character in front of what the text reads as. */
  lemma ParseCharsOfEscapeChar(c: char, tail: string)
    requires ParseChars(tail).Some?
    ensures ParseChars(EscapeChar(c) + tail)
      == Some(([c] + ParseChars(tail).value.0, ParseChars(tail).value.1))
  {
    var input := EscapeChar(c) + tail;
    EscapeCharParses(c, tail);
    if EscapeChar(c)[0] == '\\' {
      assert input[1..] == EscapeChar(c)[1..] + tail;
    } else {
      assert input[1..] == tail;
    }
  }

  /** Reading back the escaped characters of a string, up to a closing quote,
      gives the string and leaves what follows the quote. */
  lemma {:induction false} ParseCharsOfEscape(s: string, rest: string)
    ensures ParseChars(Escape(s) + "\"" + rest) == Some((s, rest))
    decreases |s|
  {
    if s == [] {
      assert Escape(s) + "\"" + rest == "\"" + rest;
    } else {
      var tail := Escape(s[1..]) + "\"" + rest;
      ParseCharsOfEscape(s[1..], rest);
      ParseCharsOfEscapeChar(s[0], tail);
      assert Escape(s) + "\"" + rest == EscapeChar(s[0]) + tail;
      assert [s[0]] + s[1..] == s;
    }
  }

  /** `JSON.parse` of what `JSON.stringify` wrote for a string gives the string back. */
  lemma ParseStringOfQuote(s: string, rest: string)
    ensures ParseString(Quote(s) + rest) == Some((s, rest))
  {
    assert (Quote(s) + rest)[1..] == Escape(s) + "\"" + rest;
    ParseCharsOfEscape(s, rest);
  }

  // ---------------------------------------------------------------------
  // The record as a JSON object

  /** `JSON.stringify(formData)`: the five fields in the order the record
      was created with, without whitespace. */
  function EncodeRecord(r: Record): (json: string)
    ensures |json| > 0 && json[0] == '{'
  {
    EncodeMember("{\"name\":", r.name,
    EncodeMember(",\"email\":", r.email,
    EncodeMember(",\"street\":", r.street,
    EncodeMember(",\"city\":", r.city,
    EncodeMember(",\"zip\":", r.zip, "}")))))
  }

  /** One member of the object, `prefix` holding the key, then the rest. */
  function EncodeMember(prefix: string, value: string, rest: string): string {
    prefix + Quote(value) + rest
  }

  /** `s` with `prefix` removed, when it starts with it. */
  function Expect(prefix: string, s: string): (r: Option<string>)
    ensures r.Some? <==> StartsWith(s, prefix)
    ensures r.Some? ==> prefix + r.value == s
  {
    if StartsWith(s, prefix) then Some(s[|prefix|..]) else None
  }

  /** One member of the object: the text before the value, then the value. */
  function Member(prefix: string, s: string): Option<(string, string)> {
    var afterKey :- Expect(prefix, s);
    ParseString(afterKey)
  }

  /** `JSON.parse` of a stored record, for objects written as `EncodeRecord`
      writes them. */
  function DecodeRecord(json: string): Option<Record> {
    var (name, s1) :- Member("{\"name\":", json);
    var (email, s2) :- Member(",\"email\":", s1);
    var (street, s3) :- Member(",\"street\":", s2);
    var (city, s4) :- Member(",\"city\":", s3);
    var (zip, s5) :- Member(",\"zip\":", s4);
    if s5 == "}" then Some(Record(name, email, street, city, zip)) else None
  }

  lemma MemberOf(prefix: string, value: string, rest: string)
    ensures Member(prefix, EncodeMember(prefix, value, rest)) == Some((value, rest))
  {
    var s := prefix + Quote(value) + rest;
    assert StartsWith(s, prefix);
    assert s[|prefix|..] == Quote(value) + rest;
    ParseStringOfQuote(value, rest);
  }

  /** Parsing what was serialised gives the record back. */
  lemma DecodeEncodeRecord(r: Record)
    ensures DecodeRecord(EncodeRecord(r)) == Some(r)
  {
    var s4 := EncodeMember(",\"zip\":", r.zip, "}");
    var s3 := EncodeMember(",\"city\":", r.city, s4);
    var s2 := EncodeMember(",\"street\":", r.street, s3);
    var s1 := EncodeMember(",\"email\":", r.email, s2);
    MemberOf("{\"name\":", r.name, s1);
    MemberOf(",\"email\":", r.email, s2);
    MemberOf(",\"street\":", r.street, s3);
    MemberOf(",\"city\":", r.city, s4);
    MemberOf(",\"zip\":", r.zip, "}");
  }

  // ---------------------------------------------------------------------
  // Storage

  /** What the persistence effect leaves in storage: the record under
      `formData`, the step under `formStep`, every other entry as it was. */
  function Save(store: Store, step: int, r: Record): (saved: Store)
    ensures Mirrors(saved, step, r)
    ensures forall k :: k != FormDataKey && k != FormStepKey ==>
      (k in saved <==> k in store) && (k in store ==> saved[k] == store[k])
  {
    store[FormDataKey := EncodeRecord(r)][FormStepKey := IntToString(step)]
  }

  /** Storage after both draft entries are removed; other entries stay. */
  function Clear(store: Store): (cleared: Store)
    ensures Cleared(cleared)
    ensures forall k :: k != FormDataKey && k != FormStepKey ==>
      (k in cleared <==> k in store) && (k in store ==> cleared[k] == store[k])
  {
    store - {FormDataKey, FormStepKey}
  }

  /** Storage holds the record and the step as the effect writes them. */
  predicate Mirrors(store: Store, step: int, r: Record) {
    && FormDataKey in store && store[FormDataKey] == EncodeRecord(r)
    && FormStepKey in store && store[FormStepKey] == IntToString(step)
  }

  /** Storage holds no draft. */
  predicate Cleared(store: Store) {
    FormDataKey !in store && FormStepKey !in store
  }

  /** `localStorage.getItem(key)` used as a condition: a missing entry and an
      empty string both count as nothing saved. */
  function Saved(store: Store, key: string): Option<string> {
    if key in store && store[key] != "" then Some(store[key]) else None
  }

  /** The saved entries can be read: a saved step parses as an integer and a
      saved record parses as JSON. */
  predicate Loadable(store: Store) {
    && (Saved(store, FormStepKey).Some? ==> ParseInt(Saved(store, FormStepKey).value).Some?)
    && (Saved(store, FormDataKey).Some? ==> DecodeRecord(Saved(store, FormDataKey).value).Some?)
  }

  /** The initial step: the saved step as `parseInt` reads it, not range
      checked, or 1 when nothing is saved. */
  function HydrateStep(store: Store): int
    requires Loadable(store)
  {
    match Saved(store, FormStepKey)
    case None => 1
    case Some(text) => ParseInt(text).value
  }

  /** The initial record: the saved record, or the all-empty one when nothing
      is saved. */
  function HydrateRecord(store: Store): Record
    requires Loadable(store)
  {
    match Saved(store, FormDataKey)
    case None => EmptyRecord
    case Some(json) => DecodeRecord(json).value
  }

  /** Storage that mirrors a step and a record hydrates to that step and that
      record: a reload loses nothing. */
  lemma HydrateMirrored(store: Store, step: int, r: Record)
    requires Mirrors(store, step, r)
    ensures Loadable(store)
    ensures HydrateStep(store) == step && HydrateRecord(store) == r
  {
    DecodeEncodeRecord(r);
    ParseIntOfIntToString(step);
  }

  /** With no saved draft the wizard starts at step 1 with an empty record. */
  lemma HydrateCleared(store: Store)
    requires Cleared(store)
    ensures Loadable(store)
    ensures HydrateStep(store) == 1 && HydrateRecord(store) == EmptyRecord
  {
  }
}
