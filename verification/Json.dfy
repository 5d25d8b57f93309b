/** JSON values, their compact text and the text grammar of section 2 of RFC 8259. */
module Json {
  import opened Text

  /**
   * A value that JSON text can denote. Numbers are kept as their literal (the shortest
   * decimal text the printer emits); strings are sequences of Unicode scalar values.
   */
  datatype Value =
    | Null
    | Bool(b: bool)
    | Number(literal: string)
    | Str(text: string)
    | Array(items: seq<Value>)
    | Object(members: seq<Member>)

  datatype Member = Member(key: string, value: Value)

  predicate DistinctKeys(ms: seq<Member>) {
    forall i, j :: 0 <= i < j < |ms| ==> ms[i].key != ms[j].key
  }

  /** Values a program can hold: objects have one member a key, numbers are finite. */
  predicate Valid(v: Value) {
    match v
    case Number(literal) => IsNumberText(literal)
    case Array(items) => forall i :: 0 <= i < |items| ==> Valid(items[i])
    case Object(ms) => DistinctKeys(ms) && forall i :: 0 <= i < |ms| ==> Valid(ms[i].value)
    case _ => true
  }

  // ---------------------------------------------------------------- number literals

  predicate IsNumberChar(c: char) {
    IsDigit(c) || c == '-' || c == '+' || c == '.' || c == 'e' || c == 'E'
  }

  /** Section 6 of RFC 8259: [minus] int [frac] [exp]. */
  predicate IsNumberText(s: string) {
    if s != "" && s[0] == '-' then IsUnsigned(s[1..]) else IsUnsigned(s)
  }

  predicate IsUnsigned(s: string) {
    s != "" && IsDigit(s[0]) && IsFraction(s[IntLength(s)..])
  }

  function IntLength(s: string): (n: nat)
    requires s != "" && IsDigit(s[0])
    ensures 1 <= n <= |s| && AllDigits(s[..n])
  {
    if s[0] == '0' then 1 else DigitRun(s)
  }

  predicate IsFraction(s: string) {
    if s != "" && s[0] == '.' then
      DigitRun(s[1..]) > 0 && IsExponent(s[1 + DigitRun(s[1..])..])
    else
      IsExponent(s)
  }

  predicate IsExponent(s: string) {
    s == "" || ((s[0] == 'e' || s[0] == 'E') &&
                var t := if |s| > 1 && (s[1] == '+' || s[1] == '-') then s[2..] else s[1..];
                t != "" && AllDigits(t))
  }

  // ---------------------------------------------------------------- printing

  function HexChar(d: nat): char
    requires d < 16
  {
    if d < 10 then DigitChar(d) else (d - 10 + ('a' as int)) as char
  }

  function EscapeChar(c: char): (s: string)
    ensures s != "" && s[0] != '"'
  {
    var n := c as int;
    if c == '"' then "\\\""
    else if c == '\\' then "\\\\"
    else if n == 8 then "\\b"
    else if n == 9 then "\\t"
    else if n == 10 then "\\n"
    else if n == 12 then "\\f"
    else if n == 13 then "\\r"
    else if n < 32 then "\\u00" + [HexChar(n / 16), HexChar(n % 16)]
    else [c]
  }

  function Escape(s: string): string {
    if s == "" then "" else EscapeChar(s[0]) + Escape(s[1..])
  }

  function Quote(s: string): string {
    "\"" + Escape(s) + "\""
  }

  /** `JSON.stringify` without indentation. */
  function Print(v: Value): (s: string)
    decreases v, 1
  {
    match v
    case Null => "null"
    case Bool(b) => if b then "true" else "false"
    case Number(literal) => literal
    case Str(t) => Quote(t)
    case Array(items) => "[" + PrintItems(items) + "]"
    case Object(ms) => "{" + PrintMembers(ms) + "}"
  }

  function PrintItems(items: seq<Value>): string
    decreases items, 0
  {
    if items == [] then ""
    else if |items| == 1 then Print(items[0])
    else Print(items[0]) + "," + PrintItems(items[1..])
  }

  function PrintMember(m: Member): string
    decreases m, 2
  {
    Quote(m.key) + ":" + Print(m.value)
  }

  function PrintMembers(ms: seq<Member>): string
    decreases ms, 0
  {
    if ms == [] then ""
    else if |ms| == 1 then PrintMember(ms[0])
    else PrintMember(ms[0]) + "," + PrintMembers(ms[1..])
  }

  // ---------------------------------------------------------------- parsing

  datatype Parsed<+T> = Parsed(value: T, rest: string)

  predicate IsJsonSpace(c: char) {
    c == ' ' || c == '\t' || c == '\n' || c == '\r'
  }

  function SkipSpace(s: string): (r: string)
    ensures |r| <= |s| && (r != "" ==> !IsJsonSpace(r[0]))
  {
    if s != "" && IsJsonSpace(s[0]) then SkipSpace(s[1..]) else s
  }

  predicate IsHex(c: char) {
    IsDigit(c) || 'a' <= c <= 'f' || 'A' <= c <= 'F'
  }

  function HexValue(c: char): (d: nat)
    requires IsHex(c)
    ensures d < 16
  {
    if IsDigit(c) then DigitValue(c)
    else if 'a' <= c <= 'f' then (c as int) - ('a' as int) + 10
    else (c as int) - ('A' as int) + 10
  }

  function ParseHex4(s: string): (r: Option<Parsed<nat>>)
    ensures r.Some? ==> |r.value.rest| < |s| && r.value.value < 0x1_0000
  {
    if |s| >= 4 && IsHex(s[0]) && IsHex(s[1]) && IsHex(s[2]) && IsHex(s[3]) then
      Some(Parsed(((HexValue(s[0]) * 16 + HexValue(s[1])) * 16 + HexValue(s[2])) * 16 + HexValue(s[3]), s[4..]))
    else
      None
  }

  /** What follows `\u`: one code unit, or a surrogate pair written as two escapes. */
  function ParseUnicode(s: string): (r: Option<Parsed<char>>)
    ensures r.Some? ==> |r.value.rest| < |s|
  {
    var unit :- ParseHex4(s);
    if unit.value < 0xD800 || 0xE000 <= unit.value then
      Some(Parsed(unit.value as char, unit.rest))
    else if unit.value < 0xDC00 && |unit.rest| >= 2 && unit.rest[0] == '\\' && unit.rest[1] == 'u' then
      var low :- ParseHex4(unit.rest[2..]);
      if 0xDC00 <= low.value < 0xE000 then
        Some(Parsed((0x1_0000 + (unit.value - 0xD800) * 0x400 + (low.value - 0xDC00)) as char, low.rest))
      else
        None
    else
      None
  }

  /** What follows a backslash inside a string. */
  function ParseEscape(s: string): (r: Option<Parsed<char>>)
    ensures r.Some? ==> |r.value.rest| < |s|
  {
    if s == "" then None
    else if s[0] == '"' || s[0] == '\\' || s[0] == '/' then Some(Parsed(s[0], s[1..]))
    else if s[0] == 'b' then Some(Parsed(8 as char, s[1..]))
    else if s[0] == 't' then Some(Parsed(9 as char, s[1..]))
    else if s[0] == 'n' then Some(Parsed(10 as char, s[1..]))
    else if s[0] == 'f' then Some(Parsed(12 as char, s[1..]))
    else if s[0] == 'r' then Some(Parsed(13 as char, s[1..]))
    else if s[0] == 'u' then ParseUnicode(s[1..])
    else None
  }

  /** A string from after its opening quote up to and including the closing one. */
  function ParseChars(s: string): (r: Option<Parsed<string>>)
    ensures r.Some? ==> |r.value.rest| < |s|
    decreases |s|
  {
    if s == "" then None
    else if s[0] == '"' then Some(Parsed("", s[1..]))
    else if s[0] == '\\' then
      var c :- ParseEscape(s[1..]);
      var more :- ParseChars(c.rest);
      Some(Parsed([c.value] + more.value, more.rest))
    else if (s[0] as int) < 32 then None
    else
      var more :- ParseChars(s[1..]);
      Some(Parsed([s[0]] + more.value, more.rest))
  }

  function NumberRun(s: string): (n: nat)
    ensures n <= |s| && (n < |s| ==> !IsNumberChar(s[n]))
  {
    if s == "" || !IsNumberChar(s[0]) then 0 else 1 + NumberRun(s[1..])
  }

  function ParseNumber(s: string): (r: Option<Parsed<Value>>)
    ensures r.Some? ==> |r.value.rest| < |s|
  {
    var n := NumberRun(s);
    if IsNumberText(s[..n]) then Some(Parsed(Number(s[..n]), s[n..])) else None
  }

  function ParseWord(s: string): (r: Option<Parsed<Value>>)
    requires s != ""
    ensures r.Some? ==> |r.value.rest| < |s|
  {
    if s[0] == 'n' then Word("null", Null, s)
    else if s[0] == 't' then Word("true", Bool(true), s)
    else Word("false", Bool(false), s)
  }

  function Word(word: string, v: Value, s: string): (r: Option<Parsed<Value>>)
    requires word != ""
    ensures r.Some? ==> |r.value.rest| < |s|
  {
    if word <= s then Some(Parsed(v, s[|word|..])) else None
  }

  /** The value at the very start of `s`. */
  function ParseValue(s: string): (r: Option<Parsed<Value>>)
    ensures r.Some? ==> |r.value.rest| < |s|
    decreases |s|, 0
  {
    if s == "" then None
    else if s[0] == '"' then
      var t :- ParseChars(s[1..]);
      Some(Parsed(Str(t.value), t.rest))
    else if s[0] == '[' then
      var t := SkipSpace(s[1..]);
      if t != "" && t[0] == ']' then Some(Parsed(Array([]), t[1..]))
      else
        var p :- ParseItems(s[1..]);
        Some(Parsed(Array(p.value), p.rest))
    else if s[0] == '{' then
      var t := SkipSpace(s[1..]);
      if t != "" && t[0] == '}' then Some(Parsed(Object([]), t[1..]))
      else
        var p :- ParseMembers(s[1..]);
        Some(Parsed(Object(Assemble(p.value)), p.rest))
    else if s[0] == 'n' || s[0] == 't' || s[0] == 'f' then ParseWord(s)
    else ParseNumber(s)
  }

  /** A value with white space allowed on both sides. */
  function ParseElement(s: string): (r: Option<Parsed<Value>>)
    ensures r.Some? ==> |r.value.rest| < |s|
    decreases |s|, 1
  {
    var p :- ParseValue(SkipSpace(s));
    Some(Parsed(p.value, SkipSpace(p.rest)))
  }

  /** One or more elements, up to and including the closing bracket. */
  function ParseItems(s: string): (r: Option<Parsed<seq<Value>>>)
    ensures r.Some? ==> |r.value.rest| < |s|
    decreases |s|, 2
  {
    var p :- ParseElement(s);
    if p.rest == "" then None
    else if p.rest[0] == ']' then Some(Parsed([p.value], p.rest[1..]))
    else if p.rest[0] == ',' then
      var more :- ParseItems(p.rest[1..]);
      Some(Parsed([p.value] + more.value, more.rest))
    else None
  }

  /** A member name and its colon. */
  function ParseKey(s: string): (r: Option<Parsed<string>>)
    ensures r.Some? ==> |r.value.rest| < |s|
  {
    var t := SkipSpace(s);
    if t == "" || t[0] != '"' then None
    else
      var key :- ParseChars(t[1..]);
      var u := SkipSpace(key.rest);
      if u == "" || u[0] != ':' then None else Some(Parsed(key.value, u[1..]))
  }

  function ParseMembers(s: string): (r: Option<Parsed<seq<Member>>>)
    ensures r.Some? ==> |r.value.rest| < |s|
    decreases |s|, 2
  {
    var key :- ParseKey(s);
    var p :- ParseElement(key.rest);
    var m := Member(key.value, p.value);
    if p.rest == "" then None
    else if p.rest[0] == '}' then Some(Parsed([m], p.rest[1..]))
    else if p.rest[0] == ',' then
      var more :- ParseMembers(p.rest[1..]);
      Some(Parsed([m] + more.value, more.rest))
    else None
  }

  /** A repeated name overwrites the earlier member and keeps its place. */
  function AddMember(ms: seq<Member>, m: Member): seq<Member> {
    if ms == [] then [m]
    else if ms[0].key == m.key then [m] + ms[1..]
    else [ms[0]] + AddMember(ms[1..], m)
  }

  function Assemble(raw: seq<Member>): seq<Member> {
    if raw == [] then [] else AddMember(Assemble(raw[..|raw| - 1]), raw[|raw| - 1])
  }

  /** `JSON.parse`; None where it throws. */
  function ParseText(s: string): Option<Value> {
    var p :- ParseElement(s);
    if p.rest == "" then Some(p.value) else None
  }
}
