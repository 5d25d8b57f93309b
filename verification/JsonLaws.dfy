/** Laws of the JSON text form: the round trip, and that reading ignores what follows a closed value. */
module JsonLaws {
  import opened Text
  import opened Json

  // ---------------------------------------------------------------- strings

  /** Reading one printed character gives it back and goes on with the text after it. */
  lemma ParseControl(n: nat, x: string)
    requires n < 32
    ensures ParseUnicode("00" + [HexChar(n / 16), HexChar(n % 16)] + x) == Some(Parsed(n as char, x))
  {
    var h := "00" + [HexChar(n / 16), HexChar(n % 16)] + x;
    assert h[0] == '0' && h[1] == '0' && h[2] == HexChar(n / 16) && h[3] == HexChar(n % 16);
    assert h[4..] == x;
    assert ParseHex4(h) == Some(Parsed(n, x));
  }

  /** A character that is escaped begins with a backslash, and the rest of its escape parses to it. */
  lemma ParseEscaped(c: char, x: string)
    requires c == '"' || c == '\\' || (c as int) < 32
    ensures EscapeChar(c)[0] == '\\' && ParseEscape((EscapeChar(c) + x)[1..]) == Some(Parsed(c, x))
  {
    hide ParseUnicode;
    var n := c as int;
    var s := EscapeChar(c) + x;
    if c == '"' || c == '\\' || n == 8 || n == 9 || n == 10 || n == 12 || n == 13 {
      assert s[1..][1..] == x;
    } else {
      assert s[1..] == "u" + ("00" + [HexChar(n / 16), HexChar(n % 16)] + x);
      assert s[1..][1..] == "00" + [HexChar(n / 16), HexChar(n % 16)] + x;
      ParseControl(n, x);
    }
  }

  lemma ParseEscapedChar(c: char, x: string)
    ensures ParseChars(EscapeChar(c) + x) ==
            match ParseChars(x) case None => None case Some(m) => Some(Parsed([c] + m.value, m.rest))
  {
    hide ParseEscape;
    var s := EscapeChar(c) + x;
    if c == '"' || c == '\\' || (c as int) < 32 {
      ParseEscaped(c, x);
      assert s[0] == '\\';
    } else {
      assert s[1..] == x;
    }
  }

  lemma {:induction false} ParseQuoted(t: string, rest: string)
    ensures ParseChars(Escape(t) + "\"" + rest) == Some(Parsed(t, rest))
  {
    if t == "" {
      assert Escape(t) + "\"" + rest == "\"" + rest;
    } else {
      var x := Escape(t[1..]) + "\"" + rest;
      assert Escape(t) + "\"" + rest == EscapeChar(t[0]) + x;
      ParseEscapedChar(t[0], x);
      ParseQuoted(t[1..], rest);
      assert [t[0]] + t[1..] == t;
    }
  }

  // ---------------------------------------------------------------- numbers

  predicate NumberChars(s: string) {
    forall c :: c in s ==> IsNumberChar(c)
  }

  lemma ExponentChars(s: string)
    requires IsExponent(s)
    ensures NumberChars(s)
  {
    if s != "" {
      var t := if |s| > 1 && (s[1] == '+' || s[1] == '-') then s[2..] else s[1..];
      assert s == s[..|s| - |t|] + t;
    }
  }

  lemma FractionChars(s: string)
    requires IsFraction(s)
    ensures NumberChars(s)
  {
    if s != "" && s[0] == '.' {
      var n := DigitRun(s[1..]);
      ExponentChars(s[1 + n..]);
      assert s == s[..1] + s[1..][..n] + s[1 + n..];
    } else {
      ExponentChars(s);
    }
  }

  lemma NumberTextChars(s: string)
    requires IsNumberText(s)
    ensures s != "" && (s[0] == '-' || IsDigit(s[0])) && NumberChars(s)
    ensures IsNumberChar(s[|s| - 1])
  {
    if s[0] == '-' {
      UnsignedChars(s[1..]);
      JoinChars("-", s[1..]);
      assert s == "-" + s[1..];
    } else {
      UnsignedChars(s);
    }
    assert s[|s| - 1] in s;
  }

  lemma UnsignedChars(s: string)
    requires IsUnsigned(s)
    ensures NumberChars(s)
  {
    var n := IntLength(s);
    FractionChars(s[n..]);
    JoinChars(s[..n], s[n..]);
    assert s == s[..n] + s[n..];
  }

  lemma JoinChars(a: string, b: string)
    requires NumberChars(a) && NumberChars(b)
    ensures NumberChars(a + b)
  {
  }

  lemma {:induction false} NumberRunOf(s: string, rest: string)
    requires NumberChars(s) && (rest == "" || !IsNumberChar(rest[0]))
    ensures NumberRun(s + rest) == |s|
  {
    if s == "" {
      assert s + rest == rest;
    } else {
      assert (s + rest)[1..] == s[1..] + rest;
      assert s[0] in s;
      NumberRunOf(s[1..], rest);
    }
  }

  // ---------------------------------------------------------------- members

  lemma {:induction false} AddNew(ms: seq<Member>, m: Member)
    requires forall i :: 0 <= i < |ms| ==> ms[i].key != m.key
    ensures AddMember(ms, m) == ms + [m]
  {
    if ms != [] {
      AddNew(ms[1..], m);
    }
  }

  lemma {:induction false} AssembleDistinct(ms: seq<Member>)
    requires DistinctKeys(ms)
    ensures Assemble(ms) == ms
  {
    if ms != [] {
      var n := |ms| - 1;
      AssembleDistinct(ms[..n]);
      AddNew(ms[..n], ms[n]);
      assert ms[..n] + [ms[n]] == ms;
    }
  }

  // ---------------------------------------------------------------- characters of printed text

  predicate Printable(s: string) {
    forall c :: c in s ==> 32 <= c as int
  }

  lemma {:induction false} EscapePrintable(s: string)
    ensures Printable(Escape(s))
  {
    if s != "" {
      EscapePrintable(s[1..]);
    }
  }

  /** Printed text holds no control character, so in particular no line break. */
  lemma {:induction false} PrintPrintable(v: Value)
    requires Valid(v)
    ensures Printable(Print(v))
    decreases v, 1
  {
    match v
    case Number(literal) => NumberTextChars(literal);
    case Str(t) => EscapePrintable(t);
    case Array(items) => ItemsPrintable(items);
    case Object(ms) => MembersPrintable(ms);
    case _ =>
  }

  lemma {:induction false} ItemsPrintable(items: seq<Value>)
    requires forall i :: 0 <= i < |items| ==> Valid(items[i])
    ensures Printable(PrintItems(items))
    decreases items, 0
  {
    if items != [] {
      PrintPrintable(items[0]);
      ItemsPrintable(items[1..]);
    }
  }

  lemma {:induction false} MembersPrintable(ms: seq<Member>)
    requires forall i :: 0 <= i < |ms| ==> Valid(ms[i].value)
    ensures Printable(PrintMembers(ms))
    decreases ms, 0
  {
    if ms != [] {
      EscapePrintable(ms[0].key);
      PrintPrintable(ms[0].value);
      MembersPrintable(ms[1..]);
    }
  }

  /** Printed text starts and ends visibly, so trimming leaves it alone. */
  lemma PrintEnd(v: Value)
    requires Valid(v)
    ensures Print(v) != "" && !IsSpace(Print(v)[|Print(v)| - 1])
  {
    if v.Number? {
      NumberTextChars(v.literal);
    }
  }

  // ---------------------------------------------------------------- round trip

  /** Printed text starts with the value itself: no white space and no closing bracket. */
  lemma PrintStart(v: Value)
    requires Valid(v)
    ensures var s := Print(v);
            s != "" && !IsJsonSpace(s[0]) && !IsSpace(s[0]) && s[0] != ']' && s[0] != '}' && s[0] != ':'
  {
    PrintOpens(v);
    OpensVisibly(Print(v)[0]);
  }

  predicate OpensValue(c: char) {
    IsDigit(c) || c == '-' || c == '"' || c == '[' || c == '{' || c == 'n' || c == 't' || c == 'f'
  }

  lemma PrintOpens(v: Value)
    requires Valid(v)
    ensures Print(v) != "" && OpensValue(Print(v)[0])
  {
    if v.Number? {
      NumberTextChars(v.literal);
    }
  }

  lemma OpensVisibly(c: char)
    requires OpensValue(c)
    ensures !IsJsonSpace(c) && !IsSpace(c) && c != ']' && c != '}' && c != ':'
  {
  }

  /** What may stand after a value: the end, or something no number continues with. */
  predicate Ends(rest: string) {
    rest == "" || !IsNumberChar(rest[0])
  }

  lemma WordFollowedBy(word: string, v: Value, rest: string)
    requires word != ""
    ensures Word(word, v, word + rest) == Some(Parsed(v, rest))
  {
    assert (word + rest)[|word|..] == rest;
  }

  lemma RoundTripNumber(literal: string, rest: string)
    requires IsNumberText(literal) && Ends(rest)
    ensures ParseNumber(literal + rest) == Some(Parsed(Number(literal), rest))
  {
    NumberTextChars(literal);
    NumberRunOf(literal, rest);
    var s := literal + rest;
    assert s[..|literal|] == literal && s[|literal|..] == rest;
  }

  lemma RoundTripString(t: string, rest: string)
    ensures ParseValue(Quote(t) + rest) == Some(Parsed(Str(t), rest))
  {
    var s := Quote(t) + rest;
    assert s[1..] == Escape(t) + "\"" + rest;
    ParseQuoted(t, rest);
  }

  lemma ParsesNumber(s: string)
    requires s != "" && (s[0] == '-' || IsDigit(s[0]))
    ensures ParseValue(s) == ParseNumber(s)
  {
    assert s[0] != '"' && s[0] != '[' && s[0] != '{' && s[0] != 'n' && s[0] != 't' && s[0] != 'f';
    assert ParseValue(s) == ParseNumber(s);
  }

  lemma RoundTripWord(v: Value, rest: string)
    requires v.Null? || v.Bool?
    ensures ParseValue(Print(v) + rest) == Some(Parsed(v, rest))
  {
    WordFollowedBy(Print(v), v, rest);
  }

  lemma RoundTripScalar(v: Value, rest: string)
    requires Valid(v) && Ends(rest) && !v.Array? && !v.Object?
    ensures ParseValue(Print(v) + rest) == Some(Parsed(v, rest))
  {
    match v
    case Null => RoundTripWord(v, rest);
    case Bool(_) => RoundTripWord(v, rest);
    case Number(literal) =>
      NumberTextChars(literal);
      ParsesNumber(literal + rest);
      RoundTripNumber(literal, rest);
    case Str(t) =>
      RoundTripString(t, rest);
  }

  lemma {:induction false} RoundTripValue(v: Value, rest: string)
    requires Valid(v) && Ends(rest)
    ensures ParseValue(Print(v) + rest) == Some(Parsed(v, rest))
    decreases v, 1
  {
    if v.Array? {
      RoundTripArray(v, rest);
    } else if v.Object? {
      RoundTripObject(v, rest);
    } else {
      RoundTripScalar(v, rest);
    }
  }

  lemma {:induction false} RoundTripArray(v: Value, rest: string)
    requires Valid(v) && v.Array?
    ensures ParseValue(Print(v) + rest) == Some(Parsed(v, rest))
    decreases v, 0
  {
    var items := v.items;
    var s := Print(v) + rest;
    var inner := PrintItems(items) + "]" + rest;
    assert s[0] == '[' && s[1..] == inner;
    if items == [] {
      assert inner == "]" + rest;
      assert inner[1..] == rest;
    } else {
      RoundTripItems(items, rest);
      ItemsStart(items);
      assert SkipSpace(inner) == inner;
    }
  }

  lemma {:induction false} RoundTripObject(v: Value, rest: string)
    requires Valid(v) && v.Object?
    ensures ParseValue(Print(v) + rest) == Some(Parsed(v, rest))
    decreases v, 0
  {
    hide ParseMembers, Assemble, ParseItems, ParseChars, ParseNumber, ParseWord, PrintMembers;
    var ms := v.members;
    var s := Print(v) + rest;
    var inner := PrintMembers(ms) + "}" + rest;
    assert s[0] == '{' && s[1..] == inner;
    if ms == [] {
      NoMembersText();
      assert inner == "}" + rest;
      assert inner[1..] == rest;
    } else {
      MembersStart(ms);
      RoundTripMembers(ms, rest);
      AssembleDistinct(ms);
      assert SkipSpace(inner) == inner;
    }
  }

  lemma NoMembersText()
    ensures PrintMembers([]) == ""
  {
  }

  lemma MembersStart(ms: seq<Member>)
    requires ms != []
    ensures PrintMembers(ms) != "" && PrintMembers(ms)[0] == '"'
  {
    hide Escape, Print;
    MemberStart(ms[0]);
    assert PrintMember(ms[0]) <= PrintMembers(ms);
  }

  lemma MemberStart(m: Member)
    ensures PrintMember(m) != "" && PrintMember(m)[0] == '"'
  {
    hide Escape, Print;
  }

  lemma ItemsStart(items: seq<Value>)
    requires items != [] && Valid(items[0])
    ensures PrintItems(items) != "" && PrintItems(items)[0] == Print(items[0])[0]
    ensures !IsJsonSpace(PrintItems(items)[0]) && PrintItems(items)[0] != ']'
  {
    PrintStart(items[0]);
  }

  lemma {:induction false} RoundTripElement(v: Value, rest: string)
    requires Valid(v) && Ends(rest) && (rest == "" || !IsJsonSpace(rest[0]))
    ensures ParseElement(Print(v) + rest) == Some(Parsed(v, rest))
    decreases v, 2
  {
    PrintStart(v);
    RoundTripValue(v, rest);
  }

  lemma {:induction false} RoundTripItems(items: seq<Value>, rest: string)
    requires items != [] && forall i :: 0 <= i < |items| ==> Valid(items[i])
    ensures ParseItems(PrintItems(items) + "]" + rest) == Some(Parsed(items, rest))
    decreases items, 0
  {
    hide Print, ParseElement;
    if |items| == 1 {
      assert PrintItems(items) + "]" + rest == Print(items[0]) + ("]" + rest);
      RoundTripElement(items[0], "]" + rest);
      assert ("]" + rest)[1..] == rest;
      assert [items[0]] == items;
    } else {
      var tail := PrintItems(items[1..]) + "]" + rest;
      assert PrintItems(items) + "]" + rest == Print(items[0]) + ("," + tail);
      RoundTripElement(items[0], "," + tail);
      assert ("," + tail)[1..] == tail;
      RoundTripItems(items[1..], rest);
      assert [items[0]] + items[1..] == items;
    }
  }

  lemma RoundTripKey(key: string, rest: string)
    ensures ParseKey(Quote(key) + ":" + rest) == Some(Parsed(key, rest))
  {
    var s := Quote(key) + ":" + rest;
    assert s[1..] == Escape(key) + "\"" + (":" + rest);
    ParseQuoted(key, ":" + rest);
    assert (":" + rest)[1..] == rest;
  }

  lemma MembersApart(ms: seq<Member>)
    requires ms != []
    ensures PrintMembers(ms) == PrintMember(ms[0]) + if |ms| == 1 then "" else "," + PrintMembers(ms[1..])
  {
  }

  /** The members' text begins with the first name, which parses off it. */
  lemma MemberText(ms: seq<Member>, rest: string, tail: string) returns (text: string)
    requires ms != []
    requires tail == if |ms| == 1 then "}" + rest else "," + (PrintMembers(ms[1..]) + "}" + rest)
    ensures text == PrintMembers(ms) + "}" + rest
    ensures ParseKey(text) == Some(Parsed(ms[0].key, Print(ms[0].value) + tail))
  {
    hide Print, PrintMembers, Quote, ParseKey;
    MembersApart(ms);
    assert PrintMembers(ms) + "}" + rest == PrintMember(ms[0]) + tail;
    text := Quote(ms[0].key) + ":" + (Print(ms[0].value) + tail);
    RoundTripKey(ms[0].key, Print(ms[0].value) + tail);
  }

  lemma MembersLast(s: string, key: Parsed<string>, p: Parsed<Value>)
    requires ParseKey(s) == Some(key) && ParseElement(key.rest) == Some(p) && p.rest != "" && p.rest[0] == '}'
    ensures ParseMembers(s) == Some(Parsed([Member(key.value, p.value)], p.rest[1..]))
  {
    hide ParseKey, ParseElement;
  }

  lemma MembersMore(s: string, key: Parsed<string>, p: Parsed<Value>, more: Parsed<seq<Member>>)
    requires ParseKey(s) == Some(key) && ParseElement(key.rest) == Some(p) && p.rest != "" && p.rest[0] == ','
    requires ParseMembers(p.rest[1..]) == Some(more)
    ensures ParseMembers(s) == Some(Parsed([Member(key.value, p.value)] + more.value, more.rest))
  {
    hide ParseKey, ParseElement;
  }

  lemma {:induction false} RoundTripMembers(ms: seq<Member>, rest: string)
    requires ms != [] && forall i :: 0 <= i < |ms| ==> Valid(ms[i].value)
    ensures ParseMembers(PrintMembers(ms) + "}" + rest) == Some(Parsed(ms, rest))
    decreases ms, 0
  {
    hide Print, Quote, ParseKey, ParseElement, ParseMembers, Valid, PrintMembers, PrintMember;
    var m := ms[0];
    if |ms| == 1 {
      var tail := "}" + rest;
      assert tail[1..] == rest && [m] == ms;
      RoundTripElement(m.value, tail);
      var text := MemberText(ms, rest, tail);
      MembersLast(text, Parsed(m.key, Print(m.value) + tail), Parsed(m.value, tail));
    } else {
      var more := PrintMembers(ms[1..]) + "}" + rest;
      var tail := "," + more;
      assert tail[1..] == more && [m] + ms[1..] == ms;
      RoundTripElement(m.value, tail);
      RoundTripMembers(ms[1..], rest);
      var text := MemberText(ms, rest, tail);
      MembersMore(text, Parsed(m.key, Print(m.value) + tail), Parsed(m.value, tail), Parsed(ms[1..], rest));
    }
  }

  /** `JSON.parse(JSON.stringify(v))` is `v`, member order included. */
  lemma RoundTrip(v: Value)
    requires Valid(v)
    ensures ParseText(Print(v)) == Some(v)
  {
    RoundTripElement(v, "");
    assert Print(v) + "" == Print(v);
  }

  // ---------------------------------------------------------------- more text after a value

  lemma {:induction false} ExtendSkip(s: string, x: string)
    ensures SkipSpace(s) != "" ==> SkipSpace(s + x) == SkipSpace(s) + x
  {
    if s != "" && IsJsonSpace(s[0]) {
      assert (s + x)[1..] == s[1..] + x;
      ExtendSkip(s[1..], x);
    }
  }

  lemma ExtendHex4(s: string, x: string)
    requires ParseHex4(s).Some?
    ensures ParseHex4(s + x) == Some(Parsed(ParseHex4(s).value.value, ParseHex4(s).value.rest + x))
  {
    assert (s + x)[4..] == s[4..] + x;
  }

  lemma ExtendUnicode(s: string, x: string)
    requires ParseUnicode(s).Some?
    ensures ParseUnicode(s + x) == Some(Parsed(ParseUnicode(s).value.value, ParseUnicode(s).value.rest + x))
  {
    ExtendHex4(s, x);
    var unit := ParseHex4(s).value;
    if 0xD800 <= unit.value < 0xE000 {
      assert (unit.rest + x)[2..] == unit.rest[2..] + x;
      ExtendHex4(unit.rest[2..], x);
    }
  }

  lemma ExtendEscape(s: string, x: string)
    requires ParseEscape(s).Some?
    ensures ParseEscape(s + x) == Some(Parsed(ParseEscape(s).value.value, ParseEscape(s).value.rest + x))
  {
    assert (s + x)[1..] == s[1..] + x;
    if s[0] == 'u' {
      ExtendUnicode(s[1..], x);
    }
  }

  lemma {:induction false} ExtendChars(s: string, x: string)
    requires ParseChars(s).Some?
    ensures ParseChars(s + x) == Some(Parsed(ParseChars(s).value.value, ParseChars(s).value.rest + x))
    decreases |s|
  {
    assert (s + x)[1..] == s[1..] + x;
    if s[0] == '\\' {
      ExtendEscape(s[1..], x);
      ExtendChars(ParseEscape(s[1..]).value.rest, x);
    } else if s[0] != '"' {
      ExtendChars(s[1..], x);
    }
  }

  /** Whether the value at the start of `s` shows its own end. */
  predicate SelfDelimiting(s: string) {
    s != "" && (s[0] == '"' || s[0] == '[' || s[0] == '{' || s[0] == 'n' || s[0] == 't' || s[0] == 'f')
  }

  lemma {:induction false} ExtendNumberRun(s: string, x: string)
    requires NumberRun(s) < |s|
    ensures NumberRun(s + x) == NumberRun(s)
  {
    if IsNumberChar(s[0]) {
      assert (s + x)[1..] == s[1..] + x;
      ExtendNumberRun(s[1..], x);
    }
  }

  lemma ExtendWord(word: string, v: Value, s: string, x: string)
    requires word != "" && word <= s
    ensures Word(word, v, s + x) == Some(Parsed(v, s[|word|..] + x))
  {
    assert (s + x)[|word|..] == s[|word|..] + x;
    assert (s + x)[..|word|] == word;
  }

  lemma ExtendNumber(s: string, x: string)
    requires ParseNumber(s).Some? && ParseNumber(s).value.rest != ""
    ensures ParseNumber(s + x) == Some(Parsed(ParseNumber(s).value.value, ParseNumber(s).value.rest + x))
  {
    var n := NumberRun(s);
    ExtendNumberRun(s, x);
    assert (s + x)[..n] == s[..n] && (s + x)[n..] == s[n..] + x;
  }

  lemma ExtendString(s: string, x: string)
    requires s != "" && s[0] == '"' && ParseValue(s).Some?
    ensures ParseValue(s + x) == Some(Parsed(ParseValue(s).value.value, ParseValue(s).value.rest + x))
  {
    assert (s + x)[1..] == s[1..] + x;
    ExtendChars(s[1..], x);
  }

  lemma ExtendScalar(s: string, x: string)
    requires ParseValue(s).Some? && s[0] != '[' && s[0] != '{'
    requires SelfDelimiting(s) || ParseValue(s).value.rest != ""
    ensures ParseValue(s + x) == Some(Parsed(ParseValue(s).value.value, ParseValue(s).value.rest + x))
  {
    if s[0] == '"' {
      ExtendString(s, x);
    } else if s[0] == 'n' {
      ExtendWord("null", Null, s, x);
    } else if s[0] == 't' {
      ExtendWord("true", Bool(true), s, x);
    } else if s[0] == 'f' {
      ExtendWord("false", Bool(false), s, x);
    } else {
      ExtendNumber(s, x);
    }
  }

  /** Text added after a value that already ended changes neither the value nor where it ends. */
  lemma {:induction false} ExtendValue(s: string, x: string)
    requires ParseValue(s).Some?
    requires SelfDelimiting(s) || ParseValue(s).value.rest != ""
    ensures ParseValue(s + x) == Some(Parsed(ParseValue(s).value.value, ParseValue(s).value.rest + x))
    decreases |s|, 0, 1
  {
    if s[0] == '[' || s[0] == '{' {
      ExtendBracketed(s, x);
    } else {
      ExtendScalar(s, x);
    }
  }

  lemma {:induction false} ExtendBracketed(s: string, x: string)
    requires ParseValue(s).Some? && (s[0] == '[' || s[0] == '{')
    ensures ParseValue(s + x) == Some(Parsed(ParseValue(s).value.value, ParseValue(s).value.rest + x))
    decreases |s|, 0, 0
  {
    var t := SkipSpace(s[1..]);
    assert (s + x)[1..] == s[1..] + x;
    ExtendSkip(s[1..], x);
    if t != "" && t[0] == (if s[0] == '[' then ']' else '}') {
      assert (t + x)[1..] == t[1..] + x;
    } else if s[0] == '[' {
      ExtendItems(s[1..], x);
    } else {
      ExtendMembers(s[1..], x);
    }
  }

  lemma {:induction false} ExtendElement(s: string, x: string)
    requires ParseElement(s).Some? && ParseElement(s).value.rest != ""
    ensures ParseElement(s + x) == Some(Parsed(ParseElement(s).value.value, ParseElement(s).value.rest + x))
    decreases |s|, 1
  {
    ExtendSkip(s, x);
    var p := ParseValue(SkipSpace(s)).value;
    ExtendValue(SkipSpace(s), x);
    ExtendSkip(p.rest, x);
  }

  lemma {:induction false} ExtendItems(s: string, x: string)
    requires ParseItems(s).Some?
    ensures ParseItems(s + x) == Some(Parsed(ParseItems(s).value.value, ParseItems(s).value.rest + x))
    decreases |s|, 2
  {
    ExtendElement(s, x);
    var p := ParseElement(s).value;
    assert (p.rest + x)[1..] == p.rest[1..] + x;
    if p.rest[0] == ',' {
      ExtendItems(p.rest[1..], x);
    }
  }

  lemma ExtendKey(s: string, x: string)
    requires ParseKey(s).Some?
    ensures ParseKey(s + x) == Some(Parsed(ParseKey(s).value.value, ParseKey(s).value.rest + x))
  {
    var t := SkipSpace(s);
    ExtendSkip(s, x);
    assert (t + x)[1..] == t[1..] + x;
    ExtendChars(t[1..], x);
    var key := ParseChars(t[1..]).value;
    ExtendSkip(key.rest, x);
    var u := SkipSpace(key.rest);
    assert (u + x)[1..] == u[1..] + x;
  }

  lemma {:induction false} ExtendMembers(s: string, x: string)
    requires ParseMembers(s).Some?
    ensures ParseMembers(s + x) == Some(Parsed(ParseMembers(s).value.value, ParseMembers(s).value.rest + x))
    decreases |s|, 2
  {
    ExtendKey(s, x);
    var key := ParseKey(s).value;
    ExtendElement(key.rest, x);
    var p := ParseElement(key.rest).value;
    assert (p.rest + x)[1..] == p.rest[1..] + x;
    if p.rest[0] == ',' {
      ExtendMembers(p.rest[1..], x);
    }
  }

  // ---------------------------------------------------------------- cut text

  /** A number whose text can be cut to the text of another number: more than one digit. */
  predicate Cuttable(v: Value) {
    v.Number? && |v.literal| > (if "-" <= v.literal then 2 else 1)
  }

  /** No cut of the text of a value parses, unless the value is a number of several digits. */
  lemma CutNeverParses(v: Value, cut: string)
    requires Valid(v) && !Cuttable(v)
    requires cut <= Print(v) && cut != Print(v)
    ensures ParseText(cut) == None
  {
    var s := Print(v);
    PrintStart(v);
    if cut == "" {
    } else if v.Number? {
      NumberTextChars(v.literal);
      assert cut == "-";
      assert NumberRun(cut) == 1;
    } else {
      var x := s[|cut|..];
      assert cut + x == s && cut[0] == s[0];
      RoundTripValue(v, "");
      assert s + "" == s;
      assert SkipSpace(cut) == cut;
      if ParseValue(cut).Some? {
        ExtendValue(cut, x);
        assert false;
      }
    }
  }

  /** The exception: such a number has a cut that is the text of a different number. */
  lemma CuttableNumber(v: Value)
    requires Valid(v) && Cuttable(v)
    ensures exists n :: 0 < n < |Print(v)| && ParseText(Print(v)[..n]).Some? && ParseText(Print(v)[..n]) != Some(v)
  {
    var s := v.literal;
    NumberTextChars(s);
    var n := if s[0] == '-' then 2 else 1;
    var cut := Number(s[..n]);
    var u := cut.literal[n - 1..];
    assert |u| == 1 && IsDigit(u[0]) && u[IntLength(u)..] == "";
    assert s[0] == '-' ==> cut.literal[1..] == u;
    assert s[0] != '-' ==> cut.literal == u;
    assert Valid(cut);
    RoundTrip(cut);
    assert Print(v)[..n] == Print(cut);
  }
}
