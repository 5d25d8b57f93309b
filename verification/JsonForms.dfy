/** The forms of JSON text and numbers one by one, and that whatever parses is a value a program can hold. */
module JsonForms {
  import opened Text
  import opened Json
  import opened JsonLaws
  import opened Numbers

  // ---------------------------------------------------------------- what the printer writes

  lemma PrintWords(b: bool, literal: string, t: string)
    ensures Print(Null) == "null" && Print(Bool(b)) == if b then "true" else "false"
    ensures Print(Number(literal)) == literal && Print(Str(t)) == "\"" + Escape(t) + "\""
    ensures Print(Array([])) == "[]" && Print(Object([])) == "{}"
  {
  }

  lemma PrintArrays(v: Value, more: seq<Value>)
    ensures Print(Array([v])) == "[" + Print(v) + "]"
    ensures more != [] ==> Print(Array([v] + more)) == "[" + Print(v) + "," + Print(Array(more))[1..]
  {
    assert ([v] + more)[1..] == more;
  }

  lemma PrintObjects(m: Member, more: seq<Member>)
    ensures var first := Print(Str(m.key)) + ":" + Print(m.value);
            && Print(Object([m])) == "{" + first + "}"
            && (more != [] ==> Print(Object([m] + more)) == "{" + first + "," + Print(Object(more))[1..])
  {
    hide PrintMembers, Quote;
    assert ([m] + more)[1..] == more;
    MembersApart([m]);
    MembersApart([m] + more);
    assert Print(Object(more))[1..] == PrintMembers(more) + "}";
    assert PrintMember(m) == Print(Str(m.key)) + ":" + Print(m.value);
  }

  /** Section 7 of RFC 8259: the two-character escapes, `\u00xx` for the other control characters, else the character. */
  lemma EscapeForms(c: char, rest: string)
    ensures Escape("") == "" && Escape([c] + rest) == EscapeChar(c) + Escape(rest)
    ensures var n := c as int;
            EscapeChar(c) ==
              if c == '"' || c == '\\' then ['\\', c]
              else if c == '\n' then "\\n" else if c == '\r' then "\\r" else if c == '\t' then "\\t"
              else if n == 8 then "\\b" else if n == 12 then "\\f"
              else if n < 32 then "\\u00" + ["01"[n / 16], "0123456789abcdef"[n % 16]]
              else [c]
  {
    assert ([c] + rest)[1..] == rest;
  }

  // ---------------------------------------------------------------- what the parser reads

  predicate AllSpace(s: string) {
    forall c :: c in s ==> c in " \t\n\r"
  }

  lemma {:induction false} SkipAll(space: string, s: string)
    requires AllSpace(space)
    ensures SkipSpace(space + s) == SkipSpace(s)
  {
    if space == "" {
      assert space + s == s;
    } else {
      assert space[0] in space;
      assert (space + s)[1..] == space[1..] + s;
      SkipAll(space[1..], s);
    }
  }

  /** Section 6 of RFC 8259: an optional minus, an integer without a leading zero, a fraction, an exponent. */
  ghost predicate IsNumberForm(s: string, minus: string, whole: string, fraction: string, exponent: string) {
    && s == minus + whole + fraction + exponent
    && minus in {"", "-"}
    && whole != "" && AllDigits(whole) && (whole[0] == '0' ==> whole == "0")
    && (fraction != "" ==> |fraction| > 1 && fraction[0] == '.' && AllDigits(fraction[1..]))
    && IsExponentForm(exponent)
  }

  ghost predicate IsExponentForm(s: string) {
    s == "" || exists e, sign, digits ::
      && e in {"e", "E"} && sign in {"", "+", "-"} && digits != "" && AllDigits(digits) && s == e + sign + digits
  }

  lemma ExponentIff(s: string)
    ensures IsExponent(s) <==> IsExponentForm(s)
  {
    if IsExponent(s) && s != "" {
      var signed := |s| > 1 && (s[1] == '+' || s[1] == '-');
      var sign, digits := if signed then [s[1]] else "", if signed then s[2..] else s[1..];
      assert s == [s[0]] + sign + digits;
    }
    if IsExponentForm(s) && s != "" {
      var e, sign, digits :| e in {"e", "E"} && sign in {"", "+", "-"} && digits != "" && AllDigits(digits)
        && s == e + sign + digits;
      assert digits[0] in digits;
      assert s[0] == e[0] && s[1..] == sign + digits;
      assert sign != "" ==> s[1] == sign[0] && s[2..] == digits;
      assert sign == "" ==> s[1] == digits[0] && s[1..] == digits;
    }
  }

  lemma NumberFormReads(s: string, minus: string, whole: string, fraction: string, exponent: string)
    requires IsNumberForm(s, minus, whole, fraction, exponent)
    ensures IsNumberText(s)
  {
    hide IsUnsigned, IsExponentForm;
    var u := whole + fraction + exponent;
    assert whole[0] in whole && u[0] == whole[0];
    assert s == minus + u;
    assert minus == "-" ==> s[0] == '-' && s[1..] == u;
    assert minus == "" ==> s == u && s[0] != '-';
    UnsignedForm(whole, fraction, exponent);
  }

  lemma FractionForm(fraction: string, exponent: string)
    requires fraction != "" ==> |fraction| > 1 && fraction[0] == '.' && AllDigits(fraction[1..])
    requires IsExponentForm(exponent)
    ensures IsFraction(fraction + exponent)
    ensures fraction + exponent != "" ==> !IsDigit((fraction + exponent)[0])
  {
    hide IsExponent, IsExponentForm, DigitRun, AllDigits;
    ExponentIff(exponent);
    if exponent != "" {
      ExponentStarts(exponent);
    }
    var rest := fraction + exponent;
    if fraction != "" {
      assert rest[1..] == fraction[1..] + exponent;
      DigitRunOf(fraction[1..], exponent);
      assert rest[1 + |fraction[1..]|..] == exponent;
    } else {
      assert rest == exponent;
    }
  }

  lemma ExponentStarts(exponent: string)
    requires IsExponentForm(exponent) && exponent != ""
    ensures exponent[0] == 'e' || exponent[0] == 'E'
  {
  }

  lemma UnsignedForm(whole: string, fraction: string, exponent: string)
    requires whole != "" && AllDigits(whole) && (whole[0] == '0' ==> whole == "0")
    requires fraction != "" ==> |fraction| > 1 && fraction[0] == '.' && AllDigits(fraction[1..])
    requires IsExponentForm(exponent)
    ensures IsUnsigned(whole + fraction + exponent)
  {
    hide IsFraction, IsExponentForm, DigitRun;
    var u, rest := whole + fraction + exponent, fraction + exponent;
    assert whole[0] in whole && u[0] == whole[0];
    assert u == whole + rest;
    FractionForm(fraction, exponent);
    DigitRunOf(whole, rest);
    assert IntLength(u) == |whole|;
    assert u[|whole|..] == rest;
  }

  lemma NumberFormFinds(s: string)
    requires IsNumberText(s)
    ensures exists minus, whole, fraction, exponent :: IsNumberForm(s, minus, whole, fraction, exponent)
  {
    hide IsUnsigned, IsExponentForm, AllDigits;
    var minus := if s != "" && s[0] == '-' then "-" else "";
    var u := s[|minus|..];
    var whole, fraction, exponent := UnsignedFinds(u);
    assert s == minus + u;
    Behind(minus, whole, fraction, exponent);
    assert IsNumberForm(s, minus, whole, fraction, exponent);
  }

  lemma Behind(a: string, b: string, c: string, d: string)
    ensures a + (b + c + d) == a + b + c + d
  {
  }

  lemma UnsignedFinds(u: string) returns (whole: string, fraction: string, exponent: string)
    requires IsUnsigned(u)
    ensures u == whole + fraction + exponent && IsExponentForm(exponent)
    ensures whole != "" && AllDigits(whole) && (whole[0] == '0' ==> whole == "0")
    ensures fraction != "" ==> |fraction| > 1 && fraction[0] == '.' && AllDigits(fraction[1..])
  {
    hide IsFraction, DigitRun, IsExponentForm, IntLength, IsUnsigned, AllDigits;
    WholePart(u);
    RestIsFraction(u);
    whole := u[..IntLength(u)];
    fraction, exponent := FractionFinds(u[IntLength(u)..]);
    assert u == whole + u[IntLength(u)..];
  }

  lemma RestIsFraction(u: string)
    requires IsUnsigned(u)
    ensures u != "" && IsDigit(u[0]) && IsFraction(u[IntLength(u)..])
  {
  }

  lemma WholePart(u: string)
    requires IsUnsigned(u)
    ensures u != "" && IsDigit(u[0])
    ensures var whole := u[..IntLength(u)]; whole != "" && AllDigits(whole) && (whole[0] == '0' ==> whole == "0")
  {
    hide IsFraction;
  }

  lemma FractionFinds(rest: string) returns (fraction: string, exponent: string)
    requires IsFraction(rest)
    ensures rest == fraction + exponent && IsExponentForm(exponent)
    ensures fraction != "" ==> |fraction| > 1 && fraction[0] == '.' && AllDigits(fraction[1..])
  {
    hide IsExponent, IsExponentForm;
    var m := if rest != "" && rest[0] == '.' then 1 + DigitRun(rest[1..]) else 0;
    fraction, exponent := rest[..m], rest[m..];
    ExponentIff(exponent);
    if m > 0 {
      assert fraction[1..] == rest[1..][..m - 1];
    }
  }

  // ---------------------------------------------------------------- what parses is valid

  lemma {:induction false} AddMemberIs(ms: seq<Member>, m: Member)
    requires DistinctKeys(ms)
    ensures DistinctKeys(AddMember(ms, m))
    ensures forall x :: x in AddMember(ms, m) <==> x == m || (x in ms && x.key != m.key)
  {
    if ms != [] {
      assert ms == [ms[0]] + ms[1..];
      if ms[0].key == m.key {
        assert forall x :: x in ms[1..] ==> x.key != m.key;
      } else {
        AddMemberIs(ms[1..], m);
        var rest := AddMember(ms[1..], m);
        forall j | 0 <= j < |rest| ensures rest[j].key != ms[0].key {
          assert rest[j] in rest;
        }
      }
    }
  }

  /** Of members with the same name the last one counts. */
  lemma {:induction false} AssembleIs(raw: seq<Member>)
    ensures DistinctKeys(Assemble(raw))
    ensures forall x :: x in Assemble(raw) <==>
              exists i :: 0 <= i < |raw| && raw[i] == x && forall j | i < j < |raw| :: raw[j].key != x.key
  {
    hide AddMember;
    if raw != [] {
      var n := |raw| - 1;
      AssembleIs(raw[..n]);
      AddMemberIs(Assemble(raw[..n]), raw[n]);
      forall x ensures x in Assemble(raw) <==>
                       exists i :: 0 <= i < |raw| && raw[i] == x && forall j | i < j < |raw| :: raw[j].key != x.key {
        LastOne(raw, x);
      }
    }
  }

  lemma LastOne(raw: seq<Member>, x: Member)
    requires raw != []
    ensures var n := |raw| - 1;
            (exists i :: 0 <= i < |raw| && raw[i] == x && forall j | i < j < |raw| :: raw[j].key != x.key) <==>
            || x == raw[n]
            || (x.key != raw[n].key
                && exists i :: 0 <= i < n && raw[..n][i] == x && forall j | i < j < n :: raw[..n][j].key != x.key)
  {
    var n := |raw| - 1;
    if i :| 0 <= i < |raw| && raw[i] == x && forall j | i < j < |raw| :: raw[j].key != x.key {
      if i < n {
        assert raw[..n][i] == x;
      }
    }
    if x.key != raw[n].key {
      if i :| 0 <= i < n && raw[..n][i] == x && forall j | i < j < n :: raw[..n][j].key != x.key {
        forall j | i < j < |raw| ensures raw[j].key != x.key {
          assert j < n ==> raw[..n][j] == raw[j];
        }
        assert raw[i] == x;
      }
    }
    assert raw[n] in raw;
  }

  lemma {:induction false} ValueIsValid(s: string)
    ensures ParseValue(s).Some? ==> Valid(ParseValue(s).value.value)
    decreases |s|, 0
  {
    hide ParseNumber, ParseWord, ParseItems, ParseMembers, ParseChars, Assemble;
    if ParseValue(s).Some? {
      if s[0] == '[' {
        ItemsAreValid(s[1..]);
      } else if s[0] == '{' {
        MembersAreValid(s[1..]);
      } else if s[0] != '"' {
        ScalarIsValid(s);
      }
    }
  }

  lemma ScalarIsValid(s: string)
    requires s != ""
    ensures ParseWord(s).Some? ==> Valid(ParseWord(s).value.value)
    ensures ParseNumber(s).Some? ==> Valid(ParseNumber(s).value.value)
  {
    hide IsNumberText, NumberRun;
  }

  lemma {:induction false} ElementIsValid(s: string)
    ensures ParseElement(s).Some? ==> Valid(ParseElement(s).value.value)
    decreases |s|, 1
  {
    hide ParseValue, Valid;
    ValueIsValid(SkipSpace(s));
  }

  lemma {:induction false} ItemsAreValid(s: string)
    ensures ParseItems(s).Some? ==> forall i :: 0 <= i < |ParseItems(s).value.value| ==> Valid(ParseItems(s).value.value[i])
    decreases |s|, 2
  {
    hide ParseElement, Valid;
    ElementIsValid(s);
    var p := ParseElement(s);
    if p.Some? && p.value.rest != "" && p.value.rest[0] == ',' {
      ItemsAreValid(p.value.rest[1..]);
    }
  }

  lemma {:induction false} RawMembersAreValid(s: string)
    ensures ParseMembers(s).Some? ==>
              forall i :: 0 <= i < |ParseMembers(s).value.value| ==> Valid(ParseMembers(s).value.value[i].value)
    decreases |s|, 2
  {
    hide ParseElement, Valid, ParseKey;
    var key := ParseKey(s);
    if key.Some? {
      ElementIsValid(key.value.rest);
      var p := ParseElement(key.value.rest);
      if p.Some? && p.value.rest != "" && p.value.rest[0] == ',' {
        RawMembersAreValid(p.value.rest[1..]);
      }
    }
  }

  lemma {:induction false} MembersAreValid(s: string)
    ensures ParseMembers(s).Some? ==> Valid(Object(Assemble(ParseMembers(s).value.value)))
    decreases |s|, 3
  {
    hide ParseMembers, Assemble;
    if ParseMembers(s).Some? {
      var raw := ParseMembers(s).value.value;
      RawMembersAreValid(s);
      AssembleIs(raw);
      var ms := Assemble(raw);
      forall i | 0 <= i < |ms| ensures Valid(ms[i].value) {
        assert ms[i] in ms;
        var k :| 0 <= k < |raw| && raw[k] == ms[i];
      }
    }
  }

  /** Whatever text parses, the value has one member a name and proper numbers. */
  lemma ParsedIsValid(s: string)
    ensures ParseText(s).Some? ==> Valid(ParseText(s).value)
  {
    ElementIsValid(s);
  }

  // ---------------------------------------------------------------- numbers

  /** The integer test: exactly the texts whose number is a positive whole one. */
  lemma PositiveIntegerIff(text: string, n: int)
    ensures PositiveInteger(text) == Some(n) <==> n > 0 && NumberOf(text) == Some(n as real)
  {
    hide NumberOf;
  }

  lemma PointRuns(whole: string, fraction: string)
    requires AllDigits(whole) && AllDigits(fraction)
    ensures var s := whole + "." + fraction;
            && DigitRun(s) == |whole| && s[..|whole|] == whole && s[|whole|..] == "." + fraction
            && DigitRun(fraction) == |fraction| && AllDigits(whole + fraction)
  {
    hide DigitRun;
    var s := whole + "." + fraction;
    assert s == whole + ("." + fraction) && fraction + "" == fraction;
    DigitRunOf(whole, "." + fraction);
    DigitRunOf(fraction, "");
    assert forall c :: c in whole + fraction ==> c in whole || c in fraction;
  }

  lemma LiteralWithPoint(s: string, n: nat, whole: string, fraction: string)
    requires n == DigitRun(s) && whole == s[..n] && s[n..] == "." + fraction && DigitRun(fraction) == |fraction|
    requires AllDigits(whole + fraction) && whole + fraction != ""
    ensures DecimalLiteral(s) == Some(Scaled(DigitsValue(whole + fraction), 0 - |fraction|))
  {
    hide DigitRun, DigitsValue, Scaled, AllDigits;
    var u := s[n..];
    assert u[1..] == fraction && fraction[..|fraction|] == fraction && u[1 + |fraction|..] == "";
  }

  /** Digits, a point and digits denote the number of all the digits, divided by ten for each digit behind the point. */
  lemma PointMeans(whole: string, fraction: string)
    requires AllDigits(whole) && AllDigits(fraction) && whole + fraction != ""
    ensures AllDigits(whole + fraction)
    ensures DecimalLiteral(whole + "." + fraction) == Some(DigitsValue(whole + fraction) as real / Pow10(|fraction|))
  {
    hide DigitRun, DigitsValue, Scaled, AllDigits, DecimalLiteral;
    PointRuns(whole, fraction);
    LiteralWithPoint(whole + "." + fraction, |whole|, whole, fraction);
    ScaledBy(DigitsValue(whole + fraction), |fraction|);
  }

  lemma TenTimes(k: nat)
    ensures Pow10(0) == 1.0 && Pow10(k + 1) == 10.0 * Pow10(k)
  {
  }

  /** An exponent multiplies or divides by a power of ten. */
  lemma ExponentMeans(whole: string, e: string, sign: string, digits: string)
    requires whole != "" && AllDigits(whole) && digits != "" && AllDigits(digits)
    requires e in {"e", "E"} && sign in {"", "+", "-"}
    ensures var n, p, r := DigitsValue(whole) as real, Pow10(DigitsValue(digits)), DecimalLiteral(whole + e + sign + digits);
            r.Some? && r.value == if sign == "-" then n / p else n * p
  {
    hide DigitRun, DigitsValue, Scaled, AllDigits, DecimalLiteral, ExponentOf, Pow10;
    var s, u := whole + e + sign + digits, e + sign + digits;
    assert s == whole + u && u[0] == e[0];
    DigitRunOf(whole, u);
    assert s[..|whole|] == whole && s[|whole|..] == u;
    ExponentValue(e, sign, digits);
    LiteralWithExponent(s, |whole|, whole, if sign == "-" then 0 - DigitsValue(digits) else DigitsValue(digits));
    ScaledBy(DigitsValue(whole), DigitsValue(digits));
  }

  lemma LiteralWithExponent(s: string, n: nat, whole: string, exponent: int)
    requires 0 < n == DigitRun(s) && whole == s[..n] && AllDigits(whole) && s[n..] != "" && s[n] != '.'
    requires ExponentOf(s[n..]) == Some(exponent)
    ensures DecimalLiteral(s) == Some(Scaled(DigitsValue(whole), exponent))
  {
    hide DigitRun, DigitsValue, Scaled, AllDigits, ExponentOf;
  }

  lemma ExponentValue(e: string, sign: string, digits: string)
    requires digits != "" && AllDigits(digits) && e in {"e", "E"} && sign in {"", "+", "-"}
    ensures ExponentOf(e + sign + digits) == Some(if sign == "-" then 0 - DigitsValue(digits) else DigitsValue(digits))
  {
    hide DigitsValue, ExponentOf;
    var s := e + sign + digits;
    assert digits[0] in digits;
    assert s[0] == e[0] && s[1..] == sign + digits;
    assert sign != "" ==> s[1] == sign[0] && s[2..] == digits;
    assert sign == "" ==> s[1] == digits[0] && s[1..] == digits;
    ExponentIn(s, digits);
  }

  lemma ExponentIn(s: string, digits: string)
    requires |s| > 1 && s[0] in {'e', 'E'} && digits == (if s[1] in {'-', '+'} then s[2..] else s[1..])
    requires digits != "" && AllDigits(digits)
    ensures ExponentOf(s) == Some(if s[1] == '-' then 0 - DigitsValue(digits) else DigitsValue(digits))
  {
    hide DigitsValue, AllDigits;
  }

  lemma ScaledBy(digits: nat, k: nat)
    ensures Scaled(digits, k) == digits as real * Pow10(k)
    ensures Scaled(digits, 0 - k) == digits as real / Pow10(k)
  {
    assert Pow10(0) == 1.0;
  }

  /** White space around a number does not matter. */
  lemma SpaceAround(front: string, s: string, back: string)
    requires Blank(front) && Blank(back) && s != "" && !IsSpace(s[0]) && !IsSpace(s[|s| - 1])
    ensures NumberOf(front + s + back) == NumberOf(s)
  {
    hide NumberOf, TrimEnd, TrimStart;
    TrimEndOf(front + s, back);
    assert (front + s)[|front + s| - 1] == s[|s| - 1];
    TrimEndVisible(front + s);
    TrimEndVisible(s);
    TrimStartOf(front, s);
    OnlyTrimmed(front + s + back, s);
  }

  lemma OnlyTrimmed(a: string, b: string)
    requires Trim(a) == Trim(b)
    ensures NumberOf(a) == NumberOf(b)
  {
    hide DecimalLiteral, RadixValue, Trim;
  }

  /** Without white space around, a sign applies to a decimal literal, and prefixes choose the base. */
  lemma NumberForms(s: string)
    requires s != "" && Trim(s) == s && (IsDigit(s[0]) || s[0] == '.')
    requires |s| > 2 && s[0] == '0' ==> s[1] !in "xXoObB"
    ensures NumberOf(s) == DecimalLiteral(s) && NumberOf("") == Some(0.0)
    ensures Trim("-" + s) == "-" + s ==>
              NumberOf("-" + s) == match DecimalLiteral(s) case None => None case Some(r) => Some(-r)
    ensures Trim("+" + s) == "+" + s ==> NumberOf("+" + s) == DecimalLiteral(s)
  {
    hide DecimalLiteral, RadixValue, Trim;
    assert ("-" + s)[1..] == s && ("+" + s)[1..] == s;
    NothingTrimmed();
  }

  lemma NothingTrimmed()
    ensures Trim("") == ""
  {
  }

  lemma RadixForms(prefix: string, s: string)
    requires prefix in {"0x", "0X", "0o", "0O", "0b", "0B"} && s != "" && Trim(prefix + s) == prefix + s
    ensures NumberOf(prefix + s) ==
            RadixValue(s, if prefix in {"0x", "0X"} then 16 else if prefix in {"0o", "0O"} then 8 else 2)
  {
    hide RadixValue, DecimalLiteral, Trim;
    assert (prefix + s)[2..] == s && (prefix + s)[0] == prefix[0] && (prefix + s)[1] == prefix[1];
  }

  lemma RadixDigit(d: nat, radix: nat)
    requires d < 16
    ensures HexValue("0123456789abcdef"[d]) == d == HexValue("0123456789ABCDEF"[d])
    ensures RadixValue(["0123456789abcdef"[d]], radix) == if d < radix then Some(d as real) else None
  {
  }

  lemma RadixStep(t: string, radix: nat)
    requires |t| > 1
    ensures var high, r, c := RadixValue(t[..|t| - 1], radix), RadixValue(t, radix), t[|t| - 1];
            && (r.Some? <==> IsHex(c) && HexValue(c) < radix && high.Some?)
            && (r.Some? ==> r.value == high.value * radix as real + HexValue(c) as real)
  {
    hide IsHex, HexValue;
  }

  lemma RadixMore(s: string, d: nat, radix: nat)
    requires s != "" && d < 16
    ensures var high, r := RadixValue(s, radix), RadixValue(s + ["0123456789abcdef"[d]], radix);
            && (r.Some? <==> d < radix && high.Some?)
            && (r.Some? ==> r.value == high.value * radix as real + d as real)
  {
    hide RadixValue, HexValue;
    var c := "0123456789abcdef"[d];
    var t := s + [c];
    assert IsHex(c) && HexValue(c) == d by {
      RadixDigit(d, radix);
    }
    assert t[..|t| - 1] == s && t[|t| - 1] == c;
    RadixStep(t, radix);
  }

  /** Digits are read in base ten. */
  lemma DigitsMean(s: string, c: char)
    requires AllDigits(s) && IsDigit(c)
    ensures AllDigits(s + [c]) && DigitsValue(s + [c]) == 10 * DigitsValue(s) + ((c as int) - ('0' as int))
    ensures DigitsValue("") == 0
  {
    assert (s + [c])[..|s|] == s;
  }

  /** The white space that trimming removes. */
  lemma SpaceCharacters(c: char)
    ensures IsSpace(c) <==>
            c in "\t\n\U{000B}\U{000C}\r \U{00A0}\U{1680}\U{2028}\U{2029}\U{202F}\U{205F}\U{3000}\U{FEFF}"
            || '\U{2000}' <= c <= '\U{200A}'
  {
  }
}
