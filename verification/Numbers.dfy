/** `Number(text)`, as exact values. */
module Numbers {
  import opened Text
  import opened Json

  function Pow10(k: nat): (p: real)
    ensures p > 0.0
  {
    if k == 0 then 1.0 else 10.0 * Pow10(k - 1)
  }

  function Scaled(digits: nat, exponent: int): real {
    if exponent >= 0 then digits as real * Pow10(exponent) else digits as real / Pow10(-exponent)
  }

  /** The exponent part of a decimal literal; the empty text denotes exponent 0. */
  function ExponentOf(s: string): Option<int> {
    if s == "" then Some(0)
    else if s[0] != 'e' && s[0] != 'E' then None
    else
      var negative := |s| > 1 && s[1] == '-';
      var t := if |s| > 1 && (s[1] == '-' || s[1] == '+') then s[2..] else s[1..];
      if t == "" || !AllDigits(t) then None
      else
        var e: int := if negative then 0 - DigitsValue(t) else DigitsValue(t);
        Some(e)
  }

  /** Digits with an optional point and exponent; at least one digit. */
  function DecimalLiteral(s: string): Option<real> {
    var n := DigitRun(s);
    var u := s[n..];
    if u != "" && u[0] == '.' then
      var m := DigitRun(u[1..]);
      var e :- ExponentOf(u[1 + m..]);
      if n + m == 0 then None
      else
        assert AllDigits(s[..n] + u[1..][..m]);
        Some(Scaled(DigitsValue(s[..n] + u[1..][..m]), e - m))
    else
      var e :- ExponentOf(u);
      if n == 0 then None else Some(Scaled(DigitsValue(s[..n]), e))
  }

  predicate IsRadixDigit(c: char, radix: nat) {
    IsHex(c) && HexValue(c) < radix
  }

  function RadixValue(s: string, radix: nat): Option<real> {
    if s == "" then None
    else if !IsRadixDigit(s[|s| - 1], radix) then None
    else if |s| == 1 then Some(HexValue(s[0]) as real)
    else
      var high :- RadixValue(s[..|s| - 1], radix);
      Some(high * radix as real + HexValue(s[|s| - 1]) as real)
  }

  /** `Number(text)` as an exact value; None for NaN and the infinities. */
  function NumberOf(text: string): Option<real> {
    var s := Trim(text);
    if s == "" then Some(0.0)
    else if |s| > 2 && s[0] == '0' && (s[1] == 'x' || s[1] == 'X') then RadixValue(s[2..], 16)
    else if |s| > 2 && s[0] == '0' && (s[1] == 'o' || s[1] == 'O') then RadixValue(s[2..], 8)
    else if |s| > 2 && s[0] == '0' && (s[1] == 'b' || s[1] == 'B') then RadixValue(s[2..], 2)
    else if s[0] == '-' then
      var r :- DecimalLiteral(s[1..]);
      Some(-r)
    else if s[0] == '+' then DecimalLiteral(s[1..])
    else DecimalLiteral(s)
  }

  /** The value of a text that passes for a positive integer. */
  function PositiveInteger(text: string): (r: Option<int>)
    ensures r.Some? ==> r.value > 0
  {
    var n :- NumberOf(text);
    if n.Floor as real == n && n > 0.0 then Some(n.Floor) else None
  }

  lemma DigitsTrim(s: string)
    requires s != "" && AllDigits(s)
    ensures Trim(s) == s
  {
    assert s[0] in s && s[|s| - 1] in s;
    TrimEndVisible(s);
  }

  lemma DigitsLiteral(s: string)
    requires s != "" && AllDigits(s)
    ensures DecimalLiteral(s) == Some(DigitsValue(s) as real)
  {
    DigitRunOf(s, "");
    assert s + "" == s && s[..|s|] == s && s[|s|..] == "";
    assert Pow10(0) == 1.0;
  }

  lemma NumberOfDigits(s: string)
    requires s != "" && AllDigits(s)
    ensures NumberOf(s) == DecimalLiteral(s)
  {
    DigitsTrim(s);
    assert s[0] in s;
    if |s| > 2 {
      assert s[1] in s;
    }
  }

  lemma NumberOfDecimal(n: nat)
    requires n > 0
    ensures PositiveInteger(Decimal(n)) == Some(n)
  {
    var s := Decimal(n);
    NumberOfDigits(s);
    DigitsLiteral(s);
    DecimalValue(n);
  }

  lemma DecimalEnds(n: nat)
    ensures !IsSpace(Decimal(n)[|Decimal(n)| - 1])
  {
    var s := Decimal(n);
    assert s[|s| - 1] in s;
  }
}
