/** The string operations of the host language that the modelled code calls. */
module Text {
  datatype Option<+T> = None | Some(value: T) {
    predicate IsFailure() {
      None?
    }

    function PropagateFailure<U>(): Option<U>
      requires None?
    {
      None
    }

    function Extract(): T
      requires Some?
    {
      value
    }
  }

  const NEWLINE := '\n'

  /** White space and line terminators, as `trim` and `trimEnd` remove them. */
  predicate IsSpace(c: char) {
    var n := c as int;
    9 <= n <= 13 || n == 32 || n == 0xA0 || n == 0x1680 || 0x2000 <= n <= 0x200A
    || n == 0x2028 || n == 0x2029 || n == 0x202F || n == 0x205F || n == 0x3000 || n == 0xFEFF
  }

  function TrimEnd(s: string): (r: string)
    ensures r <= s
    ensures r != "" ==> !IsSpace(r[|r| - 1])
    ensures forall i :: |r| <= i < |s| ==> IsSpace(s[i])
  {
    if s == "" || !IsSpace(s[|s| - 1]) then s else TrimEnd(s[..|s| - 1])
  }

  function TrimStart(s: string): (r: string)
    ensures |r| <= |s| && r == s[|s| - |r|..]
    ensures r != "" ==> !IsSpace(r[0])
  {
    if s == "" || !IsSpace(s[0]) then s else TrimStart(s[1..])
  }

  function Trim(s: string): string {
    TrimStart(TrimEnd(s))
  }

  predicate Blank(s: string) {
    forall c :: c in s ==> IsSpace(c)
  }

  lemma {:induction false} TrimOfBlank(s: string)
    ensures Trim(s) == "" <==> Blank(s)
  {
    var e := TrimEnd(s);
    assert e != "" ==> e[|e| - 1] in s;
    if !Blank(s) {
      var c :| c in s && !IsSpace(c);
      assert e != "";
      TrimStartKeeps(e, |e| - 1);
    }
  }

  lemma {:induction false} TrimStartKeeps(s: string, i: nat)
    requires i < |s| && !IsSpace(s[i])
    ensures TrimStart(s) != ""
  {
    if IsSpace(s[0]) {
      TrimStartKeeps(s[1..], i - 1);
    }
  }

  /** Trimming is the identity on text that ends in something visible. */
  lemma TrimEndVisible(s: string)
    requires s == "" || !IsSpace(s[|s| - 1])
    ensures TrimEnd(s) == s
  {
  }

  lemma TrimStartVisible(s: string)
    requires s == "" || !IsSpace(s[0])
    ensures TrimStart(s) == s
  {
  }

  lemma {:induction false} TrimEndOf(s: string, space: string)
    requires Blank(space)
    ensures TrimEnd(s + space) == TrimEnd(s)
  {
    if space == "" {
      assert s + space == s;
    } else {
      var n := |space| - 1;
      assert (s + space)[..|s| + n] == s + space[..n] && (s + space)[|s| + n] == space[n];
      assert space[n] in space;
      TrimEndOf(s, space[..n]);
    }
  }

  lemma {:induction false} TrimStartOf(space: string, s: string)
    requires Blank(space)
    ensures TrimStart(space + s) == TrimStart(s)
  {
    if space == "" {
      assert space + s == s;
    } else {
      assert (space + s)[1..] == space[1..] + s && space[0] in space;
      TrimStartOf(space[1..], s);
    }
  }

  /** Index of the first `c`, or `|s|` when there is none. */
  function IndexOf(s: string, c: char): (i: nat)
    ensures i <= |s|
    ensures i < |s| ==> s[i] == c
    ensures forall k :: 0 <= k < i ==> s[k] != c
  {
    if s == "" || s[0] == c then 0 else 1 + IndexOf(s[1..], c)
  }

  lemma IndexOfAt(s: string, c: char, i: nat)
    requires i <= |s| && (forall k :: 0 <= k < i ==> s[k] != c) && (i < |s| ==> s[i] == c)
    ensures IndexOf(s, c) == i
  {
  }

  /** `s.split('\n')`: the pieces between newlines; always at least one. */
  function Lines(s: string): (r: seq<string>)
    ensures |r| >= 1
  {
    var i := IndexOf(s, NEWLINE);
    if i == |s| then [s] else [s[..i]] + Lines(s[i + 1..])
  }

  /** Gluing with newlines undoes the split. */
  function JoinLines(ls: seq<string>): string
    requires |ls| >= 1
  {
    if |ls| == 1 then ls[0] else ls[0] + "\n" + JoinLines(ls[1..])
  }

  lemma {:induction false} LinesJoin(s: string)
    ensures JoinLines(Lines(s)) == s
    ensures forall l :: l in Lines(s) ==> NEWLINE !in l
    decreases |s|
  {
    var i := IndexOf(s, NEWLINE);
    if i < |s| {
      LinesJoin(s[i + 1..]);
      assert Lines(s)[1..] == Lines(s[i + 1..]);
      assert s == s[..i] + "\n" + s[i + 1..];
    }
  }

  lemma LinesOne(s: string)
    requires NEWLINE !in s
    ensures Lines(s) == [s]
  {
    IndexOfAt(s, NEWLINE, |s|);
  }

  lemma LinesMore(first: string, rest: string)
    requires NEWLINE !in first
    ensures Lines(first + "\n" + rest) == [first] + Lines(rest)
  {
    var s := first + "\n" + rest;
    IndexOfAt(s, NEWLINE, |first|);
    assert s[..|first|] == first && s[|first| + 1..] == rest;
  }

  predicate IsDigit(c: char) {
    '0' <= c <= '9'
  }

  predicate AllDigits(s: string) {
    forall c :: c in s ==> IsDigit(c)
  }

  function DigitValue(c: char): nat
    requires IsDigit(c)
  {
    (c as int) - ('0' as int)
  }

  function DigitChar(d: nat): (c: char)
    requires d < 10
    ensures IsDigit(c) && DigitValue(c) == d
  {
    (d + ('0' as int)) as char
  }

  /** Decimal text of a number, without leading zeros. */
  function Decimal(n: nat): (s: string)
    ensures s != "" && AllDigits(s)
    ensures n > 0 ==> s[0] != '0'
  {
    if n < 10 then [DigitChar(n)] else Decimal(n / 10) + [DigitChar(n % 10)]
  }

  /** The number a run of digits denotes; the empty run denotes 0. */
  function DigitsValue(s: string): nat
    requires AllDigits(s)
  {
    if s == "" then 0 else 10 * DigitsValue(s[..|s| - 1]) + DigitValue(s[|s| - 1])
  }

  lemma {:induction false} DecimalValue(n: nat)
    ensures DigitsValue(Decimal(n)) == n
  {
    var s := Decimal(n);
    if n >= 10 {
      DecimalValue(n / 10);
      assert s[..|s| - 1] == Decimal(n / 10);
    } else {
      assert s[..|s| - 1] == "";
    }
  }

  /** Number of leading digits. */
  function DigitRun(s: string): (n: nat)
    ensures n <= |s| && AllDigits(s[..n])
    ensures n < |s| ==> !IsDigit(s[n])
  {
    if s == "" || !IsDigit(s[0]) then 0
    else
      var n := 1 + DigitRun(s[1..]);
      assert forall c :: c in s[..n] ==> c == s[0] || c in s[1..][..n - 1];
      n
  }

  lemma {:induction false} DigitRunOf(s: string, rest: string)
    requires AllDigits(s) && (rest == "" || !IsDigit(rest[0]))
    ensures DigitRun(s + rest) == |s|
  {
    if s == "" {
      assert s + rest == rest;
    } else {
      assert (s + rest)[1..] == s[1..] + rest;
      assert s[0] in s;
      DigitRunOf(s[1..], rest);
    }
  }

  /** Text assembled from pieces. */
  function Concat(parts: seq<string>): string {
    if parts == [] then "" else parts[0] + Concat(parts[1..])
  }

  lemma {:induction false} ConcatSnoc(parts: seq<string>, last: string)
    ensures Concat(parts + [last]) == Concat(parts) + last
  {
    if parts == [] {
      assert parts + [last] == [last];
    } else {
      assert (parts + [last])[1..] == parts[1..] + [last];
      ConcatSnoc(parts[1..], last);
    }
  }

  /** What `read` makes of the pieces, in order, leaving out those it makes nothing of. */
  function Collect<T>(read: string -> Option<T>, pieces: seq<string>): seq<T> {
    if pieces == [] then [] else Listed(read(pieces[0])) + Collect(read, pieces[1..])
  }

  function Listed<T>(a: Option<T>): seq<T> {
    if a.Some? then [a.value] else []
  }

  lemma {:induction false} CollectAppend<T>(read: string -> Option<T>, a: seq<string>, b: seq<string>)
    ensures Collect(read, a + b) == Collect(read, a) + Collect(read, b)
  {
    if a == [] {
      assert a + b == b;
    } else {
      assert (a + b)[1..] == a[1..] + b;
      CollectAppend(read, a[1..], b);
    }
  }

  lemma CollectMore<T>(read: string -> Option<T>, piece: string, pieces: seq<string>)
    ensures Collect(read, [piece] + pieces) == Listed(read(piece)) + Collect(read, pieces)
  {
    assert ([piece] + pieces)[1..] == pieces;
  }

  lemma CollectUpTo<T>(read: string -> Option<T>, pieces: seq<string>, i: nat)
    requires i < |pieces|
    ensures Collect(read, pieces[..i + 1]) == Collect(read, pieces[..i]) + Listed(read(pieces[i]))
  {
    assert pieces[..i + 1] == pieces[..i] + [pieces[i]];
    CollectAppend(read, pieces[..i], [pieces[i]]);
    assert [pieces[i]] == [pieces[i]] + [];
    CollectMore(read, pieces[i], []);
  }
}
