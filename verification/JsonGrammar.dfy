/** JSON text as section 2 of RFC 8259 describes it, and that the parser reads exactly that. */
module JsonGrammar {
  import opened Text
  import opened Json
  import opened JsonLaws
  import opened JsonForms

  // ---------------------------------------------------------------- text as it is written

  /** One character of a string: itself, a two-character escape, `\u` and four digits, or two of those. */
  datatype Piece = Plain(c: char) | Short(c: char) | Unit(digits: string) | Pair(high: string, low: string)

  datatype Doc =
    | NullWord
    | BoolWord(b: bool)
    | Literal(literal: string)
    | Quoted(pieces: seq<Piece>)
    | Bracketed(blank: string, items: seq<Item>)
    | Braced(blank: string, members: seq<Entry>)

  /** A value with white space on both sides. */
  datatype Item = Item(front: string, doc: Doc, back: string)

  datatype Entry = Entry(front: string, key: seq<Piece>, behind: string, item: Item)

  predicate IsUnit(digits: string) {
    |digits| == 4 && forall c :: c in digits ==> IsHex(c)
  }

  function CodeOf(digits: string): nat
    requires IsUnit(digits)
  {
    assert digits[0] in digits && digits[1] in digits && digits[2] in digits && digits[3] in digits;
    0x1000 * HexValue(digits[0]) + 0x100 * HexValue(digits[1]) + 0x10 * HexValue(digits[2]) + HexValue(digits[3])
  }

  /** Surrogates come in pairs only. */
  predicate IsPiece(p: Piece) {
    match p
    case Plain(c) => c != '"' && c != '\\' && c as int >= 0x20
    case Short(c) => c in "\"\\/bfnrt"
    case Unit(digits) => IsUnit(digits) && !(0xD800 <= CodeOf(digits) < 0xE000)
    case Pair(high, low) => IsUnit(high) && IsUnit(low) && 0xD800 <= CodeOf(high) < 0xDC00 <= CodeOf(low) < 0xE000
  }

  function PieceText(p: Piece): string {
    match p
    case Plain(c) => [c]
    case Short(c) => ['\\', c]
    case Unit(digits) => "\\u" + digits
    case Pair(high, low) => "\\u" + high + "\\u" + low
  }

  function Denoted(p: Piece): char
    requires IsPiece(p)
  {
    match p
    case Plain(c) => c
    case Short(c) =>
      if c == 'b' then '\U{0008}' else if c == 'f' then '\U{000C}'
      else if c == 'n' then '\n' else if c == 'r' then '\r' else if c == 't' then '\t' else c
    case Unit(digits) => CodeLess(digits); CodeOf(digits) as char
    case Pair(high, low) => (0x1_0000 + (CodeOf(high) - 0xD800) * 0x400 + (CodeOf(low) - 0xDC00)) as char
  }

  lemma CodeLess(digits: string)
    requires IsUnit(digits)
    ensures CodeOf(digits) < 0x1_0000
  {
    assert digits[0] in digits && digits[1] in digits && digits[2] in digits && digits[3] in digits;
  }

  predicate ArePieces(ps: seq<Piece>) {
    forall p :: p in ps ==> IsPiece(p)
  }

  function PiecesText(ps: seq<Piece>): string {
    if ps == [] then "" else PieceText(ps[0]) + PiecesText(ps[1..])
  }

  function Spelled(ps: seq<Piece>): string
    requires ArePieces(ps)
  {
    if ps == [] then "" else assert ps[0] in ps; [Denoted(ps[0])] + Spelled(ps[1..])
  }

  /** Numbers as in section 6, white space as in section 2; names may repeat. */
  predicate IsDoc(d: Doc)
    decreases d, 0
  {
    match d
    case NullWord => true
    case BoolWord(_) => true
    case Literal(literal) => IsNumberText(literal)
    case Quoted(pieces) => ArePieces(pieces)
    case Bracketed(blank, items) => AllSpace(blank) && forall i :: 0 <= i < |items| ==> IsItem(items[i])
    case Braced(blank, members) => AllSpace(blank) && forall i :: 0 <= i < |members| ==> IsEntry(members[i])
  }

  predicate IsItem(x: Item)
    decreases x, 0
  {
    AllSpace(x.front) && AllSpace(x.back) && IsDoc(x.doc)
  }

  predicate IsEntry(e: Entry)
    decreases e, 0
  {
    AllSpace(e.front) && ArePieces(e.key) && AllSpace(e.behind) && IsItem(e.item)
  }

  function DocText(d: Doc): string
    decreases d, 0
  {
    match d
    case NullWord => "null"
    case BoolWord(b) => if b then "true" else "false"
    case Literal(literal) => literal
    case Quoted(pieces) => "\"" + PiecesText(pieces) + "\""
    case Bracketed(blank, items) => "[" + (if items == [] then blank else ItemsText(items)) + "]"
    case Braced(blank, members) => "{" + (if members == [] then blank else EntriesText(members)) + "}"
  }

  function ItemText(x: Item): string
    decreases x, 0
  {
    x.front + DocText(x.doc) + x.back
  }

  function EntryText(e: Entry): string
    decreases e, 0
  {
    e.front + "\"" + PiecesText(e.key) + "\"" + e.behind + ":" + ItemText(e.item)
  }

  function ItemsText(items: seq<Item>): string
    requires items != []
    decreases items, 0
  {
    ItemText(items[0]) + if |items| == 1 then "" else "," + ItemsText(items[1..])
  }

  function EntriesText(members: seq<Entry>): string
    requires members != []
    decreases members, 0
  {
    EntryText(members[0]) + if |members| == 1 then "" else "," + EntriesText(members[1..])
  }

  function Meaning(d: Doc): Value
    requires IsDoc(d)
    decreases d, 0
  {
    match d
    case NullWord => Null
    case BoolWord(b) => Bool(b)
    case Literal(literal) => Number(literal)
    case Quoted(pieces) => Str(Spelled(pieces))
    case Bracketed(_, items) => Array(ItemsMeaning(items))
    case Braced(_, members) => Object(Assemble(EntriesMeaning(members)))
  }

  function ItemsMeaning(items: seq<Item>): seq<Value>
    requires forall i :: 0 <= i < |items| ==> IsItem(items[i])
    decreases items, 0
  {
    if items == [] then [] else [ItemMeaning(items[0])] + ItemsMeaning(items[1..])
  }

  function ItemMeaning(x: Item): Value
    requires IsItem(x)
    decreases x, 0
  {
    Meaning(x.doc)
  }

  function EntryMeaning(e: Entry): Member
    requires IsEntry(e)
    decreases e, 0
  {
    Member(Spelled(e.key), ItemMeaning(e.item))
  }

  function EntriesMeaning(members: seq<Entry>): seq<Member>
    requires forall i :: 0 <= i < |members| ==> IsEntry(members[i])
    decreases members, 0
  {
    if members == [] then [] else [EntryMeaning(members[0])] + EntriesMeaning(members[1..])
  }

  /** `s` is JSON text for `v`. */
  ghost predicate IsJson(s: string, v: Value) {
    exists x: Item :: IsItem(x) && s == ItemText(x) && ItemMeaning(x) == v
  }

  // ---------------------------------------------------------------- strings

  lemma UnitReads(digits: string, x: string)
    requires IsUnit(digits)
    ensures ParseHex4(digits + x) == Some(Parsed(CodeOf(digits), x))
  {
    hide HexValue;
    var t := digits + x;
    assert digits[0] in digits && digits[1] in digits && digits[2] in digits && digits[3] in digits;
    assert t[0] == digits[0] && t[1] == digits[1] && t[2] == digits[2] && t[3] == digits[3] && t[4..] == x;
  }

  lemma UnitFinds(s: string) returns (digits: string)
    requires ParseHex4(s).Some?
    ensures IsUnit(digits) && s == digits + ParseHex4(s).value.rest && CodeOf(digits) == ParseHex4(s).value.value
  {
    hide HexValue;
    digits := s[..4];
  }

  lemma EscapeReads(p: Piece, x: string) returns (t: string)
    requires IsPiece(p) && !p.Plain?
    ensures PieceText(p) + x == "\\" + t && ParseEscape(t) == Some(Parsed(Denoted(p), x))
  {
    hide ParseUnicode, ParseEscape, CodeOf, IsUnit, IsPiece, Denoted;
    match p
    case Short(c) =>
      t := [c] + x;
      ShortReads(c, x);
    case Unit(digits) =>
      t := "u" + (digits + x);
      LongReads(digits + x);
      UnicodeReads(p, x);
    case Pair(high, low) =>
      t := "u" + (high + ("\\u" + low + x));
      LongReads(high + ("\\u" + low + x));
      UnicodeReads(p, x);
  }

  lemma ShortReads(c: char, x: string)
    requires IsPiece(Short(c))
    ensures ParseEscape([c] + x) == Some(Parsed(Denoted(Short(c)), x))
  {
    hide ParseUnicode;
    assert ([c] + x)[1..] == x;
  }

  lemma LongReads(s: string)
    ensures ParseEscape("u" + s) == ParseUnicode(s)
  {
    hide ParseUnicode;
    assert ("u" + s)[1..] == s;
  }

  lemma UnicodeReads(p: Piece, x: string)
    requires IsPiece(p)
    ensures p.Unit? ==> ParseUnicode(p.digits + x) == Some(Parsed(Denoted(p), x))
    ensures p.Pair? ==> ParseUnicode(p.high + ("\\u" + p.low + x)) == Some(Parsed(Denoted(p), x))
  {
    hide ParseHex4, CodeOf, IsUnit;
    if p.Unit? {
      UnitReads(p.digits, x);
    } else if p.Pair? {
      var more := "\\u" + p.low + x;
      assert more[2..] == p.low + x;
      UnitReads(p.high, more);
      UnitReads(p.low, x);
    }
  }

  lemma EscapeFinds(s: string) returns (p: Piece)
    requires ParseEscape(s).Some?
    ensures IsPiece(p) && "\\" + s == PieceText(p) + ParseEscape(s).value.rest && Denoted(p) == ParseEscape(s).value.value
  {
    hide ParseUnicode;
    assert s == [s[0]] + s[1..];
    if s[0] == 'u' {
      p := UnicodeFinds(s[1..]);
    } else {
      p := Short(s[0]);
    }
  }

  lemma UnicodeFinds(s: string) returns (p: Piece)
    requires ParseUnicode(s).Some?
    ensures IsPiece(p) && "\\u" + s == PieceText(p) + ParseUnicode(s).value.rest && Denoted(p) == ParseUnicode(s).value.value
  {
    hide ParseHex4, CodeOf, IsUnit;
    var high := UnitFinds(s);
    var unit := ParseHex4(s).value;
    if 0xD800 <= unit.value < 0xE000 {
      var low := UnitFinds(unit.rest[2..]);
      p := Pair(high, low);
      assert unit.rest == "\\u" + unit.rest[2..];
    } else {
      p := Unit(high);
    }
  }

  lemma PieceReads(p: Piece, x: string)
    requires IsPiece(p)
    ensures ParseChars(PieceText(p) + x) ==
            match ParseChars(x) case None => None case Some(m) => Some(Parsed([Denoted(p)] + m.value, m.rest))
  {
    hide ParseEscape;
    var s := PieceText(p) + x;
    if p.Plain? {
      assert s[1..] == x;
    } else {
      var t := EscapeReads(p, x);
      assert s[0] == '\\' && s[1..] == t;
    }
  }

  lemma {:induction false} PiecesRead(ps: seq<Piece>, rest: string)
    requires ArePieces(ps)
    ensures ParseChars(PiecesText(ps) + "\"" + rest) == Some(Parsed(Spelled(ps), rest))
  {
    hide PieceText, Denoted, IsPiece;
    if ps == [] {
      assert PiecesText(ps) + "\"" + rest == "\"" + rest;
    } else {
      var x := PiecesText(ps[1..]) + "\"" + rest;
      assert PiecesText(ps) + "\"" + rest == PieceText(ps[0]) + x;
      assert ps[0] in ps;
      PieceReads(ps[0], x);
      PiecesRead(ps[1..], rest);
    }
  }

  lemma {:induction false} PiecesFind(s: string) returns (ps: seq<Piece>)
    requires ParseChars(s).Some?
    ensures ArePieces(ps) && s == PiecesText(ps) + "\"" + ParseChars(s).value.rest
    ensures Spelled(ps) == ParseChars(s).value.value
    decreases |s|
  {
    hide ParseEscape;
    if s[0] == '"' {
      ps := [];
    } else {
      var p, more;
      if s[0] == '\\' {
        p := EscapeFinds(s[1..]);
        more := ParseEscape(s[1..]).value.rest;
      } else {
        p, more := Plain(s[0]), s[1..];
      }
      assert s == PieceText(p) + more;
      var rest := PiecesFind(more);
      ps := [p] + rest;
      assert ps[1..] == rest;
    }
  }

  // ---------------------------------------------------------------- what is written is read

  lemma DocOpens(d: Doc)
    requires IsDoc(d)
    ensures DocText(d) != "" && OpensValue(DocText(d)[0])
  {
    if d.Literal? {
      NumberTextChars(d.literal);
    }
  }

  lemma SpaceEnds(space: string, rest: string)
    requires AllSpace(space) && Ends(rest)
    ensures Ends(space + rest)
  {
    if space != "" {
      assert space[0] in space;
    }
  }

  lemma {:induction false} Reads(d: Doc, rest: string)
    requires IsDoc(d) && Ends(rest)
    ensures ParseValue(DocText(d) + rest) == Some(Parsed(Meaning(d), rest))
    decreases d, 0
  {
    hide ParseValue;
    match d
    case NullWord => RoundTripWord(Null, rest);
    case BoolWord(b) => RoundTripWord(Bool(b), rest);
    case Literal(literal) => RoundTripScalar(Number(literal), rest);
    case Quoted(pieces) => ReadsQuoted(pieces, rest);
    case Bracketed(_, _) => ReadsBracketed(d, rest);
    case Braced(_, _) => ReadsBraced(d, rest);
  }

  lemma ReadsQuoted(pieces: seq<Piece>, rest: string)
    requires ArePieces(pieces)
    ensures ParseValue("\"" + PiecesText(pieces) + "\"" + rest) == Some(Parsed(Str(Spelled(pieces)), rest))
  {
    hide ArePieces, PiecesText, Spelled;
    assert ("\"" + PiecesText(pieces) + "\"" + rest)[1..] == PiecesText(pieces) + "\"" + rest;
    PiecesRead(pieces, rest);
  }

  lemma {:induction false} ReadsBracketed(d: Doc, rest: string)
    requires IsDoc(d) && d.Bracketed?
    ensures ParseValue(DocText(d) + rest) == Some(Parsed(Meaning(d), rest))
    decreases d.items, 1
  {
    hide ParseItems, ItemsText, ItemsMeaning, ParseValue;
    var s := DocText(d) + rest;
    OpenBracket(s);
    if d.items == [] {
      assert s[1..] == d.blank + ("]" + rest);
      SkipAll(d.blank, "]" + rest);
      assert ("]" + rest)[1..] == rest;
      NothingMeant();
    } else {
      assert s[1..] == ItemsText(d.items) + "]" + rest;
      assert s[1..] == ItemsText(d.items) + ("]" + rest);
      ItemsOpen(d.items, "]" + rest);
      ReadsItems(d.items, rest);
    }
  }

  lemma OpenBracket(s: string)
    requires s != "" && s[0] == '['
    ensures var t, p := SkipSpace(s[1..]), ParseItems(s[1..]);
            ParseValue(s) == if t != "" && t[0] == ']' then Some(Parsed(Array([]), t[1..]))
                             else if p.Some? then Some(Parsed(Array(p.value.value), p.value.rest)) else None
  {
    hide ParseItems, SkipSpace;
  }

  lemma ItemsOpen(items: seq<Item>, rest: string)
    requires items != [] && IsItem(items[0])
    ensures var t := SkipSpace(ItemsText(items) + rest); t != "" && OpensValue(t[0])
  {
    hide DocText, IsDoc;
    var x := items[0];
    var more := DocText(x.doc) + (x.back + (if |items| == 1 then "" else "," + ItemsText(items[1..])) + rest);
    assert ItemsText(items) + rest == x.front + more;
    DocOpens(x.doc);
    SkipAll(x.front, more);
    OpensVisibly(more[0]);
  }

  lemma {:induction false} ReadsItem(x: Item, rest: string)
    requires IsItem(x) && Ends(rest) && (rest == "" || !IsJsonSpace(rest[0]))
    ensures ParseElement(ItemText(x) + rest) == Some(Parsed(ItemMeaning(x), rest))
    decreases x, 0
  {
    hide DocText, IsDoc, ParseValue, Meaning;
    var more := DocText(x.doc) + (x.back + rest);
    assert ItemText(x) + rest == x.front + more;
    DocOpens(x.doc);
    SkipAll(x.front, more);
    OpensVisibly(more[0]);
    SpaceEnds(x.back, rest);
    Reads(x.doc, x.back + rest);
    SkipAll(x.back, rest);
  }

  lemma {:induction false} ReadsItems(items: seq<Item>, rest: string)
    requires items != [] && forall i :: 0 <= i < |items| ==> IsItem(items[i])
    ensures ParseItems(ItemsText(items) + "]" + rest) == Some(Parsed(ItemsMeaning(items), rest))
    decreases items, 0
  {
    hide ItemText, ParseElement, IsItem, ItemMeaning;
    if |items| == 1 {
      var tail := "]" + rest;
      assert ItemsText(items) + "]" + rest == ItemText(items[0]) + tail && tail[1..] == rest;
      ReadsItem(items[0], tail);
      assert ItemsMeaning(items) == [ItemMeaning(items[0])] by {
        assert ItemsMeaning(items[1..]) == [];
      }
    } else {
      var tail := ItemsText(items[1..]) + "]" + rest;
      assert ItemsText(items) + "]" + rest == ItemText(items[0]) + ("," + tail);
      ReadsItem(items[0], "," + tail);
      assert ("," + tail)[1..] == tail;
      ReadsItems(items[1..], rest);
    }
  }

  lemma {:induction false} ReadsBraced(d: Doc, rest: string)
    requires IsDoc(d) && d.Braced?
    ensures ParseValue(DocText(d) + rest) == Some(Parsed(Meaning(d), rest))
    decreases d.members, 1
  {
    hide ParseMembers, Assemble, EntriesText, EntriesMeaning, ParseValue;
    var s := DocText(d) + rest;
    if d.members == [] {
      assert s[1..] == d.blank + ("}" + rest);
      SkipAll(d.blank, "}" + rest);
      assert ("}" + rest)[1..] == rest;
      NothingMeant();
      NothingAssembled();
      OpenBrace(s);
    } else {
      assert s[1..] == EntriesText(d.members) + "}" + rest;
      assert s[1..] == EntriesText(d.members) + ("}" + rest);
      EntriesOpen(d.members, "}" + rest);
      ReadsEntries(d.members, rest);
      OpenBrace(s);
    }
  }

  lemma OpenBrace(s: string)
    requires s != "" && s[0] == '{'
    ensures var t, p := SkipSpace(s[1..]), ParseMembers(s[1..]);
            ParseValue(s) == if t != "" && t[0] == '}' then Some(Parsed(Object([]), t[1..]))
                             else if p.Some? then Some(Parsed(Object(Assemble(p.value.value)), p.value.rest)) else None
  {
    hide ParseMembers, Assemble, SkipSpace;
  }

  lemma NothingAssembled()
    ensures Assemble([]) == []
  {
  }

  lemma EntriesOpen(members: seq<Entry>, rest: string)
    requires members != [] && AllSpace(members[0].front)
    ensures var t := SkipSpace(EntriesText(members) + rest); t != "" && t[0] == '"'
  {
    hide ItemText, PiecesText;
    var e := members[0];
    var more := "\"" + (PiecesText(e.key) + "\"" + e.behind + ":" + ItemText(e.item)
                        + (if |members| == 1 then "" else "," + EntriesText(members[1..])) + rest);
    assert EntriesText(members) + rest == e.front + more;
    SkipAll(e.front, more);
  }

  lemma ReadsKey(e: Entry, rest: string)
    requires AllSpace(e.front) && ArePieces(e.key) && AllSpace(e.behind)
    ensures ParseKey(e.front + "\"" + PiecesText(e.key) + "\"" + e.behind + ":" + rest) == Some(Parsed(Spelled(e.key), rest))
  {
    hide PiecesText, Spelled, ArePieces, ParseChars;
    var tail := e.behind + (":" + rest);
    var more := "\"" + (PiecesText(e.key) + "\"" + tail);
    assert e.front + "\"" + PiecesText(e.key) + "\"" + e.behind + ":" + rest == e.front + more;
    SkipAll(e.front, more);
    assert more[1..] == PiecesText(e.key) + "\"" + tail;
    PiecesRead(e.key, tail);
    SkipAll(e.behind, ":" + rest);
    assert (":" + rest)[1..] == rest;
  }

  lemma {:induction false} ReadsEntries(members: seq<Entry>, rest: string)
    requires members != [] && forall i :: 0 <= i < |members| ==> IsEntry(members[i])
    ensures ParseMembers(EntriesText(members) + "}" + rest) == Some(Parsed(EntriesMeaning(members), rest))
    decreases members, 0
  {
    hide ItemText, PiecesText, ParseElement, ParseKey, ParseMembers, IsItem, ArePieces, ItemMeaning, Spelled, AllSpace;
    var e := members[0];
    var key := e.front + "\"" + PiecesText(e.key) + "\"" + e.behind + ":";
    var text := EntriesText(members) + "}" + rest;
    assert IsEntry(e);
    assert EntryText(e) == key + ItemText(e.item);
    var first := EntryMeaning(e);
    if |members| == 1 {
      var tail := "}" + rest;
      assert text == key + (ItemText(e.item) + tail) && tail[1..] == rest;
      ReadsKey(e, ItemText(e.item) + tail);
      ReadsItem(e.item, tail);
      MembersLast(text, Parsed(first.key, ItemText(e.item) + tail), Parsed(first.value, tail));
      assert EntriesMeaning(members) == [first] by {
        assert EntriesMeaning(members[1..]) == [];
      }
    } else {
      var more := EntriesText(members[1..]) + "}" + rest;
      var tail := "," + more;
      assert text == key + (ItemText(e.item) + tail) && tail[1..] == more;
      ReadsKey(e, ItemText(e.item) + tail);
      ReadsItem(e.item, tail);
      ReadsEntries(members[1..], rest);
      MembersMore(text, Parsed(first.key, ItemText(e.item) + tail), Parsed(first.value, tail),
                  Parsed(EntriesMeaning(members[1..]), rest));
    }
  }

  // ---------------------------------------------------------------- what is read was written

  lemma {:induction false} SpaceFinds(s: string) returns (space: string)
    ensures AllSpace(space) && s == space + SkipSpace(s)
  {
    if s != "" && IsJsonSpace(s[0]) {
      var more := SpaceFinds(s[1..]);
      space := [s[0]] + more;
      assert s == [s[0]] + s[1..];
    } else {
      space := "";
    }
  }

  lemma {:induction false} Finds(s: string) returns (d: Doc)
    requires ParseValue(s).Some?
    ensures IsDoc(d) && s == DocText(d) + ParseValue(s).value.rest && Meaning(d) == ParseValue(s).value.value
    decreases |s|, 0
  {
    hide ParseItems, ParseMembers, ParseChars, Assemble, ParseNumber, ParseWord, PiecesText, ArePieces, Spelled;
    assert s == [s[0]] + s[1..];
    if s[0] == '"' {
      var pieces := PiecesFind(s[1..]);
      d := Quoted(pieces);
    } else if s[0] == '[' {
      d := FindsBracketed(s);
    } else if s[0] == '{' {
      d := FindsBraced(s);
    } else {
      d := FindsScalar(s);
    }
  }

  lemma FindsScalar(s: string) returns (d: Doc)
    requires ParseValue(s).Some? && s[0] != '"' && s[0] != '[' && s[0] != '{'
    ensures IsDoc(d) && s == DocText(d) + ParseValue(s).value.rest && Meaning(d) == ParseValue(s).value.value
  {
    hide IsNumberText;
    if s[0] == 'n' {
      d := NullWord;
    } else if s[0] == 't' {
      d := BoolWord(true);
    } else if s[0] == 'f' {
      d := BoolWord(false);
    } else {
      d := Literal(s[..NumberRun(s)]);
    }
  }

  lemma {:induction false} FindsBracketed(s: string) returns (d: Doc)
    requires ParseValue(s).Some? && s[0] == '['
    ensures IsDoc(d) && s == DocText(d) + ParseValue(s).value.rest && Meaning(d) == ParseValue(s).value.value
    decreases |s| - 1, 3
  {
    hide ParseItems, ItemsText, ItemsMeaning, IsItem, ParseValue;
    OpenBracket(s);
    var t := SkipSpace(s[1..]);
    assert s == "[" + s[1..];
    if t != "" && t[0] == ']' {
      d := FindsBlank(s, t);
    } else {
      var items := FindsItems(s[1..]);
      d := Bracketed("", items);
    }
  }

  lemma FindsBlank(s: string, t: string) returns (d: Doc)
    requires s != "" && t == SkipSpace(s[1..]) && t != "" && (s[0] == '[' || s[0] == '{')
    requires t[0] == if s[0] == '[' then ']' else '}'
    ensures IsDoc(d) && s == DocText(d) + t[1..]
    ensures Meaning(d) == if s[0] == '[' then Array([]) else Object([])
  {
    hide SkipSpace;
    var blank := SpaceFinds(s[1..]);
    d := if s[0] == '[' then Bracketed(blank, []) else Braced(blank, []);
    assert s == [s[0]] + s[1..] && t == [t[0]] + t[1..];
    NothingMeant();
    NothingAssembled();
  }

  lemma NothingMeant()
    ensures ItemsMeaning([]) == [] && EntriesMeaning([]) == []
  {
  }

  lemma {:induction false} FindsItem(s: string) returns (x: Item)
    requires ParseElement(s).Some?
    ensures IsItem(x) && s == ItemText(x) + ParseElement(s).value.rest && ItemMeaning(x) == ParseElement(s).value.value
    decreases |s|, 1
  {
    hide ParseValue, IsDoc, DocText, Meaning, AllSpace;
    var front := SpaceFinds(s);
    var doc := Finds(SkipSpace(s));
    var back := SpaceFinds(ParseValue(SkipSpace(s)).value.rest);
    x := Item(front, doc, back);
  }

  lemma {:induction false} FindsItems(s: string) returns (items: seq<Item>)
    requires ParseItems(s).Some?
    ensures items != [] && forall i :: 0 <= i < |items| ==> IsItem(items[i])
    ensures s == ItemsText(items) + "]" + ParseItems(s).value.rest && ItemsMeaning(items) == ParseItems(s).value.value
    decreases |s|, 2
  {
    hide ParseElement, IsItem, ItemText, ItemMeaning;
    var x := FindsItem(s);
    var rest := ParseElement(s).value.rest;
    assert rest == [rest[0]] + rest[1..];
    if rest[0] == ']' {
      items := [x];
      assert items[1..] == [];
    } else {
      var more := FindsItems(rest[1..]);
      items := [x] + more;
      assert items[1..] == more;
    }
  }

  lemma {:induction false} FindsBraced(s: string) returns (d: Doc)
    requires ParseValue(s).Some? && s[0] == '{'
    ensures IsDoc(d) && s == DocText(d) + ParseValue(s).value.rest && Meaning(d) == ParseValue(s).value.value
    decreases |s| - 1, 3
  {
    hide ParseMembers, EntriesText, EntriesMeaning, IsEntry, Assemble, ParseValue;
    OpenBrace(s);
    var t := SkipSpace(s[1..]);
    assert s == "{" + s[1..];
    if t != "" && t[0] == '}' {
      d := FindsBlank(s, t);
    } else {
      var members := FindsEntries(s[1..]);
      d := Braced("", members);
    }
  }

  lemma FindsKey(s: string) returns (front: string, key: seq<Piece>, behind: string)
    requires ParseKey(s).Some?
    ensures AllSpace(front) && ArePieces(key) && AllSpace(behind) && Spelled(key) == ParseKey(s).value.value
    ensures s == front + "\"" + PiecesText(key) + "\"" + behind + ":" + ParseKey(s).value.rest
  {
    hide ParseChars, SkipSpace, AllSpace, ArePieces, PiecesText, Spelled;
    var t := SkipSpace(s);
    var rest := ParseChars(t[1..]).value.rest;
    var u := SkipSpace(rest);
    assert ParseKey(s) == Some(Parsed(ParseChars(t[1..]).value.value, u[1..]));
    assert t[0] == '"' && u[0] == ':';
    front := SpaceFinds(s);
    key := PiecesFind(t[1..]);
    behind := SpaceFinds(rest);
    KeyText(s, front, t, PiecesText(key), rest, behind, u);
  }

  lemma KeyText(s: string, front: string, t: string, key: string, rest: string, behind: string, u: string)
    requires s == front + t && t != "" && t[0] == '"' && t[1..] == key + "\"" + rest
    requires rest == behind + u && u != "" && u[0] == ':'
    ensures s == front + "\"" + key + "\"" + behind + ":" + u[1..]
  {
    assert u == ":" + u[1..];
    assert t == "\"" + t[1..];
  }

  lemma {:induction false} FindsEntries(s: string) returns (members: seq<Entry>)
    requires ParseMembers(s).Some?
    ensures members != [] && forall i :: 0 <= i < |members| ==> IsEntry(members[i])
    ensures s == EntriesText(members) + "}" + ParseMembers(s).value.rest
    ensures EntriesMeaning(members) == ParseMembers(s).value.value
    decreases |s|, 2
  {
    hide ParseElement, ParseKey, IsItem, ItemText, ItemMeaning, AllSpace, ArePieces, PiecesText, Spelled;
    var front, key, behind := FindsKey(s);
    var x := FindsItem(ParseKey(s).value.rest);
    var e := Entry(front, key, behind, x);
    var rest := ParseElement(ParseKey(s).value.rest).value.rest;
    assert rest == [rest[0]] + rest[1..];
    assert s == EntryText(e) + rest;
    if rest[0] == '}' {
      members := [e];
      assert members[1..] == [];
    } else {
      var more := FindsEntries(rest[1..]);
      members := [e] + more;
      assert members[1..] == more;
    }
  }

  /** `JSON.parse` accepts exactly the texts of the grammar, and gives what they mean. */
  lemma ParsesIff(s: string, v: Value)
    ensures ParseText(s) == Some(v) <==> IsJson(s, v)
  {
    hide ParseElement, IsItem, ItemText, ItemMeaning;
    if ParseText(s) == Some(v) {
      var x := FindsItem(s);
      assert ItemText(x) + "" == ItemText(x);
    }
    if IsJson(s, v) {
      var x: Item :| IsItem(x) && s == ItemText(x) && ItemMeaning(x) == v;
      ReadsItem(x, "");
      assert ItemText(x) + "" == ItemText(x);
    }
  }
}
