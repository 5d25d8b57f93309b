/** What completing does to every text, and to every cut of a well-nested document. */
module JsxDocuments {
  import opened Text
  import opened JsxTags

  // ---------------------------------------------------------------- every text

  lemma {:induction false} LastOpenAt(text: string, i: int)
    requires -1 <= i < |text| && (i >= 0 ==> text[i] == '<') && forall k :: i < k < |text| ==> text[k] != '<'
    ensures LastOpen(text) == i
  {
    if text != "" && i < |text| - 1 {
      LastOpenAt(text[..|text| - 1], i);
    }
  }

  lemma {:induction false} LastOpenIs(text: string)
    ensures LastOpen(text) >= 0 ==> text[LastOpen(text)] == '<'
    ensures forall k :: LastOpen(text) < k < |text| ==> text[k] != '<'
  {
    if text != "" && text[|text| - 1] != '<' {
      LastOpenIs(text[..|text| - 1]);
    }
  }

  /** What stands before a text with a `<` in it is not stripped. */
  lemma StripAfter(front: string, text: string)
    requires LastOpen(text) >= 0
    ensures StripIncompleteTag(front + text) == front + StripIncompleteTag(text)
  {
    var i := LastOpen(text);
    LastOpenAfter(front, text);
    assert (front + text)[|front| + i..] == text[i..];
    assert (front + text)[..|front| + i] == front + text[..i];
  }

  lemma LastOpenAfter(front: string, text: string)
    requires LastOpen(text) >= 0
    ensures LastOpen(front + text) == |front| + LastOpen(text)
  {
    LastOpenIs(text);
    forall k | |front| + LastOpen(text) < k < |front + text| ensures (front + text)[k] != '<' {
      assert (front + text)[k] == text[k - |front|];
    }
    LastOpenAt(front + text, |front| + LastOpen(text));
  }

  /** Nothing is stripped when the last character that could open a tag has a `>` behind it. */
  lemma StripNothing(front: string, text: string)
    requires front != "" && front[|front| - 1] == '>' && LastOpen(text) < 0
    ensures StripIncompleteTag(front + text) == front + text
  {
    var all := front + text;
    var i := LastOpen(all);
    LastOpenIs(text);
    LastOpenIs(all);
    assert forall k :: |front| <= k < |all| ==> all[k] == text[k - |front|] && all[k] != '<';
    if i >= 0 {
      EndBehind(all, i, |front| - 1);
    }
  }

  lemma EndBehind(s: string, i: nat, k: nat)
    requires i <= k < |s| && s[k] == '>'
    ensures '>' in s[i..]
  {
    assert s[i..][k - i] == '>';
  }

  /** On every text, what is kept is the text without an unfinished last tag. */
  lemma {:induction false} KeptIsStripped(code: string, stack: seq<string>)
    ensures ScanTags(code, stack).kept == StripIncompleteTag(code)
    decreases |code|
  {
    var t := FirstTag(code);
    if t.Some? {
      var front, rest := code[..t.value.end], code[t.value.end..];
      KeptIsStripped(rest, Track(stack, t.value.name, t.value.kind));
      assert code == front + rest;
      if LastOpen(rest) >= 0 {
        StripAfter(front, rest);
      } else {
        FoundEnds(code);
        StripNothing(front, rest);
        assert StripIncompleteTag(rest) == rest;
      }
    }
  }

  /** On every text: the text, less an unfinished last tag, and then closing tags. */
  lemma CompletedExtends(code: string)
    ensures Completed(code) == StripIncompleteTag(code) + CloseAll(ScanTags(code, []).stack)
    ensures StripIncompleteTag(code) <= code && StripIncompleteTag(code) <= Completed(code)
  {
    KeptIsStripped(code, []);
  }

  // ---------------------------------------------------------------- documents

  datatype Token =
    | Words(text: string)
    | Open(name: string, attributes: string)
    | Close(name: string)
    | Single(name: string, attributes: string)

  /** Attributes are set off from the name and hold no angle brackets. */
  predicate IsAttributes(s: string) {
    (s != "" ==> !IsNameChar(s[0])) && '<' !in s && '>' !in s
  }

  predicate IsToken(t: Token) {
    match t
    case Words(text) => '<' !in text
    case Open(name, attributes) =>
      IsName(name) && IsAttributes(attributes) && (attributes != "" ==> attributes[|attributes| - 1] != '/')
    case Close(name) => IsName(name)
    case Single(name, attributes) => IsName(name) && IsAttributes(attributes)
  }

  function PrintToken(t: Token): string {
    match t
    case Words(text) => text
    case Open(name, attributes) => "<" + name + attributes + ">"
    case Close(name) => "</" + name + ">"
    case Single(name, attributes) => "<" + name + attributes + "/>"
  }

  function PrintDocument(ts: seq<Token>): string {
    if ts == [] then "" else PrintToken(ts[0]) + PrintDocument(ts[1..])
  }

  predicate IsDocument(ts: seq<Token>) {
    forall i :: 0 <= i < |ts| ==> IsToken(ts[i])
  }

  /** The names open after `ts`, when every closing tag closes the innermost open one. */
  function Nest(ts: seq<Token>, open: seq<string>): Option<seq<string>>
    decreases |ts|
  {
    if ts == [] then Some(open)
    else
      match ts[0]
      case Words(_) => Nest(ts[1..], open)
      case Single(_, _) => Nest(ts[1..], open)
      case Open(name, _) => Nest(ts[1..], open + [name])
      case Close(name) =>
        if open != [] && open[|open| - 1] == name then Nest(ts[1..], open[..|open| - 1]) else None
  }

  predicate WellNested(ts: seq<Token>) {
    Nest(ts, []) == Some([])
  }

  // ---------------------------------------------------------------- scanning a document

  function KindOf(t: Token): Kind
    requires !t.Words?
  {
    match t
    case Open(_, _) => Opening
    case Close(_) => Closing
    case Single(_, _) => SelfClosing
  }

  /** All between a tag's name and its `>`. */
  function Inner(t: Token): string {
    match t
    case Words(_) => ""
    case Open(_, attributes) => attributes
    case Close(_) => ""
    case Single(_, attributes) => attributes + "/"
  }

  function Start(t: Token): string {
    if t.Close? then "</" else "<"
  }

  lemma TokenParts(t: Token)
    requires IsToken(t) && !t.Words?
    ensures PrintToken(t) == Start(t) + (t.name + Inner(t) + ">")
    ensures '>' !in Inner(t) && '<' !in Inner(t) && (Inner(t) != "" ==> !IsNameChar(Inner(t)[0]))
    ensures KindOf(t) == KindIn(t.Close?, Inner(t))
  {
  }

  lemma TokenStarts(t: Token, rest: string)
    requires IsToken(t) && !t.Words?
    ensures var code := PrintToken(t) + rest;
            && code != "" && code[0] == '<' && (Slashed(code) <==> t.Close?)
            && Body(code) == t.name + Inner(t) + ">" + rest
  {
    var code := PrintToken(t) + rest;
    TokenParts(t);
    var body := t.name + Inner(t) + ">" + rest;
    assert code == Start(t) + body && body[0] == t.name[0];
    assert code[|Start(t)|..] == body;
  }

  lemma TokenFound(t: Token, rest: string)
    requires IsToken(t) && !t.Words?
    ensures FirstTag(PrintToken(t) + rest) == Some(Tag(0, |PrintToken(t)|, t.name, KindOf(t)))
  {
    var code := PrintToken(t) + rest;
    TokenStarts(t, rest);
    TokenParts(t);
    BodyFound(t.Close?, t.name, Inner(t), rest, Body(code), |code| - |Body(code)|);
    assert StartsTag(code);
    assert TagHere(code) == TagIn(t.Close?, Body(code), |code| - |Body(code)|);
  }

  lemma {:induction false} TagAfterWords(text: string, rest: string, code: string)
    requires '<' !in text && code == text + rest
    ensures FirstTag(code) == Shift(FirstTag(rest), |text|)
  {
    var r := FirstTag(rest);
    ShiftTwice(r, |text|);
    if text == "" {
      assert code == rest;
    } else {
      TagAfterWords(text[1..], rest, code[1..]);
      assert code[0] == text[0] && text[0] in text;
      TagAfterOther(code, FirstTag(code[1..]));
    }
  }

  lemma ShiftTwice(r: Option<Tag>, k: nat)
    ensures Shift(r, 0) == r && (k > 0 ==> Shift(Shift(r, k - 1), 1) == Shift(r, k))
  {
  }

  lemma TagAfterOther(code: string, r: Option<Tag>)
    requires code != "" && code[0] != '<' && r == FirstTag(code[1..])
    ensures FirstTag(code) == Shift(r, 1)
  {
  }

  lemma StripAfterWords(text: string, rest: string)
    requires '<' !in text
    ensures StripIncompleteTag(text + rest) == text + StripIncompleteTag(rest)
  {
    LastOpenIs(rest);
    if LastOpen(rest) >= 0 {
      StripAfter(text, rest);
    } else {
      LastOpenAt(text + rest, -1);
    }
  }

  lemma ScanWords(text: string, rest: string, stack: seq<string>)
    requires '<' !in text
    ensures ScanTags(text + rest, stack) ==
            Scan(text + ScanTags(rest, stack).kept, ScanTags(rest, stack).stack)
  {
    var code, r := text + rest, FirstTag(rest);
    TagAfterWords(text, rest, code);
    if r.Some? {
      var t := r.value;
      WordsFirst(text, rest, code, t.end);
      ScanSome(text, rest, code, stack, t, Tag(t.start + |text|, t.end + |text|, t.name, t.kind), rest[t.end..]);
    } else {
      ScanNone(text, rest, code, stack);
    }
  }

  lemma ScanNone(text: string, rest: string, code: string, stack: seq<string>)
    requires '<' !in text && code == text + rest && FirstTag(rest) == None && FirstTag(code) == None
    ensures ScanTags(code, stack) == Scan(text + ScanTags(rest, stack).kept, ScanTags(rest, stack).stack)
  {
    StripAfterWords(text, rest);
    ScanAfter(code, stack, None);
    ScanAfter(rest, stack, None);
  }

  lemma ScanSome(text: string, rest: string, code: string, stack: seq<string>, t: Tag, u: Tag, left: string)
    requires FirstTag(rest) == Some(t) && FirstTag(code) == Some(u) && u.name == t.name && u.kind == t.kind
    requires left == rest[t.end..] && left == code[u.end..] && code[..u.end] == text + rest[..t.end]
    ensures ScanTags(code, stack) == Scan(text + ScanTags(rest, stack).kept, ScanTags(rest, stack).stack)
  {
    var after := ScanTags(left, Track(stack, t.name, t.kind));
    OneTag(rest, stack, t, left, after);
    OneTag(code, stack, u, left, after);
    Join(ScanTags(code, stack), ScanTags(rest, stack), after, text, rest[..t.end]);
  }

  lemma OneTag(code: string, stack: seq<string>, t: Tag, left: string, after: Scan)
    requires FirstTag(code) == Some(t) && left == code[t.end..]
    requires after == ScanTags(left, Track(stack, t.name, t.kind))
    ensures ScanTags(code, stack) == Scan(code[..t.end] + after.kept, after.stack)
  {
  }

  lemma WordsFirst(text: string, rest: string, code: string, e: nat)
    requires code == text + rest && e <= |rest|
    ensures code[e + |text|..] == rest[e..] && code[..e + |text|] == text + rest[..e]
  {
  }

  lemma Join(a: Scan, b: Scan, after: Scan, text: string, front: string)
    requires a == Scan(text + front + after.kept, after.stack) && b == Scan(front + after.kept, after.stack)
    ensures a == Scan(text + b.kept, b.stack)
  {
  }

  lemma ScanTag(t: Token, rest: string, stack: seq<string>)
    requires IsToken(t) && !t.Words?
    ensures var after := ScanTags(rest, Track(stack, t.name, KindOf(t)));
            ScanTags(PrintToken(t) + rest, stack) == Scan(PrintToken(t) + after.kept, after.stack)
  {
    var code := PrintToken(t) + rest;
    TokenFound(t, rest);
    ScanAfter(code, stack, FirstTag(code));
    assert code[..|PrintToken(t)|] == PrintToken(t) && code[|PrintToken(t)|..] == rest;
  }

  /** Scanning a document keeps it and ends with the names it leaves open. */
  lemma {:induction false} ScanDocument(ts: seq<Token>, tail: string, stack: seq<string>)
    requires IsDocument(ts) && Nest(ts, stack).Some?
    ensures var after := ScanTags(tail, Nest(ts, stack).value);
            ScanTags(PrintDocument(ts) + tail, stack) == Scan(PrintDocument(ts) + after.kept, after.stack)
    decreases |ts|
  {
    if ts == [] {
      assert PrintDocument(ts) + tail == tail;
    } else {
      var rest := PrintDocument(ts[1..]) + tail;
      assert PrintDocument(ts) + tail == PrintToken(ts[0]) + rest;
      var next := if ts[0].Words? then stack else Track(stack, ts[0].name, KindOf(ts[0]));
      assert Nest(ts, stack) == Nest(ts[1..], next);
      if ts[0].Words? {
        ScanWords(ts[0].text, rest, stack);
      } else {
        ScanTag(ts[0], rest, stack);
      }
      ScanDocument(ts[1..], tail, next);
      Regroup(PrintToken(ts[0]), PrintDocument(ts[1..]), ScanTags(tail, Nest(ts, stack).value).kept);
    }
  }

  lemma Regroup(a: string, b: string, c: string)
    ensures a + (b + c) == a + b + c
  {
  }

  /** A well-nested document is complete already. */
  lemma CompleteDocument(ts: seq<Token>)
    requires IsDocument(ts) && WellNested(ts)
    ensures Completed(PrintDocument(ts)) == PrintDocument(ts)
  {
    ScanDocument(ts, "", []);
    assert PrintDocument(ts) + "" == PrintDocument(ts);
    assert ScanTags("", []) == Scan("", []);
  }

  // ---------------------------------------------------------------- cutting a document

  /** The closing tags of the open names, innermost first. */
  function Closers(open: seq<string>): seq<Token> {
    if open == [] then [] else [Close(open[|open| - 1])] + Closers(open[..|open| - 1])
  }

  predicate AreNames(names: seq<string>) {
    forall i :: 0 <= i < |names| ==> IsName(names[i])
  }

  lemma {:induction false} ClosersClose(open: seq<string>)
    requires AreNames(open)
    ensures IsDocument(Closers(open)) && Nest(Closers(open), open) == Some([])
    ensures PrintDocument(Closers(open)) == CloseAll(open)
  {
    if open != [] {
      var n := |open| - 1;
      ClosersClose(open[..n]);
      assert Closers(open)[1..] == Closers(open[..n]);
    }
  }

  lemma {:induction false} OpenNames(ts: seq<Token>, open: seq<string>)
    requires IsDocument(ts) && AreNames(open) && Nest(ts, open).Some?
    ensures AreNames(Nest(ts, open).value)
    decreases |ts|
  {
    if ts != [] {
      assert IsToken(ts[0]);
      var next := if ts[0].Words? then open else Track(open, ts[0].name, KindOf(ts[0]));
      assert Nest(ts, open) == Nest(ts[1..], next);
      OpenNames(ts[1..], next);
    }
  }

  lemma {:induction false} NestAppend(a: seq<Token>, b: seq<Token>, open: seq<string>)
    ensures Nest(a + b, open) == match Nest(a, open) case None => None case Some(mid) => Nest(b, mid)
    decreases |a|
  {
    if a == [] {
      assert a + b == b;
    } else {
      assert (a + b)[1..] == a[1..] + b && (a + b)[0] == a[0];
      match a[0]
      case Words(_) => NestAppend(a[1..], b, open);
      case Single(_, _) => NestAppend(a[1..], b, open);
      case Open(name, _) => NestAppend(a[1..], b, open + [name]);
      case Close(name) =>
        if open != [] && open[|open| - 1] == name {
          NestAppend(a[1..], b, open[..|open| - 1]);
        }
    }
  }

  lemma {:induction false} PrintAppend(a: seq<Token>, b: seq<Token>)
    ensures PrintDocument(a + b) == PrintDocument(a) + PrintDocument(b)
  {
    if a == [] {
      assert a + b == b;
    } else {
      assert (a + b)[1..] == a[1..] + b;
      PrintAppend(a[1..], b);
    }
  }

  /** `m` characters of token `k`; nothing behind the last token. */
  function Piece(ts: seq<Token>, k: nat, m: nat): string {
    if k < |ts| && m <= |PrintToken(ts[k])| then PrintToken(ts[k])[..m] else ""
  }

  /** The first `n` characters of a document are `k` whole tokens and `m` characters of the next. */
  lemma {:induction false} Locate(ts: seq<Token>, n: nat) returns (k: nat, m: nat)
    requires n <= |PrintDocument(ts)|
    ensures k <= |ts| && (k < |ts| ==> m < |PrintToken(ts[k])|)
    ensures PrintDocument(ts)[..n] == PrintDocument(ts[..k]) + Piece(ts, k, m)
    decreases |ts|
  {
    if ts == [] {
      return 0, 0;
    }
    var first, rest := PrintToken(ts[0]), PrintDocument(ts[1..]);
    if n < |first| {
      k, m := 0, n;
      CutBefore(first, rest, n);
    } else {
      k, m := Locate(ts[1..], n - |first|);
      CutBehind(first, rest, n, PrintDocument(ts[1..][..k]), Piece(ts[1..], k, m));
      k := k + 1;
      FirstToken(ts, k);
      assert Piece(ts, k, m) == Piece(ts[1..], k - 1, m);
    }
  }

  lemma CutBefore(first: string, rest: string, n: nat)
    requires n < |first|
    ensures (first + rest)[..n] == "" + first[..n]
  {
  }

  lemma CutBehind(first: string, rest: string, n: nat, front: string, piece: string)
    requires |first| <= n <= |first| + |rest| && rest[..n - |first|] == front + piece
    ensures (first + rest)[..n] == first + front + piece
  {
    assert (first + rest)[..n] == first + rest[..n - |first|];
  }

  lemma FirstToken(ts: seq<Token>, k: nat)
    requires 0 < k <= |ts|
    ensures PrintDocument(ts[..k]) == PrintToken(ts[0]) + PrintDocument(ts[1..][..k - 1])
  {
    assert ts[..k][1..] == ts[1..][..k - 1];
  }

  /** A beginning of a document is a document and then perhaps the beginning of a tag. */
  lemma CutDocument(ts: seq<Token>, n: nat) returns (whole: seq<Token>, part: string)
    requires IsDocument(ts) && n <= |PrintDocument(ts)|
    ensures PrintDocument(ts)[..n] == PrintDocument(whole) + part
    ensures IsDocument(whole) && IsUnfinished(part)
    ensures Nest(ts, []).Some? ==> Nest(whole, []).Some?
  {
    hide Nest, PrintDocument, PrintToken, IsUnfinished, IsToken;
    var k, m := Locate(ts, n);
    whole, part := ts[..k], "";
    NestAppend(ts[..k], ts[k..], []);
    assert ts == ts[..k] + ts[k..];
    NothingUnfinished();
    if k < |ts| {
      assert IsToken(ts[k]);
      var cut := PrintToken(ts[k])[..m];
      if ts[k].Words? {
        whole := ts[..k] + [Words(cut)];
        WordsCut(ts[k], m);
        MoreWords(ts[..k], cut);
        assert PrintDocument(whole) + "" == PrintDocument(whole);
      } else {
        part := cut;
        CutTag(ts[k], m);
      }
    }
  }

  lemma NothingUnfinished()
    ensures IsUnfinished("")
  {
  }

  lemma WordsCut(t: Token, m: nat)
    requires t.Words? && IsToken(t) && m < |PrintToken(t)|
    ensures IsToken(Words(PrintToken(t)[..m]))
  {
  }

  lemma MoreWords(ts: seq<Token>, text: string)
    ensures PrintDocument(ts + [Words(text)]) == PrintDocument(ts) + text
    ensures Nest(ts, []).Some? ==> Nest(ts + [Words(text)], []).Some?
  {
    hide Nest, PrintDocument;
    NestAppend(ts, [Words(text)], []);
    PrintAppend(ts, [Words(text)]);
    LastWords(text);
  }

  lemma LastWords(text: string)
    ensures PrintDocument([Words(text)]) == text && forall open :: Nest([Words(text)], open) == Some(open)
  {
    assert [Words(text)][1..] == [];
  }

  predicate IsUnfinished(part: string) {
    part == "" || (part[0] == '<' && '>' !in part && '<' !in part[1..])
  }

  lemma CutBrackets(inner: string, n: nat)
    requires '<' !in inner && '>' !in inner && n < |inner| + 2
    ensures IsUnfinished(("<" + inner + ">")[..n])
  {
    if n > 0 {
      assert ("<" + inner + ">")[..n] == "<" + inner[..n - 1];
    }
  }

  lemma CutTag(t: Token, n: nat)
    requires IsToken(t) && !t.Words? && n < |PrintToken(t)|
    ensures IsUnfinished(PrintToken(t)[..n])
  {
    TokenParts(t);
    NameHasNoBrackets(t.name);
    var inner := (if t.Close? then "/" else "") + t.name + Inner(t);
    assert PrintToken(t) == "<" + inner + ">";
    CutBrackets(inner, n);
  }

  lemma NameHasNoBrackets(name: string)
    requires IsName(name)
    ensures '<' !in name && '>' !in name
  {
  }

  lemma UnfinishedTagIsDropped(part: string, stack: seq<string>)
    requires IsUnfinished(part)
    ensures ScanTags(part, stack) == Scan("", stack)
  {
    TagHasEnd(part);
    ScanAfter(part, stack, None);
    if part != "" {
      assert forall k :: 1 <= k < |part| ==> part[k] == part[1..][k - 1];
      LastOpenAt(part, 0);
    }
  }

  lemma TagHasEnd(code: string)
    ensures FirstTag(code).Some? ==> '>' in code
  {
    FoundEnds(code);
  }

  /**
   * A document cut at any character completes to a well-nested document. It starts with the cut text less its
   * unfinished last tag, adds only closing tags, and completing it again changes nothing.
   */
  lemma CutCompletes(ts: seq<Token>, n: nat) returns (kept: seq<Token>, open: seq<string>)
    requires IsDocument(ts) && Nest(ts, []).Some? && n <= |PrintDocument(ts)|
    ensures IsDocument(kept) && Nest(kept, []) == Some(open)
    ensures StripIncompleteTag(PrintDocument(ts)[..n]) == PrintDocument(kept)
    ensures var doc := kept + Closers(open);
            && IsDocument(doc) && WellNested(doc)
            && Completed(PrintDocument(ts)[..n]) == PrintDocument(doc)
            && Completed(PrintDocument(doc)) == PrintDocument(doc)
  {
    var part;
    kept, part := CutDocument(ts, n);
    open := Nest(kept, []).value;
    var cut := PrintDocument(ts)[..n];
    ScanDocument(kept, part, []);
    UnfinishedTagIsDropped(part, open);
    assert PrintDocument(kept) + "" == PrintDocument(kept);
    assert ScanTags(cut, []) == Scan(PrintDocument(kept), open);
    KeptIsStripped(cut, []);
    OpenNames(kept, []);
    ClosersClose(open);
    PrintAppend(kept, Closers(open));
    NestAppend(kept, Closers(open), []);
    CompleteDocument(kept + Closers(open));
  }
}
