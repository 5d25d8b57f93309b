/** Completing truncated JSX: finding tags, dropping an unfinished one, closing what is open. */
module JsxTags {
  import opened Text

  predicate IsLetter(c: char) {
    'a' <= c <= 'z' || 'A' <= c <= 'Z'
  }

  predicate IsNameChar(c: char) {
    IsLetter(c) || IsDigit(c)
  }

  datatype Kind = Opening | Closing | SelfClosing

  /** A tag in a text: from the position of its `<` to one past its `>`. */
  datatype Tag = Tag(start: nat, end: nat, name: string, kind: Kind)

  /** Number of leading letters and digits. */
  function NameRun(s: string): (n: nat)
    ensures n <= |s|
  {
    if s == "" || !IsNameChar(s[0]) then 0 else 1 + NameRun(s[1..])
  }

  /** Number of characters before the first `>`. */
  function EndRun(s: string): (n: nat)
    ensures n <= |s|
    ensures n < |s| ==> s[n] == '>'
  {
    if s == "" || s[0] == '>' then 0 else 1 + EndRun(s[1..])
  }

  predicate Slashed(code: string) {
    |code| > 1 && code[1] == '/'
  }

  /** What follows the `<` or `</`. */
  function Body(code: string): string
    requires code != ""
  {
    if Slashed(code) then code[2..] else code[1..]
  }

  /** `body` starts with a name and has a `>` somewhere behind it. */
  predicate Closes(body: string) {
    body != "" && IsLetter(body[0]) && NameRun(body) + EndRun(body[NameRun(body)..]) < |body|
  }

  function KindIn(slash: bool, inner: string): Kind {
    if inner != "" && inner[|inner| - 1] == '/' then SelfClosing else if slash then Closing else Opening
  }

  function TagIn(slash: bool, body: string, length: nat): Tag {
    var n := NameRun(body);
    var e := EndRun(body[n..]);
    Tag(0, length + n + e + 1, body[..n], KindIn(slash, body[n..][..e]))
  }

  predicate StartsTag(code: string) {
    code != "" && code[0] == '<' && Closes(Body(code))
  }

  /** The tag that starts with the first character of `code`. */
  function TagHere(code: string): (t: Tag)
    requires StartsTag(code)
    ensures t.start == 0 && 0 < t.end <= |code| && code[t.end - 1] == '>'
  {
    TagIn(Slashed(code), Body(code), |code| - |Body(code)|)
  }

  /** A tag found `k` characters further on. */
  function Shift(r: Option<Tag>, k: nat): Option<Tag> {
    match r
    case None => None
    case Some(t) => Some(Tag(t.start + k, t.end + k, t.name, t.kind))
  }

  /** The leftmost tag. */
  function FirstTag(code: string): (r: Option<Tag>)
    ensures r.Some? ==> r.value.start < r.value.end <= |code|
  {
    if code == "" then None
    else if StartsTag(code) then Some(TagHere(code))
    else
      Shift(FirstTag(code[1..]), 1)
  }

  lemma {:induction false} FoundEnds(code: string)
    ensures FirstTag(code).Some? ==> code[FirstTag(code).value.end - 1] == '>'
  {
    hide StartsTag, TagHere;
    if code != "" && !StartsTag(code) {
      FoundEnds(code[1..]);
    }
  }

  predicate IsName(name: string) {
    name != "" && IsLetter(name[0]) && forall c :: c in name ==> IsNameChar(c)
  }

  lemma {:induction false} NameRunOf(name: string, rest: string)
    requires (forall c :: c in name ==> IsNameChar(c)) && (rest != "" ==> !IsNameChar(rest[0]))
    ensures NameRun(name + rest) == |name|
  {
    if name == "" {
      assert name + rest == rest;
    } else {
      assert name[0] in name;
      assert (name + rest)[1..] == name[1..] + rest;
      NameRunOf(name[1..], rest);
    }
  }

  lemma {:induction false} EndRunOf(s: string, rest: string)
    requires '>' !in s
    ensures EndRun(s + ">" + rest) == |s|
  {
    if s == "" {
      assert s + ">" + rest == ">" + rest;
    } else {
      assert (s + ">" + rest)[1..] == s[1..] + ">" + rest;
      EndRunOf(s[1..], rest);
    }
  }

  /** A tag is found where it starts: `inner` is all between the name and the `>`. */
  lemma BodyFound(slash: bool, name: string, inner: string, rest: string, body: string, length: nat)
    requires IsName(name) && '>' !in inner && (inner != "" ==> !IsNameChar(inner[0]))
    requires body == name + inner + ">" + rest
    ensures Closes(body)
    ensures TagIn(slash, body, length) == Tag(0, length + |name| + |inner| + 1, name, KindIn(slash, inner))
  {
    var after := inner + ">" + rest;
    assert body == name + after;
    NameRunOf(name, after);
    assert body[..|name|] == name && body[|name|..] == after;
    EndRunOf(inner, rest);
    assert after[..|inner|] == inner;
  }

  // ---------------------------------------------------------------- what a tag is

  /**
   * The text of a tag: `<` or `</`, a name of letters and digits that begins with a letter and is as long as
   * possible, anything but `>`, and `>`.
   */
  ghost predicate IsTagText(w: string, slash: bool, name: string, inner: string) {
    && w == (if slash then "</" else "<") + name + inner + ">"
    && name != "" && ('a' <= name[0] <= 'z' || 'A' <= name[0] <= 'Z')
    && (forall c :: c in name ==> 'a' <= c <= 'z' || 'A' <= c <= 'Z' || '0' <= c <= '9')
    && (inner != "" ==> var c := inner[0]; !('a' <= c <= 'z' || 'A' <= c <= 'Z' || '0' <= c <= '9'))
    && '>' !in inner
  }

  /** `text` has this tag: a `/` before its `>` makes it close itself, else a `/` after its `<` closes another one. */
  ghost predicate IsTag(text: string, t: Tag) {
    && t.start <= t.end <= |text|
    && exists slash, inner ::
         && IsTagText(text[t.start..t.end], slash, t.name, inner)
         && t.kind == if inner != "" && inner[|inner| - 1] == '/' then SelfClosing else if slash then Closing else Opening
  }

  lemma TagTextStarts(code: string, end: nat, slash: bool, name: string, inner: string)
    requires end <= |code| && IsTagText(code[..end], slash, name, inner)
    ensures StartsTag(code) && TagHere(code) == Tag(0, end, name, KindIn(slash, inner))
  {
    var start := if slash then "</" else "<";
    var rest := code[end..];
    var body := name + inner + ">" + rest;
    assert code == code[..end] + rest;
    assert code == start + body && body[0] == name[0];
    assert code[|start|..] == body;
    assert Slashed(code) <==> slash;
    assert Body(code) == body;
    BodyFound(slash, name, inner, rest, body, |start|);
  }

  lemma {:induction false} NameRunChars(s: string)
    ensures forall i :: 0 <= i < NameRun(s) ==> IsNameChar(s[i])
    ensures NameRun(s) < |s| ==> !IsNameChar(s[NameRun(s)])
  {
    if s != "" && IsNameChar(s[0]) {
      NameRunChars(s[1..]);
      forall i | 0 <= i < NameRun(s) ensures IsNameChar(s[i]) {
        assert i > 0 ==> s[i] == s[1..][i - 1];
      }
    }
  }

  lemma {:induction false} EndRunFirst(s: string)
    ensures '>' !in s[..EndRun(s)]
  {
    if s != "" && s[0] != '>' {
      EndRunFirst(s[1..]);
      var n := EndRun(s);
      assert s[..n] == [s[0]] + s[1..][..n - 1];
    }
  }

  lemma BodyText(body: string, name: string, inner: string)
    requires name <= body && |name| + |inner| < |body| && inner <= body[|name|..] && body[|name|..][|inner|] == '>'
    ensures body[..|name| + |inner| + 1] == name + inner + ">"
    ensures inner != "" ==> inner[0] == body[|name|]
  {
    var n := |name|;
    assert body[..n + |inner| + 1] == body[..n] + body[n..][..|inner| + 1];
    assert body[n..][..|inner| + 1] == inner + ">";
  }

  /** A body starts with a whole name. */
  lemma NamePart(body: string, name: string)
    requires Closes(body) && name == body[..NameRun(body)]
    ensures name != "" && IsLetter(name[0]) && (forall c :: c in name ==> IsNameChar(c))
    ensures |name| < |body| ==> !IsNameChar(body[|name|])
  {
    hide EndRun;
    NameRunChars(body);
    forall c | c in name ensures IsNameChar(c) {
      var i :| 0 <= i < |name| && name[i] == c;
      assert body[i] == c;
    }
  }

  /** The name and the inner text that a body starts with. */
  lemma BodyParts(slash: bool, body: string, name: string, inner: string)
    requires Closes(body) && name == body[..NameRun(body)] && inner == body[|name|..][..EndRun(body[|name|..])]
    ensures |name| + |inner| < |body|
    ensures IsTagText((if slash then "</" else "<") + body[..|name| + |inner| + 1], slash, name, inner)
  {
    hide NameRun, EndRun;
    NamePart(body, name);
    EndRunFirst(body[|name|..]);
    BodyText(body, name, inner);
    Regrouped(if slash then "</" else "<", name, inner);
  }

  lemma Regrouped(start: string, name: string, inner: string)
    ensures start + (name + inner + ">") == start + name + inner + ">"
  {
  }

  lemma StartIsTag(code: string)
    requires StartsTag(code)
    ensures IsTag(code, TagHere(code))
  {
    hide IsTagText, NameRun, EndRun, Closes;
    var slash, body := Slashed(code), Body(code);
    var name := body[..NameRun(body)];
    var inner := body[|name|..][..EndRun(body[|name|..])];
    BodyParts(slash, body, name, inner);
    var start := if slash then "</" else "<";
    assert code == start + body;
    assert code[0..TagHere(code).end] == start + body[..|name| + |inner| + 1];
  }

  /** At most one tag starts at a place. */
  lemma TagIsUnique(text: string, t: Tag, u: Tag)
    requires IsTag(text, t) && IsTag(text, u) && t.start == u.start
    ensures t == u
  {
    TagStarts(text, t);
    TagStarts(text, u);
  }

  lemma TagStarts(text: string, t: Tag)
    requires IsTag(text, t)
    ensures t.start <= |text| && StartsTag(text[t.start..])
    ensures TagHere(text[t.start..]) == Tag(0, t.end - t.start, t.name, t.kind) && t.end > t.start
  {
    var slash, inner :| IsTagText(text[t.start..t.end], slash, t.name, inner)
      && t.kind == if inner != "" && inner[|inner| - 1] == '/' then SelfClosing else if slash then Closing else Opening;
    assert text[t.start..][..t.end - t.start] == text[t.start..t.end];
    TagTextStarts(text[t.start..], t.end - t.start, slash, t.name, inner);
  }

  lemma TagMoves(text: string, k: nat, t: Tag)
    requires k <= |text|
    ensures IsTag(text[k..], t) <==> IsTag(text, Tag(t.start + k, t.end + k, t.name, t.kind))
  {
    if t.start <= t.end <= |text| - k {
      assert text[k..][t.start..t.end] == text[t.start + k..t.end + k];
    }
  }

  lemma TagBehind(code: string, t: Tag)
    requires code != "" && !StartsTag(code) && IsTag(code, t)
    ensures 0 < t.start < t.end && IsTag(code[1..], Tag(t.start - 1, t.end - 1, t.name, t.kind))
  {
    hide IsTag, StartsTag, TagHere;
    TagStarts(code, t);
    assert code[0..] == code;
    TagMoves(code, 1, Tag(t.start - 1, t.end - 1, t.name, t.kind));
  }

  /** The search finds the leftmost tag, and nothing only where there is none. */
  lemma {:induction false} FirstTagIs(code: string)
    ensures FirstTag(code) == None <==> forall t :: !IsTag(code, t)
    ensures FirstTag(code).Some? ==>
              IsTag(code, FirstTag(code).value) && forall t :: IsTag(code, t) ==> FirstTag(code).value.start <= t.start
  {
    hide IsTag, StartsTag, TagHere;
    if code == "" {
      forall t ensures !IsTag(code, t) {
        if IsTag(code, t) {
          TagHasText(code, t);
        }
      }
    } else if StartsTag(code) {
      StartIsTag(code);
    } else {
      FirstTagIs(code[1..]);
      forall t | IsTag(code, t)
        ensures 0 < t.start < t.end && IsTag(code[1..], Tag(t.start - 1, t.end - 1, t.name, t.kind))
      {
        TagBehind(code, t);
      }
      if FirstTag(code[1..]).Some? {
        TagMoves(code, 1, FirstTag(code[1..]).value);
      }
    }
  }

  lemma TagHasText(text: string, t: Tag)
    requires IsTag(text, t)
    ensures text != ""
  {
  }

  lemma {:induction false} NoBracketNoTag(code: string)
    ensures '<' !in code ==> FirstTag(code) == None
  {
    if code != "" {
      NoBracketNoTag(code[1..]);
    }
  }

  method MatchJsxTag(code: string) returns (r: Option<Tag>)
    ensures r == FirstTag(code)
    ensures r == None <==> forall t :: !IsTag(code, t)
    ensures r.Some? ==> IsTag(code, r.value) && forall t :: IsTag(code, t) ==> r.value.start <= t.start
  {
    hide IsTag, FirstTag, Trim;
    FirstTagIs(code);
    if Trim(code) == "" {
      TrimOfBlank(code);
      NoBracketNoTag(code);
      return None;
    }
    r := FirstTag(code);
  }

  /** Index of the last `<`, or -1. */
  function LastOpen(text: string): (i: int)
    ensures -1 <= i < |text|
  {
    if text == "" then -1 else if text[|text| - 1] == '<' then |text| - 1 else LastOpen(text[..|text| - 1])
  }

  /** Drops a last tag that has no `>` yet. */
  function StripIncompleteTag(text: string): string
  {
    var i := LastOpen(text);
    if i >= 0 && '>' !in text[i..] then text[..i] else text
  }

  // ---------------------------------------------------------------- completing

  datatype Scan = Scan(kept: string, stack: seq<string>)

  function Track(stack: seq<string>, name: string, kind: Kind): seq<string> {
    match kind
    case Opening => stack + [name]
    case Closing => if stack == [] then [] else stack[..|stack| - 1]
    case SelfClosing => stack
  }

  /** The text kept of `code` and the names still open after it. */
  function ScanTags(code: string, stack: seq<string>): Scan
    decreases |code|
  {
    match FirstTag(code)
    case None => Scan(StripIncompleteTag(code), stack)
    case Some(t) =>
      var rest := ScanTags(code[t.end..], Track(stack, t.name, t.kind));
      Scan(code[..t.end] + rest.kept, rest.stack)
  }

  function CloseTag(name: string): string {
    "</" + name + ">"
  }

  function CloseAll(stack: seq<string>): string {
    if stack == [] then "" else CloseTag(stack[|stack| - 1]) + CloseAll(stack[..|stack| - 1])
  }

  function Completed(code: string): string {
    var s := ScanTags(code, []);
    s.kept + CloseAll(s.stack)
  }

  method CloseTags(stack: seq<string>) returns (r: string)
    ensures r == CloseAll(stack)
  {
    r := "";
    var n := |stack|;
    assert stack[..n] == stack;
    while n > 0
      invariant 0 <= n <= |stack| && r + CloseAll(stack[..n]) == CloseAll(stack)
    {
      n := n - 1;
      assert stack[..n + 1][..n] == stack[..n];
      r := r + CloseTag(stack[n]);
    }
  }

  lemma ScanAfter(code: string, stack: seq<string>, t: Option<Tag>)
    requires t == FirstTag(code)
    ensures ScanTags(code, stack) ==
            match t
            case None => Scan(StripIncompleteTag(code), stack)
            case Some(tag) =>
              var rest := ScanTags(code[tag.end..], Track(stack, tag.name, tag.kind));
              Scan(code[..tag.end] + rest.kept, rest.stack)
  {
  }

  /** `whole` is what has been kept so far followed by what scanning the rest will keep. */
  ghost predicate Ahead(whole: Scan, result: string, left: string, stack: seq<string>) {
    whole == Scan(result + ScanTags(left, stack).kept, ScanTags(left, stack).stack)
  }

  lemma AheadAtEnd(whole: Scan, result: string, left: string, stack: seq<string>)
    requires Ahead(whole, result, left, stack) && FirstTag(left) == None
    ensures whole == Scan(result + StripIncompleteTag(left), stack)
  {
  }

  lemma AheadOfTag(whole: Scan, result: string, left: string, stack: seq<string>, t: Tag,
                   result': string, left': string, stack': seq<string>)
    requires Ahead(whole, result, left, stack) && FirstTag(left) == Some(t)
    requires left' == left[t.end..] && result' == result + left[..t.end] && stack' == Track(stack, t.name, t.kind)
    ensures Ahead(whole, result', left', stack')
  {
    Glue(whole, result, left[..t.end], ScanTags(left, stack), ScanTags(left', stack'));
  }

  lemma Glue(whole: Scan, result: string, front: string, before: Scan, after: Scan)
    requires whole == Scan(result + before.kept, before.stack) && before == Scan(front + after.kept, after.stack)
    ensures whole == Scan(result + front + after.kept, after.stack)
  {
  }

  lemma Moved(code: string, position: nat, end: nat)
    requires position + end <= |code|
    ensures code[position..][..end] == code[position..position + end]
    ensures code[position..][end..] == code[position + end..]
  {
  }

  method CompleteJsxTag(code: string) returns (r: string)
    ensures r == Completed(code)
  {
    var stack: seq<string>, result, currentPosition := [], "", 0;
    ghost var whole, left := ScanTags(code, []), code;
    while currentPosition < |code|
      invariant 0 <= currentPosition <= |code| && left == code[currentPosition..]
      invariant Ahead(whole, result, left, stack)
    {
      var found := MatchJsxTag(code[currentPosition..]);
      if found.None? {
        AheadAtEnd(whole, result, left, stack);
        result := result + StripIncompleteTag(code[currentPosition..]);
        left := "";
        break;
      }
      var tag := found.value;
      ghost var kept, from, open := result, left, stack;
      Moved(code, currentPosition, tag.end);
      result := result + code[currentPosition..currentPosition + tag.end];
      if tag.kind == Opening {
        stack := stack + [tag.name];
      } else if tag.kind == Closing {
        stack := if stack == [] then [] else stack[..|stack| - 1];
      }
      currentPosition := currentPosition + tag.end;
      left := code[currentPosition..];
      AheadOfTag(whole, kept, from, open, tag, result, left, stack);
    }
    assert whole == Scan(result, stack);
    var closing := CloseTags(stack);
    r := result + closing;
  }
}
