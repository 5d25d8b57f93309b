/** What completing does to every text, said in terms of its tags alone. */
module JsxOpenTags {
  import opened Text
  import opened JsxTags
  import opened JsxDocuments

  // ---------------------------------------------------------------- the tags of a text

  function Shifted(ts: seq<Tag>, k: nat): (r: seq<Tag>)
    ensures |r| == |ts|
    ensures forall i :: 0 <= i < |ts| ==> r[i] == Tag(ts[i].start + k, ts[i].end + k, ts[i].name, ts[i].kind)
  {
    seq(|ts|, i requires 0 <= i < |ts| => Tag(ts[i].start + k, ts[i].end + k, ts[i].name, ts[i].kind))
  }

  /** The tags found one after the other. */
  function Found(code: string): seq<Tag>
    decreases |code|
  {
    match FirstTag(code)
    case None => []
    case Some(t) => [t] + Shifted(Found(code[t.end..]), t.end)
  }

  /** Each tag ends before the next begins. */
  ghost predicate InOrder(ts: seq<Tag>) {
    forall i, j | 0 <= i < j < |ts| :: ts[i].end <= ts[j].start
  }

  /** The place is inside one of the tags. */
  ghost predicate Inside(ts: seq<Tag>, place: nat) {
    exists i :: 0 <= i < |ts| && ts[i].start <= place < ts[i].end
  }

  /** Tags of the text, one behind the other, such that every tag begins inside one of them. */
  ghost predicate Successive(code: string, ts: seq<Tag>) {
    && (forall i | 0 <= i < |ts| :: IsTag(code, ts[i]))
    && InOrder(ts)
    && (forall t | IsTag(code, t) :: Inside(ts, t.start))
  }

  lemma {:induction false} FoundIs(code: string)
    ensures Successive(code, Found(code))
    decreases |code|
  {
    hide IsTag, FirstTag, Successive;
    FirstTagIs(code);
    if FirstTag(code).Some? {
      var t := FirstTag(code).value;
      FoundIs(code[t.end..]);
      FoundMore(code, t, Found(code[t.end..]));
    } else {
      NoneFound(code);
    }
  }

  lemma NoneFound(code: string)
    requires forall t :: !IsTag(code, t)
    ensures Successive(code, [])
  {
    hide IsTag;
  }

  lemma FoundMore(code: string, t: Tag, rest: seq<Tag>)
    requires IsTag(code, t) && t.start < t.end <= |code| && Successive(code[t.end..], rest)
    requires forall u :: IsTag(code, u) ==> t.start <= u.start
    ensures Successive(code, [t] + Shifted(rest, t.end))
  {
    hide IsTag, Inside, Shifted, InOrder;
    var ts := [t] + Shifted(rest, t.end);
    forall i | 0 <= i < |ts| ensures IsTag(code, ts[i]) {
      if i > 0 {
        assert ts[i] == Shifted(rest, t.end)[i - 1];
        TagMoves(code, t.end, rest[i - 1]);
      }
    }
    FoundInOrder(t, rest);
    forall u | IsTag(code, u) ensures Inside(ts, u.start) {
      FoundCovers(code, t, rest, u);
    }
  }

  lemma FoundInOrder(t: Tag, rest: seq<Tag>)
    requires InOrder(rest)
    ensures InOrder([t] + Shifted(rest, t.end))
  {
    var more := Shifted(rest, t.end);
    var ts := [t] + more;
    forall i, j | 0 <= i < j < |ts| ensures ts[i].end <= ts[j].start {
      assert ts[j] == more[j - 1];
      assert i > 0 ==> ts[i] == more[i - 1];
    }
  }

  lemma TagHasLength(text: string, t: Tag)
    requires IsTag(text, t)
    ensures t.start < t.end
  {
    hide IsTag, StartsTag, TagHere;
    TagStarts(text, t);
  }

  lemma FoundCovers(code: string, t: Tag, rest: seq<Tag>, u: Tag)
    requires t.end <= |code| && IsTag(code, u) && t.start <= u.start
    requires forall v | IsTag(code[t.end..], v) :: Inside(rest, v.start)
    ensures Inside([t] + Shifted(rest, t.end), u.start)
  {
    hide IsTag, Shifted;
    var ts := [t] + Shifted(rest, t.end);
    if u.start >= t.end {
      TagHasLength(code, u);
      var v := Tag(u.start - t.end, u.end - t.end, u.name, u.kind);
      TagMoves(code, t.end, v);
      assert Inside(rest, v.start);
      var i :| 0 <= i < |rest| && rest[i].start <= v.start < rest[i].end;
      assert ts[i + 1] == Shifted(rest, t.end)[i];
    } else {
      assert ts[0] == t;
    }
  }

  // ---------------------------------------------------------------- which of them stay open

  /** Opening less closing tags. */
  function Balance(ts: seq<Tag>): int {
    if ts == [] then 0
    else
      var t := ts[|ts| - 1];
      Balance(ts[..|ts| - 1]) + if t.kind == Opening then 1 else if t.kind == Closing then -1 else 0
  }

  /** An opening tag behind which no stretch has more closing than opening tags; names do not matter. */
  ghost predicate StaysOpen(ts: seq<Tag>, i: nat)
    requires i < |ts|
  {
    ts[i].kind == Opening && forall j | i < j <= |ts| :: Balance(Stretch(ts, i, j)) >= 0
  }

  /** The tags behind place `i`, up to `j`. */
  function Stretch(ts: seq<Tag>, i: nat, j: nat): seq<Tag>
    requires i < j <= |ts|
  {
    ts[i + 1..j]
  }

  /** `at` lists the places of the tags that stay open. */
  ghost predicate OpenAt(ts: seq<Tag>, at: seq<nat>) {
    && (forall k, l :: 0 <= k < l < |at| ==> at[k] < at[l])
    && (forall i: nat :: i in at <==> i < |ts| && StaysOpen(ts, i))
  }

  function Names(ts: seq<Tag>, at: seq<nat>): seq<string>
    requires forall k :: 0 <= k < |at| ==> at[k] < |ts|
  {
    seq(|at|, k requires 0 <= k < |at| => ts[at[k]].name)
  }

  function TrackAll(stack: seq<string>, ts: seq<Tag>): seq<string>
    decreases |ts|
  {
    if ts == [] then stack else TrackAll(Track(stack, ts[0].name, ts[0].kind), ts[1..])
  }

  lemma {:induction false} TrackMore(stack: seq<string>, ts: seq<Tag>, t: Tag)
    ensures TrackAll(stack, ts + [t]) == Track(TrackAll(stack, ts), t.name, t.kind)
    decreases |ts|
  {
    if ts == [] {
      assert ([] + [t])[1..] == [];
    } else {
      assert (ts + [t])[1..] == ts[1..] + [t];
      TrackMore(Track(stack, ts[0].name, ts[0].kind), ts[1..], t);
    }
  }

  lemma {:induction false} TrackShifted(stack: seq<string>, ts: seq<Tag>, k: nat)
    ensures TrackAll(stack, Shifted(ts, k)) == TrackAll(stack, ts)
    decreases |ts|
  {
    if ts != [] {
      assert Shifted(ts, k)[1..] == Shifted(ts[1..], k);
      TrackShifted(Track(stack, ts[0].name, ts[0].kind), ts[1..], k);
    }
  }

  lemma {:induction false} ScanTracks(code: string, stack: seq<string>)
    ensures ScanTags(code, stack).stack == TrackAll(stack, Found(code))
    decreases |code|
  {
    var r := FirstTag(code);
    ScanAfter(code, stack, r);
    if r.Some? {
      var t := r.value;
      var rest := Found(code[t.end..]);
      ScanTracks(code[t.end..], Track(stack, t.name, t.kind));
      TrackShifted(Track(stack, t.name, t.kind), rest, t.end);
      assert ([t] + Shifted(rest, t.end))[1..] == Shifted(rest, t.end);
    }
  }

  lemma BalanceMore(ts: seq<Tag>, t: Tag, i: nat)
    requires i <= |ts|
    ensures Balance((ts + [t])[i..]) ==
            Balance(ts[i..]) + if t.kind == Opening then 1 else if t.kind == Closing then -1 else 0
  {
    assert (ts + [t])[i..] == ts[i..] + [t];
    assert (ts[i..] + [t])[..|ts[i..]|] == ts[i..];
  }

  lemma StaysMore(ts: seq<Tag>, t: Tag, i: nat)
    requires i < |ts|
    ensures StaysOpen(ts + [t], i) <==> StaysOpen(ts, i) && Balance((ts + [t])[i + 1..]) >= 0
  {
    hide Balance;
    var more := ts + [t];
    forall j | i < j <= |ts| ensures Stretch(more, i, j) == Stretch(ts, i, j) {
    }
    assert Stretch(more, i, |more|) == more[i + 1..];
  }

  /** The open tags, with as many opening tags more behind each as there are further open ones. */
  ghost predicate OpenCounted(ts: seq<Tag>, at: seq<nat>) {
    OpenAt(ts, at) && forall k | 0 <= k < |at| :: at[k] < |ts| && Behind(ts, at[k]) == |at| - 1 - k
  }

  function Behind(ts: seq<Tag>, i: nat): int
    requires i < |ts|
  {
    Balance(ts[i + 1..])
  }

  lemma {:induction false} OpenTags(ts: seq<Tag>) returns (at: seq<nat>)
    ensures OpenCounted(ts, at) && TrackAll([], ts) == Names(ts, at)
  {
    if ts == [] {
      at := [];
    } else {
      var n := |ts| - 1;
      var before := OpenTags(ts[..n]);
      assert ts == ts[..n] + [ts[n]];
      TrackMore([], ts[..n], ts[n]);
      at := OneMoreTag(ts[..n], ts[n], before);
    }
  }

  function OneMore(before: seq<nat>, n: nat, kind: Kind): seq<nat> {
    match kind
    case Opening => before + [n]
    case SelfClosing => before
    case Closing => if before == [] then [] else before[..|before| - 1]
  }

  lemma OneMoreTag(ts: seq<Tag>, t: Tag, before: seq<nat>) returns (at: seq<nat>)
    requires OpenCounted(ts, before)
    ensures OpenCounted(ts + [t], at)
    ensures Names(ts + [t], at) == Track(Names(ts, before), t.name, t.kind)
  {
    hide StaysOpen, Behind;
    at := OneMore(before, |ts|, t.kind);
    BehindMore(ts, t, before);
    OpenMore(ts, t, before);
  }

  /** How the counts change with one more tag, and who stays open. */
  lemma BehindMore(ts: seq<Tag>, t: Tag, before: seq<nat>)
    requires OpenCounted(ts, before)
    ensures forall k | 0 <= k < |before| ::
              && Behind(ts + [t], before[k]) == |before| - 1 - k + DeltaOf(t)
              && (StaysOpen(ts + [t], before[k]) <==> Behind(ts + [t], before[k]) >= 0)
    ensures Behind(ts + [t], |ts|) == 0
  {
    hide StaysOpen, Balance;
    LastStays(ts, t);
    forall k | 0 <= k < |before|
      ensures Behind(ts + [t], before[k]) == |before| - 1 - k + DeltaOf(t)
      ensures StaysOpen(ts + [t], before[k]) <==> Behind(ts + [t], before[k]) >= 0
    {
      assert before[k] in before;
      BalanceMore(ts, t, before[k] + 1);
      StaysMore(ts, t, before[k]);
    }
  }

  lemma OpenMore(ts: seq<Tag>, t: Tag, before: seq<nat>)
    requires OpenCounted(ts, before)
    ensures OpenAt(ts + [t], OneMore(before, |ts|, t.kind))
  {
    hide StaysOpen, Behind;
    var more, n := ts + [t], |ts|;
    var at := OneMore(before, n, t.kind);
    BehindMore(ts, t, before);
    LastStays(ts, t);
    forall k | 0 <= k < |before| ensures before[k] < n {
      assert before[k] in before;
    }
    forall i: nat ensures i in at <==> i < |more| && StaysOpen(more, i) {
      InFront(before, i);
      if i < n {
        StaysMore(ts, t, i);
      }
    }
  }

  function DeltaOf(t: Tag): int {
    if t.kind == Opening then 1 else if t.kind == Closing then -1 else 0
  }

  /** A place listed at all but perhaps the last position. */
  lemma InFront(at: seq<nat>, i: nat)
    requires forall k, l :: 0 <= k < l < |at| ==> at[k] < at[l]
    ensures i in at ==> exists k :: 0 <= k < |at| && at[k] == i
    ensures at != [] ==> (i in at[..|at| - 1] <==> i in at && i != at[|at| - 1])
  {
    if at != [] {
      var m := |at| - 1;
      assert at == at[..m] + [at[m]];
    }
  }

  lemma LastStays(ts: seq<Tag>, t: Tag)
    ensures StaysOpen(ts + [t], |ts|) <==> t.kind == Opening
    ensures Balance((ts + [t])[|ts| + 1..]) == 0
  {
    var more := ts + [t];
    assert more[|ts| + 1..] == [] && Stretch(more, |ts|, |more|) == [];
  }

  // ---------------------------------------------------------------- the whole

  /** A text without `<`, or with a `>` behind its last `<`, is kept; else all from its last `<` on is dropped. */
  lemma StripIs(text: string, i: nat)
    ensures '<' !in text ==> StripIncompleteTag(text) == text
    ensures i < |text| && text[i] == '<' && '<' !in text[i + 1..] ==>
              StripIncompleteTag(text) == if '>' in text[i..] then text else text[..i]
  {
    LastOpenIs(text);
    if i < |text| && text[i] == '<' && '<' !in text[i + 1..] {
      forall k | i < k < |text| ensures text[k] != '<' {
        assert text[i + 1..][k - i - 1] == text[k];
      }
      LastOpenAt(text, i);
    }
  }

  /** The innermost, last opened name is closed first. */
  lemma CloseAllIs(stack: seq<string>, name: string)
    ensures CloseAll([]) == "" && CloseAll(stack + [name]) == "</" + name + ">" + CloseAll(stack)
  {
    assert (stack + [name])[..|stack|] == stack;
  }

  /** Every text becomes itself without an unfinished last tag, followed by a closing tag for each tag that stays open. */
  lemma CompletedIs(code: string) returns (ts: seq<Tag>, at: seq<nat>)
    ensures Successive(code, ts) && OpenAt(ts, at) && forall k :: 0 <= k < |at| ==> at[k] < |ts|
    ensures Completed(code) == StripIncompleteTag(code) + CloseAll(Names(ts, at))
  {
    hide FirstTag, StaysOpen;
    ts := Found(code);
    FoundIs(code);
    at := OpenTags(ts);
    ScanTracks(code, []);
    CompletedExtends(code);
  }
}
