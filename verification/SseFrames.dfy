/** Splitting a chunked event stream into frames (sections 9.2.5 and 9.2.6 of the WHATWG HTML Living Standard, LF only). */
module SseFrames {
  import opened Text

  const BREAK := "\n\n"

  /** A blank line ends at `k + 1`. */
  predicate IsBreak(s: string, k: int) {
    0 <= k && k + 1 < |s| && s[k] == '\n' && s[k + 1] == '\n'
  }

  ghost predicate Unbroken(s: string) {
    forall k :: !IsBreak(s, k)
  }

  /** Index of the first break, or `|s|` when there is none. */
  function BreakAt(s: string): (i: nat)
    ensures i <= |s| && (i < |s| ==> IsBreak(s, i))
  {
    if s == "" || IsBreak(s, 0) then 0 else 1 + BreakAt(s[1..])
  }

  lemma BreakBehind(s: string, k: int)
    requires s != "" && k > 0
    ensures IsBreak(s, k) <==> IsBreak(s[1..], k - 1)
  {
  }

  lemma {:induction false} BreakAtIs(s: string, i: nat)
    requires i <= |s| && (i < |s| ==> IsBreak(s, i)) && forall k :: IsBreak(s, k) ==> i <= k
    ensures BreakAt(s) == i
  {
    if s != "" && i > 0 {
      assert !IsBreak(s, 0);
      BreakBehind(s, i);
      forall k | IsBreak(s[1..], k) ensures i - 1 <= k {
        BreakBehind(s, k + 1);
      }
      BreakAtIs(s[1..], i - 1);
    }
  }

  lemma {:induction false} BreakAtFirst(s: string)
    ensures forall k :: IsBreak(s, k) ==> BreakAt(s) <= k
  {
    if s != "" && !IsBreak(s, 0) {
      BreakAtFirst(s[1..]);
      forall k | IsBreak(s, k) ensures BreakAt(s) <= k {
        BreakBehind(s, k);
      }
    }
  }

  lemma NoBreak(s: string)
    requires Unbroken(s)
    ensures BreakAt(s) == |s|
  {
    BreakAtIs(s, |s|);
  }

  /** All complete frames of a text, blank ones included, and what is left after the last break. */
  datatype Split = Split(frames: seq<string>, rest: string)

  function SplitFrames(s: string): Split
    decreases |s|
  {
    var i := BreakAt(s);
    if i == |s| then Split([], s)
    else
      var r := SplitFrames(s[i + 2..]);
      Split([s[..i]] + r.frames, r.rest)
  }

  function NonEmpty(frames: seq<string>): seq<string> {
    if frames == [] then []
    else (if frames[0] == "" then [] else [frames[0]]) + NonEmpty(frames[1..])
  }

  lemma {:induction false} NonEmptyAppend(a: seq<string>, b: seq<string>)
    ensures NonEmpty(a + b) == NonEmpty(a) + NonEmpty(b)
  {
    if a == [] {
      assert a + b == b;
    } else {
      assert (a + b)[1..] == a[1..] + b;
      NonEmptyAppend(a[1..], b);
    }
  }

  /**
   * What a reader sees of a body: its non-blank frames and, when the body ended regularly, the
   * trailing partial frame unless it is white space.
   */
  function FramesOf(body: string, ended: bool): seq<string> {
    Seen(body) + if ended && Trim(Left(body)) != "" then [Left(body)] else []
  }

  /** A body: each frame closed by a break, then the rest. */
  function Glue(frames: seq<string>, rest: string): string {
    if frames == [] then rest else frames[0] + BREAK + Glue(frames[1..], rest)
  }

  lemma GlueMore(frame: string, frames: seq<string>, rest: string)
    ensures Glue([frame] + frames, rest) == frame + BREAK + Glue(frames, rest)
  {
    assert ([frame] + frames)[1..] == frames;
  }

  /** Splitting loses nothing, and no frame hides a break or its first half. */
  lemma {:induction false} SplitIsExact(s: string)
    ensures Glue(SplitFrames(s).frames, SplitFrames(s).rest) == s
    ensures Unbroken(SplitFrames(s).rest)
    ensures forall f :: f in SplitFrames(s).frames ==> Unbroken(f + "\n")
    decreases |s|
  {
    hide Unbroken, Glue;
    var i := BreakAt(s);
    if i < |s| {
      SplitIsExact(s[i + 2..]);
      var r := SplitFrames(s[i + 2..]);
      GlueMore(s[..i], r.frames, r.rest);
      assert s == s[..i] + BREAK + s[i + 2..];
      FrameUnbroken(s);
    } else {
      SplitWhole(s);
    }
  }

  lemma SplitWhole(s: string)
    requires BreakAt(s) == |s|
    ensures SplitFrames(s) == Split([], s) && Glue([], s) == s && Unbroken(s)
  {
    BreakAtFirst(s);
  }

  lemma FrameUnbroken(s: string)
    requires BreakAt(s) < |s|
    ensures Unbroken(s[..BreakAt(s)] + "\n")
  {
    var i := BreakAt(s);
    BreakAtFirst(s);
    var line := s[..i] + "\n";
    assert forall k :: 0 <= k <= i ==> line[k] == s[k];
    forall k ensures !IsBreak(line, k) {
      assert IsBreak(line, k) ==> IsBreak(s, k);
    }
  }

  /** It is the only such decomposition. */
  lemma {:induction false} SplitOfGlue(frames: seq<string>, rest: string)
    requires Unbroken(rest) && forall f :: f in frames ==> Unbroken(f + "\n")
    ensures SplitFrames(Glue(frames, rest)) == Split(frames, rest)
  {
    if frames == [] {
      NoBreak(rest);
    } else {
      var f := frames[0];
      var s := Glue(frames, rest);
      var tail := Glue(frames[1..], rest);
      SplitOfGlue(frames[1..], rest);
      FirstBreak(f, tail);
      assert s[..|f|] == f && s[|f| + 2..] == tail;
      assert frames == [f] + frames[1..];
    }
  }

  lemma FirstBreak(f: string, tail: string)
    requires Unbroken(f + "\n")
    ensures BreakAt(f + BREAK + tail) == |f|
  {
    var s := f + BREAK + tail;
    assert forall k :: 0 <= k <= |f| ==> (f + "\n")[k] == s[k];
    forall k | IsBreak(s, k) ensures |f| <= k {
      assert k < |f| ==> IsBreak(f + "\n", k);
    }
    BreakAtIs(s, |f|);
  }

  lemma {:induction false} GlueAppend(frames: seq<string>, rest: string, b: string)
    ensures Glue(frames, rest) + b == Glue(frames, rest + b)
  {
    if frames != [] {
      GlueAppend(frames[1..], rest, b);
      assert frames[0] + BREAK + Glue(frames[1..], rest) + b == frames[0] + BREAK + (Glue(frames[1..], rest) + b);
    }
  }

  lemma {:induction false} GlueGlue(a: seq<string>, b: seq<string>, rest: string)
    ensures Glue(a, Glue(b, rest)) == Glue(a + b, rest)
  {
    if a == [] {
      assert a + b == b;
    } else {
      GlueGlue(a[1..], b, rest);
      assert (a + b)[1..] == a[1..] + b;
    }
  }

  /** Splitting can stop anywhere and go on from what was left. */
  lemma SplitResumes(a: string, b: string)
    ensures SplitFrames(a + b).rest == SplitFrames(SplitFrames(a).rest + b).rest
    ensures SplitFrames(a + b).frames == SplitFrames(a).frames + SplitFrames(SplitFrames(a).rest + b).frames
  {
    var r := SplitFrames(a);
    var t := SplitFrames(r.rest + b);
    SplitIsExact(a);
    SplitIsExact(r.rest + b);
    GlueAppend(r.frames, r.rest, b);
    GlueGlue(r.frames, t.frames, t.rest);
    SplitOfGlue(r.frames + t.frames, t.rest);
  }

  lemma SplitMore(s: string, i: nat, tail: string)
    requires i == BreakAt(s) < |s| && tail == s[i + 2..]
    ensures SplitFrames(s) == Split([s[..i]] + SplitFrames(tail).frames, SplitFrames(tail).rest)
  {
  }

  /** The non-blank frames of a text. */
  function Seen(s: string): seq<string> {
    NonEmpty(SplitFrames(s).frames)
  }

  function Left(s: string): string {
    SplitFrames(s).rest
  }

  lemma SeenMore(s: string, i: nat, tail: string)
    requires i == BreakAt(s) < |s| && tail == s[i + 2..]
    ensures Seen(s) == (if i == 0 then [] else [s[..i]]) + Seen(tail) && Left(s) == Left(tail)
  {
    SplitMore(s, i, tail);
    NonEmptyMore(s[..i], SplitFrames(tail).frames);
  }

  lemma NonEmptyMore(frame: string, frames: seq<string>)
    ensures NonEmpty([frame] + frames) == (if frame == "" then [] else [frame]) + NonEmpty(frames)
  {
    assert ([frame] + frames)[1..] == frames;
  }

  lemma SeenResumes(a: string, b: string)
    ensures Seen(a + b) == Seen(a) + Seen(Left(a) + b) && Left(a + b) == Left(Left(a) + b)
  {
    SplitResumes(a, b);
    NonEmptyAppend(SplitFrames(a).frames, SplitFrames(Left(a) + b).frames);
  }

  lemma SeenFrame(frame: string, tail: string)
    requires frame != "" && Unbroken(frame + "\n")
    ensures Seen(frame + BREAK + tail) == [frame] + Seen(tail) && Left(frame + BREAK + tail) == Left(tail)
  {
    var s := frame + BREAK + tail;
    FirstBreak(frame, tail);
    assert s[..|frame|] == frame && s[|frame| + 2..] == tail;
    SeenMore(s, |frame|, tail);
  }

  /** A body that starts with a whole frame has that frame first. */
  lemma FramesMore(frame: string, tail: string, ended: bool)
    requires frame != "" && Unbroken(frame + "\n")
    ensures FramesOf(frame + BREAK + tail, ended) == [frame] + FramesOf(tail, ended)
  {
    SeenFrame(frame, tail);
  }

  /** A body without a break is at most one frame. */
  lemma FramesOfUnbroken(text: string, ended: bool)
    requires Unbroken(text)
    ensures FramesOf(text, ended) == if ended && Trim(text) != "" then [text] else []
  {
    NoBreak(text);
    assert SplitFrames(text) == Split([], text);
  }

  /** The inner loop: takes every complete frame off the buffer. */
  method DrainBuffer(full: string) returns (frames: seq<string>, buffer: string)
    ensures frames == Seen(full) && buffer == Left(full)
  {
    buffer, frames := full, [];
    var idx := BreakAt(buffer);
    while idx != |buffer|
      invariant idx == BreakAt(buffer)
      invariant Left(buffer) == Left(full)
      invariant frames + Seen(buffer) == Seen(full)
      decreases |buffer|
    {
      SeenMore(buffer, idx, buffer[idx + 2..]);
      var frame := buffer[..idx];
      buffer := buffer[idx + 2..];
      if |frame| > 0 {
        frames := frames + [frame];
      }
      idx := BreakAt(buffer);
    }
    assert Seen(buffer) == [];
  }

  /**
   * The incremental splitter: one buffer, drained after each chunk. However the body was cut
   * into chunks, the frames are those of the whole text.
   */
  method IterateSseFrames(chunks: seq<string>, ended: bool) returns (frames: seq<string>)
    ensures frames == FramesOf(Concat(chunks), ended)
  {
    var buffer := "";
    frames := [];
    for n := 0 to |chunks|
      invariant frames == Seen(Concat(chunks[..n])) && buffer == Left(Concat(chunks[..n]))
    {
      assert chunks[..n + 1] == chunks[..n] + [chunks[n]];
      ConcatSnoc(chunks[..n], chunks[n]);
      SeenResumes(Concat(chunks[..n]), chunks[n]);
      var complete;
      complete, buffer := DrainBuffer(buffer + chunks[n]);
      frames := frames + complete;
    }
    assert chunks[..|chunks|] == chunks;
    if ended && |Trim(buffer)| > 0 {
      frames := frames + [buffer];
    }
  }
}
