/** The side panel's incremental reader of server-sent events. */
module Sse {
  import opened Text

  const LF2 := "\n\n"
  const CRLF2 := "\r\n\r\n"

  predicate At(s: string, i: nat, sep: string) {
    i + |sep| <= |s| && s[i..i + |sep|] == sep
  }

  /** JavaScript's `indexOf`. */
  function IndexOf(s: string, sep: string, from: nat): (r: int)
    requires from <= |s| && sep != ""
    ensures r == -1 || (from <= r && At(s, r, sep))
    ensures forall i :: from <= i && At(s, i, sep) ==> 0 <= r <= i
    decreases |s| - from
  {
    if At(s, from, sep) then from
    else if from == |s| then -1
    else IndexOf(s, sep, from + 1)
  }

  datatype Next = NoFrame | Frame(raw: string, rest: string)

  /** A frame ends at the first LF LF, wherever that is; only without one, at the first CR LF CR LF. */
  function NextFrame(buf: string): (r: Next)
    ensures r.Frame? ==> |r.rest| < |buf|
  {
    var a := IndexOf(buf, LF2, 0);
    if a >= 0 then Frame(buf[..a], buf[a + 2..])
    else
      var b := IndexOf(buf, CRLF2, 0);
      if b >= 0 then Frame(buf[..b], buf[b + 4..]) else NoFrame
  }

  datatype Drained = Drained(frames: seq<string>, rest: string)

  function Drain(buf: string): Drained
    decreases |buf|
  {
    var n := NextFrame(buf);
    if n.NoFrame? then Drained([], buf)
    else
      var d := Drain(n.rest);
      Drained([n.raw] + d.frames, d.rest)
  }

  function DrainAll(buf: string, chunks: seq<string>): Drained
    decreases |chunks|
  {
    if chunks == [] then Drained([], buf)
    else
      var d := Drain(buf + chunks[0]);
      var e := DrainAll(d.rest, chunks[1..]);
      Drained(d.frames + e.frames, e.rest)
  }

  // ---- one frame ----

  /** The lines of a frame: the text between the matches of `\r?\n`. */
  function Lines(raw: string): seq<string>
    decreases |raw|
  {
    var i := IndexOf(raw, "\n", 0);
    if i == -1 then [raw]
    else [raw[..if i > 0 && raw[i - 1] == '\r' then i - 1 else i]] + Lines(raw[i + 1..])
  }

  datatype Fields = Fields(event: string, data: string)

  function AddLine(f: Fields, line: string): Fields {
    if line == "" || line[0] == ':' then f
    else if "event:" <= line then f.(event := Strip(line[6..]))
    else if "data:" <= line then f.(data := f.data + (if f.data != "" then "\n" else "") + Strip(line[5..]))
    else f
  }

  function AddLines(f: Fields, lines: seq<string>): Fields
    decreases |lines|
  {
    if lines == [] then f else AddLines(AddLine(f, lines[0]), lines[1..])
  }

  /** The frames that carry data are handled, as an event name and its data. */
  function Handled(frames: seq<string>): seq<Fields>
    decreases |frames|
  {
    if frames == [] then []
    else
      var f := AddLines(Fields("message", ""), Lines(frames[0]));
      (if f.data != "" then [f] else []) + Handled(frames[1..])
  }

  lemma {:induction false} HandledSnoc(frames: seq<string>, raw: string)
    ensures Handled(frames + [raw]) == Handled(frames) + Handled([raw])
    decreases |frames|
  {
    hide AddLines, Lines;
    assert [raw][1..] == [];
    if frames == [] {
      assert frames + [raw] == [raw];
    } else {
      HandledSnoc(frames[1..], raw);
      assert (frames + [raw])[1..] == frames[1..] + [raw];
    }
  }

  predicate Contains(s: string, sep: string)
    requires sep != ""
  {
    IndexOf(s, sep, 0) >= 0
  }

  /** The way out for a stream that is no event stream: a long buffer without any field is taken as one piece of
      text. */
  predicate GivesUp(buf: string) {
    |buf| > 4096 && !Contains(buf, "data:") && !Contains(buf, "event:")
  }

  class SseReader {
    var buf: string

    constructor ()
      ensures buf == ""
    {
      buf := "";
    }

    /** One read: the frames it completes, and the loose text if the reader gives up on framing. */
    method Read(chunk: string) returns (handled: seq<Fields>, loose: Option<string>)
      modifies this
      ensures var d := Drain(old(buf) + chunk);
              && handled == Handled(d.frames)
              && loose == (if GivesUp(d.rest) then Some(Strip(d.rest)) else None)
              && buf == (if GivesUp(d.rest) then "" else d.rest)
    {
      hide NextFrame, Handled, Strip, GivesUp;
      buf := buf + chunk;
      handled, loose := [], None;
      ghost var d := Drain(buf);
      ghost var frames: seq<string> := [];
      NothingHandled();
      assert [] + d.frames == d.frames;
      while true
        invariant Drained(frames + Drain(buf).frames, Drain(buf).rest) == d
        invariant handled == Handled(frames)
        decreases |buf|
      {
        var idx, width := FindSeparator();
        if idx < 0 {
          break;
        }
        var raw := buf[..idx];
        ghost var after := Drain(buf[idx + width..]).frames;
        assert (frames + [raw]) + after == frames + ([raw] + after);
        buf := buf[idx + width..];
        var one := HandleFrame(raw);
        HandledSnoc(frames, raw);
        frames := frames + [raw];
        handled := handled + one;
      }
      assert frames + [] == frames;
      if GivesUp(buf) {
        loose := Some(Strip(buf));
        buf := "";
      }
    }

    method FindSeparator() returns (idx: int, width: nat)
      ensures idx < 0 ==> NextFrame(buf) == NoFrame
      ensures idx >= 0 ==> width > 0 && idx + width <= |buf| && NextFrame(buf) == Frame(buf[..idx], buf[idx + width..])
    {
      hide IndexOf;
      IndexBound(buf);
      width := 2;
      idx := IndexOf(buf, LF2, 0);
      if idx < 0 {
        width := 4;
        idx := IndexOf(buf, CRLF2, 0);
      }
    }

    method HandleFrame(raw: string) returns (one: seq<Fields>)
      ensures one == Handled([raw])
    {
      hide AddLine, Lines;
      assert [raw][1..] == [];
      var f := Fields("message", "");
      var lines := Lines(raw);
      var i := 0;
      while i < |lines|
        invariant 0 <= i <= |lines|
        invariant AddLines(f, lines[i..]) == AddLines(Fields("message", ""), lines)
      {
        assert lines[i..][1..] == lines[i + 1..];
        f := AddLine(f, lines[i]);
        i := i + 1;
      }
      one := if f.data != "" then [f] else [];
    }
  }

  lemma NothingHandled()
    ensures Handled([]) == []
  {
  }

  lemma IndexBound(buf: string)
    ensures var a, b := IndexOf(buf, LF2, 0), IndexOf(buf, CRLF2, 0);
            (a >= 0 ==> a + 2 <= |buf|) && (b >= 0 ==> b + 4 <= |buf|)
  {
  }

  // ---- chunks ----

  /** A CR LF CR LF with an LF LF behind it. */
  ghost predicate Mixed(s: string) {
    exists i, j :: 0 <= i < j && At(s, i, CRLF2) && At(s, j, LF2)
  }

  lemma AtExtends(s: string, x: string, i: nat, sep: string)
    ensures At(s, i, sep) ==> At(s + x, i, sep)
    ensures At(s + x, i, sep) && i + |sep| <= |s| ==> At(s, i, sep)
  {
  }

  lemma AtDrops(s: string, k: nat, i: nat, sep: string)
    requires k <= |s|
    ensures At(s[k..], i, sep) <==> At(s, k + i, sep)
  {
  }

  lemma IndexOfExtends(s: string, x: string, sep: string)
    requires sep != "" && IndexOf(s, sep, 0) >= 0
    ensures IndexOf(s + x, sep, 0) == IndexOf(s, sep, 0)
  {
    var i, j := IndexOf(s, sep, 0), IndexOf(s + x, sep, 0);
    AtExtends(s, x, i, sep);
    AtExtends(s, x, j, sep);
  }

  lemma MixedDrops(s: string, k: nat)
    requires k <= |s| && Mixed(s[k..])
    ensures Mixed(s)
  {
    hide At;
    var i, j :| 0 <= i < j && At(s[k..], i, CRLF2) && At(s[k..], j, LF2);
    AtDrops(s, k, i, CRLF2);
    AtDrops(s, k, j, LF2);
    assert k + i < k + j;
  }

  /** More text does not change the next frame, unless an LF LF comes behind a CR LF CR LF. */
  lemma NextFrameExtends(b: string, x: string)
    requires !Mixed(b + x) && NextFrame(b).Frame?
    ensures NextFrame(b + x) == Frame(NextFrame(b).raw, NextFrame(b).rest + x)
  {
    hide IndexOf;
    IndexBound(b);
    var a, c := IndexOf(b, LF2, 0), IndexOf(b, CRLF2, 0);
    if a >= 0 {
      IndexOfExtends(b, x, LF2);
      assert (b + x)[..a] == b[..a] && (b + x)[a + 2..] == b[a + 2..] + x;
    } else {
      IndexOfExtends(b, x, CRLF2);
      NoLateLf2(b, x);
      assert (b + x)[..c] == b[..c] && (b + x)[c + 4..] == b[c + 4..] + x;
    }
  }

  lemma NoLateLf2(b: string, x: string)
    requires !Mixed(b + x) && IndexOf(b, LF2, 0) < 0 && IndexOf(b, CRLF2, 0) >= 0
    ensures IndexOf(b + x, LF2, 0) < 0
  {
    var i, j := IndexOf(b, CRLF2, 0), IndexOf(b + x, LF2, 0);
    AtExtends(b, x, i, CRLF2);
    if j >= 0 {
      AtExtends(b, x, j, LF2);
      assert false;
    }
  }

  /** Draining early and going on is draining late. */
  lemma {:induction false} DrainExtends(b: string, x: string)
    requires !Mixed(b + x)
    ensures var d := Drain(b); var e := Drain(d.rest + x);
            Drain(b + x) == Drained(d.frames + e.frames, e.rest)
    decreases |b|
  {
    hide NextFrame, Mixed;
    var n := NextFrame(b);
    if n.Frame? {
      NextFrameExtends(b, x);
      RestIsSuffix(b);
      assert n.rest + x == (b + x)[|b| - |n.rest|..];
      if Mixed(n.rest + x) {
        MixedDrops(b + x, |b| - |n.rest|);
      }
      DrainExtends(n.rest, x);
    }
  }

  lemma RestIsSuffix(b: string)
    requires NextFrame(b).Frame?
    ensures |NextFrame(b).rest| <= |b| && NextFrame(b).rest == b[|b| - |NextFrame(b).rest|..]
  {
  }

  lemma {:induction false} DrainRest(b: string)
    ensures IsSuffix(Drain(b).rest, b) && NextFrame(Drain(b).rest).NoFrame?
    decreases |b|
  {
    hide NextFrame;
    if NextFrame(b).Frame? {
      RestIsSuffix(b);
      DrainRest(NextFrame(b).rest);
    }
  }

  lemma {:induction false} DrainAllFrom(buf: string, chunks: seq<string>)
    requires NextFrame(buf).NoFrame? && !Mixed(buf + Concat(chunks))
    ensures DrainAll(buf, chunks) == Drain(buf + Concat(chunks))
    decreases |chunks|
  {
    hide NextFrame, Mixed;
    if chunks == [] {
      assert buf + "" == buf;
    } else {
      var b, x := buf + chunks[0], Concat(chunks[1..]);
      Assoc(buf, chunks[0], x);
      DrainExtends(b, x);
      DrainRest(b);
      var r := Drain(b).rest;
      if Mixed(r + x) {
        assert r + x == (b + x)[|b| - |r|..];
        MixedDrops(b + x, |b| - |r|);
      }
      DrainAllFrom(r, chunks[1..]);
    }
  }

  // ---- exactly when ----

  ghost predicate ChunkIndependent(s: string) {
    forall chunks :: Concat(chunks) == s ==> DrainAll("", chunks) == Drain(s)
  }

  lemma Lf2At(s: string, i: nat)
    ensures At(s, i, LF2) <==> i + 2 <= |s| && s[i] == '\n' && s[i + 1] == '\n'
  {
  }

  lemma Crlf2At(s: string, i: nat)
    ensures At(s, i, CRLF2)
            <==> i + 4 <= |s| && s[i] == '\r' && s[i + 1] == '\n' && s[i + 2] == '\r' && s[i + 3] == '\n'
  {
  }

  /** LF LF cannot stand inside or right across the start of CR LF CR LF. */
  lemma SeparatorsApart(s: string, i: nat, j: nat)
    requires At(s, i, CRLF2) && At(s, j, LF2)
    ensures j + 2 <= i || i + 3 <= j
  {
    hide At;
    Lf2At(s, j);
    Crlf2At(s, i);
  }

  /** A stream with both separators in that order has a place to cut it that changes the frames. */
  lemma {:induction false} CutThatMatters(s: string) returns (k: nat)
    requires Mixed(s)
    ensures k <= |s|
    ensures Drain(s[..k]).frames + Drain(Drain(s[..k]).rest + s[k..]).frames != Drain(s).frames
    decreases |s|
  {
    hide IndexOf, At, Drain;
    var i, j :| 0 <= i < j && At(s, i, CRLF2) && At(s, j, LF2);
    var j0, i0 := IndexOf(s, LF2, 0), IndexOf(s, CRLF2, 0);
    FirstOf(s, LF2, j);
    FirstOf(s, CRLF2, i);
    SeparatorsApart(s, i0, j0);
    IndexBound(s);
    if i0 < j0 {
      k := i0 + 4;
      CutAtCrlf(s, i0, j0);
    } else {
      SeparatorsApart(s, i, j0);
      var t := s[j0 + 2..];
      AtDrops(s, j0 + 2, i - j0 - 2, CRLF2);
      AtDrops(s, j0 + 2, j - j0 - 2, LF2);
      assert Mixed(t);
      var k' := CutThatMatters(t);
      k := j0 + 2 + k';
      CutLater(s, j0, k');
    }
  }

  lemma FirstOf(s: string, sep: string, i: nat)
    requires sep != "" && At(s, i, sep)
    ensures 0 <= IndexOf(s, sep, 0) <= i && At(s, IndexOf(s, sep, 0), sep)
  {
  }

  lemma DrainStep(b: string)
    requires NextFrame(b).Frame?
    ensures Drain(b).frames == [NextFrame(b).raw] + Drain(NextFrame(b).rest).frames
    ensures Drain(b).rest == Drain(NextFrame(b).rest).rest
  {
  }

  lemma CutAtCrlf(s: string, i: nat, j: nat)
    requires IndexOf(s, CRLF2, 0) == i < j == IndexOf(s, LF2, 0)
    ensures i + 4 <= |s|
    ensures Drain(s[..i + 4]).frames + Drain(Drain(s[..i + 4]).rest + s[i + 4..]).frames != Drain(s).frames
  {
    hide IndexOf, Drain, At;
    IndexBound(s);
    var p, x := s[..i + 4], s[i + 4..];
    assert p + x == s;
    FirstInPrefix(s, i, j);
    DrainStep(p);
    DrainStep(s);
    assert NextFrame(p).raw == p[..i] && NextFrame(s).raw == s[..j];
    var e := Drain(Drain(p).rest + x).frames;
    assert (Drain(p).frames + e)[0] == p[..i] && |p[..i]| == i;
    assert Drain(s).frames[0] == s[..j] && |s[..j]| == j;
  }

  lemma FirstInPrefix(s: string, i: nat, j: nat)
    requires IndexOf(s, CRLF2, 0) == i < j == IndexOf(s, LF2, 0) && i + 4 <= |s|
    ensures IndexOf(s[..i + 4], CRLF2, 0) == i && IndexOf(s[..i + 4], LF2, 0) == -1
  {
    hide IndexOf;
    var p, x := s[..i + 4], s[i + 4..];
    assert p + x == s;
    SeparatorsApart(s, i, j);
    AtExtends(p, x, i, CRLF2);
    FirstOf(p, CRLF2, i);
    AtExtends(p, x, IndexOf(p, CRLF2, 0), CRLF2);
    if IndexOf(p, LF2, 0) >= 0 {
      IndexOfExtends(p, x, LF2);
      IndexBound(p);
    }
  }

  lemma CutLater(s: string, j: nat, k: nat)
    requires IndexOf(s, LF2, 0) == j && j + 2 + k <= |s|
    requires var t := s[j + 2..]; Drain(t[..k]).frames + Drain(Drain(t[..k]).rest + t[k..]).frames != Drain(t).frames
    ensures var m := j + 2 + k;
            Drain(s[..m]).frames + Drain(Drain(s[..m]).rest + s[m..]).frames != Drain(s).frames
  {
    hide IndexOf, Drain;
    var t, m := s[j + 2..], j + 2 + k;
    var p := s[..m];
    assert p + s[m..] == s;
    AtExtends(p, s[m..], j, LF2);
    FirstOf(p, LF2, j);
    IndexOfExtends(p, s[m..], LF2);
    assert NextFrame(p).raw == p[..j] == s[..j] && NextFrame(p).rest == p[j + 2..] == t[..k];
    assert t[k..] == s[m..];
    DrainStep(p);
    DrainStep(s);
    var e := Drain(Drain(p).rest + s[m..]).frames;
    var a, b := Drain(t[..k]).frames, Drain(t).frames;
    assert ([s[..j]] + a) + e == [s[..j]] + (a + e);
    SameHead(s[..j], a + e, b);
  }

  lemma SameHead(x: string, a: seq<string>, b: seq<string>)
    ensures [x] + a == [x] + b ==> a == b
  {
    assert ([x] + a)[1..] == a && ([x] + b)[1..] == b;
  }

  /** The frames are the same however the stream is cut into chunks, exactly when no LF LF comes behind a CR LF CR
      LF. */
  lemma ChunkIndependentIff(s: string)
    ensures ChunkIndependent(s) <==> !Mixed(s)
  {
    hide Mixed, Drain, NextFrame;
    NothingToFrame();
    if !Mixed(s) {
      forall chunks | Concat(chunks) == s ensures DrainAll("", chunks) == Drain(s) {
        assert "" + Concat(chunks) == s;
        DrainAllFrom("", chunks);
      }
    } else {
      var k := CutThatMatters(s);
      TwoChunks(s[..k], s[k..]);
      assert s[..k] + s[k..] == s;
    }
  }

  lemma NothingToFrame()
    ensures NextFrame("").NoFrame?
  {
  }

  lemma TwoChunks(a: string, b: string)
    ensures Concat([a, b]) == a + b
    ensures DrainAll("", [a, b]).frames == Drain(a).frames + Drain(Drain(a).rest + b).frames
  {
    hide Drain;
    assert [a, b][1..] == [b] && [b][1..] == [];
    assert Concat([b]) == b + "" == b && "" + a == a;
    var r := Drain(a).rest;
    var f := Drain(r + b).frames;
    assert DrainAll(r, [b]).frames == f + [] == f;
  }

  /** One style of line ending throughout: no CR at all, or an LF only behind a CR. */
  predicate OneStyle(s: string) {
    (forall i :: 0 <= i < |s| ==> s[i] != '\r') || (forall j :: 0 < j < |s| && s[j] == '\n' ==> s[j - 1] == '\r')
  }

  lemma OneStyleIsNotMixed(s: string)
    requires OneStyle(s)
    ensures !Mixed(s)
  {
    if Mixed(s) {
      var i, j :| 0 <= i < j && At(s, i, CRLF2) && At(s, j, LF2);
      hide At;
      Crlf2At(s, i);
      Lf2At(s, j);
      assert false;
    }
  }

  // ---- the reader ----

  /** What a reader has handled of a list of chunks, as long as it never gives up. */
  function ReadAll(buf: string, chunks: seq<string>): seq<Fields>
    decreases |chunks|
  {
    if chunks == [] then []
    else
      var d := Drain(buf + chunks[0]);
      Handled(d.frames) + ReadAll(if GivesUp(d.rest) then "" else d.rest, chunks[1..])
  }

  predicate NeverGivesUp(buf: string, chunks: seq<string>)
    decreases |chunks|
  {
    chunks == [] || (!GivesUp(Drain(buf + chunks[0]).rest) && NeverGivesUp(Drain(buf + chunks[0]).rest, chunks[1..]))
  }

  lemma {:induction false} ReadAllIsDrainAll(buf: string, chunks: seq<string>)
    requires NeverGivesUp(buf, chunks)
    ensures ReadAll(buf, chunks) == Handled(DrainAll(buf, chunks).frames)
    decreases |chunks|
  {
    hide Drain, GivesUp, Handled;
    if chunks == [] {
      NothingHandled();
    } else {
      var d := Drain(buf + chunks[0]);
      ReadAllIsDrainAll(d.rest, chunks[1..]);
      HandledConcat(d.frames, DrainAll(d.rest, chunks[1..]).frames);
    }
  }

  lemma {:induction false} HandledConcat(a: seq<string>, b: seq<string>)
    ensures Handled(a + b) == Handled(a) + Handled(b)
    decreases |b|
  {
    hide Handled;
    if b == [] {
      NothingHandled();
      assert a + b == a && Handled(a) + [] == Handled(a);
    } else {
      var init, last := b[..|b| - 1], b[|b| - 1];
      HandledConcat(a, init);
      HandledSnoc(a + init, last);
      HandledSnoc(init, last);
      assert (a + init) + [last] == a + b && init + [last] == b;
      assert (Handled(a) + Handled(init)) + Handled([last]) == Handled(a) + (Handled(init) + Handled([last]));
    }
  }

  /** With one style of line ending, and while the reader does not give up, the events and data handled are those of the
      whole text parsed at once, however the text arrives. */
  lemma HandledIsChunkIndependent(chunks: seq<string>)
    requires OneStyle(Concat(chunks)) && NeverGivesUp("", chunks)
    ensures ReadAll("", chunks) == Handled(Drain(Concat(chunks)).frames)
  {
    hide OneStyle, Drain, NeverGivesUp, Handled;
    OneStyleIsNotMixed(Concat(chunks));
    ChunkIndependentIff(Concat(chunks));
    ReadAllIsDrainAll("", chunks);
  }

  // ---- what a frame says ----

  predicate HasField(line: string, field: string) {
    |line| >= |field| && line[..|field|] == field
  }

  /** The values of a field, trimmed, line by line. */
  function Values(lines: seq<string>, field: string): seq<string>
    decreases |lines|
  {
    if lines == [] then []
    else (if HasField(lines[0], field) then [Strip(lines[0][|field|..])] else []) + Values(lines[1..], field)
  }

  function DropEmptyValues(vs: seq<string>): seq<string>
    decreases |vs|
  {
    if vs != [] && vs[0] == "" then DropEmptyValues(vs[1..]) else vs
  }

  function JoinLines(vs: seq<string>): string
    decreases |vs|
  {
    if vs == [] then "" else if |vs| == 1 then vs[0] else vs[0] + "\n" + JoinLines(vs[1..])
  }

  lemma {:induction false} JoinLinesSnoc(vs: seq<string>, v: string)
    requires vs != []
    ensures JoinLines(vs + [v]) == JoinLines(vs) + "\n" + v
    decreases |vs|
  {
    if |vs| == 1 {
      assert vs + [v] == [vs[0], v] && [vs[0], v][1..] == [v];
    } else {
      JoinLinesSnoc(vs[1..], v);
      assert (vs + [v])[1..] == vs[1..] + [v];
      assert (vs[0] + "\n" + JoinLines(vs[1..])) + "\n" + v == vs[0] + "\n" + (JoinLines(vs[1..]) + "\n" + v);
    }
  }

  /** All values so far, without the leading empty ones. */
  function Kept(before: seq<string>, vs: seq<string>): seq<string> {
    if before == [] then DropEmptyValues(vs) else before + vs
  }

  /** What the lines add to the fields. */
  lemma {:induction false} LinesSay(f: Fields, before: seq<string>, lines: seq<string>)
    requires f.data == JoinLines(before) && (before != [] ==> before[0] != "")
    ensures var r, es := AddLines(f, lines), Values(lines, "event:");
            && r.event == (if es == [] then f.event else es[|es| - 1])
            && r.data == JoinLines(Kept(before, Values(lines, "data:")))
    decreases |lines|
  {
    hide Strip, AddLine, HasField, JoinLines, DropEmptyValues, Kept;
    if lines == [] {
      NoValues();
      NothingKept(before);
    } else {
      var line, rest := lines[0], lines[1..];
      LineSays(f, line);
      ValuesStep(lines, "event:");
      ValuesStep(lines, "data:");
      var next := DataStep(f, before, line, Values(rest, "data:"));
      LinesSay(AddLine(f, line), next, rest);
    }
  }

  lemma ValuesStep(lines: seq<string>, field: string)
    requires lines != []
    ensures var more := Values(lines[1..], field);
            && (HasField(lines[0], field) ==>
                  |lines[0]| >= |field| && Values(lines, field) == [Strip(lines[0][|field|..])] + more)
            && (!HasField(lines[0], field) ==> Values(lines, field) == more)
  {
    hide Strip;
  }

  lemma NothingKept(before: seq<string>)
    ensures Kept(before, []) == before
  {
    assert before + [] == before;
  }

  /** A line's part of the data. */
  lemma DataStep(f: Fields, before: seq<string>, line: string, vs: seq<string>) returns (next: seq<string>)
    requires f.data == JoinLines(before) && (before != [] ==> before[0] != "")
    ensures AddLine(f, line).data == JoinLines(next) && (next != [] ==> next[0] != "")
    ensures HasField(line, "data:") ==> |line| >= 5 && Kept(next, vs) == Kept(before, [Strip(line[5..])] + vs)
    ensures !HasField(line, "data:") ==> next == before
  {
    hide Strip, AddLine, HasField, JoinLines, DropEmptyValues;
    LineSays(f, line);
    FirstOfJoined(before);
    next := before;
    if HasField(line, "data:") {
      var v := Strip(line[5..]);
      DropFirst(v, vs);
      OneLine(v);
      NoValues();
      if before != [] {
        JoinLinesSnoc(before, v);
        next := before + [v];
        assert (before + [v]) + vs == before + ([v] + vs);
      } else if v != "" {
        next := [v];
      }
    }
  }

  lemma NoValues()
    ensures DropEmptyValues([]) == [] && JoinLines([]) == ""
  {
  }

  lemma DropFirst(v: string, vs: seq<string>)
    ensures DropEmptyValues([v] + vs) == if v == "" then DropEmptyValues(vs) else [v] + vs
  {
    assert ([v] + vs)[1..] == vs;
  }

  lemma FirstOfJoined(vs: seq<string>)
    requires vs != [] ==> vs[0] != ""
    ensures JoinLines(vs) == "" <==> vs == []
  {
  }

  /** One line is for one field, or for none. */
  lemma LineSays(f: Fields, line: string)
    ensures var g := AddLine(f, line);
            && !(HasField(line, "event:") && HasField(line, "data:"))
            && (HasField(line, "event:") ==> |line| >= 6) && (HasField(line, "data:") ==> |line| >= 5)
            && g.event == (if HasField(line, "event:") then Strip(line[6..]) else f.event)
            && g.data == (if !HasField(line, "data:") then f.data
                          else if f.data == "" then Strip(line[5..]) else f.data + "\n" + Strip(line[5..]))
  {
    hide Strip;
    assert HasField(line, "event:") ==> line[0] == 'e';
    assert HasField(line, "data:") ==> line[0] == 'd';
    assert "" + "" + Strip(line[|line|..]) == Strip(line[|line|..]);
  }

  /** A frame is handled exactly if it carries data. The event is the last one named, or "message"; the data are the
      values of its data lines, leading empty ones left out, with line feeds between them. */
  lemma FrameSays(raw: string)
    ensures var lines := Lines(raw);
            var es, data := Values(lines, "event:"), JoinLines(DropEmptyValues(Values(lines, "data:")));
            Handled([raw]) == if data == "" then [] else [Fields(if es == [] then "message" else es[|es| - 1], data)]
  {
    hide Strip, Lines, JoinLines, AddLines;
    NoValues();
    LinesSay(Fields("message", ""), [], Lines(raw));
    assert [raw][1..] == [];
  }

  // ---- the lines of a frame ----

  /** The text with every CR that stands before an LF left out. */
  function PlainLf(s: string): string {
    if s == "" then "" else (if |s| >= 2 && s[0] == '\r' && s[1] == '\n' then "" else [s[0]]) + PlainLf(s[1..])
  }

  lemma PlainLfStep(c: char, s: string)
    ensures PlainLf([c] + s) == (if s != "" && c == '\r' && s[0] == '\n' then "" else [c]) + PlainLf(s)
    ensures PlainLf("") == ""
  {
    assert ([c] + s)[1..] == s;
  }

  lemma {:induction false} PlainLfLine(line: string, rest: string)
    requires forall i :: 0 <= i < |line| ==> line[i] != '\n'
    ensures PlainLf(line + "\n" + rest)
            == (if line != "" && line[|line| - 1] == '\r' then line[..|line| - 1] else line) + "\n" + PlainLf(rest)
    decreases |line|
  {
    hide PlainLf;
    if line == "" {
      assert line + "\n" + rest == ['\n'] + rest;
      PlainLfStep('\n', rest);
    } else {
      var more := line[1..] + "\n" + rest;
      PlainLfLine(line[1..], rest);
      assert line + "\n" + rest == [line[0]] + more;
      PlainLfStep(line[0], more);
      assert [line[0]] + line[1..] == line;
      if |line| == 1 {
        assert line[1..] == "" && line[..0] == "" && more[0] == '\n';
      } else {
        assert more[0] == line[1] && line[1..][|line| - 2] == line[|line| - 1];
        assert [line[0]] + line[1..][..|line| - 2] == line[..|line| - 1];
      }
    }
  }

  lemma {:induction false} PlainLfAlone(line: string)
    requires forall i :: 0 <= i < |line| ==> line[i] != '\n'
    ensures PlainLf(line) == line
    decreases |line|
  {
    hide PlainLf;
    if line == "" {
      PlainLfStep(' ', "");
    } else {
      PlainLfAlone(line[1..]);
      PlainLfStep(line[0], line[1..]);
      assert [line[0]] + line[1..] == line;
    }
  }

  /** The lines hold no LF, and joined with LF they are the frame with CR LF written as LF. */
  lemma {:induction false} LinesAreFrame(raw: string)
    ensures JoinLines(Lines(raw)) == PlainLf(raw)
    ensures forall l :: l in Lines(raw) ==> '\n' !in l
    ensures Lines(raw) != []
    decreases |raw|
  {
    hide PlainLf, IndexOf, JoinLines;
    var i := IndexOf(raw, "\n", 0);
    NoLfBefore(raw);
    if i == -1 {
      PlainLfAlone(raw);
      OneLine(raw);
    } else {
      var line, rest := raw[..i], raw[i + 1..];
      assert raw == line + "\n" + rest;
      PlainLfLine(line, rest);
      LinesAreFrame(rest);
      var first := if i > 0 && raw[i - 1] == '\r' then raw[..i - 1] else raw[..i];
      assert line != "" ==> line[|line| - 1] == raw[i - 1];
      assert i > 0 ==> line[..|line| - 1] == raw[..i - 1];
      MoreLines(first, Lines(rest));
    }
  }

  lemma NoLfBefore(raw: string)
    ensures var i := IndexOf(raw, "\n", 0);
            && (i == -1 ==> '\n' !in raw)
            && (i != -1 ==> 0 <= i < |raw| && raw[i] == '\n' && forall k :: 0 <= k < i ==> raw[k] != '\n')
  {
    hide IndexOf;
    forall k | 0 <= k < |raw| && raw[k] == '\n' ensures At(raw, k, "\n") {
      assert raw[k..k + 1] == "\n";
    }
    var i := IndexOf(raw, "\n", 0);
    assert i != -1 ==> raw[i..i + 1][0] == raw[i];
  }

  lemma OneLine(l: string)
    ensures JoinLines([l]) == l
  {
  }

  lemma MoreLines(l: string, ls: seq<string>)
    requires ls != []
    ensures JoinLines([l] + ls) == l + "\n" + JoinLines(ls)
  {
    assert ([l] + ls)[1..] == ls;
  }

  // ---- where a frame ends ----

  predicate Occurs(s: string, sep: string) {
    exists i :: 0 <= i <= |s| && At(s, i, sep)
  }

  /** The next frame is the text before the first LF LF, or, if there is none at all, before the first CR LF CR LF; the
      separator is left out and the rest stays. */
  lemma NextFrameIs(buf: string)
    ensures match NextFrame(buf)
            case NoFrame => !Occurs(buf, "\n\n") && !Occurs(buf, "\r\n\r\n")
            case Frame(raw, rest) =>
              || (buf == raw + "\n\n" + rest && forall i: nat :: At(buf, i, "\n\n") ==> i >= |raw|)
              || (&& buf == raw + "\r\n\r\n" + rest && !Occurs(buf, "\n\n")
                  && forall i: nat :: At(buf, i, "\r\n\r\n") ==> i >= |raw|)
  {
    hide IndexOf;
    IndexBound(buf);
    var a, b := IndexOf(buf, LF2, 0), IndexOf(buf, CRLF2, 0);
    if a >= 0 {
      assert buf == buf[..a] + buf[a..a + 2] + buf[a + 2..];
    } else if b >= 0 {
      assert buf == buf[..b] + buf[b..b + 4] + buf[b + 4..];
    }
  }

  /** The reader takes a buffer for plain text exactly when it is long and has neither field anywhere. */
  lemma GivesUpIff(buf: string)
    ensures GivesUp(buf) <==> |buf| > 4096 && !Occurs(buf, "data:") && !Occurs(buf, "event:")
  {
    hide IndexOf;
  }
}
