/** The server's TXT feed: each sentence is written once a later one has begun, the rest at the end. */
module SentenceFeed {
  import opened Text
  import opened Normal
  import opened SentenceScan

  datatype FeedConfig = FeedConfig(lineTs: bool, flushTail: bool)

  /** A snapshot on its way to the writer; a full queue drops it (`kept` is false). */
  datatype Item = Item(text: string, final: bool, stamp: int, kept: bool)

  datatype Line = Line(stamp: Option<int>, text: string)

  datatype Writer = Writer(written: nat, feed: seq<Line>)

  function Lines(ss: seq<string>, stamp: Option<int>): seq<Line>
    decreases |ss|
  {
    if ss == [] then []
    else OneLine(ss[0], stamp) + Lines(ss[1..], stamp)
  }

  function OneLine(s: string, stamp: Option<int>): seq<Line> {
    if Strip(s) != "" then [Line(stamp, Strip(s))] else []
  }

  lemma {:induction false} LinesSnoc(ss: seq<string>, s: string, stamp: Option<int>)
    ensures Lines(ss + [s], stamp) == Lines(ss, stamp) + OneLine(s, stamp)
    decreases |ss|
  {
    hide OneLine;
    if ss == [] {
      assert ss + [s] == [s] && [s][1..] == [];
      assert Lines([s], stamp) == OneLine(s, stamp) + [];
    } else {
      LinesSnoc(ss[1..], s, stamp);
      assert (ss + [s])[1..] == ss[1..] + [s];
      var a, b, c := OneLine(ss[0], stamp), Lines(ss[1..], stamp), OneLine(s, stamp);
      assert a + (b + c) == (a + b) + c;
    }
  }

  function Target(flush: bool, n: nat): (r: nat)
    ensures r <= n
  {
    if flush then n else if n == 0 then 0 else n - 1
  }

  function WriteSplit(w: Writer, split: Split, flush: bool, stamp: Option<int>): Writer {
    var target := Target(flush, |split.sents|);
    var u := if target > w.written then Writer(target, w.feed + Lines(split.sents[w.written..target], stamp)) else w;
    if flush && Strip(split.tail) != "" then u.(feed := u.feed + [Line(stamp, Strip(split.tail))]) else u
  }

  function Write(cfg: FeedConfig, w: Writer, x: Item): Writer {
    var full := JoinWords(x.text);
    if full == "" then w
    else WriteSplit(w, SplitFrom(full, 0), x.final && cfg.flushTail, if cfg.lineTs then Some(x.stamp) else None)
  }

  class FeedWriter {
    const cfg: FeedConfig
    var writtenSentCount: nat
    var feed: seq<Line>

    function State(): Writer
      reads this
    {
      Writer(writtenSentCount, feed)
    }

    constructor (cfg: FeedConfig)
      ensures this.cfg == cfg && State() == Writer(0, [])
    {
      this.cfg := cfg;
      writtenSentCount, feed := 0, [];
    }

    method Snapshot(x: Item)
      modifies this
      ensures State() == Write(cfg, old(State()), x)
    {
      hide JoinWords, SplitFrom, Strip, Lines;
      var full := JoinWords(x.text);
      if full == "" {
        return;
      }
      var split := SplitSentencesAndTail(full);
      var flush := x.final && cfg.flushTail;
      var target := if flush then |split.sents| else if |split.sents| == 0 then 0 else |split.sents| - 1;
      var stamp := if cfg.lineTs then Some(x.stamp) else None;
      if target > writtenSentCount {
        var lines := StripLines(split.sents[writtenSentCount..target], stamp);
        feed := feed + lines;
        writtenSentCount := target;
      }
      if flush {
        var tailLine := Strip(split.tail);
        if tailLine != "" {
          feed := feed + [Line(stamp, tailLine)];
        }
      }
    }

    method StripLines(ss: seq<string>, stamp: Option<int>) returns (lines: seq<Line>)
      ensures lines == Lines(ss, stamp)
    {
      hide Strip;
      lines := [];
      assert ss[..0] == [];
      for i := 0 to |ss|
        invariant lines == Lines(ss[..i], stamp)
      {
        LinesSnoc(ss[..i], ss[i], stamp);
        assert ss[..i + 1] == ss[..i] + [ss[i]];
        var s := Strip(ss[i]);
        if s != "" {
          lines := lines + [Line(stamp, s)];
        }
      }
      assert ss[..|ss|] == ss;
    }
  }

  // ---- what the feed says ----

  function Stripped(ss: seq<string>): seq<string> {
    seq(|ss|, i requires 0 <= i < |ss| => Strip(ss[i]))
  }

  function Texts(ls: seq<Line>): seq<string> {
    seq(|ls|, i requires 0 <= i < |ls| => ls[i].text)
  }

  predicate NoneBlank(ss: seq<string>) {
    forall i :: 0 <= i < |ss| ==> Strip(ss[i]) != ""
  }

  lemma {:induction false} LinesSay(ss: seq<string>, stamp: Option<int>)
    requires NoneBlank(ss)
    ensures Texts(Lines(ss, stamp)) == Stripped(ss)
    decreases |ss|
  {
    hide Strip;
    if ss != [] {
      assert ss[0] == ss[..1][0];
      LinesSay(ss[1..], stamp);
      var one := Line(stamp, Strip(ss[0]));
      assert Lines(ss, stamp) == [one] + Lines(ss[1..], stamp);
      assert Texts([one] + Lines(ss[1..], stamp)) == [one.text] + Texts(Lines(ss[1..], stamp));
    }
  }

  lemma MatchIsNotBlank(t: string, q: nat)
    requires q <= |t| && MatchEnd(t, q) != -1
    ensures Strip(t[q..MatchEnd(t, q)]) != ""
  {
    hide MarksEnd;
    MatchMeetsMark(t, q);
    var i := FirstMark(t, q);
    var s := t[q..MatchEnd(t, q)];
    assert MarksEnd(t, i) > i by {
      MarksEndAfter(t, i);
    }
    assert s[i - q] == t[i];
    StripIsTrimmed(s);
  }

  lemma MarksEndAfter(t: string, i: nat)
    requires i < |t| && IsEndMark(t[i])
    ensures MarksEnd(t, i) > i
  {
    assert t[i..][0] == t[i];
  }

  lemma {:induction false} SentencesAreNotBlank(t: string, p: nat)
    requires p <= |t|
    ensures NoneBlank(SplitFrom(t, p).sents)
    decreases |t| - p
  {
    hide Strip, NextMatch, SplitFrom;
    var m := NextMatch(t, p);
    if m.NoMatch? {
      SplitStop(t, p);
    } else {
      SplitStep(t, p, m);
      MatchIsNotBlank(t, m.start);
      SentencesAreNotBlank(t, m.end);
    }
  }

  /** The feed says the first `written` sentences of the last snapshot, and no extension can change those. */
  ghost predicate Says(w: Writer, full: string) {
    var s := SplitFrom(full, 0);
    w.written <= Firm(s) && Texts(w.feed) == Stripped(s.sents[..w.written])
  }

  lemma GrowKeepsSaying(w: Writer, full: string, next: string)
    requires Says(w, full) && full <= next
    ensures Says(w, next)
  {
    hide SplitFrom, Firm, Strip;
    assert next == full + next[|full|..];
    FirmSentencesStay(full, next[|full|..], 0);
    var a, b := SplitFrom(full, 0).sents, SplitFrom(next, 0).sents;
    var n := Firm(SplitFrom(full, 0));
    assert a[..w.written] == a[..n][..w.written] == b[..n][..w.written] == b[..w.written];
  }

  lemma StrippedJoin(ss: seq<string>, i: nat, j: nat)
    requires i <= j <= |ss|
    ensures Stripped(ss[..i]) + Stripped(ss[i..j]) == Stripped(ss[..j])
  {
  }

  lemma TextsJoin(a: seq<Line>, b: seq<Line>)
    ensures Texts(a + b) == Texts(a) + Texts(b)
  {
  }

  /** One snapshot: the new lines are exactly the sentences from the last written one to the target. */
  lemma WriteSays(w: Writer, full: string, stamp: Option<int>)
    requires Says(w, full)
    ensures Says(WriteSplit(w, SplitFrom(full, 0), false, stamp), full)
    ensures WriteSplit(w, SplitFrom(full, 0), false, stamp).written >= |SplitFrom(full, 0).sents| - 1
  {
    hide SplitFrom, Strip, Lines, Texts, Stripped;
    var s := SplitFrom(full, 0);
    var target := Target(false, |s.sents|);
    if target > w.written {
      NewLines(full, w.written, target, stamp);
      TextsJoin(w.feed, Lines(s.sents[w.written..target], stamp));
      StrippedJoin(s.sents, w.written, target);
    }
  }

  lemma NewLines(full: string, i: nat, j: nat, stamp: Option<int>)
    requires i <= j <= |SplitFrom(full, 0).sents|
    ensures Texts(Lines(SplitFrom(full, 0).sents[i..j], stamp)) == Stripped(SplitFrom(full, 0).sents[i..j])
  {
    hide SplitFrom, Strip, Lines, Texts, Stripped;
    SentencesAreNotBlank(full, 0);
    var ss := SplitFrom(full, 0).sents[i..j];
    assert forall k :: 0 <= k < |ss| ==> ss[k] == SplitFrom(full, 0).sents[i + k];
    LinesSay(ss, stamp);
  }

  /** Everything a complete feed says: all sentences, and the tail if there is one. */
  function Whole(s: Split): seq<string> {
    Stripped(s.sents) + if Strip(s.tail) != "" then [Strip(s.tail)] else []
  }

  lemma FlushSaysAll(w: Writer, full: string, stamp: Option<int>)
    requires Says(w, full)
    ensures Texts(WriteSplit(w, SplitFrom(full, 0), true, stamp).feed) == Whole(SplitFrom(full, 0))
  {
    hide SplitFrom, Strip, Lines, Texts, Stripped;
    var s := SplitFrom(full, 0);
    var n := |s.sents|;
    NewLines(full, w.written, n, stamp);
    TextsJoin(w.feed, Lines(s.sents[w.written..n], stamp));
    StrippedJoin(s.sents, w.written, n);
    assert s.sents[..n] == s.sents;
    var u := if n > w.written then w.feed + Lines(s.sents[w.written..n], stamp) else w.feed;
    assert Texts(u) == Stripped(s.sents);
    if Strip(s.tail) != "" {
      var one := Line(stamp, Strip(s.tail));
      TextsJoin(u, [one]);
      TextsOne(one);
    }
  }

  lemma TextsOne(x: Line)
    ensures Texts([x]) == [x.text]
  {
  }

  // ---- whole runs ----

  function WriteAll(cfg: FeedConfig, w: Writer, xs: seq<Item>): Writer
    decreases |xs|
  {
    if xs == [] then w else WriteAll(cfg, if xs[0].kept then Write(cfg, w, xs[0]) else w, xs[1..])
  }

  /** The snapshots as the writer normalises them. */
  function Joined(xs: seq<Item>): seq<string>
    decreases |xs|
  {
    if xs == [] then [] else [JoinWords(xs[0].text)] + Joined(xs[1..])
  }

  predicate Streaming(cfg: FeedConfig, xs: seq<Item>) {
    forall i :: 0 <= i < |xs| ==> !(xs[i].final && cfg.flushTail)
  }

  function LastText(last: string, xs: seq<Item>): string
    decreases |xs|
  {
    if xs == [] then last else LastText(JoinWords(xs[0].text), xs[1..])
  }

  lemma {:induction false} StreamSays(cfg: FeedConfig, w: Writer, last: string, xs: seq<Item>)
    requires Growing(last, Joined(xs)) && Streaming(cfg, xs) && Says(w, last)
    ensures Says(WriteAll(cfg, w, xs), LastText(last, xs))
    ensures xs != [] && xs[|xs| - 1].kept && LastText(last, xs) != "" ==>
              WriteAll(cfg, w, xs).written >= |SplitFrom(LastText(last, xs), 0).sents| - 1
    decreases |xs|
  {
    hide JoinWords, SplitFrom, Says, WriteSplit;
    if xs != [] {
      var x := xs[0];
      var full := JoinWords(x.text);
      assert Joined(xs)[1..] == Joined(xs[1..]);
      GrowKeepsSaying(w, last, full);
      WriteSays(w, full, if cfg.lineTs then Some(x.stamp) else None);
      assert !(x.final && cfg.flushTail);
      StreamSays(cfg, if x.kept then Write(cfg, w, x) else w, full, xs[1..]);
    }
  }

  /** Delay by one: whichever snapshots the queue drops, the feed holds each written sentence once, in order and as it
      stays; a snapshot that arrives leaves at most its last sentence unwritten. */
  lemma FeedIsStable(cfg: FeedConfig, xs: seq<Item>)
    requires Growing("", Joined(xs)) && Streaming(cfg, xs)
    ensures var w, s := WriteAll(cfg, Writer(0, []), xs), SplitFrom(LastText("", xs), 0);
            && w.written <= |s.sents| && Texts(w.feed) == Stripped(s.sents[..w.written])
            && (xs != [] && xs[|xs| - 1].kept && LastText("", xs) != "" ==> w.written >= |s.sents| - 1)
  {
    hide SplitFrom, JoinWords, Strip, Write;
    NothingSaid();
    StreamSays(cfg, Writer(0, []), "", xs);
  }

  lemma NothingSaid()
    ensures Says(Writer(0, []), "")
  {
  }

  /** After the final snapshot the feed holds all sentences and the tail. */
  lemma FinalFeedIsWhole(cfg: FeedConfig, xs: seq<Item>, last: Item)
    requires Growing("", Joined(xs)) && Streaming(cfg, xs)
    requires last.final && cfg.flushTail && LastText("", xs) <= JoinWords(last.text)
    ensures Texts(Write(cfg, WriteAll(cfg, Writer(0, []), xs), last).feed) == Whole(SplitFrom(JoinWords(last.text), 0))
  {
    hide SplitFrom, JoinWords, WriteSplit, Strip, Says;
    NothingSaid();
    StreamSays(cfg, Writer(0, []), "", xs);
    var w := WriteAll(cfg, Writer(0, []), xs);
    var full := JoinWords(last.text);
    GrowKeepsSaying(w, LastText("", xs), full);
    FlushSaysAll(w, full, if cfg.lineTs then Some(last.stamp) else None);
    if full == "" {
      FeedOfNothing(w);
    }
  }

  lemma FeedOfNothing(w: Writer)
    requires Says(w, "")
    ensures Texts(w.feed) == Whole(SplitFrom("", 0))
  {
  }

  // ---- nothing lost ----

  /** A joined text: no blank at its ends, and single plain blanks inside. */
  ghost predicate IsJoined(t: string) {
    Trimmed(t) && LoosePairsOk(t)
  }

  lemma JoinWordsIsJoined(s: string)
    ensures IsJoined(JoinWords(s))
  {
    hide Collapse, Strip;
    CollapseShape(s);
    var c := Collapse(s);
    StripIsTrimmed(c);
    var lo, hi := StripIsSlice(c);
    LoosePairsSlice(c, lo, hi);
  }

  /** In a joined text a match that stops before the end takes exactly one blank with it. */
  lemma MatchShape(t: string, q: nat)
    requires IsJoined(t) && q <= |t| && MatchEnd(t, q) != -1 && MatchEnd(t, q) < |t|
    ensures var e := MatchEnd(t, q); e >= q + 2 && !IsSpace(t[e]) && t[e - 1] == ' ' && !IsSpace(t[e - 2])
  {
  }

  lemma {:induction false} AttemptBeforeFails(t: string, q: nat)
    requires q <= |t| && NextMatch(t, q).Match? && NextMatch(t, q).start > q
    ensures MatchEnd(t, NextMatch(t, q).start - 1) == -1
    decreases |t| - q
  {
    hide MatchEnd;
    if NextMatch(t, q).start > q + 1 {
      AttemptBeforeFails(t, q + 1);
    }
  }

  lemma PlainChangesNothing(t: string, b: nat)
    requires b < |t| && IsPlain(t[b])
    ensures MatchEnd(t, b) == MatchEnd(t, b + 1)
  {
    hide MarksEnd, IsEndMark, IsSpace;
    assert t[b..][0] == t[b] && t[b..][1..] == t[b + 1..];
  }

  /** A match never starts at a blank, unless the search does. */
  lemma MatchStartsSolid(t: string, q: nat)
    requires q < |t| && !IsSpace(t[q]) && NextMatch(t, q).Match?
    ensures !IsSpace(t[NextMatch(t, q).start])
  {
    hide MatchEnd, Run, NextMatch;
    var a := NextMatch(t, q).start;
    if a > q {
      AttemptBeforeFails(t, q);
      if IsEndMark(t[a - 1]) {
        if IsSpace(t[a]) {
          MarkThenBlank(t, a - 1);
          MatchAtMark(t, a - 1);
          assert false;
        }
      } else {
        PlainChangesNothing(t, a - 1);
        assert false;
      }
    }
  }

  lemma MarkThenBlank(t: string, i: nat)
    requires i + 1 < |t| && IsEndMark(t[i]) && IsSpace(t[i + 1])
    ensures EndsSentence(t, i)
  {
  }

  function JoinedSize(s: Split): nat {
    |Join(Whole(s))|
  }

  lemma WholeCons(piece: string, rest: Split)
    requires Strip(piece) != ""
    ensures Whole(Split([piece] + rest.sents, rest.tail)) == [Strip(piece)] + Whole(rest)
  {
  }

  lemma JoinCons(s: string, rest: seq<string>)
    ensures Join([s] + rest) == if rest == [] then s else s + " " + Join(rest)
  {
  }

  /** A sentence that more text follows, stripped and with a blank behind it, is the sentence as it stands. */
  lemma PieceStripped(t: string, a: nat, e: nat)
    requires IsJoined(t) && a < |t| && !IsSpace(t[a]) && MatchEnd(t, a) == e
    ensures e < |t| ==> !IsSpace(t[e]) && t[a..e] == Strip(t[a..e]) + " "
    ensures e == |t| ==> t[a..e] == Strip(t[a..e])
  {
    hide MatchEnd, Strip, LoosePairsOk;
    MatchIsLonger(t, a);
    if e < |t| {
      MatchShape(t, a);
      var core := t[a..e - 1];
      assert core[0] == t[a] && core[|core| - 1] == t[e - 2];
      assert t[a..e] == core + " ";
      StripDropsBlank(core);
    } else {
      assert t[a..e][0] == t[a] && t[a..e][e - a - 1] == t[|t| - 1];
      StripOfTrimmed(t[a..e]);
    }
  }

  lemma StripDropsBlank(core: string)
    requires core != "" && Trimmed(core)
    ensures Strip(core + " ") == core
  {
  }

  lemma TailStripped(t: string, p: nat)
    requires IsJoined(t) && p <= |t| && (p < |t| ==> !IsSpace(t[p]))
    ensures Strip(t[p..]) == t[p..]
  {
  }

  /** Joined with single blanks, a whole feed is as long as its pieces, and is the text itself if nothing was lost. */
  lemma {:induction false} WholeJoins(t: string, p: nat)
    requires IsJoined(t) && p <= |t| && (p < |t| ==> !IsSpace(t[p]))
    ensures JoinedSize(SplitFrom(t, p)) == Size(SplitFrom(t, p))
    ensures !LosesText(t, p) ==> Join(Whole(SplitFrom(t, p))) == t[p..]
    ensures p < |t| ==> Whole(SplitFrom(t, p)) != []
    decreases |t| - p
  {
    hide NextMatch, MatchEnd, SplitFrom, Whole, Strip, LosesText, IsJoined, Join, Concat, IsSpace;
    var m := NextMatch(t, p);
    if m.NoMatch? {
      SplitStop(t, p);
      TailStripped(t, p);
      WholeOfTail(t[p..]);
    } else {
      SplitStep(t, p, m);
      SolidStart(t, p);
      var rest := SplitFrom(t, m.end);
      var piece := t[m.start..m.end];
      assert SplitFrom(t, p) == Split([piece] + rest.sents, rest.tail);
      PieceStripped(t, m.start, m.end);
      MatchIsNotBlank(t, m.start);
      WholeCons(piece, rest);
      JoinCons(Strip(piece), Whole(rest));
      ConcatCons(piece, rest.sents);
      WholeJoins(t, m.end);
      if m.end == |t| {
        NothingAtEnd(t);
        StripOfTrimmed("");
        WholeOfTail("");
      }
      if !LosesText(t, p) {
        if m.start > p {
          SkippedLoses(t, p, m.start);
          assert false;
        }
        FromMatchOn(t, p, m.end);
        assert t[p..] == piece + t[m.end..];
        if m.end == |t| {
          assert piece + t[m.end..] == piece;
        }
      }
    }
  }

  lemma SolidStart(t: string, p: nat)
    requires p <= |t| && (p < |t| ==> !IsSpace(t[p])) && NextMatch(t, p).Match?
    ensures !IsSpace(t[NextMatch(t, p).start])
  {
    hide MatchEnd, IsSpace;
    MatchStartsSolid(t, p);
  }

  lemma WholeOfTail(tail: string)
    requires Strip(tail) == tail
    ensures Whole(Split([], tail)) == if tail == "" then [] else [tail]
    ensures Join(Whole(Split([], tail))) == tail && Size(Split([], tail)) == |tail|
  {
  }

  /** After the final snapshot, the feed's lines joined with single blanks are the whole text exactly when no mark that
      ends nothing stands before one that ends a sentence. */
  lemma FinalFeedIsTextIff(cfg: FeedConfig, xs: seq<Item>, last: Item)
    requires Growing("", Joined(xs)) && Streaming(cfg, xs)
    requires last.final && cfg.flushTail && LastText("", xs) <= JoinWords(last.text)
    ensures var full := JoinWords(last.text);
            Join(Texts(Write(cfg, WriteAll(cfg, Writer(0, []), xs), last).feed)) == full
            <==> !LosesText(full, 0)
  {
    hide JoinWords, Write, SplitFrom, LosesText, Whole, Growing, Texts, Join;
    FinalFeedIsWhole(cfg, xs, last);
    var full := JoinWords(last.text);
    JoinWordsIsJoined(last.text);
    WholeJoins(full, 0);
    SplitKeepsIff(full, 0);
    assert full[0..] == full;
  }

  predicate StampedWith(ls: seq<Line>, stamp: Option<int>) {
    forall i :: 0 <= i < |ls| ==> ls[i].stamp == stamp
  }

  lemma {:induction false} LinesStamped(ss: seq<string>, stamp: Option<int>)
    ensures StampedWith(Lines(ss, stamp), stamp)
    decreases |ss|
  {
    hide Strip;
    if ss != [] {
      LinesStamped(ss[1..], stamp);
    }
  }

  /** A snapshot only appends to the feed, and its lines carry its time exactly if lines are to carry one. */
  lemma NewLinesStamped(cfg: FeedConfig, w: Writer, x: Item)
    ensures var v := Write(cfg, w, x);
            && w.feed <= v.feed
            && StampedWith(v.feed[|w.feed|..], if cfg.lineTs then Some(x.stamp) else None)
            && v.written >= w.written
  {
    hide JoinWords, SplitFrom, Strip, Lines;
    var full, stamp := JoinWords(x.text), if cfg.lineTs then Some(x.stamp) else None;
    var s := SplitFrom(full, 0);
    var target := Target(x.final && cfg.flushTail, |s.sents|);
    if target > w.written {
      LinesStamped(s.sents[w.written..target], stamp);
    }
  }
}
