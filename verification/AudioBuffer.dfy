/** The server's audio buffer and its feed worker: samples are counted three times over, and every sample carries the
    time at which it was enqueued. Times and samples are reals; resampling happens before this. */
module AudioBuffer {
  import opened Text

  type Sample = real

  datatype Seg = Seg(len: nat, ts: real)

  /** What became of a stretch of samples: fed to the recorder as one frame, or dropped. */
  datatype Piece = Fed(frame: seq<Sample>) | Dropped(lost: seq<Sample>)

  function Flat(q: seq<seq<Sample>>): seq<Sample>
    decreases |q|
  {
    if q == [] then [] else q[0] + Flat(q[1..])
  }

  lemma {:induction false} FlatSnoc(q: seq<seq<Sample>>, a: seq<Sample>)
    ensures Flat(q + [a]) == Flat(q) + a
    decreases |q|
  {
    if q == [] {
      assert q + [a] == [a] && [a][1..] == [];
      assert Flat([a]) == a + [];
    } else {
      FlatSnoc(q[1..], a);
      assert (q + [a])[1..] == q[1..] + [a];
      assert q[0] + (Flat(q[1..]) + a) == (q[0] + Flat(q[1..])) + a;
    }
  }

  function Repeat(n: nat, ts: real): (r: seq<real>)
    ensures |r| == n && forall i :: 0 <= i < n ==> r[i] == ts
  {
    seq(n, _ => ts)
  }

  /** The enqueue time of each buffered sample. */
  function Stamps(segs: seq<Seg>): seq<real>
    decreases |segs|
  {
    if segs == [] then [] else Repeat(segs[0].len, segs[0].ts) + Stamps(segs[1..])
  }

  lemma {:induction false} StampsSnoc(segs: seq<Seg>, s: Seg)
    ensures Stamps(segs + [s]) == Stamps(segs) + Repeat(s.len, s.ts)
    decreases |segs|
  {
    hide Repeat;
    if segs == [] {
      assert segs + [s] == [s] && [s][1..] == [];
      assert Stamps([s]) == Repeat(s.len, s.ts) + [];
    } else {
      StampsSnoc(segs[1..], s);
      assert (segs + [s])[1..] == segs[1..] + [s];
      var a, b, c := Repeat(segs[0].len, segs[0].ts), Stamps(segs[1..]), Repeat(s.len, s.ts);
      assert a + (b + c) == (a + b) + c;
    }
  }

  predicate Positive(segs: seq<Seg>) {
    forall i :: 0 <= i < |segs| ==> segs[i].len > 0
  }

  /** The time of the last of the first `n` samples. */
  function MarkAfter(mark: Option<real>, stamps: seq<real>, n: nat): Option<real>
    requires n <= |stamps|
  {
    if n == 0 then mark else Some(stamps[n - 1])
  }

  function Poured(log: seq<Piece>): seq<Sample>
    decreases |log|
  {
    if log == [] then []
    else
      var p := log[|log| - 1];
      Poured(log[..|log| - 1]) + match p { case Fed(f) => f case Dropped(l) => l }
  }

  lemma PouredSnoc(log: seq<Piece>, p: Piece)
    ensures Poured(log + [p]) == Poured(log) + match p { case Fed(f) => f case Dropped(l) => l }
  {
  }

  predicate FramesOf(hop: nat, log: seq<Piece>) {
    forall i :: 0 <= i < |log| ==> log[i].Fed? ==> |log[i].frame| == hop
  }

  predicate Sorted(ts: seq<real>) {
    forall i, j :: 0 <= i < j < |ts| ==> ts[i] <= ts[j]
  }

  class Buffer {
    const hop: nat
    var bufq: seq<seq<Sample>>
    var bufSamples: int
    var pendingSegments: seq<Seg>
    var watermark: Option<real>

    /** Everything appended so far, with its times, and what became of it. */
    ghost var stream: seq<Sample>
    ghost var times: seq<real>
    ghost var log: seq<Piece>

    ghost predicate Valid()
      reads this
    {
      && hop > 0 && Positive(pendingSegments) && FramesOf(hop, log)
      && bufSamples == |Flat(bufq)| == |Stamps(pendingSegments)|
      && stream == Poured(log) + Flat(bufq)
      && |times| == |stream| && Stamps(pendingSegments) == times[|Poured(log)|..]
      && watermark == MarkAfter(None, times, |Poured(log)|)
    }

    constructor (hop: nat)
      requires hop > 0
      ensures Valid() && this.hop == hop && stream == [] && times == [] && log == []
    {
      this.hop := hop;
      bufq, bufSamples, pendingSegments, watermark, stream, times, log := [], 0, [], None, [], [], [];
    }

    method Append(arr: seq<Sample>, ts: real)
      requires Valid()
      modifies this
      ensures Valid() && log == old(log) && watermark == old(watermark)
      ensures stream == old(stream) + arr && times == old(times) + Repeat(|arr|, ts)
      ensures Flat(bufq) == old(Flat(bufq)) + arr
    {
      hide Flat, Stamps, Poured, MarkAfter;
      if arr == [] {
        assert stream + arr == stream && times + Repeat(0, ts) == times && Flat(bufq) + arr == Flat(bufq);
        return;
      }
      FlatSnoc(bufq, arr);
      StampsSnoc(pendingSegments, Seg(|arr|, ts));
      MarkStays(times, Repeat(|arr|, ts), |Poured(log)|);
      bufq := bufq + [arr];
      bufSamples := bufSamples + |arr|;
      pendingSegments := pendingSegments + [Seg(|arr|, ts)];
      stream := stream + arr;
      times := times + Repeat(|arr|, ts);
    }

    /** `n` samples from the front; what the buffer cannot fill stays as it was allocated. */
    method ConsumeSamples(n: int) returns (out: array<Sample>)
      requires bufSamples == |Flat(bufq)|
      modifies this`bufq, this`bufSamples
      ensures fresh(out) && out.Length == Max(0, n)
      ensures var k := Min(out.Length, old(bufSamples));
              && out[..k] == old(Flat(bufq))[..k] && Flat(bufq) == old(Flat(bufq))[k..]
      ensures bufSamples == |Flat(bufq)|
    {
      hide Flat;
      if n <= 0 {
        out := new Sample[0];
        return;
      }
      out := new Sample[n];
      ghost var all := Flat(bufq);
      var off := 0;
      while off < n && bufq != []
        invariant 0 <= off <= n && off <= |all|
        invariant out[..off] == all[..off] && Flat(bufq) == all[off..] && bufSamples == |all| - off
        decreases |bufq|, n - off
      {
        HeadOf(bufq);
        var head := bufq[0];
        var take := Min(n - off, |head|);
        CopyInto(out, off, head[..take]);
        assert head[..take] == Flat(bufq)[..take] == all[off..off + take];
        assert out[..off + take] == all[..off + take];
        TakeFromHead(bufq, take);
        if take == |head| {
          bufq := bufq[1..];
        } else {
          bufq := bufq[0 := head[take..]];
        }
        off := off + take;
        bufSamples := bufSamples - take;
        if take < |head| {
          break;
        }
      }
      if off < n {
        NothingBuffered(bufq);
      }
    }

    method CopyInto(out: array<Sample>, off: nat, part: seq<Sample>)
      requires off + |part| <= out.Length
      modifies out
      ensures out[..] == old(out[..off]) + part + old(out[off + |part|..])
    {
      ghost var was := out[..];
      for i := 0 to |part|
        invariant out[..] == was[..off] + part[..i] + was[off + i..]
      {
        out[off + i] := part[i];
      }
    }

    method ConsumeSegments(n: int)
      requires Positive(pendingSegments)
      modifies this`pendingSegments, this`watermark
      ensures Positive(pendingSegments)
      ensures var all := old(Stamps(pendingSegments));
              var k := Min(Max(0, n), |all|);
              Stamps(pendingSegments) == all[k..] && watermark == MarkAfter(old(watermark), all, k)
    {
      hide Stamps, Repeat;
      ghost var all := Stamps(pendingSegments);
      var remain := Max(0, n);
      var lastTs := None;
      ghost var done := 0;
      while remain > 0 && pendingSegments != []
        invariant 0 <= remain && 0 <= done <= |all| && done + remain == Max(0, n)
        invariant Positive(pendingSegments) && Stamps(pendingSegments) == all[done..]
        invariant lastTs == MarkAfter(None, all, done) && watermark == old(watermark)
        decreases |pendingSegments|, remain
      {
        var seg := pendingSegments[0];
        FirstSegment(pendingSegments);
        if seg.len <= remain {
          assert all[done..][seg.len - 1] == seg.ts;
          remain := remain - seg.len;
          done := done + seg.len;
          lastTs := Some(seg.ts);
          pendingSegments := pendingSegments[1..];
        } else {
          assert all[done..][remain - 1] == seg.ts;
          ShortenFirst(pendingSegments, remain);
          pendingSegments := pendingSegments[0 := Seg(seg.len - remain, seg.ts)];
          lastTs := Some(seg.ts);
          done := done + remain;
          remain := 0;
        }
      }
      if remain > 0 {
        NoSegments(pendingSegments);
      }
      assert done == Min(Max(0, n), |all|);
      if lastTs.Some? {
        watermark := lastTs;
      }
    }

    /** Drops at most `limit` samples from the first chunk, and accounts for them. */
    method DropHead(limit: nat) returns (take: nat)
      requires limit > 0 && bufq != [] && Positive(pendingSegments)
      requires bufSamples == |Flat(bufq)| == |Stamps(pendingSegments)|
      modifies this`bufq, this`bufSamples, this`pendingSegments, this`watermark
      ensures take <= limit && Positive(pendingSegments) && take <= |old(Flat(bufq))|
      ensures Flat(bufq) == old(Flat(bufq))[take..] && Stamps(pendingSegments) == old(Stamps(pendingSegments))[take..]
      ensures bufSamples == old(bufSamples) - take
      ensures watermark == MarkAfter(old(watermark), old(Stamps(pendingSegments)), take)
      ensures |bufq| <= |old(bufq)| && (take == limit || |bufq| < |old(bufq)|)
    {
      hide Flat, Stamps;
      HeadOf(bufq);
      var head := bufq[0];
      take := Min(limit, |head|);
      TakeFromHead(bufq, take);
      if take == |head| {
        bufq := bufq[1..];
      } else {
        bufq := bufq[0 := head[take..]];
      }
      bufSamples := bufSamples - take;
      ConsumeSegments(take);
    }

    /** Drops the oldest samples until at most `target` are left. */
    method DropOldestTo(target: nat)
      requires Valid()
      modifies this
      ensures Valid() && stream == old(stream) && times == old(times)
      ensures Flat(bufq) == old(Flat(bufq))[Max(0, |old(Flat(bufq))| - target)..]
      ensures log == old(log) || exists lost :: log == old(log) + [Dropped(lost)]
    {
      hide Flat, Stamps, Poured;
      var cur := bufSamples;
      if cur <= target {
        return;
      }
      ghost var all, stamps := Flat(bufq), Stamps(pendingSegments);
      var drop := cur - target;
      while drop > 0 && bufq != []
        invariant 0 <= drop <= cur - target && Positive(pendingSegments)
        invariant Flat(bufq) == all[cur - target - drop..] && Stamps(pendingSegments) == stamps[cur - target - drop..]
        invariant bufSamples == target + drop
        invariant watermark == MarkAfter(old(watermark), stamps, cur - target - drop)
        invariant stream == old(stream) && times == old(times) && log == old(log)
        decreases drop + |bufq|
      {
        ghost var done := cur - target - drop;
        var take := DropHead(drop);
        assert all[done..][take..] == all[done + take..] && stamps[done..][take..] == stamps[done + take..];
        MarkSteps(old(watermark), stamps, done, take);
        drop := drop - take;
      }
      if drop > 0 {
        NothingBuffered(bufq);
      }
      log := log + [Dropped(all[..cur - target])];
      PouredSnoc(old(log), Dropped(all[..cur - target]));
      Poured2(old(log), all, cur - target);
      StampsMove(times, |Poured(old(log))|, cur - target);
    }

    /** One frame of `hop` samples goes to the recorder. */
    method FeedFrame() returns (frame: seq<Sample>)
      requires Valid() && bufSamples >= hop
      modifies this
      ensures Valid() && stream == old(stream) && times == old(times)
      ensures frame == old(Flat(bufq))[..hop] && Flat(bufq) == old(Flat(bufq))[hop..]
      ensures log == old(log) + [Fed(frame)]
    {
      hide Flat, Stamps, Poured;
      ghost var all := Flat(bufq);
      var out := ConsumeSamples(hop);
      frame := out[..];
      assert frame == all[..hop];
      ConsumeSegments(hop);
      log := log + [Fed(frame)];
      PouredSnoc(old(log), Fed(frame));
      Poured2(old(log), all, hop);
      StampsMove(times, |Poured(old(log))|, hop);
    }

    method ShedOld(maxBufMs: real, dropToMs: real, rate: nat)
      requires Valid() && rate > 0
      modifies this
      ensures Valid() && stream == old(stream) && times == old(times)
      ensures Flat(bufq) == old(Flat(bufq))[Shed(|old(Flat(bufq))|, maxBufMs, dropToMs, rate)..]
      ensures log == old(log) || exists lost :: log == old(log) + [Dropped(lost)]
    {
      hide Flat, Stamps, Poured;
      if maxBufMs > 0.0 && bufSamples as real / rate as real * 1000.0 > maxBufMs {
        DropOldestTo(TargetSamples(dropToMs, rate));
      }
    }

    /** Feeds every whole frame; this is also what happens to the buffer at the end of the stream. */
    method FeedFrames() returns (frames: seq<seq<Sample>>)
      requires Valid()
      modifies this
      ensures Valid() && stream == old(stream) && times == old(times)
      ensures bufSamples < hop && forall i :: 0 <= i < |frames| ==> |frames[i]| == hop
      ensures Flat(frames) + Flat(bufq) == old(Flat(bufq))
      ensures old(log) <= log && FedOf(log[|old(log)|..]) == frames
    {
      hide Flat, Stamps, Poured, MarkAfter;
      frames := [];
      NothingBuffered(frames);
      assert [] + Flat(bufq) == Flat(bufq);
      DropIsNoFeed(log, log);
      while bufSamples >= hop
        invariant Valid()
        invariant stream == old(stream) && times == old(times)
        invariant old(log) <= log && FedOf(log[|old(log)|..]) == frames
        invariant forall i :: 0 <= i < |frames| ==> |frames[i]| == hop
        invariant Flat(frames) + Flat(bufq) == old(Flat(bufq))
        decreases bufSamples
      {
        ghost var waiting := Flat(bufq);
        var frame := FeedFrame();
        assert frame + Flat(bufq) == waiting;
        FlatSnoc(frames, frame);
        assert (Flat(frames) + frame) + Flat(bufq) == Flat(frames) + (frame + Flat(bufq));
        FedSnoc(log[|old(log)|..|log| - 1], frame);
        assert log[|old(log)|..] == log[|old(log)|..|log| - 1] + [Fed(frame)];
        frames := frames + [frame];
      }
    }

    /** One item of the feed worker: append, shed what is too old, and feed every whole frame. */
    method FeedItem(arr: seq<Sample>, ts: real, maxBufMs: real, dropToMs: real, rate: nat)
      returns (frames: seq<seq<Sample>>)
      requires Valid() && rate > 0
      modifies this
      ensures Valid()
      ensures stream == old(stream) + arr && times == old(times) + Repeat(|arr|, ts)
      ensures bufSamples < hop && forall i :: 0 <= i < |frames| ==> |frames[i]| == hop
      ensures var all := old(Flat(bufq)) + arr;
              Flat(frames) + Flat(bufq) == all[Shed(|all|, maxBufMs, dropToMs, rate)..]
      ensures Sorted(times) ==> NotBack(old(watermark), watermark)
      ensures var gone := |stream| - |Flat(bufq)|;
              0 <= gone <= |times| && watermark == if gone == 0 then None else Some(times[gone - 1])
      ensures old(log) <= log && FedOf(log[|old(log)|..]) == frames
    {
      hide Flat, Stamps, Poured, Shed, Positive, FramesOf, Sorted, NotBack, MarkAfter;
      Append(arr, ts);
      ShedOld(maxBufMs, dropToMs, rate);
      ghost var shed := log;
      DropIsNoFeed(old(log), shed);
      frames := FeedFrames();
      FedLater(old(log), shed, log);
      PouredGrows(old(log), log);
      MarkStays(old(times), Repeat(|arr|, ts), |Poured(old(log))|);
      MarksInOrder(times, |Poured(old(log))|, |Poured(log)|);
      LastGone(times, |Poured(log)|);
    }
  }

  /** `rate` is the number of samples in a second. */
  function TargetSamples(dropToMs: real, rate: nat): nat {
    var t := (if dropToMs > 0.0 then dropToMs else 0.0) / 1000.0 * rate as real;
    t.Floor
  }

  /** How many of `n` waiting samples are too old. */
  function Shed(n: nat, maxBufMs: real, dropToMs: real, rate: nat): (r: nat)
    requires rate > 0
    ensures r <= n
  {
    if maxBufMs > 0.0 && n as real / rate as real * 1000.0 > maxBufMs then Max(0, n - TargetSamples(dropToMs, rate))
    else 0
  }

  predicate NotBack(a: Option<real>, b: Option<real>) {
    a.Some? ==> b.Some? && a.value <= b.value
  }

  function FedOf(log: seq<Piece>): seq<seq<Sample>>
    decreases |log|
  {
    if log == [] then []
    else FedOf(log[..|log| - 1]) + match log[|log| - 1] { case Fed(f) => [f] case Dropped(_) => [] }
  }

  lemma FedSnoc(log: seq<Piece>, f: seq<Sample>)
    ensures FedOf(log + [Fed(f)]) == FedOf(log) + [f]
  {
  }

  lemma DropIsNoFeed(was: seq<Piece>, log: seq<Piece>)
    requires log == was || exists lost :: log == was + [Dropped(lost)]
    ensures was <= log && FedOf(log[|was|..]) == []
  {
  }

  lemma {:induction false} FedConcat(a: seq<Piece>, b: seq<Piece>)
    ensures FedOf(a + b) == FedOf(a) + FedOf(b)
    decreases |b|
  {
    if b == [] {
      assert a + b == a;
    } else {
      FedConcat(a, b[..|b| - 1]);
      assert (a + b)[..|a + b| - 1] == a + b[..|b| - 1];
    }
  }

  lemma FedLater(was: seq<Piece>, mid: seq<Piece>, log: seq<Piece>)
    requires was <= mid <= log && FedOf(mid[|was|..]) == []
    ensures was <= log && FedOf(log[|was|..]) == FedOf(log[|mid|..])
  {
    hide FedOf;
    FedConcat(mid[|was|..], log[|mid|..]);
    assert log[|was|..] == mid[|was|..] + log[|mid|..];
  }

  lemma HeadOf(q: seq<seq<Sample>>)
    requires q != []
    ensures Flat(q) == q[0] + Flat(q[1..])
  {
  }

  lemma NothingBuffered(q: seq<seq<Sample>>)
    requires q == []
    ensures Flat(q) == []
  {
  }

  lemma NoSegments(segs: seq<Seg>)
    requires segs == []
    ensures Stamps(segs) == []
  {
  }

  lemma TakeFromHead(q: seq<seq<Sample>>, take: nat)
    requires q != [] && take <= |q[0]|
    ensures take == |q[0]| ==> Flat(q[1..]) == Flat(q)[take..]
    ensures Flat(q[0 := q[0][take..]]) == Flat(q)[take..]
  {
  }

  lemma FirstSegment(segs: seq<Seg>)
    requires segs != []
    ensures |Stamps(segs)| >= segs[0].len && Stamps(segs[1..]) == Stamps(segs)[segs[0].len..]
    ensures forall i :: 0 <= i < segs[0].len ==> Stamps(segs)[i] == segs[0].ts
  {
  }

  lemma ShortenFirst(segs: seq<Seg>, n: nat)
    requires segs != [] && n < segs[0].len
    ensures Stamps(segs[0 := Seg(segs[0].len - n, segs[0].ts)]) == Stamps(segs)[n..]
  {
  }

  /** Marks compose: consuming in two goes leaves the mark of consuming at once. */
  lemma MarkSteps(mark: Option<real>, stamps: seq<real>, a: nat, b: nat)
    requires a + b <= |stamps|
    ensures MarkAfter(MarkAfter(mark, stamps, a), stamps[a..], b) == MarkAfter(mark, stamps, a + b)
  {
  }

  lemma MarkStays(times: seq<real>, more: seq<real>, n: nat)
    requires n <= |times|
    ensures MarkAfter(None, times + more, n) == MarkAfter(None, times, n)
    ensures (times + more)[n..] == times[n..] + more
  {
  }

  lemma LastGone(times: seq<real>, n: nat)
    requires n <= |times|
    ensures MarkAfter(None, times, n) == if n == 0 then None else Some(times[n - 1])
  {
  }

  lemma MarksInOrder(times: seq<real>, a: nat, b: nat)
    requires a <= b <= |times|
    ensures Sorted(times) ==> NotBack(MarkAfter(None, times, a), MarkAfter(None, times, b))
  {
  }

  lemma Poured2(log: seq<Piece>, all: seq<Sample>, k: nat)
    requires k <= |all|
    ensures (Poured(log) + all[..k]) + all[k..] == Poured(log) + all
  {
  }

  lemma StampsMove(times: seq<real>, a: nat, k: nat)
    requires a + k <= |times|
    ensures times[a..][k..] == times[a + k..]
    ensures MarkAfter(MarkAfter(None, times, a), times[a..], k) == MarkAfter(None, times, a + k)
  {
  }

  lemma {:induction false} PouredGrows(was: seq<Piece>, log: seq<Piece>)
    requires was <= log
    ensures |Poured(was)| <= |Poured(log)|
    decreases |log|
  {
    if was != log {
      PouredGrows(was, log[..|log| - 1]);
    }
  }

  // ---- how much is shed ----

  /** How long n samples last, in milliseconds. */
  function Millis(n: int, rate: nat): real
    requires rate > 0
  {
    n as real / rate as real * 1000.0
  }

  /** Nothing is shed until the buffer is over its maximum; then as few samples as leave no more than the target. */
  lemma ShedIs(n: nat, maxBufMs: real, dropToMs: real, rate: nat)
    requires rate > 0
    ensures var kept, goal := n - Shed(n, maxBufMs, dropToMs, rate), if dropToMs > 0.0 then dropToMs else 0.0;
            if maxBufMs > 0.0 && Millis(n, rate) > maxBufMs then
              0 <= kept <= n && Millis(kept, rate) <= goal && (kept == n || Millis(kept + 1, rate) > goal)
            else kept == n
  {
    hide Millis, TargetSamples, Samples;
    var goal := if dropToMs > 0.0 then dropToMs else 0.0;
    var k := TargetSamples(dropToMs, rate);
    TargetIs(dropToMs, rate);
    MillisAtMost(Min(n, k), goal, rate);
    MillisAtMost(Min(n, k) + 1, goal, rate);
    assert n as real / rate as real * 1000.0 == Millis(n, rate) by { MillisIs(n, rate); }
  }

  lemma MillisIs(n: int, rate: nat)
    requires rate > 0
    ensures Millis(n, rate) == n as real / rate as real * 1000.0
  {
  }

  /** How many samples, in parts, last so long. */
  function Samples(goal: real, rate: nat): real {
    goal / 1000.0 * rate as real
  }

  lemma TargetIs(dropToMs: real, rate: nat)
    ensures var goal, k := if dropToMs > 0.0 then dropToMs else 0.0, TargetSamples(dropToMs, rate);
            k as real <= Samples(goal, rate) < k as real + 1.0
  {
  }

  lemma MillisAtMost(n: int, goal: real, rate: nat)
    requires rate > 0
    ensures Millis(n, rate) <= goal <==> n as real <= Samples(goal, rate)
  {
    var r, q, g := rate as real, n as real / rate as real, goal / 1000.0;
    assert q * r == n as real;
    ScaleBy(q, g, r);
  }

  lemma ScaleBy(a: real, b: real, r: real)
    requires r > 0.0
    ensures a <= b <==> a * r <= b * r
  {
    if a <= b {
      assert (b - a) * r >= 0.0;
    } else {
      assert (a - b) * r > 0.0;
    }
  }
}
