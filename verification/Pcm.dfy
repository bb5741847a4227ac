/** The audio worklet's framing and quantisation, and the server's decoding. Samples are reals. */
module Pcm {
  import opened Text

  type Sample = real

  function Clip(x: real): (r: real)
    ensures -1.0 <= r <= 1.0
    ensures -1.0 <= x <= 1.0 ==> r == x
  {
    if x < -1.0 then -1.0 else if x > 1.0 then 1.0 else x
  }

  /** Storing into an Int16Array drops the fraction. */
  function Trunc(x: real): (r: int)
    ensures x >= 0.0 ==> r as real <= x < r as real + 1.0
    ensures x < 0.0 ==> r as real - 1.0 < x <= r as real
  {
    if x >= 0.0 then x.Floor else -((-x).Floor)
  }

  function Quantize(x: real): int {
    var s := Clip(x);
    Trunc(if s < 0.0 then s * 32768.0 else s * 32767.0)
  }

  /** The server divides by 32768. */
  function Decode(q: int): real {
    q as real / 32768.0
  }

  /** No wrap-around: every result fits 16 bits. */
  lemma QuantizeFits(x: real)
    ensures -32768 <= Quantize(x) <= 32767
  {
  }

  /** Round trip: a sample in range comes back with its sign and an error below 2/32768, never larger than it was. */
  lemma DecodeIsClose(x: real)
    requires -1.0 <= x <= 1.0
    ensures var y := Decode(Quantize(x));
            && -(2.0 / 32768.0) < x - y < 2.0 / 32768.0
            && (x >= 0.0 ==> 0.0 <= y <= x) && (x <= 0.0 ==> x <= y <= 0.0)
  {
  }

  /** Silence, full scale and order survive. */
  lemma QuantizeKeepsOrder(x: real, y: real)
    requires x <= y
    ensures Quantize(x) <= Quantize(y)
    ensures Quantize(0.0) == 0 && Quantize(1.0) == 32767 && Quantize(-1.0) == -32768
  {
  }

  function QuantizeAll(xs: seq<Sample>): (qs: seq<int>)
    ensures |qs| == |xs| && forall i :: 0 <= i < |xs| ==> qs[i] == Quantize(xs[i])
  {
    seq(|xs|, i requires 0 <= i < |xs| => Quantize(xs[i]))
  }

  /** End to end joining of chunks. */
  function Joined<T>(chunks: seq<seq<T>>): seq<T>
    decreases |chunks|
  {
    if chunks == [] then [] else Joined(chunks[..|chunks| - 1]) + chunks[|chunks| - 1]
  }

  lemma JoinedSnoc<T>(chunks: seq<seq<T>>, c: seq<T>)
    ensures Joined(chunks + [c]) == Joined(chunks) + c
  {
  }

  lemma QuantizeJoin(a: seq<Sample>, b: seq<Sample>)
    ensures QuantizeAll(a + b) == QuantizeAll(a) + QuantizeAll(b)
  {
  }

  predicate IsTail(a: seq<Sample>, b: seq<Sample>) {
    |a| <= |b| && a == b[|b| - |a|..]
  }

  lemma TailGrows(a: seq<Sample>, b: seq<Sample>, x: seq<Sample>)
    requires IsTail(a, b)
    ensures IsTail(a + x, b + x)
  {
  }

  lemma TailDrops(a: seq<Sample>, b: seq<Sample>, k: nat)
    requires IsTail(a, b) && k <= |a|
    ensures IsTail(a[k..], b)
  {
  }

  lemma NothingMore(a: seq<Sample>, x: seq<Sample>)
    requires x == []
    ensures a + x == a
  {
  }

  lemma Assoc3<T>(a: seq<T>, b: seq<T>, c: seq<T>)
    ensures (a + b) + c == a + (b + c)
  {
  }

  class Processor {
    const chunkSize: nat
    var buffer: seq<Sample>
    /** The posted chunks of int16 samples. */
    var posted: seq<seq<int>>
    /** Every input sample so far. */
    ghost var input: seq<Sample>

    /** What was posted and what waits is the input, in order; every chunk is full and less than a chunk waits. */
    ghost predicate Valid()
      reads this
    {
      && chunkSize > 0 && |buffer| < chunkSize
      && (forall i :: 0 <= i < |posted| ==> |posted[i]| == chunkSize)
      && Joined(posted) + QuantizeAll(buffer) == QuantizeAll(input)
      && IsTail(buffer, input)
    }

    /** A missing or zero option means 2048. */
    constructor (option: Option<nat>)
      ensures Valid() && input == [] && posted == []
      ensures chunkSize == if option.Some? && option.value != 0 then option.value else 2048
    {
      chunkSize := if option.Some? && option.value != 0 then option.value else 2048;
      buffer, posted, input := [], [], [];
    }

    method Process(channel: seq<Sample>)
      requires Valid()
      modifies this
      ensures Valid() && input == old(input) + channel
      ensures old(posted) <= posted
    {
      hide QuantizeAll, Joined, IsTail;
      TailGrows(buffer, input, channel);
      QuantizeJoin(input, channel);
      QuantizeJoin(buffer, channel);
      Assoc3(Joined(posted), QuantizeAll(buffer), QuantizeAll(channel));
      input := input + channel;
      if channel != [] {
        buffer := buffer + channel;
        EmitChunks();
      } else {
        NothingMore(old(input), channel);
      }
    }

    method EmitChunks()
      requires chunkSize > 0 && Joined(posted) + QuantizeAll(buffer) == QuantizeAll(input)
      requires IsTail(buffer, input)
      requires forall i :: 0 <= i < |posted| ==> |posted[i]| == chunkSize
      modifies this`buffer, this`posted
      ensures Valid() && old(posted) <= posted
    {
      hide QuantizeAll, Joined, IsTail;
      while |buffer| >= chunkSize
        invariant Joined(posted) + QuantizeAll(buffer) == QuantizeAll(input)
        invariant IsTail(buffer, input)
        invariant forall i :: 0 <= i < |posted| ==> |posted[i]| == chunkSize
        invariant old(posted) <= posted
        decreases |buffer|
      {
        var slice := buffer[..chunkSize];
        var out := Convert(slice);
        var rest := buffer[chunkSize..];
        JoinedSnoc(posted, QuantizeAll(slice));
        QuantizeJoin(slice, rest);
        assert slice + rest == buffer;
        Assoc3(Joined(posted), QuantizeAll(slice), QuantizeAll(rest));
        TailDrops(buffer, input, chunkSize);
        posted := posted + [out[..]];
        buffer := rest;
      }
    }

    method Convert(slice: seq<Sample>) returns (out: array<int>)
      ensures fresh(out) && out[..] == QuantizeAll(slice)
    {
      hide Quantize;
      out := new int[|slice|];
      for i := 0 to |slice|
        invariant forall k :: 0 <= k < i ==> out[k] == Quantize(slice[k])
      {
        var s := Clip(slice[i]);
        ConvertOne(slice[i]);
        out[i] := Trunc(if s < 0.0 then s * 32768.0 else s * 32767.0);
      }
    }
  }

  lemma ConvertOne(x: real)
    ensures Trunc(if Clip(x) < 0.0 then Clip(x) * 32768.0 else Clip(x) * 32767.0) == Quantize(x)
  {
  }

  /** End to end: what the server decodes of the posted chunks is the input, sample by sample, up to the rounding. */
  lemma StreamIsClose(input: seq<Sample>, posted: seq<seq<int>>, waiting: seq<Sample>)
    requires Joined(posted) + QuantizeAll(waiting) == QuantizeAll(input)
    requires forall i :: 0 <= i < |input| ==> -1.0 <= input[i] <= 1.0
    ensures |Joined(posted)| + |waiting| == |input|
    ensures forall i :: 0 <= i < |Joined(posted)| ==>
              -(2.0 / 32768.0) < input[i] - Decode(Joined(posted)[i]) < 2.0 / 32768.0
  {
  }
}
