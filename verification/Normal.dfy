/** The whitespace normalisers: the translator's `_norm_spaces` (with FIX_BROKEN_WORDS off) and the server's. */
module Normal {
  import opened Text

  /** Every run of blanks becomes one plain space. CR and LF are blanks, so replacing them first changes nothing. */
  function Collapse(s: string): string
    decreases |s|
  {
    if s == [] then []
    else if IsSpace(s[0]) then [' '] + Collapse(LStrip(s))
    else [s[0]] + Collapse(s[1..])
  }

  /** Removes each run of blanks that a punctuation mark follows. */
  function DropBlankBeforePunct(s: string): string
    decreases |s|
  {
    if s == [] then []
    else
      var k := Run(IsSpace, s);
      if k == 0 then [s[0]] + DropBlankBeforePunct(s[1..])
      else if k < |s| && IsPunct(s[k]) then DropBlankBeforePunct(s[k..])
      else s[..k] + DropBlankBeforePunct(s[k..])
  }

  predicate IsDot(c: char) {
    c == '.'
  }

  /** Three or more dots in a row become exactly three. */
  function CapDots(s: string): string
    decreases |s|
  {
    if s == [] then []
    else
      var k := Run(IsDot, s);
      if k == 0 then [s[0]] + CapDots(s[1..])
      else (if k >= 3 then "..." else s[..k]) + CapDots(s[k..])
  }

  function Norm(s: string): string {
    CapDots(DropBlankBeforePunct(Strip(Collapse(s))))
  }

  /** The server's simpler normaliser, `" ".join(s.strip().split())`: words joined with single blanks. */
  function JoinWords(s: string): string {
    Strip(Collapse(s))
  }

  // ---- what a normalised text looks like ----

  /** Two characters that may stand side by side: after a blank comes neither a blank nor a mark. */
  predicate PairOk(a: char, b: char) {
    IsSpace(a) ==> a == ' ' && !IsSpace(b) && !IsPunct(b)
  }

  ghost predicate PairsOk(s: string) {
    forall i, j :: 0 <= i < j < |s| && j == i + 1 ==> PairOk(s[i], s[j])
  }

  /** Like `PairOk`, before the blanks in front of marks are gone. */
  predicate LoosePairOk(a: char, b: char) {
    IsSpace(a) ==> a == ' ' && !IsSpace(b)
  }

  ghost predicate LoosePairsOk(s: string) {
    forall i, j :: 0 <= i < j < |s| && j == i + 1 ==> LoosePairOk(s[i], s[j])
  }

  predicate DotsCapped(s: string) {
    forall i :: 0 <= i <= |s| ==> Run(IsDot, s[i..]) <= 3
  }

  ghost predicate IsNormal(s: string) {
    Trimmed(s) && PairsOk(s) && DotsCapped(s)
  }

  lemma PairsCons(c: char, s: string)
    ensures PairsOk([c] + s) <==> PairsOk(s) && (s != [] ==> PairOk(c, s[0]))
  {
    var t := [c] + s;
    if PairsOk(t) {
      forall i, j | 0 <= i < j < |s| && j == i + 1 ensures PairOk(s[i], s[j]) {
        assert PairOk(t[i + 1], t[j + 1]);
      }
      assert s != [] ==> PairOk(t[0], t[1]);
    }
  }

  lemma LoosePairsTail(s: string)
    requires LoosePairsOk(s) && s != []
    ensures LoosePairsOk(s[1..])
    ensures Run(IsSpace, s) <= 1 || |s| == Run(IsSpace, s) == 1
  {
  }

  lemma {:induction false} CollapseAlnums(s: string)
    ensures |Collapse(s)| <= |s| && Alnums(Collapse(s)) == Alnums(s)
    decreases |s|
  {
    if s != [] {
      if IsSpace(s[0]) {
        CollapseAlnums(LStrip(s));
        AlnumsStrip(s);
      } else {
        CollapseAlnums(s[1..]);
      }
    }
  }

  lemma {:induction false} CollapseShape(s: string)
    ensures LoosePairsOk(Collapse(s))
    ensures s != [] ==> Collapse(s) != [] && (IsSpace(Collapse(s)[0]) <==> IsSpace(s[0]))
    decreases |s|
  {
    if s != [] {
      var l := if IsSpace(s[0]) then LStrip(s) else s[1..];
      CollapseShape(l);
      LoosePairsCons(Collapse(s)[0], Collapse(l));
    }
  }

  lemma LoosePairsCons(c: char, s: string)
    requires LoosePairsOk(s) && (s != [] ==> LoosePairOk(c, s[0]))
    ensures LoosePairsOk([c] + s)
  {
  }

  lemma {:induction false} DropBlankAlnums(s: string)
    ensures |DropBlankBeforePunct(s)| <= |s| && Alnums(DropBlankBeforePunct(s)) == Alnums(s)
    decreases |s|
  {
    if s != [] {
      var k := Run(IsSpace, s);
      if k == 0 {
        DropBlankAlnums(s[1..]);
      } else {
        DropBlankAlnums(s[k..]);
        AlnumsSplit(s, k);
        AlnumsOfNoise(s[..k]);
        AlnumsConcat(s[..k], DropBlankBeforePunct(s[k..]));
      }
    }
  }

  /** After this pass no mark follows a blank, and the last character is still the last. */
  lemma {:induction false} DropBlankShape(s: string)
    requires LoosePairsOk(s) && s != [] && !IsSpace(s[|s| - 1])
    ensures var r := DropBlankBeforePunct(s);
            && PairsOk(r)
            && r != [] && r[|r| - 1] == s[|s| - 1]
            && (r[0] == s[0] || (IsSpace(s[0]) && IsPunct(r[0])))
    decreases |s|
  {
    LoosePairsTail(s);
    var rest := DropBlankBeforePunct(s[1..]);
    if |s| > 1 {
      DropBlankShape(s[1..]);
      assert LoosePairOk(s[0], s[1]);
      if IsSpace(s[0]) {
        assert Run(IsSpace, s) == 1;
        assert s[..1] == [s[0]];
      }
      PairsCons(s[0], rest);
    } else {
      assert rest == [];
    }
  }

  lemma {:induction false} PairsAppend(a: string, b: string)
    requires PairsOk(b)
    requires forall i :: 0 <= i < |a| ==> !IsSpace(a[i])
    ensures PairsOk(a + b)
  {
  }

  lemma {:induction false} DotsAppend(a: string, b: string)
    requires DotsCapped(b)
    requires forall i :: 0 <= i < |a| ==> IsDot(a[i])
    requires |a| <= 3 && (b != [] && a != [] ==> !IsDot(b[0]))
    ensures DotsCapped(a + b)
  {
    var t := a + b;
    forall i | 0 <= i <= |t| ensures Run(IsDot, t[i..]) <= 3 {
      if i < |a| {
        RunIs(IsDot, t[i..], |a| - i);
      } else {
        assert t[i..] == b[i - |a|..];
      }
    }
  }

  lemma DotsCons(c: char, s: string)
    requires !IsDot(c)
    ensures DotsCapped([c] + s) <==> DotsCapped(s)
  {
    var t := [c] + s;
    assert Run(IsDot, t[0..]) == 0;
    assert forall i :: 0 <= i <= |s| ==> t[i + 1..] == s[i..];
    assert forall i :: 1 <= i <= |t| ==> t[i..] == s[i - 1..];
  }

  lemma PairsTail(s: string, k: nat)
    requires PairsOk(s) && k <= |s|
    ensures PairsOk(s[k..])
  {
  }

  lemma {:induction false} CapDotsAlnums(s: string)
    ensures |CapDots(s)| <= |s| && Alnums(CapDots(s)) == Alnums(s)
    decreases |s|
  {
    if s != [] {
      var k := Run(IsDot, s);
      if k == 0 {
        CapDotsAlnums(s[1..]);
      } else {
        var h, rest := if k >= 3 then "..." else s[..k], CapDots(s[k..]);
        CapDotsAlnums(s[k..]);
        AlnumsSplit(s, k);
        AlnumsOfNoise(s[..k]);
        AlnumsOfNoise(h);
        AlnumsConcat(h, rest);
      }
    }
  }

  lemma {:induction false} CapDotsEnds(s: string)
    requires s != []
    ensures CapDots(s) != [] && CapDots(s)[0] == s[0] && CapDots(s)[|CapDots(s)| - 1] == s[|s| - 1]
    decreases |s|
  {
    var k := Run(IsDot, s);
    var m := if k == 0 then 1 else k;
    if m < |s| {
      CapDotsEnds(s[m..]);
    } else {
      assert s[m..] == [];
    }
  }

  lemma {:induction false} CapDotsPairs(s: string)
    requires PairsOk(s)
    ensures PairsOk(CapDots(s))
    decreases |s|
  {
    if s != [] {
      var k := Run(IsDot, s);
      if k == 0 {
        var rest := CapDots(s[1..]);
        PairsTail(s, 1);
        CapDotsPairs(s[1..]);
        if s[1..] != [] {
          CapDotsEnds(s[1..]);
          assert PairOk(s[0], s[1]);
        }
        PairsCons(s[0], rest);
      } else {
        PairsTail(s, k);
        CapDotsPairs(s[k..]);
        PairsAppend(if k >= 3 then "..." else s[..k], CapDots(s[k..]));
      }
    }
  }

  lemma {:induction false} CapDotsCaps(s: string)
    ensures DotsCapped(CapDots(s))
    decreases |s|
  {
    if s != [] {
      var k := Run(IsDot, s);
      if k == 0 {
        CapDotsCaps(s[1..]);
        DotsCons(s[0], CapDots(s[1..]));
      } else {
        CapDotsCaps(s[k..]);
        if s[k..] != [] { CapDotsEnds(s[k..]); }
        DotsAppend(if k >= 3 then "..." else s[..k], CapDots(s[k..]));
      }
    }
  }

  lemma LoosePairsSlice(s: string, lo: nat, hi: nat)
    requires LoosePairsOk(s) && lo <= hi <= |s|
    ensures LoosePairsOk(s[lo..hi])
  {
  }

  lemma NormAlnums(s: string)
    ensures Alnums(Norm(s)) == Alnums(s)
    ensures |Norm(s)| <= |s|
  {
    CollapseAlnums(s);
    AlnumsStrip(Collapse(s));
    StripIsTrimmed(Collapse(s));
    DropBlankAlnums(Strip(Collapse(s)));
    CapDotsAlnums(DropBlankBeforePunct(Strip(Collapse(s))));
  }

  lemma NormIsNormal(s: string)
    ensures IsNormal(Norm(s))
  {
    CollapseShape(s);
    var c := Collapse(s);
    var t := Strip(c);
    StripIsTrimmed(c);
    if t == [] {
      assert Norm(s) == [];
      assert Run(IsDot, Norm(s)) == 0;
    } else {
      assert LoosePairsOk(t) by {
        var lo, hi := StripIsSlice(c);
        LoosePairsSlice(c, lo, hi);
      }
      DropBlankShape(t);
      var d := DropBlankBeforePunct(t);
      CapDotsPairs(d);
      CapDotsCaps(d);
      CapDotsEnds(d);
    }
  }

  lemma {:induction false} CollapseOfNormal(s: string)
    requires PairsOk(s) && (s != [] ==> !IsSpace(s[|s| - 1]))
    ensures Collapse(s) == s && DropBlankBeforePunct(s) == s
    decreases |s|
  {
    if s != [] {
      PairsTail(s, 1);
      CollapseOfNormal(s[1..]);
      if IsSpace(s[0]) {
        assert PairOk(s[0], s[1]);
        RunIs(IsSpace, s, 1);
      } else {
        RunIs(IsSpace, s, 0);
      }
    }
  }

  lemma DotsTail(s: string, k: nat)
    requires DotsCapped(s) && k <= |s|
    ensures DotsCapped(s[k..])
    ensures Run(IsDot, s) <= 3
  {
    hide Run;
    forall i | 0 <= i <= |s| - k ensures Run(IsDot, s[k..][i..]) <= 3 {
      assert s[k..][i..] == s[k + i..];
    }
    assert s[0..] == s;
  }

  lemma {:induction false} CapDotsOfNormal(s: string)
    requires DotsCapped(s)
    ensures CapDots(s) == s
    decreases |s|
  {
    hide Run, DotsCapped;
    if s != [] {
      var k := Run(IsDot, s);
      var m := if k == 0 then 1 else k;
      DotsTail(s, m);
      CapDotsOfNormal(s[m..]);
      assert k == 3 ==> s[..3] == "...";
    }
  }

  /** Normalised texts are exactly the fixed points of the normaliser. */
  lemma NormFixedPoint(s: string)
    ensures IsNormal(s) <==> Norm(s) == s
  {
    if IsNormal(s) {
      CollapseOfNormal(s);
      StripOfTrimmed(s);
      CapDotsOfNormal(s);
    } else {
      NormIsNormal(s);
    }
  }

  lemma NormIdempotent(s: string)
    ensures Norm(Norm(s)) == Norm(s)
  {
    NormIsNormal(s);
    NormFixedPoint(Norm(s));
  }

  lemma RunOfPrefix(p: char -> bool, s: string, k: nat)
    requires k <= |s|
    ensures Run(p, s[..k]) == Min(Run(p, s), k)
  {
    RunIs(p, s[..k], Min(Run(p, s), k));
  }

  /** Any piece of a normalised text that has no blank at its ends is normalised. */
  lemma SliceOfNormal(s: string, lo: nat, hi: nat)
    requires IsNormal(s) && lo <= hi <= |s| && Trimmed(s[lo..hi])
    ensures IsNormal(s[lo..hi])
  {
    hide PairOk, Run;
    var t := s[lo..hi];
    forall i, j | 0 <= i < j < |t| && j == i + 1 ensures PairOk(t[i], t[j]) {
      assert PairOk(s[i + lo], s[j + lo]);
    }
    forall i | 0 <= i <= |t| ensures Run(IsDot, t[i..]) <= 3 {
      assert t[i..] == s[lo + i..][..hi - lo - i];
      RunOfPrefix(IsDot, s[lo + i..], hi - lo - i);
    }
  }

  /** Two normalised texts with a blank between them are normalised, if the second does not begin with a mark. */
  lemma NormalJoin(a: string, b: string)
    requires IsNormal(a) && IsNormal(b) && a != [] && b != [] && !IsPunct(b[0])
    ensures IsNormal(a + " " + b)
  {
    hide DotsCapped, PairOk;
    var t := a + " " + b;
    assert PairsOk(t) by {
      PairsAcross(a, b);
    }
    DotsAcross(a, b);
    assert t[0] == a[0] && t[|t| - 1] == b[|b| - 1];
  }

  lemma PairsAcross(a: string, b: string)
    requires PairsOk(a) && PairsOk(b) && a != [] && b != [] && !IsSpace(a[|a| - 1]) && !IsSpace(b[0]) && !IsPunct(b[0])
    ensures PairsOk(a + " " + b)
  {
    var t := a + " " + b;
    forall i, j | 0 <= i < j < |t| && j == i + 1 ensures PairOk(t[i], t[j]) {
      if j < |a| {
        assert PairOk(a[i], a[j]);
      } else if i > |a| {
        assert PairOk(b[i - |a| - 1], b[j - |a| - 1]);
      }
    }
  }

  lemma DotsAcross(a: string, b: string)
    requires DotsCapped(a) && DotsCapped(b)
    ensures DotsCapped(a + " " + b)
  {
    var t := a + " " + b;
    forall i | 0 <= i <= |t| ensures Run(IsDot, t[i..]) <= 3 {
      if i <= |a| {
        RunStops(IsDot, t, i, a[i..], |a| - i);
      } else {
        assert t[i..] == b[i - |a| - 1..];
      }
    }
  }

  /** A run in a text cannot pass a character that fails. */
  lemma RunStops(p: char -> bool, t: string, i: nat, head: string, k: nat)
    requires i + k < |t| && |head| == k && t[i..i + k] == head && !p(t[i + k])
    ensures Run(p, t[i..]) == Run(p, head)
  {
    var n := Run(p, head);
    assert forall h :: 0 <= h < k ==> t[i..][h] == head[h];
    assert t[i..][k] == t[i + k];
    RunIs(p, t[i..], n);
  }
}
