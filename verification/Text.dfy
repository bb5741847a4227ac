/** Character classes, runs and trimming, shared by the text-processing modules.
    Strings are sequences of code points, one `char` each. */
module Text {

  const ELLIPSIS: char := '\U{2026}'

  /** The translator's `_PUNCT_CHARS`. */
  predicate IsPunct(c: char) {
    c == '.' || c == ',' || c == '!' || c == '?' || c == ';' || c == ':' || c == ELLIPSIS
  }

  /** Closing quotes and brackets that may follow a sentence end. */
  predicate IsCloser(c: char) {
    c == '"' || c == '\'' || c == ')' || c == ']'
  }

  /** The quotes that may follow a sentence end in the server's and the overlay's expression. */
  predicate IsQuote(c: char) {
    c == '"' || c == '\'' || c == '\U{201D}' || c == '\U{2019}'
  }

  predicate IsEndMark(c: char) {
    c == '.' || c == '!' || c == '?' || c == ELLIPSIS
  }

  predicate IsAscii(c: char) {
    'a' <= c <= 'z' || 'A' <= c <= 'Z' || '0' <= c <= '9'
  }

  /** A table of blanks: it has the plain space and the line breaks, and no mark, closer, quote, ASCII letter or
      digit. */
  type SpaceTable = f: char -> bool |
    f(' ') && f('\n') && f('\r') && forall c :: f(c) ==> !IsPunct(c) && !IsCloser(c) && !IsQuote(c) && !IsAscii(c)
    witness (c: char) => c == ' ' || c == '\n' || c == '\r'

  /** The blanks of `str.isspace` and of the regular expressions' `\s`. Every result holds whichever table this is,
      so the small differences between Python's and JavaScript's classes do not matter. */
  const SPACE: SpaceTable

  predicate IsSpace(c: char) {
    SPACE(c)
  }

  /** A table of letters and digits: it has the ASCII ones, and no blank, mark or closer. */
  type AlnumTable = f: char -> bool |
    forall c :: (IsAscii(c) ==> f(c)) && (f(c) ==> !IsSpace(c) && !IsPunct(c) && !IsCloser(c))
    witness (c: char) => IsAscii(c)

  /** Unicode's alphanumeric table (`str.isalnum`). Every result holds whichever table this is. */
  const ALNUM: AlnumTable

  predicate IsAlnum(c: char) {
    ALNUM(c)
  }

  predicate IsNoise(c: char) {
    IsSpace(c) || IsPunct(c)
  }

  predicate IsNonSpace(c: char) {
    !IsSpace(c)
  }

  /** Length of the longest prefix of `s` all of whose characters satisfy `p`. */
  function Run(p: char -> bool, s: string): (n: nat)
    ensures n <= |s|
    ensures forall i :: 0 <= i < n ==> p(s[i])
    ensures n < |s| ==> !p(s[n])
  {
    if s == [] || !p(s[0]) then 0 else 1 + Run(p, s[1..])
  }

  /** Only the characters up to the first failing one matter to a run. */
  lemma RunIs(p: char -> bool, s: string, n: nat)
    requires n <= |s|
    requires forall i :: 0 <= i < n ==> p(s[i])
    requires n == |s| || !p(s[n])
    ensures Run(p, s) == n
  {
  }

  function LStrip(s: string): (r: string) {
    s[Run(IsSpace, s)..]
  }

  function RStrip(s: string): (r: string)
    ensures r <= s
    ensures r != [] ==> !IsSpace(r[|r| - 1])
    ensures forall i :: |r| <= i < |s| ==> IsSpace(s[i])
  {
    if s == [] || !IsSpace(s[|s| - 1]) then s else RStrip(s[..|s| - 1])
  }

  function Strip(s: string): string {
    RStrip(LStrip(s))
  }

  predicate IsBlank(s: string) {
    forall i :: 0 <= i < |s| ==> IsSpace(s[i])
  }

  /** No blank at either end. */
  predicate Trimmed(s: string) {
    s == [] || (!IsSpace(s[0]) && !IsSpace(s[|s| - 1]))
  }

  lemma StripIsTrimmed(s: string)
    ensures Trimmed(Strip(s))
    ensures Strip(s) == [] <==> IsBlank(s)
    ensures |Strip(s)| <= |s|
  {
  }

  lemma StripOfTrimmed(s: string)
    requires Trimmed(s)
    ensures Strip(s) == s
  {
  }

  /** Where `Strip(s)` sits inside `s`. */
  lemma StripIsSlice(s: string) returns (lo: nat, hi: nat)
    ensures lo <= hi <= |s|
    ensures Strip(s) == s[lo..hi]
    ensures IsBlank(s[..lo]) && IsBlank(s[hi..])
    ensures !IsBlank(s) ==> lo == Run(IsSpace, s)
  {
    lo := Run(IsSpace, s);
    hi := lo + |Strip(s)|;
    assert Strip(s) == LStrip(s)[..hi - lo] == s[lo..hi];
    forall i | 0 <= i < |s[hi..]| ensures IsSpace(s[hi..][i]) {
      assert s[hi..][i] == LStrip(s)[hi - lo + i];
    }
  }

  /** The letters and digits of `s`, in order. */
  function Alnums(s: string): string {
    if s == [] then []
    else (if IsAlnum(s[0]) then [s[0]] else []) + Alnums(s[1..])
  }

  predicate HasAlnum(s: string) {
    exists i :: 0 <= i < |s| && IsAlnum(s[i])
  }

  lemma AlnumsCons(s: string, t: string)
    requires s != [] && t == s[1..]
    ensures Alnums(s) == Alnums(s[..1]) + Alnums(t)
  {
  }

  lemma {:induction false} AlnumsConcat(a: string, b: string)
    ensures Alnums(a + b) == Alnums(a) + Alnums(b)
    decreases |a|
  {
    if a == [] {
      assert a + b == b;
      assert Alnums(a) == [];
    } else {
      hide Alnums;
      var t := a[1..];
      AlnumsConcat(t, b);
      assert (a + b)[1..] == t + b && (a + b)[..1] == a[..1];
      AlnumsCons(a + b, t + b);
      AlnumsCons(a, t);
      Assoc(Alnums(a[..1]), Alnums(t), Alnums(b));
    }
  }

  lemma {:induction false} AlnumsEmpty(s: string)
    ensures Alnums(s) == [] <==> !HasAlnum(s)
  {
    if s != [] {
      AlnumsEmpty(s[1..]);
      if HasAlnum(s) && !IsAlnum(s[0]) {
        var i :| 0 <= i < |s| && IsAlnum(s[i]);
        assert s[1..][i - 1] == s[i];
      }
      if HasAlnum(s[1..]) {
        var i :| 0 <= i < |s[1..]| && IsAlnum(s[1..][i]);
        assert s[i + 1] == s[1..][i];
      }
    }
  }

  lemma AlnumsOfNoise(s: string)
    requires forall i :: 0 <= i < |s| ==> IsNoise(s[i])
    ensures Alnums(s) == []
  {
  }

  lemma AlnumsSplit(s: string, k: nat)
    requires k <= |s|
    ensures Alnums(s) == Alnums(s[..k]) + Alnums(s[k..])
  {
    assert s == s[..k] + s[k..];
    AlnumsConcat(s[..k], s[k..]);
  }

  lemma AlnumsTrim(s: string, lo: nat, hi: nat)
    requires lo <= hi <= |s| && IsBlank(s[..lo]) && IsBlank(s[hi..])
    ensures Alnums(s[lo..hi]) == Alnums(s)
  {
    hide Alnums;
    AlnumsSplit(s, lo);
    AlnumsSplit(s[lo..], hi - lo);
    assert s[lo..][hi - lo..] == s[hi..];
    assert s[lo..][..hi - lo] == s[lo..hi];
    AlnumsOfNoise(s[..lo]);
    AlnumsOfNoise(s[hi..]);
  }

  lemma AlnumsStrip(s: string)
    ensures Alnums(Strip(s)) == Alnums(s)
    ensures Alnums(LStrip(s)) == Alnums(s)
  {
    hide Alnums, Strip, Run;
    var lo, hi := StripIsSlice(s);
    AlnumsTrim(s, lo, hi);
    var k := Run(IsSpace, s);
    assert s[k..|s|] == s[k..] && s[|s|..] == [];
    AlnumsTrim(s, k, |s|);
  }

  /** The text has something in it, but no letter or digit. */
  predicate IsPunctOnly(s: string) {
    !IsBlank(s) && !HasAlnum(s)
  }

  /** Drops leading blanks and punctuation, then trailing blanks. */
  function StripLeadingNoise(s: string): string {
    var t := Strip(s);
    Strip(t[Run(IsNoise, t)..])
  }

  lemma StripLeadingNoiseKeeps(s: string)
    ensures Alnums(StripLeadingNoise(s)) == Alnums(s)
    ensures |StripLeadingNoise(s)| <= |s|
    ensures Trimmed(StripLeadingNoise(s))
    ensures StripLeadingNoise(s) != [] ==> !IsNoise(StripLeadingNoise(s)[0])
  {
    var t := Strip(s);
    var k := Run(IsNoise, t);
    AlnumsStrip(s);
    AlnumsSplit(t, k);
    AlnumsOfNoise(t[..k]);
    AlnumsStrip(t[k..]);
    StripIsTrimmed(s);
    StripIsTrimmed(t[k..]);
    if k < |t| {
      assert !IsNoise(t[k..][0]);
      RunIs(IsSpace, t[k..], 0);
    }
  }

  lemma StripBounds(s: string) returns (lo: nat, hi: nat)
    ensures lo <= hi <= |s| && Strip(s) == s[lo..hi]
  {
    lo, hi := StripIsSlice(s);
  }

  lemma StripLeadingNoiseIsSlice(s: string) returns (lo: nat, hi: nat)
    ensures lo <= hi <= |s| && StripLeadingNoise(s) == s[lo..hi]
  {
    hide Strip, Run;
    var t := Strip(s);
    var a, b := StripBounds(s);
    var k := Run(IsNoise, t);
    var c, d := StripBounds(t[k..]);
    assert t[k..][c..d] == t[k + c..k + d];
    SliceOfSlice(s, a, b, k + c, k + d);
    return a + k + c, a + k + d;
  }

  lemma SliceOfSlice(s: string, a: nat, b: nat, c: nat, d: nat)
    requires a <= b <= |s| && c <= d <= b - a
    ensures s[a..b][c..d] == s[a + c..a + d]
  {
    var t, u := s[a..b][c..d], s[a + c..a + d];
    assert |t| == |u|;
    forall i | 0 <= i < |t| ensures t[i] == u[i] {
      assert t[i] == s[a..b][c + i];
    }
  }

  lemma StripLeadingNoiseId(s: string)
    requires Trimmed(s) && (s != [] ==> !IsNoise(s[0]))
    ensures StripLeadingNoise(s) == s
  {
  }

  /** Joins a list of strings end to end. */
  function Concat(ss: seq<string>): string {
    if ss == [] then "" else ss[0] + Concat(ss[1..])
  }

  lemma {:induction false} ConcatAppend(a: seq<string>, b: seq<string>)
    ensures Concat(a + b) == Concat(a) + Concat(b)
    decreases |a|
  {
    if a == [] {
      assert a + b == b;
      assert Concat(a) == "";
    } else {
      ConcatAppend(a[1..], b);
      ConcatUnfold(a);
      ConcatUnfold(a + b);
      hide Concat;
      assert (a + b)[1..] == a[1..] + b;
      Assoc(a[0], Concat(a[1..]), Concat(b));
    }
  }

  lemma ConcatUnfold(a: seq<string>)
    requires a != []
    ensures Concat(a) == a[0] + Concat(a[1..])
  {
  }

  lemma ConcatNothing()
    ensures Concat([]) == ""
  {
  }

  lemma AlnumsNothing()
    ensures Alnums("") == [] && Concat([]) == ""
  {
  }

  /** Each text extends the one before it; the first one extends `last`. */
  predicate Growing(last: string, ts: seq<string>)
    decreases |ts|
  {
    ts == [] || (last <= ts[0] && Growing(ts[0], ts[1..]))
  }

  /** Numbers from `last` on that never go back. */
  ghost predicate NeverFalls(last: int, ns: seq<int>) {
    && (forall i :: 0 <= i < |ns| ==> last <= ns[i])
    && (forall i, j :: 0 <= i < j < |ns| ==> ns[i] <= ns[j])
  }

  lemma NeverFallsCons(last: int, head: seq<int>, ns: seq<int>)
    requires |head| <= 1
    ensures NeverFalls(last, head + ns)
            <==> if head == [] then NeverFalls(last, ns) else last <= head[0] && NeverFalls(head[0], ns)
  {
    var all := head + ns;
    if head == [] {
      assert all == ns;
    } else {
      assert all[0] == head[0] && all[1..] == ns;
      if NeverFalls(last, all) {
        forall i | 0 <= i < |ns| ensures head[0] <= ns[i] {
          assert ns[i] == all[i + 1];
        }
        forall i, j | 0 <= i < j < |ns| ensures ns[i] <= ns[j] {
          assert ns[i] == all[i + 1] && ns[j] == all[j + 1];
        }
      }
    }
  }

  /** Joins a list of strings with single blanks. */
  function Join(parts: seq<string>): string {
    if parts == [] then ""
    else if |parts| == 1 then parts[0]
    else parts[0] + " " + Join(parts[1..])
  }

  /** A text cut into sentences, and what is left behind the last one. */
  datatype Split = Split(sents: seq<string>, tail: string)

  /** How many sentences no extension of the text can change: all, but for a last one that reaches the end of the
      text. */
  function Firm(s: Split): (n: nat)
    ensures n <= |s.sents| <= n + 1
  {
    if s.tail == "" && s.sents != [] then |s.sents| - 1 else |s.sents|
  }

  lemma ConcatCons(s: string, ss: seq<string>)
    ensures Concat([s] + ss) == s + Concat(ss)
  {
  }

  lemma ConcatOne(s: string)
    ensures Concat([s]) == s
  {
  }

  lemma ConcatSnoc(a: seq<string>, s: string)
    ensures Concat(a + [s]) == Concat(a) + s
  {
    ConcatAppend(a, [s]);
    assert [s][1..] == [];
    assert Concat([s]) == s + "";
  }

  lemma Assoc(a: string, b: string, c: string)
    ensures (a + b) + c == a + (b + c)
  {
  }

  predicate IsSuffix(t: string, s: string) {
    |t| <= |s| && t == s[|s| - |t|..]
  }

  function Max(a: int, b: int): int { if a < b then b else a }

  function Min(a: int, b: int): int { if a < b then a else b }

  datatype Option<+T> = None | Some(value: T)
}
