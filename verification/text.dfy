/** Strings as the modelled Python sees them, over ASCII: whitespace, trimming,
    membership and the position of a first occurrence. */
module Text {

  /** What `str.strip()` and `\s` treat as white space. */
  predicate IsSpace(c: char) {
    9 <= c as int <= 13 || 28 <= c as int <= 32
  }

  predicate AllSpace(s: string) {
    forall i :: 0 <= i < |s| ==> IsSpace(s[i])
  }

  /** No white space at either end. */
  predicate Trimmed(s: string) {
    s != "" ==> !IsSpace(s[0]) && !IsSpace(s[|s| - 1])
  }

  /** `s.lstrip()`. */
  function LStrip(s: string): (r: string)
    ensures |r| <= |s|
    ensures r != "" ==> !IsSpace(r[0])
  {
    if s != "" && IsSpace(s[0]) then LStrip(s[1..]) else s
  }

  /** `s.rstrip()`. */
  function RStrip(s: string): (r: string)
    ensures |r| <= |s|
    ensures r != "" ==> !IsSpace(r[|r| - 1])
  {
    if s != "" && IsSpace(s[|s| - 1]) then RStrip(s[..|s| - 1]) else s
  }

  /** What `lstrip` removes is white space at the front. */
  lemma {:induction false} LStripParts(s: string)
    ensures LStrip(s) == s[|s| - |LStrip(s)|..] && AllSpace(s[..|s| - |LStrip(s)|])
  {
    if s != "" && IsSpace(s[0]) {
      LStripParts(s[1..]);
      var k := |s[1..]| - |LStrip(s)|;
      assert s[1..][k..] == s[k + 1..];
      assert s[..k + 1] == [s[0]] + s[1..][..k];
    }
  }

  /** What `rstrip` removes is white space at the back. */
  lemma {:induction false} RStripParts(s: string)
    ensures RStrip(s) == s[..|RStrip(s)|] && AllSpace(s[|RStrip(s)|..])
  {
    if s != "" && IsSpace(s[|s| - 1]) {
      var t, k := s[..|s| - 1], |RStrip(s)|;
      RStripParts(t);
      assert t[..k] == s[..k];
      assert s[k..] == t[k..] + [s[|s| - 1]];
    }
  }

  /** `s.strip()`. */
  function Strip(s: string): (r: string)
    ensures Trimmed(r)
    ensures |r| <= |s|
  {
    LStripParts(RStrip(s));
    LStrip(RStrip(s))
  }

  lemma {:induction false} RStripKeeps(s: string, i: nat)
    requires i < |s| && !IsSpace(s[i])
    ensures i < |RStrip(s)|
  {
    if IsSpace(s[|s| - 1]) {
      RStripKeeps(s[..|s| - 1], i);
    }
  }

  lemma {:induction false} LStripKeeps(s: string, i: nat)
    requires i < |s| && !IsSpace(s[i])
    ensures |LStrip(s)| >= |s| - i
  {
    if IsSpace(s[0]) {
      LStripKeeps(s[1..], i - 1);
    }
  }

  lemma {:induction false} RStripOf(core: string, b: string)
    requires AllSpace(b)
    requires core != "" ==> !IsSpace(core[|core| - 1])
    ensures RStrip(core + b) == core
  {
    if b == "" {
      assert core + b == core;
    } else {
      var b' := b[..|b| - 1];
      RStripOf(core, b');
      assert (core + b)[..|core + b| - 1] == core + b';
    }
  }

  lemma {:induction false} LStripOf(a: string, core: string)
    requires AllSpace(a)
    requires core != "" ==> !IsSpace(core[0])
    ensures LStrip(a + core) == core
  {
    if a == "" {
      assert a + core == core;
    } else {
      LStripOf(a[1..], core);
      assert (a + core)[1..] == a[1..] + core;
    }
  }

  /** Stripping is determined by its result: white space around a trimmed core. */
  lemma StripOf(a: string, core: string, b: string)
    requires AllSpace(a) && AllSpace(b) && Trimmed(core)
    ensures Strip(a + core + b) == core
  {
    if core == "" {
      RStripOf("", a + b);
      assert "" + (a + b) == a + core + b;
    } else {
      RStripOf(a + core, b);
      LStripOf(a, core);
    }
  }

  lemma StripTrimmed(s: string)
    requires Trimmed(s)
    ensures Strip(s) == s
  {
    StripOf("", s, "");
    assert "" + s + "" == s;
  }

  /** Stripping leaves nothing exactly of white space. */
  lemma StripBlank(s: string)
    ensures Strip(s) == "" <==> AllSpace(s)
  {
    if AllSpace(s) {
      RStripOf("", s);
      assert "" + s == s;
    } else {
      var i :| 0 <= i < |s| && !IsSpace(s[i]);
      RStripKeeps(s, i);
      RStripParts(s);
      LStripKeeps(RStrip(s), i);
    }
  }

  /** The characters that are white space, one by one. */
  lemma SpaceChars(c: char)
    ensures IsSpace(c) <==> c in "\t\n\U{000B}\U{000C}\r\U{001C}\U{001D}\U{001E}\U{001F} "
  {
  }

  /** `s.strip(c)` for one character `c`. */
  function TrimChar(s: string, c: char): (r: string)
    ensures |r| <= |s|
    ensures r != "" ==> r[0] != c && r[|r| - 1] != c
    ensures (s != "" ==> s[0] != c && s[|s| - 1] != c) ==> r == s
  {
    if s != "" && s[0] == c then TrimChar(s[1..], c)
    else if s != "" && s[|s| - 1] == c then TrimChar(s[..|s| - 1], c)
    else s
  }

  /** `s.replace(old, new)` for single characters. */
  function ReplaceChar(s: string, old_: char, new_: char): (r: string)
    ensures |r| == |s|
    ensures forall i :: 0 <= i < |s| ==> r[i] == if s[i] == old_ then new_ else s[i]
  {
    seq(|s|, i requires 0 <= i < |s| => if s[i] == old_ then new_ else s[i])
  }

  /** Cutting twice is cutting once. */
  lemma Cut<T>(s: seq<T>, j: nat, k: nat)
    requires j <= k <= |s|
    ensures s[..k][..j] == s[..j]
    ensures s[..k][j..] == s[j..k] == s[j..][..k - j]
    ensures s[j..][k - j..] == s[k..]
    ensures s == s[..k] + s[k..]
  {
  }

  /** `k` is a place where `s` can be cut in two. */
  predicate CutPoint<T>(s: seq<T>, k: int) {
    0 <= k <= |s|
  }

  /** The index of the first `c`, or `|s|`. */
  function Find(s: string, c: char): (k: nat)
    ensures k <= |s|
    ensures forall i :: 0 <= i < k ==> s[i] != c
    ensures k < |s| ==> s[k] == c
  {
    if s == "" || s[0] == c then 0 else 1 + Find(s[1..], c)
  }

  lemma {:induction false} FindBefore(a: string, x: string, c: char)
    requires c !in a && x != "" && x[0] == c
    ensures Find(a + x, c) == |a|
  {
    if a == "" {
      assert a + x == x;
    } else {
      FindBefore(a[1..], x, c);
      assert (a + x)[1..] == a[1..] + x;
    }
  }

  lemma Halves(a: string, x: string)
    ensures (a + x)[..|a|] == a && (a + x)[|a|..] == x
  {
  }

  predicate OccursAt(s: string, t: string, k: int) {
    0 <= k && k + |t| <= |s| && s[k..k + |t|] == t
  }

  /** `s.find(t)`: the first index at which `t` occurs, or -1. */
  function IndexOf(s: string, t: string): (k: int)
    ensures k >= -1
  {
    if OccursAt(s, t, 0) then 0
    else if s == "" then -1
    else
      var k := IndexOf(s[1..], t);
      if k == -1 then -1 else k + 1
  }

  lemma OccursShift(s: string, t: string, i: nat)
    requires s != ""
    ensures OccursAt(s[1..], t, i) <==> OccursAt(s, t, i + 1)
  {
    if i + 1 + |t| <= |s| {
      assert s[1..][i..i + |t|] == s[i + 1..i + 1 + |t|];
    }
  }

  /** What `IndexOf` finds is an occurrence, and no other comes before it. */
  lemma {:induction false} IndexOfFound(s: string, t: string)
    ensures IndexOf(s, t) != -1 ==> OccursAt(s, t, IndexOf(s, t))
  {
    if !OccursAt(s, t, 0) && s != "" {
      IndexOfFound(s[1..], t);
      if IndexOf(s[1..], t) != -1 {
        OccursShift(s, t, IndexOf(s[1..], t));
      }
    }
  }

  lemma {:induction false} IndexOfFirst(s: string, t: string, k: nat)
    requires OccursAt(s, t, k)
    ensures 0 <= IndexOf(s, t) <= k
  {
    if !OccursAt(s, t, 0) {
      OccursShift(s, t, k - 1);
      IndexOfFirst(s[1..], t, k - 1);
    }
  }

  /** `t in s`. */
  predicate Contains(s: string, t: string) {
    IndexOf(s, t) != -1
  }

  /** `s.replace(t, u, 1)`. */
  function ReplaceFirst(s: string, t: string, u: string): string {
    var k := IndexOf(s, t);
    if k == -1 then s
    else
      IndexOfFound(s, t);
      s[..k] + u + s[k + |t|..]
  }

  function LowerChar(c: char): char {
    if 'A' <= c <= 'Z' then (c as int + 32) as char else c
  }

  /** Capitals become small letters, and nothing else changes. */
  lemma LowerChars(c: char, i: nat)
    ensures i < 26 ==> LowerChar("ABCDEFGHIJKLMNOPQRSTUVWXYZ"[i]) == "abcdefghijklmnopqrstuvwxyz"[i]
    ensures c !in "ABCDEFGHIJKLMNOPQRSTUVWXYZ" ==> LowerChar(c) == c
  {
    var capitals := "ABCDEFGHIJKLMNOPQRSTUVWXYZ";
    assert 'A' <= c <= 'Z' ==> capitals[c as int - 'A' as int] == c;
  }

  /** `s.lower()` over ASCII. */
  function Lower(s: string): (r: string)
    ensures |r| == |s|
    ensures forall i :: 0 <= i < |s| ==> r[i] == LowerChar(s[i])
  {
    seq(|s|, i requires 0 <= i < |s| => LowerChar(s[i]))
  }

  /** What `str.splitlines()` breaks at. */
  predicate IsLineBreak(c: char) {
    10 <= c as int <= 13 || 28 <= c as int <= 30
  }

  /** The characters a line breaks at, one by one. */
  lemma LineBreakChars(c: char)
    ensures IsLineBreak(c) <==> c in "\n\U{000B}\U{000C}\r\U{001C}\U{001D}\U{001E}"
  {
  }

  predicate SingleLine(s: string) {
    forall i :: 0 <= i < |s| ==> !IsLineBreak(s[i])
  }

  function Concat(ss: seq<string>): string {
    if ss == [] then "" else ss[0] + Concat(ss[1..])
  }

  lemma {:induction false} ConcatAppend(a: seq<string>, b: seq<string>)
    ensures Concat(a + b) == Concat(a) + Concat(b)
  {
    if a == [] {
      assert a + b == b;
    } else {
      assert (a + b)[1..] == a[1..] + b;
      ConcatAppend(a[1..], b);
    }
  }

  /** The width of the line break at the start of `s`; CR LF is one break. */
  function BreakLen(s: string): nat
    requires s != "" && IsLineBreak(s[0])
  {
    if s[0] == '\r' && |s| > 1 && s[1] == '\n' then 2 else 1
  }

  /** The index of the first line break, or `|s|`. */
  function FindBreak(s: string): (k: nat)
    ensures k <= |s|
    ensures k < |s| ==> IsLineBreak(s[k])
  {
    if s == "" || IsLineBreak(s[0]) then 0 else FindBreak(s[1..]) + 1
  }

  lemma {:induction false} BeforeBreak(s: string)
    ensures SingleLine(s[..FindBreak(s)])
  {
    if s != "" && !IsLineBreak(s[0]) {
      BeforeBreak(s[1..]);
      var k := FindBreak(s);
      assert s[..k] == [s[0]] + s[1..][..k - 1];
    }
  }

  /** `s.splitlines()`. */
  function SplitLines(s: string): seq<string>
    decreases |s|
  {
    var k := FindBreak(s);
    if s == "" then [] else if k == |s| then [s] else [s[..k]] + SplitLines(s[k + BreakLen(s[k..])..])
  }

  /** `"\n".join(lines)`. */
  function JoinLF(lines: seq<string>): string {
    if lines == [] then ""
    else if |lines| == 1 then lines[0]
    else lines[0] + ("\n" + JoinLF(lines[1..]))
  }

  lemma {:induction false} FindBreakAt(a: string, x: string)
    requires SingleLine(a) && (x != "" ==> IsLineBreak(x[0]))
    ensures FindBreak(a + x) == |a|
  {
    if a == "" {
      assert a + x == x;
    } else {
      assert (a + x)[1..] == a[1..] + x;
      FindBreakAt(a[1..], x);
    }
  }

  /** A single line and a line feed in front. */
  lemma SplitLinesCons(a: string, b: string)
    requires SingleLine(a)
    ensures SplitLines(a + ("\n" + b)) == [a] + SplitLines(b)
  {
    var x := "\n" + b;
    FindBreakAt(a, x);
    Halves(a, x);
    Cut(a + x, |a|, |a| + 1);
    assert x[1..] == b;
  }

  lemma SplitLinesOne(a: string)
    requires SingleLine(a) && a != ""
    ensures SplitLines(a) == [a]
  {
    FindBreakAt(a, "");
    assert a + "" == a;
  }

  lemma SplitLinesBreak(l: string, br: string, rest: string)
    requires SingleLine(l) && br != "" && IsLineBreak(br[0])
    requires BreakLen(br + rest) == |br|
    ensures SplitLines(l + (br + rest)) == [l] + SplitLines(rest)
  {
    var x := br + rest;
    FindBreakAt(l, x);
    Halves(l, x);
    Halves(br, rest);
    Cut(l + x, |l|, |l| + |br|);
    assert (l + x)[|l| + |br|..] == x[|br|..];
  }

  /** A text of more than one line: its first line, the break, and the rest. */
  lemma FirstBreak(a: string) returns (l: string, br: string, rest: string)
    requires FindBreak(a) < |a|
    ensures a == l + (br + rest) && SingleLine(l)
    ensures br != "" && IsLineBreak(br[0]) && IsLineBreak(br[|br| - 1]) && BreakLen(br + rest) == |br|
    ensures SplitLines(a) == [l] + SplitLines(rest)
    ensures !IsLineBreak(a[|a| - 1]) ==> rest != "" && rest[|rest| - 1] == a[|a| - 1]
  {
    var k := FindBreak(a);
    BeforeBreak(a);
    var x := a[k..];
    var w := BreakLen(x);
    l, br, rest := a[..k], x[..w], x[w..];
    assert x == br + rest && a == l + x;
    SplitLinesBreak(l, br, rest);
    assert rest == "" ==> a[|a| - 1] == br[w - 1];
  }

  lemma BreakKept(br: string, rest: string, x: string)
    requires br != "" && IsLineBreak(br[0]) && BreakLen(br + rest) == |br| && rest != ""
    ensures BreakLen(br + (rest + x)) == |br|
  {
    assert |br| == 1 ==> (br + (rest + x))[1] == (br + rest)[1] == rest[0];
    assert |br| > 1 ==> (br + (rest + x))[1] == (br + rest)[1] == br[1];
  }

  lemma AppendStep(a: string, l: string, br: string, rest: string, x: string)
    requires a == l + (br + rest)
    requires SingleLine(l) && br != "" && IsLineBreak(br[0]) && BreakLen(br + rest) == |br| && rest != ""
    ensures SplitLines(a + x) == [l] + SplitLines(rest + x)
  {
    BreakKept(br, rest, x);
    SplitLinesBreak(l, br, rest + x);
    Regroup(l, br, rest, x);
  }

  lemma Glue<T>(whole: seq<T>, h: T, pq: seq<T>, p: seq<T>, q: seq<T>, first: seq<T>)
    requires whole == [h] + pq && pq == p + q && first == [h] + p
    ensures whole == first + q
  {
  }

  /** A text that does not end in a line break, before a line feed. */
  lemma {:induction false} SplitLinesAppend(a: string, b: string)
    requires a != "" && !IsLineBreak(a[|a| - 1])
    ensures SplitLines(a + ("\n" + b)) == SplitLines(a) + SplitLines(b)
    decreases |a|
  {
    var x := "\n" + b;
    if FindBreak(a) == |a| {
      BeforeBreak(a);
      assert a[..|a|] == a;
      SplitLinesOne(a);
      SplitLinesCons(a, b);
    } else {
      var l, br, rest := FirstBreak(a);
      SplitLinesAppend(rest, b);
      AppendStep(a, l, br, rest, x);
      Glue(SplitLines(a + x), l, SplitLines(rest + x), SplitLines(rest), SplitLines(b), SplitLines(a));
    }
  }

  lemma Regroup(a: string, b: string, c: string, d: string)
    ensures (a + (b + c)) + d == a + (b + (c + d))
  {
  }

  /** The only line breaks are line feeds. */
  predicate LineFeedsOnly(s: string) {
    forall i :: 0 <= i < |s| && IsLineBreak(s[i]) ==> s[i] == '\n'
  }

  lemma LineFeedParts(l: string, br: string, rest: string)
    requires LineFeedsOnly(l + (br + rest)) && br != "" && IsLineBreak(br[0])
    requires BreakLen(br + rest) == |br|
    ensures br == "\n" && LineFeedsOnly(rest)
  {
    var s := l + (br + rest);
    assert s[|l|] == br[0] == (br + rest)[0];
    assert forall i :: 0 <= i < |rest| ==> rest[i] == s[|l| + |br| + i];
  }

  lemma JoinStep(lines: seq<string>, l: string, ls: seq<string>, rest: string)
    requires lines == [l] + ls && ls != [] && JoinLF(ls) == rest
    ensures JoinLF(lines) == l + ("\n" + rest)
  {
    assert lines[1..] == ls;
  }

  /** Splitting at line feeds and joining again gives the text back, unless it ends in one. */
  lemma {:induction false} JoinSplit(s: string)
    requires LineFeedsOnly(s) && (s != "" ==> !IsLineBreak(s[|s| - 1]))
    ensures JoinLF(SplitLines(s)) == s
    decreases |s|
  {
    if s != "" {
      if FindBreak(s) < |s| {
        var l, br, rest := FirstBreak(s);
        LineFeedParts(l, br, rest);
        JoinSplit(rest);
        SplitLinesSome(rest);
        JoinStep(SplitLines(s), l, SplitLines(rest), rest);
      } else {
        BeforeBreak(s);
        assert s[..|s|] == s;
        SplitLinesOne(s);
      }
    }
  }

  lemma SplitLinesSome(s: string)
    ensures SplitLines(s) == [] <==> s == ""
  {
  }
}
