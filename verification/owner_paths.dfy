/** Path ownership: the glob scanner, the regular expressions it emits, and a
    segment-wise reference matcher (src/otaman_core/owner_paths.py). */
module OwnerPaths {
  import opened Text

  // ----- The regular expressions the scanner emits -----

  /** The fragments of Python's `re` syntax that a translated glob can contain. */
  datatype Regex =
    | Chr(c: char)          // an escaped literal
    | Dot                   // `.`, which does not match a line feed
    | NotSlash              // `[^/]`
    | Star(r: Regex)
    | Opt(r: Regex)
    | Cat(r1: Regex, r2: Regex)

  /** `s` is a word of the language of `r`. */
  predicate Matches(r: Regex, s: string)
    decreases r, |s|
  {
    match r
    case Chr(c) => s == [c]
    case Dot => |s| == 1 && s[0] != '\n'
    case NotSlash => |s| == 1 && s[0] != '/'
    case Opt(q) => s == "" || Matches(q, s)
    case Cat(q1, q2) =>
      exists k {:trigger CutPoint(s, k)} :: 0 <= k <= |s| && CutPoint(s, k) && Matches(q1, s[..k]) && Matches(q2, s[k..])
    case Star(q) =>
      || s == ""
      || exists k {:trigger CutPoint(s, k)} :: 0 < k <= |s| && CutPoint(s, k) && Matches(q, s[..k]) && Matches(r, s[k..])
  }

  /** `s` is a word of the concatenation `"".join(parts)`. */
  predicate MatchesAll(parts: seq<Regex>, s: string) {
    if parts == [] then s == ""
    else
      exists k {:trigger CutPoint(s, k)} ::
        0 <= k <= |s| && CutPoint(s, k) && Matches(parts[0], s[..k]) && MatchesAll(parts[1..], s[k..])
  }

  /** `s` splits at `k` into a word of `r` and a word of `rest`. */
  predicate ConsAt(r: Regex, rest: seq<Regex>, s: string, k: nat) {
    k <= |s| && Matches(r, s[..k]) && MatchesAll(rest, s[k..])
  }

  /** `re.match("^" + "".join(parts) + "$", s)`: `$` also stands before a final line feed. */
  predicate Accepts(parts: seq<Regex>, s: string) {
    MatchesAll(parts, s) || (s != "" && s[|s| - 1] == '\n' && MatchesAll(parts, s[..|s| - 1]))
  }

  // ----- The scanner -----

  const OPT_DIRS: Regex := Opt(Cat(Star(Dot), Chr('/')))

  /** The part the scanner appends for the start of `pat`, and how far it moves. */
  function NextPart(pat: string): (r: (Regex, nat))
    requires pat != ""
    ensures 0 < r.1 <= |pat|
  {
    if |pat| >= 3 && pat[..3] == "**/" then (OPT_DIRS, 3)
    else if |pat| >= 2 && pat[..2] == "**" then (Star(Dot), 2)
    else (CharPart(pat[0]), 1)
  }

  /** The part for a single pattern character. */
  function CharPart(c: char): Regex {
    if c == '*' then Star(NotSlash) else if c == '?' then NotSlash else Chr(c)
  }

  /** All parts of a pattern, left to right. */
  function Scan(pat: string): seq<Regex> {
    if pat == "" then [] else [NextPart(pat).0] + Scan(pat[NextPart(pat).1..])
  }

  /** One turn of the scanner's loop: its tests at index `i` of the whole pattern. */
  lemma ScanStep(pat: string, i: nat, parts: seq<Regex>, part: Regex, w: nat)
    requires i < |pat|
    requires (part, w) ==
             if i + 3 <= |pat| && pat[i..i + 3] == "**/" then (OPT_DIRS, 3)
             else if i + 2 <= |pat| && pat[i..i + 2] == "**" then (Star(Dot), 2)
             else (CharPart(pat[i]), 1)
    ensures i + w <= |pat|
    ensures (parts + [part]) + Scan(pat[i + w..]) == parts + Scan(pat[i..])
  {
    var p := pat[i..];
    assert i + 3 <= |pat| ==> p[..3] == pat[i..i + 3];
    assert i + 2 <= |pat| ==> p[..2] == pat[i..i + 2];
    assert NextPart(p) == (part, w);
    assert p[w..] == pat[i + w..];
    assert Scan(p) == [part] + Scan(pat[i + w..]);
  }

  method GlobToRegex(pat: string) returns (parts: seq<Regex>)
    ensures parts == Scan(pat)
  {
    parts := [];
    var i := 0;
    assert pat[0..] == pat;
    while i < |pat|
      invariant 0 <= i <= |pat|
      invariant parts + Scan(pat[i..]) == Scan(pat)
    {
      if i + 3 <= |pat| && pat[i..i + 3] == "**/" {
        ScanStep(pat, i, parts, OPT_DIRS, 3);
        parts := parts + [OPT_DIRS];
        i := i + 3;
      } else if i + 2 <= |pat| && pat[i..i + 2] == "**" {
        ScanStep(pat, i, parts, Star(Dot), 2);
        parts := parts + [Star(Dot)];
        i := i + 2;
      } else {
        ScanStep(pat, i, parts, CharPart(pat[i]), 1);
        if pat[i] == '*' {
          parts := parts + [Star(NotSlash)];
        } else if pat[i] == '?' {
          parts := parts + [NotSlash];
        } else {
          parts := parts + [Chr(pat[i])];
        }
        i := i + 1;
      }
    }
  }

  // ----- The reference: matching segment by segment -----

  /** `s.split("/")`. */
  function Split(s: string): (r: seq<string>)
    ensures |r| >= 1
    ensures forall i :: 0 <= i < |r| ==> '/' !in r[i]
  {
    if s == "" then [""]
    else
      var rest := Split(s[1..]);
      if s[0] == '/' then [""] + rest else [[s[0]] + rest[0]] + rest[1..]
  }

  function Join(segs: seq<string>): string
    requires |segs| >= 1
  {
    if |segs| == 1 then segs[0] else segs[0] + "/" + Join(segs[1..])
  }

  /** One segment against one pattern segment: `*` is any run, `?` any one character. */
  ghost predicate SegMatch(p: string, s: string) {
    if p == "" then s == ""
    else if p[0] == '*' then
      exists k {:trigger CutPoint(s, k)} :: 0 <= k <= |s| && CutPoint(s, k) && SegMatch(p[1..], s[k..])
    else s != "" && (p[0] == '?' || p[0] == s[0]) && SegMatch(p[1..], s[1..])
  }

  /** The segments `ss` may be crossed by `**` (a line feed is not crossed). */
  predicate Crossable(ss: seq<string>) {
    forall i :: 0 <= i < |ss| ==> '\n' !in ss[i]
  }

  /** A whole `**` segment eats zero or more segments, or one or more when it is last;
      any other segment eats exactly one. */
  ghost predicate MatchSegs(ps: seq<string>, ss: seq<string>) {
    if ps == [] then ss == []
    else if ps == ["**"] then ss != [] && Crossable(ss)
    else if ps[0] == "**" then
      exists k {:trigger CutPoint(ss, k)} ::
        0 <= k <= |ss| && CutPoint(ss, k) && Crossable(ss[..k]) && MatchSegs(ps[1..], ss[k..])
    else ss != [] && SegMatch(ps[0], ss[0]) && MatchSegs(ps[1..], ss[1..])
  }

  /** `**` may eat the first `k` segments. */
  ghost predicate EatAt(ps: seq<string>, ss: seq<string>, k: nat) {
    k <= |ss| && Crossable(ss[..k]) && MatchSegs(ps, ss[k..])
  }

  ghost predicate SegmentsAccept(pat: string, s: string) {
    || MatchSegs(Split(pat), Split(s))
    || (s != "" && s[|s| - 1] == '\n' && MatchSegs(Split(pat), Split(s[..|s| - 1])))
  }

  predicate HasDoubleStar(p: string) {
    |p| > 1 && (p[..2] == "**" || HasDoubleStar(p[1..]))
  }

  /** Every `**` of the pattern is a whole segment. */
  predicate WholeSegments(pat: string) {
    var ps := Split(pat);
    forall i :: 0 <= i < |ps| ==> ps[i] == "**" || !HasDoubleStar(ps[i])
  }

  // ----- The languages of the scanner's parts -----

  lemma {:induction false} StarNotSlash(s: string)
    ensures Matches(Star(NotSlash), s) <==> '/' !in s
  {
    if s != "" {
      StarNotSlash(s[1..]);
      assert s == [s[0]] + s[1..] && s[..1] == [s[0]];
      assert CutPoint(s, 1);
    }
  }

  lemma {:induction false} StarDot(s: string)
    ensures Matches(Star(Dot), s) <==> '\n' !in s
  {
    if s != "" {
      StarDot(s[1..]);
      assert s == [s[0]] + s[1..] && s[..1] == [s[0]];
      assert CutPoint(s, 1);
    }
  }

  /** The part for `**` and its slash matches nothing, or whole leading directories. */
  lemma OptDirs(s: string)
    ensures Matches(OPT_DIRS, s) <==> s == "" || (s[|s| - 1] == '/' && '\n' !in s)
  {
    var body := Cat(Star(Dot), Chr('/'));
    if s != "" {
      var n := |s| - 1;
      StarDot(s[..n]);
      assert s == s[..n] + [s[n]] && s[n..] == [s[n]];
      assert CutPoint(s, n);
      assert forall k :: 0 <= k <= |s| && s[k..] == "/" ==> |s[k..]| == 1 && k == n;
      assert Matches(body, s) <==> s[n] == '/' && '\n' !in s;
    }
  }

  /** A single part in front. */
  lemma MatchesCons(r: Regex, rest: seq<Regex>, s: string)
    ensures MatchesAll([r] + rest, s) <==> exists k: nat :: ConsAt(r, rest, s, k)
  {
    var parts := [r] + rest;
    assert parts[0] == r && parts[1..] == rest;
    if k: nat :| ConsAt(r, rest, s, k) {
      assert CutPoint(s, k);
    }
    if MatchesAll(parts, s) {
      var k :| 0 <= k <= |s| && CutPoint(s, k) && Matches(parts[0], s[..k]) && MatchesAll(parts[1..], s[k..]);
      assert ConsAt(r, rest, s, k);
    }
  }

  /** `s` splits at `k` into a word of `a` and a word of `b`. */
  predicate CutWord(a: seq<Regex>, b: seq<Regex>, s: string, k: nat)
    requires k <= |s|
  {
    MatchesAll(a, s[..k]) && MatchesAll(b, s[k..])
  }

  /** One more part in front of a split word. */
  lemma CutWordCons(r: Regex, a: seq<Regex>, b: seq<Regex>, s: string, j: nat, m: nat)
    requires j + m <= |s| && Matches(r, s[..j]) && CutWord(a, b, s[j..], m)
    ensures CutWord([r] + a, b, s, j + m)
  {
    Cut(s, j, j + m);
    MatchesCons(r, a, s[..j + m]);
    assert ConsAt(r, a, s[..j + m], j);
  }

  lemma {:induction false} MatchesAllCut(a: seq<Regex>, b: seq<Regex>, s: string) returns (k: nat)
    requires MatchesAll(a + b, s)
    ensures k <= |s| && CutWord(a, b, s, k)
  {
    if a == [] {
      k := 0;
      assert a + b == b && s[..0] == "" && s[0..] == s;
    } else {
      assert a + b == [a[0]] + (a[1..] + b) && a == [a[0]] + a[1..];
      MatchesCons(a[0], a[1..] + b, s);
      var j: nat :| ConsAt(a[0], a[1..] + b, s, j);
      var m := MatchesAllCut(a[1..], b, s[j..]);
      CutWordCons(a[0], a[1..], b, s, j, m);
      k := j + m;
    }
  }

  lemma {:induction false} MatchesAllJoin(a: seq<Regex>, b: seq<Regex>, s: string, k: nat)
    requires k <= |s| && CutWord(a, b, s, k)
    ensures MatchesAll(a + b, s)
  {
    if a == [] {
      assert a + b == b && s[k..] == s;
    } else {
      assert a + b == [a[0]] + (a[1..] + b) && a == [a[0]] + a[1..];
      MatchesCons(a[0], a[1..], s[..k]);
      var j: nat :| ConsAt(a[0], a[1..], s[..k], j);
      Cut(s, j, k);
      assert CutWord(a[1..], b, s[j..], k - j);
      MatchesAllJoin(a[1..], b, s[j..], k - j);
      MatchesCons(a[0], a[1..] + b, s);
      assert ConsAt(a[0], a[1..] + b, s, j);
    }
  }

  /** Without `**`, the scanner takes one character, whatever follows the segment. */
  lemma NextInSegment(g: string, after: string)
    requires g != "" && !HasDoubleStar(g)
    requires after == "" || after[0] == '/'
    ensures NextPart(g + after) == (CharPart(g[0]), 1)
    ensures Scan(g + after) == [CharPart(g[0])] + Scan(g[1..] + after)
  {
    var pat := g + after;
    if |g| > 1 {
      assert pat[..2] == g[..2];
    } else {
      assert |pat| > 1 ==> pat[..2][1] == '/';
    }
    assert |pat| > 2 ==> pat[..3][..2] == pat[..2];
    assert pat[1..] == g[1..] + after;
  }

  /** Inside one segment the scanner's parts mean what the segment means, and never cross `/`. */
  lemma {:induction false} SegmentLanguage(g: string, s: string)
    requires '/' !in g && !HasDoubleStar(g)
    ensures MatchesAll(Scan(g), s) <==> '/' !in s && SegMatch(g, s)
    decreases |g|, 1
  {
    if g != "" {
      NextInSegment(g, "");
      assert g + "" == g && g[1..] + "" == g[1..];
      MatchesCons(CharPart(g[0]), Scan(g[1..]), s);
      if g[0] == '*' {
        forall k | 0 <= k <= |s|
          ensures ConsAt(Star(NotSlash), Scan(g[1..]), s, k) <==> '/' !in s && SegMatch(g[1..], s[k..])
        {
          StarNotSlash(s[..k]);
          SegmentLanguage(g[1..], s[k..]);
          assert s == s[..k] + s[k..];
        }
        if k: nat :| ConsAt(Star(NotSlash), Scan(g[1..]), s, k) {
          assert CutPoint(s, k);
        }
      } else {
        SegmentChar(g, s);
      }
    }
  }

  lemma SegmentChar(g: string, s: string)
    requires '/' !in g && !HasDoubleStar(g) && g != "" && g[0] != '*'
    ensures (exists k: nat :: ConsAt(CharPart(g[0]), Scan(g[1..]), s, k)) <==> '/' !in s && SegMatch(g, s)
    decreases |g|, 0
  {
    var r := CharPart(g[0]);
    if s != "" {
      SegmentLanguage(g[1..], s[1..]);
      assert s == s[..1] + s[1..] && s[..1] == [s[0]];
      assert ConsAt(r, Scan(g[1..]), s, 1) <==> '/' !in s && SegMatch(g, s);
    }
    if k: nat :| ConsAt(r, Scan(g[1..]), s, k) {
      assert |s[..k]| == 1;
    }
  }

  // ----- Splitting -----

  lemma {:induction false} SplitNoSlash(s: string)
    requires '/' !in s
    ensures Split(s) == [s]
  {
    if s != "" {
      SplitNoSlash(s[1..]);
      assert [s[0]] + s[1..] == s;
    }
  }

  /** The first slash ends the first segment. */
  lemma {:induction false} SplitAt(s: string, k: nat)
    requires k < |s| && s[k] == '/' && '/' !in s[..k]
    ensures Split(s) == [s[..k]] + Split(s[k + 1..])
  {
    if k > 0 {
      assert s[0] == s[..k][0] != '/';
      assert s[1..][..k - 1] == s[..k][1..];
      SplitAt(s[1..], k - 1);
      assert s[1..][k..] == s[k + 1..];
      assert [s[0]] + s[..k][1..] == s[..k];
    }
  }

  /** A pattern is its first segment, alone or followed by a slash and more. */
  lemma SplitCases(pat: string) returns (k: nat)
    ensures k <= |pat| && '/' !in pat[..k] && (k < |pat| ==> pat[k] == '/')
    ensures k == |pat| ==> Split(pat) == [pat]
    ensures k < |pat| ==> Split(pat) == [pat[..k]] + Split(pat[k + 1..])
  {
    if '/' !in pat {
      k := |pat|;
      assert pat[..k] == pat;
      SplitNoSlash(pat);
    } else {
      var m :| 0 <= m < |pat| && pat[m] == '/';
      k := FirstSlash(pat, m + 1);
      SplitAt(pat, k);
    }
  }

  /** Crossing a segment and a slash, then more. */
  lemma CrossCons(a: string, b: string, segs: seq<string>)
    ensures Crossable([a] + segs) <==> '\n' !in a && Crossable(segs)
    ensures '\n' !in a + "/" + b <==> '\n' !in a && '\n' !in b
  {
    assert ([a] + segs)[0] == a && ([a] + segs)[1..] == segs;
    forall i | 0 <= i < |segs| ensures ([a] + segs)[i + 1] == segs[i] {}
    if Crossable([a] + segs) {
      forall i | 0 <= i < |segs| ensures '\n' !in segs[i] { assert '\n' !in ([a] + segs)[i + 1]; }
    }
  }

  lemma {:induction false} FirstSlash(s: string, k: nat) returns (c: nat)
    requires 0 < k <= |s| && s[k - 1] == '/'
    ensures c < k && s[c] == '/' && '/' !in s[..c]
  {
    if s[0] == '/' {
      c := 0;
    } else {
      c := FirstSlash(s[1..], k - 1);
      c := c + 1;
      assert s[..c] == [s[0]] + s[1..][..c - 1];
    }
  }

  /** `k` characters of `s` are `j` whole segments with their slashes. */
  ghost predicate CutAt(s: string, k: nat, j: nat) {
    && k <= |s| && j <= |Split(s)|
    && Split(s)[j..] == Split(s[k..])
    && ('\n' !in s[..k] <==> Crossable(Split(s)[..j]))
  }

  /** One more segment in front of a cut. */
  lemma CutAfter(s: string, c: nat, k: nat, j: nat)
    requires c < |s| && s[c] == '/' && '/' !in s[..c] && CutAt(s[c + 1..], k, j)
    ensures CutAt(s, c + 1 + k, j + 1)
  {
    SplitAt(s, c);
    ConsSlices(s[..c], Split(s[c + 1..]), j);
    SlashSlices(s, c, k);
    CrossCons(s[..c], s[c + 1..][..k], Split(s[c + 1..])[..j]);
  }

  lemma ConsSlices(g: string, tail: seq<string>, j: nat)
    requires j <= |tail|
    ensures ([g] + tail)[j + 1..] == tail[j..] && ([g] + tail)[..j + 1] == [g] + tail[..j]
  {
  }

  lemma SlashSlices(s: string, c: nat, k: nat)
    requires c < |s| && s[c] == '/' && k <= |s[c + 1..]|
    ensures s[..c + 1 + k] == s[..c] + "/" + s[c + 1..][..k]
    ensures s[c + 1 + k..] == s[c + 1..][k..]
  {
  }

  lemma NoCut(s: string)
    ensures CutAt(s, 0, 0)
  {
    assert s[0..] == s && Split(s)[0..] == Split(s);
  }

  /** Cutting just after a slash drops whole segments. */
  lemma {:induction false} SplitCut(s: string, k: nat) returns (j: nat)
    requires 0 < k <= |s| && s[k - 1] == '/'
    ensures 0 < j && CutAt(s, k, j)
  {
    var c := FirstSlash(s, k);
    var rest := s[c + 1..];
    j := 0;
    if c + 1 == k {
      NoCut(rest);
    } else {
      j := SplitCut(rest, k - c - 1);
    }
    CutAfter(s, c, k - c - 1, j);
    j := j + 1;
  }

  /** Every proper number of leading segments ends just after a slash. */
  lemma {:induction false} SplitUncut(s: string, j: nat) returns (k: nat)
    requires 0 < j < |Split(s)|
    ensures 0 < k <= |s| && s[k - 1] == '/' && CutAt(s, k, j)
  {
    var c := SplitCases(s);
    var rest := s[c + 1..];
    if j == 1 {
      NoCut(rest);
      CutAfter(s, c, 0, 0);
      k := c + 1;
    } else {
      var m := SplitUncut(rest, j - 1);
      CutAfter(s, c, m, j - 1);
      k := c + 1 + m;
      assert s[k - 1] == rest[m - 1];
    }
  }

  lemma {:induction false} SplitCrossable(s: string)
    ensures '\n' !in s <==> Crossable(Split(s))
  {
    if s != "" {
      SplitCrossable(s[1..]);
      var rest := Split(s[1..]);
      assert s == [s[0]] + s[1..];
      if s[0] == '/' {
        assert Split(s)[1..] == rest;
      } else {
        assert Split(s)[0] == [s[0]] + rest[0];
        assert Split(s)[1..] == rest[1..];
        if Crossable(Split(s)) {
          forall i | 0 <= i < |rest| ensures '\n' !in rest[i] {
            assert '\n' !in Split(s)[i];
            assert i == 0 ==> forall x :: x in rest[0] ==> x in Split(s)[0];
          }
        }
      }
    }
  }

  lemma {:induction false} SplitJoin(s: string)
    ensures Join(Split(s)) == s
  {
    if s != "" {
      SplitJoin(s[1..]);
      var rest := Split(s[1..]);
      if s[0] == '/' {
        assert ([""] + rest)[1..] == rest;
        assert "" + "/" + s[1..] == s;
      } else {
        var r := [[s[0]] + rest[0]] + rest[1..];
        assert r[1..] == rest[1..];
        if |rest| == 1 {
          assert [s[0]] + s[1..] == s;
        } else {
          assert Join(r) == ([s[0]] + rest[0]) + "/" + Join(rest[1..]);
          assert s == [s[0]] + s[1..];
        }
      }
    }
  }

  lemma ScanSlash(rest: string)
    ensures Scan("/" + rest) == [Chr('/')] + Scan(rest)
  {
    var after := "/" + rest;
    assert after[0] == '/' && after[1..] == rest;
    assert |after| > 1 ==> after[..2][0] == '/';
    assert |after| > 2 ==> after[..3][0] == '/';
    assert NextPart(after) == (Chr('/'), 1);
  }

  /** Scanning an ordinary segment stops at the slash after it. */
  lemma {:induction false} ScanSegment(g: string, rest: string)
    requires '/' !in g && !HasDoubleStar(g)
    ensures Scan(g + ("/" + rest)) == Scan(g) + ([Chr('/')] + Scan(rest))
  {
    var after := "/" + rest;
    if g == "" {
      ScanSlash(rest);
      assert g + after == after;
    } else {
      NextInSegment(g, after);
      NextInSegment(g, "");
      assert g + "" == g && g[1..] + "" == g[1..];
      ScanSegment(g[1..], rest);
      Regroup(CharPart(g[0]), Scan(g[1..]), [Chr('/')] + Scan(rest));
    }
  }

  lemma Regroup(r: Regex, a: seq<Regex>, b: seq<Regex>)
    ensures [r] + (a + b) == ([r] + a) + b
  {
  }

  // ----- The refinement, by the first segment of the pattern -----

  /** Only an empty pattern accepts no segments at all. */
  lemma {:induction false} SegmentsNeeded(ps: seq<string>, ss: seq<string>)
    requires ps != [] && MatchSegs(ps, ss)
    ensures ss != []
  {
    if ps[0] == "**" && |ps| > 1 {
      var k :| 0 <= k <= |ss| && CutPoint(ss, k) && Crossable(ss[..k]) && MatchSegs(ps[1..], ss[k..]);
      SegmentsNeeded(ps[1..], ss[k..]);
    }
  }

  lemma LastDoubleStar(s: string)
    ensures MatchesAll([Star(Dot)], s) <==> Crossable(Split(s))
  {
    var none: seq<Regex> := [];
    assert [Star(Dot)] == [Star(Dot)] + none;
    MatchesCons(Star(Dot), none, s);
    SplitCrossable(s);
    StarDot(s);
    assert s[..|s|] == s && s[|s|..] == "";
    assert ConsAt(Star(Dot), none, s, |s|) <==> '\n' !in s;
    if k: nat :| ConsAt(Star(Dot), none, s, k) {
      assert |s[k..]| == 0;
    }
  }

  lemma LastSegment(g: string, s: string)
    requires '/' !in g && g != "**"
    ensures MatchSegs([g], Split(s)) <==> '/' !in s && SegMatch(g, s)
  {
    var k := SplitCases(s);
    if k < |s| {
      assert |Split(s)[1..]| >= 1;
    } else {
      assert s[..k] == s;
    }
  }

  /** The words of the scanned expression are exactly the paths the segments accept. */
  lemma {:induction false} WordRefinement(pat: string, s: string)
    requires WholeSegments(pat)
    ensures MatchesAll(Scan(pat), s) <==> MatchSegs(Split(pat), Split(s))
    decreases |pat|, 0
  {
    var k := SplitCases(pat);
    var ps := Split(pat);
    if k == |pat| {
      assert ps[0] == pat;
      if pat == "**" {
        assert Scan(pat) == [Star(Dot)];
        LastDoubleStar(s);
      } else {
        SegmentLanguage(pat, s);
        LastSegment(pat, s);
      }
    } else {
      var g, pat' := pat[..k], pat[k + 1..];
      assert pat == g + ("/" + pat');
      assert ps[0] == g && ps[1..] == Split(pat');
      assert forall i :: 0 <= i < |Split(pat')| ==> ps[i + 1] == Split(pat')[i];
      if g == "**" {
        assert pat[..3] == "**/" && pat[3..] == pat';
        DirsSound(pat', s);
        DirsComplete(pat', s);
        Eats(ps, Split(s));
      } else {
        ScanSegment(g, pat');
        SegmentSound(g, pat', s);
        SegmentComplete(g, pat', s);
        assert ps == [g] + Split(pat');
      }
    }
  }

  lemma Eats(ps: seq<string>, ss: seq<string>)
    requires |ps| > 1 && ps[0] == "**"
    ensures MatchSegs(ps, ss) <==> exists k: nat :: EatAt(ps[1..], ss, k)
  {
    if k: nat :| EatAt(ps[1..], ss, k) {
      assert CutPoint(ss, k);
    }
    if MatchSegs(ps, ss) {
      var k :| 0 <= k <= |ss| && CutPoint(ss, k) && Crossable(ss[..k]) && MatchSegs(ps[1..], ss[k..]);
      assert EatAt(ps[1..], ss, k);
    }
  }

  /** `**` and a slash, then more: every word is a split after some directories. */
  lemma DirsSound(rest: string, s: string)
    requires WholeSegments(rest)
    ensures MatchesAll([OPT_DIRS] + Scan(rest), s) ==>
            exists j: nat :: EatAt(Split(rest), Split(s), j)
    decreases |rest|, 1
  {
    MatchesCons(OPT_DIRS, Scan(rest), s);
    if k: nat :| ConsAt(OPT_DIRS, Scan(rest), s, k) {
      OptDirs(s[..k]);
      WordRefinement(rest, s[k..]);
      var j := 0;
      if k > 0 {
        j := SplitCut(s, k);
      } else {
        NoCut(s);
      }
      assert EatAt(Split(rest), Split(s), j);
    }
  }

  lemma DirsComplete(rest: string, s: string)
    requires WholeSegments(rest)
    ensures (exists j: nat :: EatAt(Split(rest), Split(s), j)) ==> MatchesAll([OPT_DIRS] + Scan(rest), s)
    decreases |rest|, 1
  {
    if j: nat :| EatAt(Split(rest), Split(s), j) {
      SegmentsNeeded(Split(rest), Split(s)[j..]);
      var k := DirsBefore(s, j);
      WordRefinement(rest, s[k..]);
      assert ConsAt(OPT_DIRS, Scan(rest), s, k);
      MatchesCons(OPT_DIRS, Scan(rest), s);
    }
  }

  /** The directories that make up the first `j` segments. */
  lemma DirsBefore(s: string, j: nat) returns (k: nat)
    requires j < |Split(s)| && Crossable(Split(s)[..j])
    ensures CutAt(s, k, j) && Matches(OPT_DIRS, s[..k])
  {
    k := 0;
    if j > 0 {
      k := SplitUncut(s, j);
    } else {
      NoCut(s);
    }
    OptDirs(s[..k]);
  }

  /** An ordinary segment and a slash, then more. */
  lemma SegmentSound(g: string, rest: string, s: string)
    requires '/' !in g && !HasDoubleStar(g) && g != "**" && WholeSegments(rest)
    ensures MatchesAll(Scan(g) + ([Chr('/')] + Scan(rest)), s) ==> MatchSegs([g] + Split(rest), Split(s))
    decreases |rest|, 1
  {
    var tail := [Chr('/')] + Scan(rest);
    if MatchesAll(Scan(g) + tail, s) {
      var k := MatchesAllCut(Scan(g), tail, s);
      SegmentLanguage(g, s[..k]);
      MatchesCons(Chr('/'), Scan(rest), s[k..]);
      var m: nat :| ConsAt(Chr('/'), Scan(rest), s[k..], m);
      assert s[k..][..m] == "/";
      assert m == 1 && s[k] == s[k..][..m][0];
      assert s[k..][1..] == s[k + 1..];
      SplitAt(s, k);
      WordRefinement(rest, s[k + 1..]);
      assert Split(s)[1..] == Split(s[k + 1..]);
      assert ([g] + Split(rest))[1..] == Split(rest);
    }
  }

  lemma SegmentComplete(g: string, rest: string, s: string)
    requires '/' !in g && !HasDoubleStar(g) && g != "**" && WholeSegments(rest)
    ensures MatchSegs([g] + Split(rest), Split(s)) ==> MatchesAll(Scan(g) + ([Chr('/')] + Scan(rest)), s)
    decreases |rest|, 1
  {
    var tail := [Chr('/')] + Scan(rest);
    if MatchSegs([g] + Split(rest), Split(s)) {
      assert ([g] + Split(rest))[1..] == Split(rest);
      SegmentsNeeded(Split(rest), Split(s)[1..]);
      var c := SplitCases(s);
      assert Split(s)[0] == s[..c] && Split(s)[1..] == Split(s[c + 1..]);
      WordRefinement(rest, s[c + 1..]);
      SegmentLanguage(g, s[..c]);
      MatchesCons(Chr('/'), Scan(rest), s[c..]);
      assert s[c..][..1] == "/" && s[c..][1..] == s[c + 1..];
      assert ConsAt(Chr('/'), Scan(rest), s[c..], 1);
      MatchesAllJoin(Scan(g), tail, s, c);
    }
  }

  /** The anchored expression accepts exactly what the segment-wise matcher accepts,
      for every pattern whose `**` are whole segments and every path. */
  lemma GlobRefinement(pat: string, s: string)
    requires WholeSegments(pat)
    ensures Accepts(Scan(pat), s) <==> SegmentsAccept(pat, s)
    ensures '\n' !in s ==> (Accepts(Scan(pat), s) <==> MatchSegs(Split(pat), Split(s)))
  {
    WordRefinement(pat, s);
    if s != "" {
      WordRefinement(pat, s[..|s| - 1]);
    }
  }

  // ----- Matching a path -----

  /** The repo-relative POSIX form both arguments are brought to. */
  function Normal(p: string): string {
    ReplaceChar(TrimChar(p, '/'), '\\', '/')
  }

  predicate AllOf(s: string, c: char) {
    forall i :: 0 <= i < |s| ==> s[i] == c
  }

  lemma WrapFront(c: char, a: string, t: string, b: string)
    requires AllOf(a, c)
    ensures [c] + (a + (t + b)) == ([c] + a) + (t + b) && AllOf([c] + a, c)
  {
  }

  lemma WrapBack(c: char, a: string, t: string, b: string)
    requires AllOf(b, c)
    ensures (a + (t + b)) + [c] == a + (t + (b + [c])) && AllOf(b + [c], c)
  {
  }

  lemma {:induction false} TrimParts(s: string, c: char) returns (a: string, b: string)
    ensures s == a + (TrimChar(s, c) + b) && AllOf(a, c) && AllOf(b, c)
  {
    a, b := "", "";
    if s != "" && s[0] == c {
      a, b := TrimParts(s[1..], c);
      WrapFront(c, a, TrimChar(s, c), b);
      a := [c] + a;
      assert s == [c] + s[1..];
    } else if s != "" && s[|s| - 1] == c {
      a, b := TrimParts(s[..|s| - 1], c);
      WrapBack(c, a, TrimChar(s, c), b);
      b := b + [c];
      assert s == s[..|s| - 1] + [c];
    }
  }

  lemma {:induction false} TrimOf(a: string, t: string, b: string, c: char)
    requires AllOf(a, c) && AllOf(b, c) && (t != "" ==> t[0] != c && t[|t| - 1] != c)
    ensures TrimChar(a + (t + b), c) == t
    decreases |a| + |b|
  {
    var s := a + (t + b);
    if a != "" {
      assert s[1..] == a[1..] + (t + b);
      TrimOf(a[1..], t, b, c);
    } else if b != "" {
      var b' := b[..|b| - 1];
      if t == "" {
        assert s == b && s[1..] == "" + ("" + b[1..]);
        TrimOf("", "", b[1..], c);
      } else {
        assert s[0] == t[0] && s[..|s| - 1] == "" + (t + b');
        TrimOf("", t, b', c);
      }
    } else {
      assert s == t;
    }
  }

  /** Slashes around an argument do not matter. */
  lemma OuterSlashes(p: string)
    ensures Normal("/" + p) == Normal(p) == Normal(p + "/")
  {
    var a, b := TrimParts(p, '/');
    var t := TrimChar(p, '/');
    TrimOf("/" + a, t, b, '/');
    TrimOf(a, t, b + "/", '/');
    assert "/" + p == ("/" + a) + (t + b) && p + "/" == a + (t + (b + "/"));
  }

  predicate BackslashEnds(t: string) {
    t != "" && (t[0] == '\\' || t[|t| - 1] == '\\')
  }

  lemma ReplacedBetween(a: string, t: string, b: string)
    requires AllOf(a, '/') && AllOf(b, '/')
    ensures ReplaceChar(a + (t + b), '\\', '/') == a + (ReplaceChar(t, '\\', '/') + b)
  {
  }

  lemma ReplacedOnce(s: string)
    ensures ReplaceChar(ReplaceChar(s, '\\', '/'), '\\', '/') == ReplaceChar(s, '\\', '/')
  {
  }

  lemma InnerBackslashes(p: string)
    requires !BackslashEnds(TrimChar(p, '/'))
    ensures Normal(ReplaceChar(p, '\\', '/')) == Normal(p)
  {
    var a, b := TrimParts(p, '/');
    var t := TrimChar(p, '/');
    ReplacedBetween(a, t, b);
    TrimOf(a, ReplaceChar(t, '\\', '/'), b, '/');
    ReplacedOnce(t);
  }

  /** What is trimmed of a text without backslashes has none either. */
  lemma TrimmedClean(q: string)
    requires '\\' !in q
    ensures Normal(q) == TrimChar(q, '/')
  {
    var v := TrimChar(q, '/');
    var x, y := TrimParts(q, '/');
    assert forall i :: 0 <= i < |v| ==> v[i] == q[|x| + i];
  }

  lemma OuterBackslashes(p: string)
    requires BackslashEnds(TrimChar(p, '/'))
    ensures Normal(ReplaceChar(p, '\\', '/')) != Normal(p)
  {
    TrimmedClean(ReplaceChar(p, '\\', '/'));
  }

  /** A backslash reads as a slash, exactly where none is left at either end once the outer slashes are off. */
  lemma Backslashes(p: string)
    ensures Normal(ReplaceChar(p, '\\', '/')) == Normal(p) <==> !BackslashEnds(TrimChar(p, '/'))
  {
    if BackslashEnds(TrimChar(p, '/')) {
      OuterBackslashes(p);
    } else {
      InnerBackslashes(p);
    }
  }

  predicate Bare(pat: string) {
    '*' !in pat && '?' !in pat
  }

  predicate PathMatches(path: string, pattern: string) {
    var norm, pat := Normal(path), Normal(pattern);
    && pat != ""
    && if Bare(pat) then norm == pat || pat + "/" <= norm else Accepts(Scan(pat), norm)
  }

  /** So `path_matches` is the same under slashes around the path or the pattern. */
  lemma SlashesIgnored(path: string, pattern: string)
    ensures PathMatches("/" + path, pattern) == PathMatches(path + "/", pattern) == PathMatches(path, pattern)
    ensures PathMatches(path, "/" + pattern) == PathMatches(path, pattern + "/") == PathMatches(path, pattern)
  {
    OuterSlashes(path);
    OuterSlashes(pattern);
  }

  /** Ownership decided on segments alone, with no expression and no text prefix. */
  ghost predicate Owns(pattern: string, path: string) {
    var norm, pat := Normal(path), Normal(pattern);
    && pat != ""
    && if Bare(pat) then Split(pat) <= Split(norm) else SegmentsAccept(pat, norm)
  }

  lemma PathMatchesOwns(path: string, pattern: string)
    requires WholeSegments(Normal(pattern))
    ensures PathMatches(path, pattern) <==> Owns(pattern, path)
  {
    var norm, pat := Normal(path), Normal(pattern);
    if Bare(pat) {
      PrefixSegments(pat, norm);
    } else {
      GlobRefinement(pat, norm);
    }
  }

  /** A text prefix ending at a slash is a prefix of segments. */
  lemma {:induction false} PrefixSegments(a: string, s: string)
    ensures (s == a || a + "/" <= s) <==> Split(a) <= Split(s)
  {
    var j := |Split(a)|;
    if Split(a) <= Split(s) {
      if j == |Split(s)| {
        assert Split(a) == Split(s);
        SplitJoin(a);
        SplitJoin(s);
      } else {
        var k := SplitUncut(s, j);
        SplitConcat(s[..k - 1], s[k..]);
        assert s == s[..k - 1] + "/" + s[k..];
        assert Split(s)[j..] == Split(s[k..]);
        assert Split(s) == Split(s)[..j] + Split(s)[j..];
        assert |Split(s[..k - 1])| == j;
        assert Split(s[..k - 1]) == Split(s)[..j] == Split(a);
        SplitJoin(a);
        SplitJoin(s[..k - 1]);
      }
    }
    if a + "/" <= s {
      assert s == a + "/" + s[|a| + 1..];
      SplitConcat(a, s[|a| + 1..]);
    }
  }

  lemma {:induction false} SplitConcat(a: string, b: string)
    ensures Split(a + "/" + b) == Split(a) + Split(b)
    decreases |a|
  {
    var s := a + "/" + b;
    var k := SplitCases(a);
    assert s[..k] == a[..k] && s[k] == '/';
    SplitAt(s, k);
    if k == |a| {
      assert s[k + 1..] == b && a[..k] == a;
    } else {
      assert s[k + 1..] == a[k + 1..] + "/" + b;
      SplitConcat(a[k + 1..], b);
    }
  }

  // ----- What the documentation says follows -----

  lemma {:induction false} BareSegMatch(p: string, s: string)
    requires Bare(p)
    ensures SegMatch(p, s) <==> p == s
  {
    if p != "" && s != "" {
      BareSegMatch(p[1..], s[1..]);
      assert p == [p[0]] + p[1..] && s == [s[0]] + s[1..];
    }
  }

  /** Without wildcards, segments match only themselves. */
  lemma {:induction false} BareSegments(ps: seq<string>, qs: seq<string>, ss: seq<string>)
    requires forall i :: 0 <= i < |ps| ==> Bare(ps[i])
    ensures MatchSegs(ps + qs, ss) <==> ps <= ss && MatchSegs(qs, ss[|ps|..])
    decreases |ps|
  {
    if ps == [] {
      assert ps + qs == qs && ss[0..] == ss;
    } else {
      assert ps[0] != "**" by { assert '*' in "**" by { assert "**"[0] == '*'; } }
      assert (ps + qs)[1..] == ps[1..] + qs;
      if ss != [] {
        BareSegMatch(ps[0], ss[0]);
        BareSegments(ps[1..], qs, ss[1..]);
        assert ss == [ss[0]] + ss[1..] && ps == [ps[0]] + ps[1..];
        assert ps <= ss ==> ss[1..][|ps| - 1..] == ss[|ps|..];
      }
    }
  }

  lemma {:induction false} BareSplit(pat: string)
    requires Bare(pat)
    ensures forall i :: 0 <= i < |Split(pat)| ==> Bare(Split(pat)[i])
    ensures forall i :: 0 <= i < |Split(pat)| ==> !HasDoubleStar(Split(pat)[i])
  {
    if pat != "" {
      BareSplit(pat[1..]);
      BareNoStar(Split(pat)[0]);
    }
  }

  lemma {:induction false} BareNoStar(g: string)
    ensures Bare(g) ==> !HasDoubleStar(g)
  {
    if |g| > 1 {
      BareNoStar(g[1..]);
      assert g[..2] == "**" ==> g[0] == g[..2][0];
    }
  }

  /** No line feed but a final one. */
  predicate OneLine(s: string) {
    s == "" || '\n' !in s[..|s| - 1]
  }

  lemma StarsMatch(ss: seq<string>)
    ensures MatchSegs(["**"], ss) <==> ss != [] && Crossable(ss)
  {
  }

  lemma SubtreeTail(name: string, s: string)
    requires name + "/" <= s
    ensures Split(name) <= Split(s) && Split(s)[|Split(name)|..] == Split(s[|name| + 1..])
  {
    assert s == name + "/" + s[|name| + 1..];
    SplitConcat(name, s[|name| + 1..]);
  }

  lemma NoSubtree(name: string, s: string)
    requires !(name + "/" <= s) && Split(name) <= Split(s)
    ensures Split(s)[|Split(name)|..] == []
  {
    PrefixSegments(name, s);
  }

  lemma SubtreeSegments(name: string, s: string)
    requires Bare(name)
    ensures MatchSegs(Split(name) + ["**"], Split(s)) <==> name + "/" <= s && '\n' !in s[|name| + 1..]
  {
    BareSplit(name);
    BareSegments(Split(name), ["**"], Split(s));
    if name + "/" <= s {
      SubtreeTail(name, s);
      StarsMatch(Split(s[|name| + 1..]));
      SplitCrossable(s[|name| + 1..]);
    } else if Split(name) <= Split(s) {
      NoSubtree(name, s);
      StarsMatch([]);
    }
  }

  lemma SubtreeWhole(name: string)
    requires Bare(name)
    ensures WholeSegments(name + "/**") && Split(name + "/**") == Split(name) + ["**"]
  {
    var dirs := name + "/**";
    assert dirs == name + "/" + "**";
    SplitConcat(name, "**");
    SplitNoSlash("**");
    BareSplit(name);
    assert forall i :: 0 <= i < |Split(dirs)| - 1 ==> Split(dirs)[i] == Split(name)[i];
  }

  lemma SubtreeAccepts(name: string, s: string)
    requires Bare(name)
    ensures Accepts(Scan(name + "/**"), s) <==> name + "/" <= s && OneLine(s[|name| + 1..])
  {
    SubtreeWhole(name);
    GlobRefinement(name + "/**", s);
    SubtreeSegments(name, s);
    if s != "" && s[|s| - 1] == '\n' {
      SubtreeSegments(name, s[..|s| - 1]);
    }
    SubtreeCut(name, s);
  }

  lemma SubtreeCut(name: string, s: string)
    ensures name + "/" <= s && OneLine(s[|name| + 1..]) <==>
            (name + "/" <= s && '\n' !in s[|name| + 1..]) ||
            (s != "" && s[|s| - 1] == '\n' && name + "/" <= s[..|s| - 1] && '\n' !in s[..|s| - 1][|name| + 1..])
  {
    if name + "/" <= s {
      var rest := s[|name| + 1..];
      assert s == (name + "/") + rest;
      if rest == "" {
        assert s[|s| - 1] == '/';
      } else {
        var init := rest[..|rest| - 1];
        assert rest == init + [s[|s| - 1]];
        assert s[..|s| - 1] == (name + "/") + init;
        assert s[..|s| - 1][|name| + 1..] == init;
      }
    } else if s != "" {
      assert s == s[..|s| - 1] + [s[|s| - 1]];
    }
  }

  /** A bare directory means itself and its subtree. The subtree pattern leaves out the directory
      itself, and the paths below it with a line feed before their end. */
  lemma BareNameIsSubtree(path: string, name: string)
    requires Normal(name) == name != "" && Bare(name)
    ensures PathMatches(path, name + "/**") <==>
            PathMatches(path, name) && Normal(path) != name && OneLine(Normal(path)[|name| + 1..])
  {
    var dirs := name + "/**";
    NormalSubtree(name);
    assert '*' in dirs by { assert dirs[|dirs| - 1] == '*'; }
    SubtreeAccepts(name, Normal(path));
    assert name + "/" <= Normal(path) ==> |Normal(path)| > |name|;
  }

  lemma NormalSubtree(name: string)
    requires Normal(name) == name != ""
    ensures Normal(name + "/**") == name + "/**"
  {
    var t := TrimChar(name, '/');
    assert |t| == |name|;
    assert name[0] == t[0] || t[0] == '\\';
    TrimShorter(name, '/');
    assert t == name;
    assert forall i :: 0 <= i < |name| ==> name[i] != '\\';
    var dirs := name + "/**";
    assert dirs[0] == name[0] && dirs[|dirs| - 1] == '*';
  }

  lemma {:induction false} TrimShorter(s: string, c: char)
    ensures |TrimChar(s, c)| == |s| ==> TrimChar(s, c) == s
  {
  }

  /** One segment for each slash, and one more. */
  lemma {:induction false} SplitCount(s: string)
    ensures |Split(s)| == 1 + multiset(s)['/']
  {
    if s != "" {
      SplitCount(s[1..]);
      assert s == [s[0]] + s[1..];
      assert multiset(s) == multiset{s[0]} + multiset(s[1..]);
    }
  }

  lemma {:induction false} NoStarSplit(pat: string)
    requires !HasDoubleStar(pat)
    ensures forall i :: 0 <= i < |Split(pat)| ==> !HasDoubleStar(Split(pat)[i])
  {
    if pat != "" {
      assert |pat| == 1 ==> pat[1..] == "";
      NoStarSplit(pat[1..]);
      var rest := Split(pat[1..]);
      if pat[0] != '/' {
        var g := [pat[0]] + rest[0];
        assert g[1..] == rest[0];
        SplitStart(pat[1..]);
        assert |g| > 1 ==> g[..2] == pat[..2];
      }
    }
  }

  lemma {:induction false} SplitStart(s: string)
    ensures Split(s)[0] != "" ==> s != "" && s[0] == Split(s)[0][0]
  {
  }

  lemma {:induction false} SameLength(ps: seq<string>, ss: seq<string>)
    requires forall i :: 0 <= i < |ps| ==> !HasDoubleStar(ps[i])
    requires MatchSegs(ps, ss)
    ensures |ps| == |ss|
  {
    if ps != [] {
      assert ps[0] != "**" by { assert "**"[..2] == "**"; }
      SameLength(ps[1..], ss[1..]);
    }
  }

  lemma SameSlashes(pat: string, s: string)
    requires !HasDoubleStar(pat) && MatchSegs(Split(pat), Split(s))
    ensures multiset(s)['/'] == multiset(pat)['/']
  {
    NoStarSplit(pat);
    SameLength(Split(pat), Split(s));
    SplitCount(pat);
    SplitCount(s);
  }

  /** Only `**` crosses a slash: another wildcard pattern matches at its own depth alone. */
  lemma OnlyDoubleStarCrosses(path: string, pattern: string)
    requires !HasDoubleStar(Normal(pattern)) && !Bare(Normal(pattern))
    requires PathMatches(path, pattern)
    ensures multiset(Normal(path))['/'] == multiset(Normal(pattern))['/']
  {
    var norm, pat := Normal(path), Normal(pattern);
    NoStarSplit(pat);
    GlobRefinement(pat, norm);
    if MatchSegs(Split(pat), Split(norm)) {
      SameSlashes(pat, norm);
    } else {
      var cut := norm[..|norm| - 1];
      SameSlashes(pat, cut);
      assert norm == cut + ['\n'];
    }
  }

  /** A wildcard pattern accepts a path with a line feed behind it. */
  lemma FinalLineFeed()
    ensures PathMatches("a\n", "?") && !MatchSegs(Split("?"), Split("a\n"))
  {
    assert Normal("a\n") == "a\n" && Normal("?") == "?";
    var end: seq<Regex> := [];
    assert "?"[1..] == "";
    assert Scan("?") == [NotSlash] + end;
    MatchesCons(NotSlash, end, "a");
    assert "a"[..1] == "a" && "a"[1..] == "";
    assert ConsAt(NotSlash, end, "a", 1);
    assert "a\n"[..1] == "a";
    SplitNoSlash("?");
    SplitNoSlash("a\n");
    assert "a\n"[1..] == "\n";
    assert !SegMatch("", "\n");
  }

  /** `**` inside a segment crosses slashes all the same, which the reading by segments does not say. */
  lemma DoubleStarInsideSegment()
    ensures PathMatches("a/b", "a**b") && !Owns("a**b", "a/b")
  {
    assert Normal("a**b") == "a**b" && Normal("a/b") == "a/b";
    assert "a**b"[1] == '*';
    ScanInside();
    WordInside();
    SegmentsApart();
  }

  lemma SegmentsApart()
    ensures !SegmentsAccept("a**b", "a/b")
  {
    var pat, s := "a**b", "a/b";
    SplitNoSlash(pat);
    SplitAt(s, 1);
    assert |Split(s)| > 1;
    assert pat[..2] != "**";
    var ps := Split(pat);
    assert |ps[1..]| == 0;
    assert s[2] != '\n';
  }

  lemma WordInside()
    ensures MatchesAll([Chr('a')] + ([Star(Dot)] + ([Chr('b')] + [])), "a/b")
  {
    var end: seq<Regex> := [];
    StarDot("/");
    MatchesCons(Chr('b'), end, "b");
    assert "b"[..1] == "b" && "b"[1..] == "";
    assert ConsAt(Chr('b'), end, "b", 1);
    MatchesCons(Star(Dot), [Chr('b')] + end, "/b");
    assert "/b"[..1] == "/" && "/b"[1..] == "b";
    assert ConsAt(Star(Dot), [Chr('b')] + end, "/b", 1);
    MatchesCons(Chr('a'), [Star(Dot)] + ([Chr('b')] + end), "a/b");
    assert "a/b"[..1] == "a" && "a/b"[1..] == "/b";
    assert ConsAt(Chr('a'), [Star(Dot)] + ([Chr('b')] + end), "a/b", 1);
  }

  lemma ScanInside()
    ensures Scan("a**b") == [Chr('a')] + ([Star(Dot)] + ([Chr('b')] + []))
  {
    assert "b"[1..] == "";
    assert "**b"[..2] == "**" && "**b"[..3] == "**b" && "**b"[2..] == "b";
    assert "a**b"[..2] == "a*" && "a**b"[..3] == "a**" && "a**b"[1..] == "**b";
  }

  // ----- Resolution -----

  datatype Repo = Repo(name: string, owner: string, ownerPaths: seq<(string, string)>)

  datatype Resolved = Owner(agent: string) | NoSuchRepo

  /** Entry `k` owns `path`: it matches, no matching pattern is longer, and no earlier
      matching one is as long. */
  ghost predicate MostSpecific(entries: seq<(string, string)>, path: string, k: nat) {
    && k < |entries|
    && PathMatches(path, entries[k].0)
    && forall j :: 0 <= j < |entries| && PathMatches(path, entries[j].0) ==>
         |entries[j].0| < |entries[k].0| || (|entries[j].0| == |entries[k].0| && k <= j)
  }

  ghost predicate FirstNamed(repos: seq<Repo>, name: string, i: nat) {
    && i < |repos|
    && repos[i].name == name
    && forall j :: 0 <= j < i ==> repos[j].name != name
  }

  /** There is such a place exactly when the name is there, and only one. */
  lemma {:induction false} FirstNamedIs(repos: seq<Repo>, name: string)
    ensures (exists i: nat :: FirstNamed(repos, name, i)) <==> exists r :: r in repos && r.name == name
    ensures forall i: nat, j: nat :: FirstNamed(repos, name, i) && FirstNamed(repos, name, j) ==> i == j
    ensures forall i: nat :: FirstNamed(repos, name, i) ==> i < |repos| && repos[i].name == name
  {
    if repos != [] {
      var last := |repos| - 1;
      FirstNamedIs(repos[..last], name);
      assert repos == repos[..last] + [repos[last]];
      if i: nat :| FirstNamed(repos[..last], name, i) {
        assert FirstNamed(repos, name, i);
      } else if repos[last].name == name {
        assert FirstNamed(repos, name, last);
      }
    }
  }

  method GetRepo(repos: seq<Repo>, name: string) returns (i: nat)
    ensures i <= |repos|
    ensures i == |repos| <==> forall j :: 0 <= j < |repos| ==> repos[j].name != name
    ensures i < |repos| ==> FirstNamed(repos, name, i)
  {
    i := 0;
    while i < |repos|
      invariant 0 <= i <= |repos|
      invariant forall j :: 0 <= j < i ==> repos[j].name != name
    {
      if repos[i].name == name {
        return;
      }
      i := i + 1;
    }
  }

  /** `agent` is who `repo` says owns `path`. */
  ghost predicate OwnerOf(repo: Repo, path: string, agent: string) {
    || (exists k: nat :: MostSpecific(repo.ownerPaths, path, k) && agent == Strip(repo.ownerPaths[k].1))
    || (agent == Strip(repo.owner) &&
        forall j :: 0 <= j < |repo.ownerPaths| ==> !PathMatches(path, repo.ownerPaths[j].0))
  }

  lemma MostSpecificUnique(entries: seq<(string, string)>, path: string, k: nat, m: nat)
    requires MostSpecific(entries, path, k) && MostSpecific(entries, path, m)
    ensures k == m
  {
  }

  /** At most one agent owns a path. */
  lemma OwnerOfUnique(repo: Repo, path: string, a: string, b: string)
    requires OwnerOf(repo, path, a) && OwnerOf(repo, path, b)
    ensures a == b
  {
    var entries := repo.ownerPaths;
    if k: nat :| MostSpecific(entries, path, k) && a == Strip(entries[k].1) {
      assert PathMatches(path, entries[k].0);
      var m: nat :| MostSpecific(entries, path, m) && b == Strip(entries[m].1);
      MostSpecificUnique(entries, path, k, m);
    }
  }

  method ResolveOwnerForPath(repos: seq<Repo>, name: string, path: string) returns (r: Resolved)
    ensures r == NoSuchRepo <==> forall i :: 0 <= i < |repos| ==> repos[i].name != name
    ensures r.Owner? ==> exists i: nat :: FirstNamed(repos, name, i) && OwnerOf(repos[i], path, r.agent)
  {
    var i := GetRepo(repos, name);
    if i == |repos| {
      return NoSuchRepo;
    }
    var k := LongestMatch(repos[i].ownerPaths, path);
    if k < |repos[i].ownerPaths| {
      r := Owner(Strip(repos[i].ownerPaths[k].1));
      assert MostSpecific(repos[i].ownerPaths, path, k);
    } else {
      r := Owner(Strip(repos[i].owner));
    }
    assert OwnerOf(repos[i], path, r.agent);
  }

  /** The loop over `owner_paths`: the entry it settles on, or the length for none. */
  method LongestMatch(entries: seq<(string, string)>, path: string) returns (best: nat)
    ensures best < |entries| ==> MostSpecific(entries, path, best)
    ensures best >= |entries| ==> forall j :: 0 <= j < |entries| ==> !PathMatches(path, entries[j].0)
  {
    best := |entries|;
    var n := 0;
    while n < |entries|
      invariant 0 <= n <= |entries|
      invariant best < n || best == |entries|
      invariant best < n ==> MostSpecific(entries[..n], path, best)
      invariant best == |entries| ==> forall j :: 0 <= j < n ==> !PathMatches(path, entries[j].0)
    {
      var hit := PathMatches(path, entries[n].0);
      MostSpecificNext(entries, path, n, best);
      if hit && (best == |entries| || |entries[n].0| > |entries[best].0|) {
        best := n;
      }
      n := n + 1;
    }
    assert entries[..n] == entries;
  }

  lemma MostSpecificNext(entries: seq<(string, string)>, path: string, n: nat, best: nat)
    requires n < |entries| && (best < n || best == |entries|)
    requires best < n ==> MostSpecific(entries[..n], path, best)
    requires best == |entries| ==> forall j :: 0 <= j < n ==> !PathMatches(path, entries[j].0)
    ensures PathMatches(path, entries[n].0) && (best == |entries| || |entries[n].0| > |entries[best].0|)
            ==> MostSpecific(entries[..n + 1], path, n)
    ensures best < n && !(PathMatches(path, entries[n].0) && |entries[n].0| > |entries[best].0|)
            ==> MostSpecific(entries[..n + 1], path, best)
  {
    var before, after := entries[..n], entries[..n + 1];
    assert after == before + [entries[n]];
    forall j | 0 <= j < |after| && PathMatches(path, after[j].0)
      ensures j < n ==> PathMatches(path, before[j].0) && before[j] == entries[j]
      ensures after[j] == entries[j]
    {
    }
  }
}
