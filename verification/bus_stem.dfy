/** Bus message file names: the slug, the writer and the reader
    (src/otaman_core/bus_stem.py). */
module BusStem {
  import opened Text
  import opened Wrappers

  // ----- Slugs -----

  /** `[a-z0-9]`. */
  predicate IsSlugChar(c: char) {
    'a' <= c <= 'z' || '0' <= c <= '9'
  }

  function DropOthers(s: string): (r: string)
    ensures |r| <= |s|
    ensures r != "" ==> IsSlugChar(r[0])
  {
    if s != "" && !IsSlugChar(s[0]) then DropOthers(s[1..]) else s
  }

  /** `re.sub(r"[^a-z0-9]+", "-", s)`. */
  function Collapse(s: string): string
    decreases |s|
  {
    if s == "" then ""
    else if IsSlugChar(s[0]) then [s[0]] + Collapse(s[1..])
    else ['-'] + Collapse(DropOthers(s[1..]))
  }

  /** `s[:n]`, counting from the end when `n` is negative. */
  function Take(s: string, n: int): (r: string)
    ensures |r| <= |s|
    ensures n >= 0 ==> |r| <= n
  {
    if n >= |s| then s else if n >= 0 then s[..n] else if |s| + n >= 0 then s[..|s| + n] else ""
  }

  /** The slug of `text`, empty when nothing is left of it. */
  function Core(text: string, maxLen: Option<int>): string {
    var slug := TrimChar(Collapse(Lower(text)), '-');
    if maxLen.Some? && |slug| > maxLen.value then TrimChar(Take(slug, maxLen.value), '-') else slug
  }

  function Slugify(text: string, maxLen: Option<int>, fallback: string): string {
    if Core(text, maxLen) != "" then Core(text, maxLen) else fallback
  }

  /** Slug characters and single hyphens. */
  predicate Hyphenated(s: string) {
    && (forall i :: 0 <= i < |s| ==> s[i] == '-' || IsSlugChar(s[i]))
    && (forall i :: 0 < i < |s| ==> s[i - 1] != '-' || s[i] != '-')
  }

  /** Words of slug characters joined by single hyphens. */
  predicate SlugShape(s: string) {
    Hyphenated(s) && (s != "" ==> s[0] != '-' && s[|s| - 1] != '-')
  }

  lemma {:induction false} CollapseShape(s: string)
    ensures Hyphenated(Collapse(s))
    ensures Collapse(s) != "" && Collapse(s)[0] == '-' ==> s != "" && !IsSlugChar(s[0])
    decreases |s|
  {
    if s != "" {
      CollapseShape(if IsSlugChar(s[0]) then s[1..] else DropOthers(s[1..]));
    }
  }

  lemma {:induction false} CollapseFixed(s: string)
    requires Hyphenated(s)
    ensures Collapse(s) == s
  {
    if s != "" {
      var rest := s[1..];
      assert forall i :: 0 <= i < |rest| ==> rest[i] == s[i + 1];
      CollapseFixed(rest);
      assert s == [s[0]] + rest;
    }
  }

  lemma {:induction false} TrimHyphens(s: string)
    requires Hyphenated(s)
    ensures SlugShape(TrimChar(s, '-'))
  {
    if s != "" && s[0] == '-' {
      assert forall i :: 0 <= i < |s[1..]| ==> s[1..][i] == s[i + 1];
      TrimHyphens(s[1..]);
    } else if s != "" && s[|s| - 1] == '-' {
      TrimHyphens(s[..|s| - 1]);
    }
  }

  lemma LowerFixed(s: string)
    requires Hyphenated(s)
    ensures Lower(s) == s
  {
  }

  lemma CoreShape(text: string, maxLen: Option<int>)
    ensures SlugShape(Core(text, maxLen))
    ensures maxLen.Some? && maxLen.value >= 0 ==> |Core(text, maxLen)| <= maxLen.value
  {
    CollapseShape(Lower(text));
    TrimHyphens(Collapse(Lower(text)));
    var slug := TrimChar(Collapse(Lower(text)), '-');
    if maxLen.Some? {
      TrimHyphens(Take(slug, maxLen.value));
    }
  }

  /** The texts that are their own slug are those of slug shape that fit. */
  lemma SlugFixed(s: string, maxLen: Option<int>)
    ensures Core(s, maxLen) == s <==> SlugShape(s) && (maxLen.Some? ==> s == "" || |s| <= maxLen.value)
  {
    CoreShape(s, maxLen);
    if SlugShape(s) {
      LowerFixed(s);
      CollapseFixed(s);
    }
  }

  // ----- What a slug keeps -----

  const ALPHABET := "abcdefghijklmnopqrstuvwxyz0123456789"

  /** The characters a slug is made of. */
  lemma SlugAlphabet(c: char)
    ensures IsSlugChar(c) <==> c in ALPHABET
  {
  }

  /** The letters and digits, in order. */
  function Kept(s: string): string {
    if s == "" then "" else (if IsSlugChar(s[0]) then [s[0]] else "") + Kept(s[1..])
  }

  lemma {:induction false} KeptDrop(s: string)
    ensures Kept(DropOthers(s)) == Kept(s)
  {
    if s != "" && !IsSlugChar(s[0]) {
      KeptDrop(s[1..]);
    }
  }

  lemma {:induction false} KeptCollapse(s: string)
    ensures Kept(Collapse(s)) == Kept(s)
    decreases |s|
  {
    if s != "" {
      var rest := if IsSlugChar(s[0]) then s[1..] else DropOthers(s[1..]);
      KeptDrop(s[1..]);
      KeptCollapse(rest);
      assert Collapse(s)[1..] == Collapse(rest);
    }
  }

  lemma KeptCons(c: char, s: string)
    ensures Kept([c] + s) == (if IsSlugChar(c) then [c] else "") + Kept(s)
  {
    assert ([c] + s)[1..] == s;
  }

  lemma {:induction false} KeptSnoc(s: string, c: char)
    ensures Kept(s + [c]) == Kept(s) + (if IsSlugChar(c) then [c] else "")
  {
    if s == "" {
      KeptCons(c, "");
      assert s + [c] == [c] + "";
    } else {
      KeptSnoc(s[1..], c);
      KeptCons(s[0], s[1..]);
      KeptCons(s[0], s[1..] + [c]);
      assert s == [s[0]] + s[1..] && s + [c] == [s[0]] + (s[1..] + [c]);
    }
  }

  lemma {:induction false} KeptTrim(s: string)
    ensures Kept(TrimChar(s, '-')) == Kept(s)
  {
    if s != "" && s[0] == '-' {
      KeptTrim(s[1..]);
    } else if s != "" && s[|s| - 1] == '-' {
      KeptSnoc(s[..|s| - 1], '-');
      KeptTrim(s[..|s| - 1]);
      assert s == s[..|s| - 1] + ['-'];
    }
  }

  /** Without a limit a slug keeps every letter and digit of the lower-cased text, in order. */
  lemma SlugLetters(text: string)
    ensures Kept(Core(text, None)) == Kept(Lower(text))
  {
    KeptCollapse(Lower(text));
    KeptTrim(Collapse(Lower(text)));
  }

  lemma {:induction false} KeptNothing(s: string)
    ensures Kept(s) == "" <==> forall i :: 0 <= i < |s| ==> !IsSlugChar(s[i])
  {
    if s != "" {
      KeptNothing(s[1..]);
      assert forall i :: 0 < i < |s| ==> s[i] == s[1..][i - 1];
    }
  }

  /** The fallback stands in exactly for a text without a letter or digit. */
  lemma SlugFallback(text: string, fallback: string)
    ensures Core(text, None) == "" <==> forall i :: 0 <= i < |text| ==> !IsSlugChar(LowerChar(text[i]))
    ensures Slugify(text, None, fallback) ==
            if forall i :: 0 <= i < |text| ==> !IsSlugChar(LowerChar(text[i])) then fallback else Core(text, None)
  {
    SlugLetters(text);
    CoreShape(text, None);
    KeptNothing(Core(text, None));
    KeptNothing(Lower(text));
    assert forall i :: 0 <= i < |text| ==> Lower(text)[i] == LowerChar(text[i]);
  }

  /** A limit keeps the front of it: so many characters, or all but so many when it is negative, and no
      hyphen at the end. */
  lemma SlugLimited(text: string, n: int)
    ensures var whole, cut := Core(text, None), Core(text, Some(n));
            var k := if n >= |whole| then |whole| else if n >= 0 then n
                     else if |whole| + n >= 0 then |whole| + n else 0;
            cut == if k > 0 && whole[k - 1] == '-' then whole[..k - 1] else whole[..k]
  {
    var whole := Core(text, None);
    CoreShape(text, None);
    var t := Take(whole, n);
    assert t == whole[..|t|];
    if t != "" && t[|t| - 1] == '-' {
      HyphenOff(whole, |t|);
    }
    assert n >= |whole| ==> whole[..|whole|] == whole;
  }

  /** Slugs have single hyphens, so at most one is left at a cut. */
  lemma HyphenOff(s: string, k: nat)
    requires SlugShape(s) && 0 < k <= |s| && s[k - 1] == '-'
    ensures TrimChar(s[..k], '-') == s[..k - 1]
  {
    var t := s[..k];
    assert t[..k - 1] == s[..k - 1];
    assert s[0] != '-';
    assert s[k - 2] != '-';
  }

  // ----- White space around the text -----

  lemma {:induction false} DropSnoc(s: string, c: char)
    requires !IsSlugChar(c)
    ensures DropOthers(s + [c]) == if DropOthers(s) == "" then "" else DropOthers(s) + [c]
  {
    if s == "" {
      assert s + [c] == [c] && [c][1..] == "";
    } else {
      assert (s + [c])[1..] == s[1..] + [c];
      DropSnoc(s[1..], c);
    }
  }

  /** A last character that is no slug character adds a hyphen at most. */
  lemma {:induction false} CollapseSnoc(s: string, c: char)
    requires !IsSlugChar(c)
    ensures Collapse(s + [c]) == Collapse(s) || Collapse(s + [c]) == Collapse(s) + ['-']
    decreases |s|
  {
    if s == "" {
      assert s + [c] == [c] && [c][1..] == "";
    } else {
      assert (s + [c])[1..] == s[1..] + [c];
      DropSnoc(s[1..], c);
      CollapseSnoc(if IsSlugChar(s[0]) then s[1..] else DropOthers(s[1..]), c);
    }
  }

  lemma {:induction false} TrimSnoc(s: string)
    ensures TrimChar(s + ['-'], '-') == TrimChar(s, '-')
  {
    if s != "" && s[0] == '-' {
      assert (s + ['-'])[1..] == s[1..] + ['-'];
      TrimSnoc(s[1..]);
    } else {
      assert (s + ['-'])[..|s|] == s;
      assert ['-'][1..] == "";
    }
  }

  lemma CollapseCons(c: char, s: string)
    requires !IsSlugChar(c)
    ensures TrimChar(Collapse([c] + s), '-') == TrimChar(Collapse(s), '-')
  {
    assert ([c] + s)[1..] == s;
    var y := Collapse(DropOthers(s));
    assert (['-'] + y)[1..] == y;
  }

  lemma SpaceIsNoSlug(c: char)
    requires IsSpace(c)
    ensures LowerChar(c) == c && !IsSlugChar(c)
  {
  }

  lemma {:induction false} SpaceBefore(a: string, s: string)
    requires AllSpace(a)
    ensures Core(a + s, None) == Core(s, None)
  {
    if a == "" {
      assert a + s == s;
    } else {
      SpaceBefore(a[1..], s);
      SpaceIsNoSlug(a[0]);
      var t := a[1..] + s;
      assert a + s == [a[0]] + t;
      assert Lower(a + s) == [a[0]] + Lower(t);
      CollapseCons(a[0], Lower(t));
    }
  }

  lemma {:induction false} SpaceBehind(s: string, b: string)
    requires AllSpace(b)
    ensures Core(s + b, None) == Core(s, None)
  {
    if b == "" {
      assert s + b == s;
    } else {
      var b', c := b[..|b| - 1], b[|b| - 1];
      SpaceBehind(s, b');
      SpaceIsNoSlug(c);
      assert s + b == (s + b') + [c];
      assert Lower(s + b) == Lower(s + b') + [c];
      CollapseSnoc(Lower(s + b'), c);
      TrimSnoc(Collapse(Lower(s + b')));
    }
  }

  /** White space around a text does not reach its slug. */
  lemma SlugOfStripped(text: string)
    ensures Core(Strip(text), None) == Core(text, None)
  {
    var r := RStrip(text);
    RStripParts(text);
    LStripParts(r);
    var a, b := r[..|r| - |LStrip(r)|], text[|r|..];
    assert text == r + b && r == a + Strip(text);
    SpaceBehind(r, b);
    SpaceBefore(a, Strip(text));
  }

  predicate CutsFromEnd(maxLen: Option<int>) {
    maxLen.Some? && maxLen.value < 0
  }

  /** A slug is hyphen-trimmed and within its limit unless the fallback stands in for it, and
      slugging again changes nothing unless it cuts or rewrites the fallback. A negative limit takes
      characters off every time, until nothing but the fallback is left. */
  lemma SlugifyIdempotent(text: string, maxLen: Option<int>, fallback: string)
    ensures var r := Slugify(text, maxLen, fallback);
            && (Core(text, maxLen) != "" ==> SlugShape(r))
            && (Core(text, maxLen) != "" && maxLen.Some? && !CutsFromEnd(maxLen) ==> |r| <= maxLen.value)
            && (Slugify(r, maxLen, fallback) == r <==>
                if CutsFromEnd(maxLen) then r == fallback && Core(fallback, maxLen) == ""
                else Core(text, maxLen) != "" || Core(fallback, maxLen) == "" || Core(fallback, maxLen) == fallback)
  {
    CoreShape(text, maxLen);
    SlugFixed(Core(text, maxLen), maxLen);
    SlugFixed(fallback, maxLen);
  }

  /** The default fallback is itself cut at a limit of two. */
  lemma FallbackCut()
    ensures Slugify("!", Some(2), "item") == "item"
    ensures Slugify("item", Some(2), "item") == "it"
  {
    assert Lower("!") == "!" && DropOthers("") == "" && Collapse("!") == "-";
    assert TrimChar("", '-') == "" && TrimChar("-", '-') == "";
    LowerFixed("item");
    CollapseFixed("item");
    assert TrimChar("item", '-') == "item" && "item"[..2] == "it";
  }

  // ----- Writing -----

  /** A segment with the path separator neutralized. */
  function Safe(segment: string): (r: string)
    ensures |r| == |segment| && '/' !in r
    ensures r == segment <==> '/' !in segment
  {
    ReplaceChar(segment, '/', '-')
  }

  /** Everything after the sender. */
  function Tail(recipient: string, slug: string): string {
    Safe(recipient) + ("-" + slug)
  }

  function Route(sender: string, tail: string): string {
    Safe(sender) + ("-to-" + tail)
  }

  function BuildStem(timestamp: string, sender: string, recipient: string, slug: string): string {
    timestamp + ("-" + Route(sender, Tail(recipient, slug)))
  }

  function BuildFilename(timestamp: string, sender: string, recipient: string, slug: string): string {
    BuildStem(timestamp, sender, recipient, slug) + ".md"
  }

  // ----- Reading -----

  predicate IsDigit(c: char) {
    '0' <= c <= '9'
  }

  predicate AllDigits(s: string) {
    forall i :: 0 <= i < |s| ==> IsDigit(s[i])
  }

  /** `YYYYMMDDTHHMMSS` in front. */
  predicate LeadsWithStamp(s: string) {
    |s| >= 15 && AllDigits(s[..8]) && s[8] == 'T' && AllDigits(s[9..15])
  }

  /** Eight digits, a `T` and six digits. */
  lemma StampMeans(s: string)
    ensures LeadsWithStamp(s) <==>
            |s| >= 15 && s[8] == 'T' && forall i :: 0 <= i < 15 && i != 8 ==> s[i] in "0123456789"
  {
    assert forall c: char :: IsDigit(c) <==> c in "0123456789";
    if |s| >= 15 {
      assert forall i :: 0 <= i < 8 ==> s[..8][i] == s[i];
      assert forall i :: 9 <= i < 15 ==> s[9..15][i - 9] == s[i];
    }
  }

  /** Slashes become hyphens, and nothing else changes. */
  lemma SafeMeans(segment: string, i: nat)
    requires i < |segment|
    ensures Safe(segment)[i] == if segment[i] == '/' then '-' else segment[i]
  {
  }

  /** The compact stamp and any counter digits. */
  predicate IsStamp(s: string) {
    LeadsWithStamp(s) && AllDigits(s[15..])
  }

  function DigitsIn(s: string): (n: nat)
    ensures n <= |s|
  {
    if s != "" && IsDigit(s[0]) then DigitsIn(s[1..]) + 1 else 0
  }

  datatype ParsedStem = ParsedStem(
    timestamp: string, sender: string, recipient: Option<string>, slug: Option<string>, tail: string)

  /** `name` is `tail` or stands in front of a hyphen in it. */
  predicate HyphenPrefix(name: string, tail: string) {
    name <= tail && (|name| == |tail| || tail[|name|] == '-')
  }

  /** The longest known name, of at most `n` characters, that `tail` starts with. */
  function LongestKnown(tail: string, known: set<string>, n: nat): Option<string>
    requires n <= |tail|
  {
    if tail[..n] in known && (n == |tail| || tail[n] == '-') then Some(tail[..n])
    else if n == 0 then None
    else LongestKnown(tail, known, n - 1)
  }

  /** `s.lstrip("-")`. */
  function DropHyphens(s: string): (r: string)
    ensures |r| <= |s|
    ensures r != "" ==> r[0] != '-'
    ensures (s == "" || s[0] != '-') ==> r == s
  {
    if s != "" && s[0] == '-' then DropHyphens(s[1..]) else s
  }

  lemma {:induction false} LongestFits(tail: string, known: set<string>, n: nat)
    requires n <= |tail|
    ensures var best := LongestKnown(tail, known, n);
            best.Some? ==> best.value in known && HyphenPrefix(best.value, tail) && |best.value| <= n
  {
    if n > 0 {
      LongestFits(tail, known, n - 1);
    }
  }

  /** No known name that `tail` starts with is longer. */
  lemma {:induction false} LongestWins(tail: string, known: set<string>, n: nat, name: string)
    requires |name| <= n <= |tail| && name in known && HyphenPrefix(name, tail)
    ensures LongestKnown(tail, known, n).Some? && |LongestKnown(tail, known, n).value| >= |name|
  {
    assert tail[..|name|] == name;
    if |name| < n {
      LongestWins(tail, known, n - 1, name);
    }
  }

  /** The recipient and the slug in `tail`. */
  function SplitTail(tail: string, known: set<string>): (Option<string>, Option<string>) {
    var best := LongestKnown(tail, known, |tail|);
    LongestFits(tail, known, |tail|);
    if best.None? then (None, None)
    else
      var slug := DropHyphens(tail[|best.value|..]);
      (best, if slug != "" then Some(slug) else None)
  }

  predicate EndsWithMd(name: string) {
    |name| >= 3 && name[|name| - 3] == '.' && name[|name| - 2] == 'm' && name[|name| - 1] == 'd'
  }

  function ParseTail(timestamp: string, remainder: string, known: set<string>): ParsedStem {
    var k := IndexOf(remainder, "-to-");
    if k == -1 then ParsedStem(timestamp, "", None, None, remainder)
    else
      IndexOfFound(remainder, "-to-");
      var tail := remainder[k + 4..];
      var parts := SplitTail(tail, known);
      ParsedStem(timestamp, remainder[..k], parts.0, parts.1, tail)
  }

  /** The stem a file name stands for. */
  function StemOf(name: string): string {
    if EndsWithMd(name) then name[..|name| - 3] else name
  }

  function ParseStem(name: string, known: set<string>): Option<ParsedStem> {
    var stem := StemOf(name);
    if !LeadsWithStamp(stem) then None
    else
      var n := 15 + DigitsIn(stem[15..]);
      if n == |stem| || stem[n] != '-' then None
      else Some(ParseTail(stem[..15], stem[n + 1..], known))
  }

  /** The loop over the known names, in whatever order the set yields them. */
  method SplitRecipient(tail: string, known: set<string>) returns (recipient: Option<string>, slug: Option<string>)
    ensures (recipient, slug) == SplitTail(tail, known)
  {
    var best: Option<string> := None;
    var rest := known;
    while rest != {}
      invariant rest <= known
      invariant best.Some? ==> best.value in known && HyphenPrefix(best.value, tail)
      invariant forall name :: name in known - rest && HyphenPrefix(name, tail) ==>
                  best.Some? && |name| <= |best.value|
    {
      var name :| name in rest;
      rest := rest - {name};
      if HyphenPrefix(name, tail) && (best.None? || |name| > |best.value|) {
        best := Some(name);
      }
    }
    BestIsLongest(tail, known, best);
    if best.None? {
      return None, None;
    }
    var left := DropHyphens(tail[|best.value|..]);
    return best, if left != "" then Some(left) else None;
  }

  /** `best` is a longest known name that `tail` starts with, if there is any. */
  ghost predicate IsBest(tail: string, known: set<string>, best: Option<string>) {
    && (best.Some? ==> best.value in known && HyphenPrefix(best.value, tail))
    && (forall name :: name in known && HyphenPrefix(name, tail) ==> best.Some? && |name| <= |best.value|)
  }

  /** There is only one such name: the order of the loop does not matter. */
  lemma BestIsLongest(tail: string, known: set<string>, best: Option<string>)
    requires IsBest(tail, known, best)
    ensures best == LongestKnown(tail, known, |tail|)
  {
    LongestFits(tail, known, |tail|);
    var longest := LongestKnown(tail, known, |tail|);
    if best.Some? {
      LongestWins(tail, known, |tail|, best.value);
      SamePrefix(best.value, longest.value, tail);
    }
  }

  lemma SamePrefix(a: string, b: string, s: string)
    requires a <= s && b <= s && |a| == |b|
    ensures a == b
  {
    assert a == s[..|a|] && b == s[..|b|];
  }

  // ----- Round trip -----

  /** The first `-to-` after the sender is the route's own. */
  predicate NoRoute(sender: string) {
    IndexOf(sender, "-to-") == -1 && !EndsWithTo(sender)
  }

  predicate EndsWithTo(s: string) {
    |s| >= 3 && s[|s| - 3] == '-' && s[|s| - 2] == 't' && s[|s| - 1] == 'o'
  }

  predicate RouteAt(s: string, k: nat) {
    k + 4 <= |s| && s[k] == '-' && s[k + 1] == 't' && s[k + 2] == 'o' && s[k + 3] == '-'
  }

  lemma RouteOccurs(s: string, k: nat)
    ensures OccursAt(s, "-to-", k) <==> RouteAt(s, k)
  {
    if k + 4 <= |s| {
      var w := s[k..k + 4];
      assert w[0] == s[k] && w[1] == s[k + 1] && w[2] == s[k + 2] && w[3] == s[k + 3];
    }
  }

  lemma RouteIn(sender: string, x: string, k: nat)
    requires k <= |sender|
    ensures RouteAt(sender + ("-to-" + x), k) <==>
            k == |sender| || RouteAt(sender, k) || (k + 3 == |sender| && EndsWithTo(sender))
  {
    var w := "-to-" + x;
    assert w[0] == '-' && w[1] == 't' && w[2] == 'o' && w[3] == '-';
    var s := sender + w;
    assert forall i :: 0 <= i < 4 ==> s[|sender| + i] == w[i];
    assert forall i :: 0 <= i < |sender| ==> s[i] == sender[i];
  }

  lemma RouteOccursIn(sender: string, x: string, k: nat)
    requires k <= |sender|
    ensures OccursAt(sender + ("-to-" + x), "-to-", k) <==>
            k == |sender| || OccursAt(sender, "-to-", k) || (k + 3 == |sender| && EndsWithTo(sender))
  {
    RouteOccurs(sender + ("-to-" + x), k);
    RouteIn(sender, x, k);
    RouteOccurs(sender, k);
  }

  lemma EarlierRoute(sender: string, x: string)
    requires !NoRoute(sender)
    ensures 0 <= IndexOf(sender + ("-to-" + x), "-to-") < |sender|
  {
    var j := if EndsWithTo(sender) then |sender| - 3 else IndexOf(sender, "-to-");
    IndexOfFound(sender, "-to-");
    assert j < |sender|;
    RouteOccursIn(sender, x, j);
    IndexOfFirst(sender + ("-to-" + x), "-to-", j);
  }

  lemma OwnRoute(sender: string, x: string)
    requires NoRoute(sender)
    ensures IndexOf(sender + ("-to-" + x), "-to-") == |sender|
  {
    var s := sender + ("-to-" + x);
    RouteOccursIn(sender, x, |sender|);
    IndexOfFirst(s, "-to-", |sender|);
    IndexOfFound(s, "-to-");
    var k := IndexOf(s, "-to-");
    RouteOccursIn(sender, x, k);
    if OccursAt(sender, "-to-", k) {
      IndexOfFirst(sender, "-to-", k);
    }
  }

  lemma {:induction false} DigitsThen(a: string, x: string)
    requires AllDigits(a) && x != "" && !IsDigit(x[0])
    ensures DigitsIn(a + x) == |a|
  {
    if a == "" {
      assert a + x == x;
    } else {
      DigitsThen(a[1..], x);
      assert (a + x)[1..] == a[1..] + x;
    }
  }

  lemma StampThen(timestamp: string, x: string)
    requires IsStamp(timestamp) && x != "" && x[0] == '-'
    ensures LeadsWithStamp(timestamp + x) && (timestamp + x)[..15] == timestamp[..15]
    ensures 15 + DigitsIn((timestamp + x)[15..]) == |timestamp|
  {
    var s := timestamp + x;
    assert s[..15] == timestamp[..15];
    assert s[..8] == timestamp[..8] && s[9..15] == timestamp[9..15];
    assert s[15..] == timestamp[15..] + x;
    DigitsThen(timestamp[15..], x);
  }

  lemma MdDropped(stem: string)
    ensures EndsWithMd(stem + ".md") && (stem + ".md")[..|stem + ".md"| - 3] == stem
  {
    var ext := ".md";
    assert ext[0] == '.' && ext[1] == 'm' && ext[2] == 'd' && |ext| == 3;
    Halves(stem, ext);
  }

  /** A built name parses, its time token being cut to the compact stamp. */
  lemma BuiltParses(timestamp: string, sender: string, recipient: string, slug: string, known: set<string>)
    requires IsStamp(timestamp)
    ensures ParseStem(BuildFilename(timestamp, sender, recipient, slug), known) ==
            Some(ParseTail(timestamp[..15], Route(sender, Tail(recipient, slug)), known))
  {
    var x := "-" + Route(sender, Tail(recipient, slug));
    MdDropped(timestamp + x);
    StampThen(timestamp, x);
    Halves(timestamp, x);
    Cut(timestamp + x, |timestamp|, |timestamp| + 1);
    Halves("-", Route(sender, Tail(recipient, slug)));
  }

  /** The known names settle the boundary in favour of `recipient`. */
  predicate Settled(recipient: string, tail: string, known: set<string>) {
    && recipient in known
    && forall name :: name in known && HyphenPrefix(name, tail) ==> |name| <= |recipient|
  }

  lemma TailSplit(recipient: string, slug: string, known: set<string>)
    ensures SplitTail(Tail(recipient, slug), known) == (Some(recipient), Some(slug)) <==>
            && '/' !in recipient && Settled(recipient, Tail(recipient, slug), known)
            && slug != "" && slug[0] != '-'
  {
    var tail := Tail(recipient, slug);
    var x := "-" + slug;
    Halves(Safe(recipient), x);
    Halves("-", slug);
    assert tail[|recipient|] == '-';
    var best := LongestKnown(tail, known, |tail|);
    LongestFits(tail, known, |tail|);
    if best == Some(recipient) {
      SamePrefix(recipient, Safe(recipient), tail);
      forall name | name in known && HyphenPrefix(name, tail)
        ensures |name| <= |recipient|
      {
        LongestWins(tail, known, |tail|, name);
      }
      HyphensOff(slug);
    } else if '/' !in recipient && recipient in known {
      assert HyphenPrefix(recipient, tail);
      LongestWins(tail, known, |tail|, recipient);
      LongerOrSame(recipient, best.value, tail);
    }
    if '/' !in recipient && Settled(recipient, tail, known) {
      BestIsLongest(tail, known, Some(recipient));
    }
  }

  lemma HyphensOff(slug: string)
    ensures DropHyphens("-" + slug) == slug <==> slug == "" || slug[0] != '-'
  {
    assert ("-" + slug)[1..] == slug;
  }

  lemma LongerOrSame(a: string, b: string, s: string)
    requires a <= s && b <= s && |a| <= |b|
    ensures a == b || |a| < |b|
  {
    if |a| == |b| {
      SamePrefix(a, b, s);
    }
  }

  lemma RouteParsed(timestamp: string, sender: string, tail: string, known: set<string>)
    ensures var p := ParseTail(timestamp, Route(sender, tail), known);
            && p.timestamp == timestamp
            && (NoRoute(Safe(sender)) ==>
                  (p.sender, p.recipient, p.slug, p.tail) ==
                  (Safe(sender), SplitTail(tail, known).0, SplitTail(tail, known).1, tail))
            && (!NoRoute(Safe(sender)) ==> |p.sender| < |sender|)
  {
    if NoRoute(Safe(sender)) {
      OwnRoute(Safe(sender), tail);
    } else {
      EarlierRoute(Safe(sender), tail);
    }
    var s := Route(sender, tail);
    Halves(Safe(sender), "-to-" + tail);
    Halves("-to-", tail);
    Cut(s, |sender|, |sender| + 4);
  }

  /** All four parts come back exactly when the stamp is compact, the sender brings no route of
      its own, neither segment holds a separator, the known names settle the recipient, and the
      slug does not begin with a hyphen. */
  lemma StemRoundTrip(timestamp: string, sender: string, recipient: string, slug: string, known: set<string>)
    requires IsStamp(timestamp)
    ensures ParseStem(BuildFilename(timestamp, sender, recipient, slug), known) ==
              Some(ParsedStem(timestamp, sender, Some(recipient), Some(slug), Tail(recipient, slug))) <==>
            && |timestamp| == 15
            && '/' !in sender && NoRoute(sender)
            && '/' !in recipient && Settled(recipient, Tail(recipient, slug), known)
            && slug != "" && slug[0] != '-'
  {
    var tail := Tail(recipient, slug);
    BuiltParses(timestamp, sender, recipient, slug, known);
    RouteParsed(timestamp[..15], sender, tail, known);
    TailSplit(recipient, slug, known);
    assert timestamp[..15] == timestamp <==> |timestamp| == 15;
  }

  /** A slug made by `slugify` from a text with something in it always qualifies. */
  lemma SlugQualifies(text: string, maxLen: Option<int>, fallback: string)
    requires Core(text, maxLen) != ""
    ensures var slug := Slugify(text, maxLen, fallback); slug != "" && slug[0] != '-'
  {
    CoreShape(text, maxLen);
  }

  lemma {:induction false} DigitsInAll(s: string)
    ensures AllDigits(s[..DigitsIn(s)])
  {
    if s != "" && IsDigit(s[0]) {
      DigitsInAll(s[1..]);
      var n := DigitsIn(s[1..]);
      assert s[..n + 1] == [s[0]] + s[1..][..n];
    }
  }

  /** `n` characters of time token, then a hyphen. */
  predicate TokenOf(stem: string, n: nat) {
    n < |stem| && IsStamp(stem[..n]) && stem[n] == '-'
  }

  lemma TokenLength(stem: string, n: nat)
    requires TokenOf(stem, n)
    ensures LeadsWithStamp(stem) && n == 15 + DigitsIn(stem[15..])
  {
    StampThen(stem[..n], stem[n..]);
    assert stem[..n] + stem[n..] == stem;
  }

  lemma TokenFound(stem: string)
    requires LeadsWithStamp(stem)
    ensures IsStamp(stem[..15 + DigitsIn(stem[15..])])
  {
    var n := 15 + DigitsIn(stem[15..]);
    var t := stem[..n];
    DigitsInAll(stem[15..]);
    assert t[15..] == stem[15..][..n - 15];
    assert t[..8] == stem[..8] && t[9..15] == stem[9..15];
  }

  /** Exactly the names that lead with a time token and a hyphen are taken for bus stems, and the
      token is read whole: nothing else could end it. */
  lemma ParsesStemsOnly(name: string, known: set<string>)
    ensures ParseStem(name, known).Some? <==> exists n: nat :: TokenOf(StemOf(name), n)
    ensures forall n: nat :: TokenOf(StemOf(name), n) ==>
              ParseStem(name, known) == Some(ParseTail(StemOf(name)[..15], StemOf(name)[n + 1..], known))
  {
    var stem := StemOf(name);
    if LeadsWithStamp(stem) {
      TokenFound(stem);
      if ParseStem(name, known).Some? {
        assert TokenOf(stem, 15 + DigitsIn(stem[15..]));
      }
    }
    forall n: nat | TokenOf(stem, n)
      ensures ParseStem(name, known) == Some(ParseTail(stem[..15], stem[n + 1..], known))
    {
      TokenLength(stem, n);
    }
  }
}
