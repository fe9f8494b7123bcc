/** Which sections of a spec change request count as answered, and which requests as hollow
    (src/otaman_core/scr_template.py). */
module ScrAnswers {
  import opened Text
  import opened Wrappers
  import opened ScrTemplate

  // ----- The three expressions -----

  predicate IsWordChar(c: char) {
    'a' <= c <= 'z' || 'A' <= c <= 'Z' || '0' <= c <= '9' || c == '_'
  }

  /** The letters, the digits and the underscore. */
  lemma WordChars(c: char)
    ensures IsWordChar(c) <==>
            || c in "abcdefghijklmnopqrstuvwxyz" || c in "ABCDEFGHIJKLMNOPQRSTUVWXYZ" || c in "0123456789" || c == '_'
  {
  }

  /** `t` starts with `word`, and no word character follows. */
  predicate StartsWord(t: string, word: string) {
    word <= t && (|t| == |word| || !IsWordChar(t[|word|]))
  }

  /** `_PLACEHOLDER_RE`, whatever the case. */
  predicate IsPlaceholder(line: string) {
    var t := Lower(LStrip(line));
    || StartsWord(t, "todo") || StartsWord(t, "tbd") || StartsWord(t, "fixme") || StartsWord(t, "xxx")
    || (|t| >= 2 && t[0] == t[1] == '?')
  }

  /** The length of an opening `n/a` or `na` that ends as a word, or 0. */
  function NaLen(t: string): (n: nat)
    ensures n <= |t|
  {
    if StartsWord(t, "n/a") then 3 else if StartsWord(t, "na") then 2 else 0
  }

  predicate OpensNa(line: string) {
    var t := Lower(LStrip(line));
    NaLen(t) > 0 || StartsWord(t, "none") || StartsWord(t, "nothing")
  }

  /** `[\s:,-]*` */
  function SkipJoiners(t: string): (r: string)
    ensures |r| <= |t|
  {
    if t != "" && (IsSpace(t[0]) || t[0] == ':' || t[0] == ',' || t[0] == '-') then SkipJoiners(t[1..]) else t
  }

  /** `_NA_RE`: not applicable, with a reason. */
  predicate NaWithReason(line: string) {
    var t := Lower(LStrip(line));
    NaLen(t) > 0 && Because(SkipJoiners(t[NaLen(t)..]))
  }

  /** `because\s+\S+` */
  predicate Because(u: string) {
    "because" <= u && LStrip(u[7..]) != "" && LStrip(u[7..]) != u[7..]
  }

  function FirstFilled(lines: seq<string>): string {
    if lines == [] then "" else if Strip(lines[0]) != "" then lines[0] else FirstFilled(lines[1..])
  }

  // ----- What counts as silence, on texts -----

  /** At `k`, after white space only, stands `word` in any case, and ends there as a word. */
  predicate WordAt(line: string, k: nat, word: string) {
    && k + |word| <= |line| && AllSpace(line[..k]) && Lower(line[k..k + |word|]) == word
    && (k + |word| == |line| || !IsWordChar(line[k + |word|]))
  }

  ghost predicate OpensWith(line: string, word: string) {
    exists k: nat :: WordAt(line, k, word)
  }

  predicate MarksAt(line: string, k: nat) {
    k + 2 <= |line| && AllSpace(line[..k]) && line[k] == line[k + 1] == '?'
  }

  /** The line opens with a word that puts off or denies an answer, or with question marks. */
  ghost predicate Silent(line: string) {
    || OpensWith(line, "n/a") || OpensWith(line, "na") || OpensWith(line, "none") || OpensWith(line, "nothing")
    || OpensWith(line, "todo") || OpensWith(line, "tbd") || OpensWith(line, "fixme") || OpensWith(line, "xxx")
    || exists k: nat :: MarksAt(line, k)
  }

  predicate Joiner(c: char) {
    IsSpace(c) || c == ':' || c == ',' || c == '-'
  }

  /** `n/a` or `na` at `k`, joiners up to `because` at `m`, white space, and a reason at `j`. */
  predicate ReasonAt(line: string, k: nat, word: string, m: nat, j: nat) {
    && k + |word| <= m && m + 7 < j < |line|
    && (word == "n/a" || word == "na") && WordAt(line, k, word)
    && (forall i :: k + |word| <= i < m ==> Joiner(line[i]))
    && Lower(line[m..m + 7]) == "because"
    && AllSpace(line[m + 7..j]) && !IsSpace(line[j])
  }

  ghost predicate Reasoned(line: string) {
    exists k: nat, word: string, m: nat, j: nat :: ReasonAt(line, k, word, m, j)
  }

  /** `first` is the first of the lines that is not blank. */
  ghost predicate FirstOf(lines: seq<string>, i: nat) {
    i < |lines| && !AllSpace(lines[i]) && forall j :: 0 <= j < i ==> AllSpace(lines[j])
  }

  /** A text is an answer: its first line that is not blank is not silent, or gives the reason why the
      question does not apply. */
  ghost predicate Answered(text: string) {
    var lines := SplitLines(text);
    exists i: nat :: FirstOf(lines, i) && (Reasoned(lines[i]) || !Silent(lines[i]))
  }

  // ----- The expressions mean that -----

  lemma LowerSlice(s: string, a: nat, b: nat)
    requires a <= b <= |s|
    ensures Lower(s[a..b]) == Lower(s)[a..b]
  {
  }

  lemma LowerKinds(c: char)
    ensures IsWordChar(LowerChar(c)) <==> IsWordChar(c)
    ensures Joiner(LowerChar(c)) <==> Joiner(c)
    ensures IsSpace(LowerChar(c)) <==> IsSpace(c)
  {
  }

  /** The length of the white space in front. */
  function Lead(line: string): (k: nat)
    ensures k <= |line| && line[k..] == LStrip(line) && AllSpace(line[..k])
  {
    LStripParts(line);
    |line| - |LStrip(line)|
  }

  lemma LeadIs(line: string, k: nat)
    requires k < |line| && AllSpace(line[..k]) && !IsSpace(line[k])
    ensures k == Lead(line)
  {
    assert line == line[..k] + line[k..];
    LStripOf(line[..k], line[k..]);
  }

  lemma WordMeans(line: string, word: string)
    requires word != "" && !IsSpace(word[0])
    ensures StartsWord(Lower(LStrip(line)), word) <==> WordAt(line, Lead(line), word)
    ensures OpensWith(line, word) <==> WordAt(line, Lead(line), word)
  {
    var k := Lead(line);
    var t := Lower(LStrip(line));
    if k + |word| <= |line| {
      LowerSlice(line, k, k + |word|);
      assert t[..|word|] == Lower(line)[k..k + |word|];
      if k + |word| < |line| {
        assert t[|word|] == LowerChar(line[k + |word|]);
        LowerKinds(line[k + |word|]);
      }
    }
    if i: nat :| WordAt(line, i, word) {
      assert Lower(line[i..i + |word|])[0] == LowerChar(line[i]);
      LowerKinds(line[i]);
      LeadIs(line, i);
    }
  }

  lemma MarksMean(line: string)
    ensures var t := Lower(LStrip(line));
            (|t| >= 2 && t[0] == t[1] == '?') <==> exists k: nat :: MarksAt(line, k)
  {
    var t, k := Lower(LStrip(line)), Lead(line);
    if |t| >= 2 {
      assert t[0] == LowerChar(line[k]) && t[1] == LowerChar(line[k + 1]);
    }
    if |t| >= 2 && t[0] == t[1] == '?' {
      assert MarksAt(line, k);
    }
    if i: nat :| MarksAt(line, i) {
      LeadIs(line, i);
    }
  }

  lemma SilentMeans(line: string)
    ensures IsPlaceholder(line) || OpensNa(line) <==> Silent(line)
  {
    WordMeans(line, "n/a");
    WordMeans(line, "na");
    WordMeans(line, "none");
    WordMeans(line, "nothing");
    WordMeans(line, "todo");
    WordMeans(line, "tbd");
    WordMeans(line, "fixme");
    WordMeans(line, "xxx");
    MarksMean(line);
  }

  lemma {:induction false} SkipParts(t: string)
    ensures var r := SkipJoiners(t);
            var m := |t| - |r|;
            r == t[m..] && (forall i :: 0 <= i < m ==> Joiner(t[i])) && (r != "" ==> !Joiner(r[0]))
  {
    if t != "" && Joiner(t[0]) {
      SkipParts(t[1..]);
    }
  }

  lemma {:induction false} SkipIs(t: string, m: nat)
    requires m < |t| && (forall i :: 0 <= i < m ==> Joiner(t[i])) && !Joiner(t[m])
    ensures SkipJoiners(t) == t[m..]
  {
    if m > 0 {
      SkipIs(t[1..], m - 1);
    }
  }

  predicate BecauseAt(y: string, j: nat) {
    7 < j < |y| && Lower(y[..7]) == "because" && AllSpace(y[7..j]) && !IsSpace(y[j])
  }

  lemma LowerTail(y: string, a: nat)
    requires a <= |y|
    ensures Lower(y)[a..] == Lower(y[a..])
  {
    LowerSlice(y, a, |y|);
    assert y[a..|y|] == y[a..] && Lower(y)[a..|y|] == Lower(y)[a..];
  }

  lemma {:induction false} LowerStrips(y: string)
    ensures LStrip(Lower(y)) == Lower(LStrip(y))
  {
    if y != "" {
      LowerKinds(y[0]);
      LowerTail(y, 1);
      if IsSpace(y[0]) {
        LowerStrips(y[1..]);
      }
    }
  }

  ghost predicate HasReason(y: string) {
    exists j: nat :: BecauseAt(y, j)
  }

  lemma BecauseMeans(y: string)
    ensures Because(Lower(y)) <==> HasReason(y)
  {
    if |y| >= 7 {
      LowerSlice(y, 0, 7);
      assert y[0..7] == y[..7] && Lower(y)[0..7] == Lower(y)[..7];
      LowerTail(y, 7);
      var v := y[7..];
      LowerStrips(v);
      var k := Lead(v);
      if Because(Lower(y)) {
        assert k > 0 by {
          assert k == 0 ==> LStrip(v) == v;
        }
        assert y[7..7 + k] == v[..k] && y[7 + k] == v[k] == LStrip(v)[0];
        assert BecauseAt(y, 7 + k);
      }
      if j: nat :| BecauseAt(y, j) {
        assert v[..j - 7] == y[7..j] && v[j - 7] == y[j];
        LeadIs(v, j - 7);
      }
    }
  }

  lemma NaMeans(line: string)
    ensures var n := NaLen(Lower(LStrip(line)));
            && (n == 3 <==> WordAt(line, Lead(line), "n/a")) && (n == 2 <==> WordAt(line, Lead(line), "na"))
            && (n == 0 || n == 2 || n == 3)
  {
    var t := Lower(LStrip(line));
    WordMeans(line, "n/a");
    WordMeans(line, "na");
    if StartsWord(t, "n/a") {
      assert t[1] == "n/a"[1];
      assert !("na" <= t) by {
        assert "na"[1] == 'a';
      }
    }
  }

  lemma TailOfLead(line: string, n: nat)
    requires Lead(line) + n <= |line|
    ensures n <= |Lower(LStrip(line))| && Lower(LStrip(line))[n..] == Lower(line[Lead(line) + n..])
  {
    LowerTail(line[Lead(line)..], n);
    assert line[Lead(line)..][n..] == line[Lead(line) + n..];
  }

  /** The joiners in front of a text, and what comes after them. */
  lemma JoinersMean(y: string) returns (d: nat)
    ensures d <= |y| && SkipJoiners(Lower(y)) == Lower(y[d..])
    ensures forall i :: 0 <= i < d ==> Joiner(y[i])
    ensures d < |y| ==> !Joiner(y[d])
  {
    var r := Lower(y);
    SkipParts(r);
    d := |r| - |SkipJoiners(r)|;
    LowerTail(y, d);
    forall i | 0 <= i < d
      ensures Joiner(y[i])
    {
      assert r[i] == LowerChar(y[i]);
      LowerKinds(y[i]);
    }
    if d < |y| {
      LowerKinds(y[d]);
    }
  }

  lemma JoinersEnd(y: string, d: nat)
    requires d < |y| && (forall i :: 0 <= i < d ==> Joiner(y[i])) && !Joiner(y[d])
    ensures SkipJoiners(Lower(y)) == Lower(y[d..])
  {
    var e := JoinersMean(y);
    assert e < |y| ==> !Joiner(y[e]);
    assert d == e;
  }

  lemma NaTail(line: string, n: nat, y: string, z: string)
    requires n == NaLen(Lower(LStrip(line))) && Lower(LStrip(line))[n..] == Lower(y)
    requires SkipJoiners(Lower(y)) == Lower(z)
    ensures NaWithReason(line) <==> n > 0 && HasReason(z)
  {
    BecauseMeans(z);
  }

  lemma JoinersShift(line: string, a: nat, d: nat)
    requires a + d <= |line|
    ensures (forall i :: 0 <= i < d ==> Joiner(line[a..][i])) <==> forall i :: a <= i < a + d ==> Joiner(line[i])
  {
    assert forall i :: a <= i < a + d ==> line[i] == line[a..][i - a];
  }

  lemma ReasonFound(line: string)
    requires NaWithReason(line)
    ensures Reasoned(line)
  {
    var k, n := Lead(line), NaLen(Lower(LStrip(line)));
    NaMeans(line);
    TailOfLead(line, n);
    var d := JoinersMean(line[k + n..]);
    var m := k + n + d;
    assert line[k + n..][d..] == line[m..];
    NaTail(line, n, line[k + n..], line[m..]);
    var j: nat :| BecauseAt(line[m..], j);
    ReasonShift(line, m, j);
    JoinersShift(line, k + n, d);
    assert ReasonAt(line, k, if n == 3 then "n/a" else "na", m, m + j);
  }

  lemma ReasonShift(line: string, m: nat, j: nat)
    requires m <= |line|
    ensures BecauseAt(line[m..], j) <==>
            && 7 < j && m + j < |line| && Lower(line[m..m + 7]) == "because"
            && AllSpace(line[m + 7..m + j]) && !IsSpace(line[m + j])
  {
    var y := line[m..];
    if 7 < j < |y| {
      assert y[..7] == line[m..m + 7] && y[7..j] == line[m + 7..m + j] && y[j] == line[m + j];
    }
  }

  lemma FirstLetter(s: string, a: nat, b: nat, word: string)
    requires a < b <= |s| && Lower(s[a..b]) == word
    ensures LowerChar(s[a]) == word[0]
  {
    assert Lower(s[a..b])[0] == LowerChar(s[a..b][0]);
  }

  lemma WordLead(line: string, k: nat, word: string)
    requires (word == "n/a" || word == "na") && WordAt(line, k, word)
    ensures k == Lead(line) && NaLen(Lower(LStrip(line))) == |word|
  {
    FirstLetter(line, k, k + |word|, word);
    LowerKinds(line[k]);
    LeadIs(line, k);
    NaMeans(line);
  }

  /** The joiners of a reasoned line end at its `because`. */
  lemma ReasonJoiners(line: string, a: nat, m: nat)
    requires a <= m && m + 7 <= |line| && Lower(line[m..m + 7]) == "because"
    requires forall i :: a <= i < m ==> Joiner(line[i])
    ensures SkipJoiners(Lower(line[a..])) == Lower(line[m..])
  {
    FirstLetter(line, m, m + 7, "because");
    LowerKinds(line[m]);
    JoinersShift(line, a, m - a);
    assert line[a..][m - a] == line[m] && line[a..][m - a..] == line[m..];
    JoinersEnd(line[a..], m - a);
  }

  lemma ReasonAccepted(line: string, k: nat, word: string, m: nat, j: nat)
    requires ReasonAt(line, k, word, m, j)
    ensures NaWithReason(line)
  {
    WordLead(line, k, word);
    TailOfLead(line, |word|);
    ReasonJoiners(line, k + |word|, m);
    ReasonTail(line, m, j);
    NaTail(line, |word|, line[k + |word|..], line[m..]);
  }

  lemma ReasonTail(line: string, m: nat, j: nat)
    requires m + 7 < j < |line| && Lower(line[m..m + 7]) == "because"
    requires AllSpace(line[m + 7..j]) && !IsSpace(line[j])
    ensures HasReason(line[m..])
  {
    ReasonShift(line, m, j - m);
    assert BecauseAt(line[m..], j - m);
  }

  lemma ReasonedMeans(line: string)
    ensures NaWithReason(line) <==> Reasoned(line)
  {
    if NaWithReason(line) {
      ReasonFound(line);
    }
    if k: nat, word: string, m: nat, j: nat :| ReasonAt(line, k, word, m, j) {
      ReasonAccepted(line, k, word, m, j);
    }
  }

  // ----- Texts -----

  lemma {:induction false} BlankLines(text: string)
    ensures AllSpace(text) <==> forall i :: 0 <= i < |SplitLines(text)| ==> AllSpace(SplitLines(text)[i])
    decreases |text|
  {
    if text != "" {
      if FindBreak(text) < |text| {
        var l, br, rest := FirstBreak(text);
        BlankLines(rest);
        BlankParts(l, br, rest);
        BlankCons(l, SplitLines(rest));
      } else {
        assert SplitLines(text) == [text] && SplitLines(text)[0] == text;
      }
    }
  }

  lemma BlankParts(l: string, br: string, rest: string)
    requires br != "" && IsLineBreak(br[0]) && IsLineBreak(br[|br| - 1]) && |br| <= 2
    ensures AllSpace(l + (br + rest)) <==> AllSpace(l) && AllSpace(rest)
  {
    var s := l + (br + rest);
    assert forall i :: 0 <= i < |l| ==> l[i] == s[i];
    assert forall i :: 0 <= i < |rest| ==> rest[i] == s[|l| + |br| + i];
    assert forall i :: 0 <= i < |s| ==>
      s[i] == if i < |l| then l[i] else if i < |l| + |br| then br[i - |l|] else rest[i - |l| - |br|];
  }

  lemma BlankCons(l: string, ls: seq<string>)
    ensures (forall i :: 0 <= i < |[l] + ls| ==> AllSpace(([l] + ls)[i])) <==>
            AllSpace(l) && forall i :: 0 <= i < |ls| ==> AllSpace(ls[i])
  {
    assert ([l] + ls)[0] == l && forall i :: 0 <= i < |ls| ==> ([l] + ls)[i + 1] == ls[i];
  }

  lemma {:induction false} FirstFilledIs(lines: seq<string>) returns (i: nat)
    ensures i < |lines| ==> FirstOf(lines, i) && FirstFilled(lines) == lines[i]
    ensures i >= |lines| ==> forall j :: 0 <= j < |lines| ==> AllSpace(lines[j])
  {
    i := 0;
    if lines != [] {
      StripBlank(lines[0]);
      if AllSpace(lines[0]) {
        i := FirstFilledIs(lines[1..]);
        assert forall j :: 0 < j < |lines| ==> lines[j] == lines[1..][j - 1];
        i := i + 1;
      }
    }
  }

  /** What the code decides of a section's text. */
  predicate Passes(text: string) {
    var first := FirstFilled(SplitLines(text));
    Strip(text) != "" && (NaWithReason(first) || !(IsPlaceholder(first) || OpensNa(first)))
  }

  lemma OnlyFirst(lines: seq<string>, i: nat)
    requires FirstOf(lines, i)
    ensures forall j: nat :: FirstOf(lines, j) ==> j == i
  {
  }

  lemma PassesMeans(text: string)
    ensures Passes(text) <==> Answered(text)
  {
    var lines := SplitLines(text);
    var i := FirstFilledIs(lines);
    StripBlank(text);
    BlankLines(text);
    if i < |lines| {
      ReasonedMeans(lines[i]);
      SilentMeans(lines[i]);
      OnlyFirst(lines, i);
      assert Passes(text) <==> Reasoned(lines[i]) || !Silent(lines[i]);
    }
  }

  // ----- Unfilled sections -----

  /** The headings of the sections of a body that hold no answer. */
  ghost function Unfilled(secs: seq<Section>, bodies: map<string, string>): seq<string> {
    if secs == [] then []
    else
      (if secs[0].key in bodies && Answered(bodies[secs[0].key]) then [] else [secs[0].heading])
      + Unfilled(secs[1..], bodies)
  }

  lemma {:induction false} UnfilledConcat(a: seq<Section>, b: seq<Section>, bodies: map<string, string>)
    ensures Unfilled(a + b, bodies) == Unfilled(a, bodies) + Unfilled(b, bodies)
  {
    if a == [] {
      assert a + b == b;
    } else {
      assert (a + b)[1..] == a[1..] + b;
      UnfilledConcat(a[1..], b, bodies);
    }
  }

  /** One turn of the loop: the heading, or nothing when the section is answered. */
  method CheckSection(sec: Section, bodies: map<string, string>) returns (out: seq<string>)
    ensures out == Unfilled([sec], bodies)
  {
    if sec.key in bodies {
      PassesMeans(bodies[sec.key]);
    }
    if sec.key !in bodies || Strip(bodies[sec.key]) == "" {
      return [sec.heading];
    }
    var first := FirstFilled(SplitLines(bodies[sec.key]));
    if NaWithReason(first) {
      return [];
    }
    if IsPlaceholder(first) || OpensNa(first) {
      return [sec.heading];
    }
    return [];
  }

  method UnfilledSections(secs: seq<Section>, body: string) returns (out: seq<string>)
    ensures out == Unfilled(secs, Bodies(secs, body))
  {
    var bodies := SectionBodies(secs, body);
    out := [];
    for i := 0 to |secs|
      invariant out == Unfilled(secs[..i], bodies)
    {
      UnfilledConcat(secs[..i], [secs[i]], bodies);
      assert secs[..i + 1] == secs[..i] + [secs[i]];
      var more := CheckSection(secs[i], bodies);
      out := out + more;
    }
    assert secs[..|secs|] == secs;
  }

  /** The headings of the sections without an answer: nothing given, or a text that opens
      with a placeholder or a bare n/a. */
  ghost function NotAnswered(secs: seq<Section>, given: map<string, string>): seq<string> {
    if secs == [] then []
    else
      var sec := secs[0];
      (if sec.key in given && Strip(given[sec.key]) != "" && Answered(Relined(Strip(given[sec.key])))
       then [] else [sec.heading])
      + NotAnswered(secs[1..], given)
  }

  lemma PromptUnanswered(guidance: string)
    requires PlainLine(guidance)
    ensures !Answered(Relined("TODO: " + guidance))
  {
    var p := "TODO: " + guidance;
    assert Trimmed(p) && SingleLine(p);
    SplitLinesOne(p);
    StripTrimmed(p);
    assert FirstFilled([p]) == p;
    TodoLine(p);
    PassesMeans(p);
  }

  lemma TodoLine(p: string)
    requires |p| > 4 && p[..5] == "TODO:"
    ensures IsPlaceholder(p) && !NaWithReason(p)
  {
    assert p[0] == p[..5][0] && p[1] == p[..5][1] && p[2] == p[..5][2] && p[3] == p[..5][3] && p[4] == p[..5][4];
    assert LStrip(p) == p;
    var t := Lower(p);
    assert t[..4] == [t[0], t[1], t[2], t[3]] == "todo";
    assert StartsWord(t, "todo");
    assert NaLen(t) == 0 by { assert t[0] == 't'; }
  }

  lemma {:induction false} UnfilledFrom(table: seq<Section>, k: nat, given: map<string, string>)
    requires k <= |table| && GoodTable(table)
    ensures Unfilled(table[k..], Expected(table, given)) == NotAnswered(table[k..], given)
    decreases |table| - k
  {
    if k < |table| {
      assert table[k..][1..] == table[k + 1..];
      UnfilledFrom(table, k + 1, given);
      ExpectedAt(table, given, k);
      AnsweredIs(table[k], given);
    }
  }

  /** What a section shows is an answer exactly when an answer was given. */
  lemma AnsweredIs(sec: Section, given: map<string, string>)
    requires PlainLine(sec.guidance)
    ensures Answered(Relined(BodyFor(sec, given))) <==>
            sec.key in given && Strip(given[sec.key]) != "" && Answered(Relined(Strip(given[sec.key])))
  {
    PromptUnanswered(sec.guidance);
  }

  /** A rendered request is reported unfilled in exactly the sections without an answer. */
  lemma UnfilledExactly(secs: seq<Section>, title: string, given: map<string, string>, level: string)
    requires GoodTable(secs) && SingleLine(title) && SingleLine(level) && PlainGiven(secs, given)
    ensures Unfilled(secs, Bodies(secs, Rendered(secs, title, given, level))) == NotAnswered(secs, given)
  {
    RoundTrip(secs, title, given, level);
    assert secs[0..] == secs;
    UnfilledFrom(secs, 0, given);
  }

  // ----- Two doors, one verdict -----

  predicate HasTemplate(secs: seq<Section>, body: string) {
    Bodies(secs, body) != map[]
  }

  /** `validate` without an evidence level. */
  ghost predicate Valid(secs: seq<Section>, body: string) {
    Unfilled(secs, Bodies(secs, body)) == []
  }

  /** The line is blank, a heading, or silent. */
  ghost predicate Hushed(line: string) {
    AllSpace(line) || (exists k: nat :: k < |line| && AllSpace(line[..k]) && line[k] == '#') || Silent(line)
  }

  ghost predicate NoSubstance(lines: seq<string>) {
    forall i :: 0 <= i < |lines| ==> Hushed(lines[i])
  }

  /** What the code decides of one stripped line. */
  predicate SaysNothing(text: string) {
    text == "" || text[0] == '#' || IsPlaceholder(text) || OpensNa(text)
  }

  lemma HashMeans(line: string)
    requires !AllSpace(line)
    ensures Strip(line) != ""
    ensures Strip(line)[0] == '#' <==> exists k: nat :: k < |line| && AllSpace(line[..k]) && line[k] == '#'
  {
    StripBlank(line);
    var r, k := RStrip(line), Lead(line);
    var w := StripsFront(line);
    if i: nat :| i < |line| && AllSpace(line[..i]) && line[i] == '#' {
      LeadIs(line, i);
    }
  }

  /** Stripping a line that is not blank takes off the lead, and white space behind. */
  lemma StripsFront(line: string) returns (w: string)
    requires Strip(line) != ""
    ensures line[Lead(line)..] == Strip(line) + w && AllSpace(w)
  {
    var r := RStrip(line);
    RStripParts(line);
    LStripParts(r);
    w := line[|r|..];
    var a := r[..|r| - |LStrip(r)|];
    assert line == a + (Strip(line) + w);
    LStripOf(a, Strip(line) + w);
  }

  lemma PlaceholderBehind(c: string, w: string)
    requires AllSpace(w) && LStrip(c) == c && LStrip(c + w) == c + w
    ensures IsPlaceholder(c + w) <==> IsPlaceholder(c)
  {
    SpaceBehind(c, w, "todo");
    SpaceBehind(c, w, "tbd");
    SpaceBehind(c, w, "fixme");
    SpaceBehind(c, w, "xxx");
    MarksBehind(c, w);
  }

  lemma OpensNaBehind(c: string, w: string)
    requires AllSpace(w) && LStrip(c) == c && LStrip(c + w) == c + w
    ensures OpensNa(c + w) <==> OpensNa(c)
  {
    SpaceBehind(c, w, "n/a");
    SpaceBehind(c, w, "na");
    SpaceBehind(c, w, "none");
    SpaceBehind(c, w, "nothing");
  }

  lemma LeadIgnored(line: string)
    ensures IsPlaceholder(LStrip(line)) <==> IsPlaceholder(line)
    ensures OpensNa(LStrip(line)) <==> OpensNa(line)
  {
    assert LStrip(LStrip(line)) == LStrip(line);
  }

  lemma SilentStripped(line: string)
    requires Strip(line) != ""
    ensures Silent(Strip(line)) <==> Silent(line)
  {
    var c := Strip(line);
    var w := StripsFront(line);
    assert LStrip(line) == c + w && LStrip(c) == c;
    PlaceholderBehind(c, w);
    OpensNaBehind(c, w);
    LeadIgnored(line);
    SilentMeans(line);
    SilentMeans(c);
  }

  lemma LowerConcat(c: string, w: string)
    ensures Lower(c + w) == Lower(c) + Lower(w)
  {
  }

  lemma NotPast(t: string, v: string, word: string)
    requires AllSpace(v) && |t| < |word| && forall i :: 0 <= i < |word| ==> !IsSpace(word[i])
    ensures !(word <= t + v)
  {
    if |word| <= |t + v| {
      assert (t + v)[|t|] == v[0] && IsSpace(v[0]) && !IsSpace(word[|t|]);
    }
  }

  lemma SpaceLowered(w: string)
    requires AllSpace(w)
    ensures AllSpace(Lower(w))
  {
  }

  lemma SpaceBehind(c: string, w: string, word: string)
    requires AllSpace(w) && forall i :: 0 <= i < |word| ==> !IsSpace(word[i])
    ensures StartsWord(Lower(c + w), word) <==> StartsWord(Lower(c), word)
  {
    LowerConcat(c, w);
    SpaceLowered(w);
    var t, v := Lower(c), Lower(w);
    if |t| < |word| {
      NotPast(t, v, word);
    } else {
      assert (t + v)[..|word|] == t[..|word|];
    }
  }

  lemma MarksBehind(c: string, w: string)
    requires AllSpace(w)
    ensures var t, u := Lower(c), Lower(c + w);
            (|t| >= 2 && t[0] == t[1] == '?') <==> (|u| >= 2 && u[0] == u[1] == '?')
  {
    LowerConcat(c, w);
    assert forall i :: 0 <= i < |w| ==> IsSpace(Lower(w)[i]);
  }

  lemma SaysNothingMeans(line: string)
    ensures SaysNothing(Strip(line)) <==> Hushed(line)
  {
    StripBlank(line);
    if !AllSpace(line) {
      HashMeans(line);
      SilentStripped(line);
      SilentMeans(Strip(line));
    }
  }

  /** The loop over the lines of a body that is not on the template. */
  method OnlySilence(lines: seq<string>) returns (silent: bool)
    ensures silent <==> NoSubstance(lines)
  {
    var i := 0;
    while i < |lines|
      invariant 0 <= i <= |lines|
      invariant forall j :: 0 <= j < i ==> Hushed(lines[j])
    {
      var text := Strip(lines[i]);
      SaysNothingMeans(lines[i]);
      if text != "" && text[0] != '#' && !(IsPlaceholder(text) || OpensNa(text)) {
        return false;
      }
      i := i + 1;
    }
    return true;
  }

  /** On the template the two doors agree; off it, only silence is refused here, and
      whatever is refused here the other door refuses too. */
  method IsHollow(secs: seq<Section>, body: string) returns (hollow: bool)
    ensures HasTemplate(secs, body) ==> (hollow <==> !Valid(secs, body))
    ensures !HasTemplate(secs, body) ==> (hollow <==> NoSubstance(SplitLines(body)))
    ensures hollow && secs != [] ==> !Valid(secs, body)
  {
    var bodies := SectionBodies(secs, body);
    if bodies != map[] {
      var unfilled := UnfilledSections(secs, body);
      hollow := unfilled != [];
    } else {
      hollow := OnlySilence(SplitLines(body));
    }
  }

}
