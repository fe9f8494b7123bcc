/** When clearing a list of entries marks those and no others, judged on the text as it was, and
    the pair of identical entries that defeats it (src/otaman_core/blocked_entries.py). */
module Clearing {
  import opened Text
  import opened Occurrences
  import opened BlockedEntries
  import opened TombstoneFrame

  // ----- Heading lines -----

  /** The heading line of a block, without white space at its end. */
  function Heading(b: string): string {
    RStrip(b[..Find(b, '\n')])
  }

  lemma HeadingLine(b: string)
    requires IsLive(b)
    ensures |HEADER| <= Find(b, '\n') && HEADER <= b[..Find(b, '\n')]
  {
    var k := Find(b, '\n');
    PatternChars();
    forall i | 0 <= i < |HEADER|
      ensures b[i] != '\n'
    {
      assert b[i] == HEADER[i];
    }
    assert b[..k][..|HEADER|] == b[..|HEADER|];
  }

  lemma HeadingParts(b: string)
    requires IsLive(b)
    ensures HEADER <= Heading(b) && '\n' !in Heading(b) && Heading(b) <= RStrip(b) && Heading(b) <= b
  {
    HeadingLine(b);
    HeadingOf(b, b[..Find(b, '\n')], Heading(b));
  }

  lemma HeadingOf(b: string, l: string, g: string)
    requires l <= b && HEADER <= l && '\n' !in l && g == RStrip(l)
    ensures HEADER <= g && '\n' !in g && g <= RStrip(b) && g <= b
  {
    StripKeepsFront(l, HEADER);
    RStripParts(l);
    assert b[..|l|] == l;
    FrontOf(b, |l|, g);
    StripKeepsFront(b, g);
  }

  lemma FrontOf(b: string, n: nat, g: string)
    requires n <= |b| && '\n' !in b[..n] && g <= b[..n]
    ensures g <= b && '\n' !in g
  {
    assert b[..n][..|g|] == b[..|g|];
    assert forall i :: 0 <= i < |g| ==> g[i] == b[..n][i];
  }

  /** What begins a text and does not end in white space begins the right-stripped text. */
  lemma StripKeepsFront(s: string, h: string)
    requires h <= s && h != "" && !IsSpace(h[|h| - 1])
    ensures h <= RStrip(s)
  {
    var n := |h|;
    assert s[n - 1] == h[n - 1];
    RStripKeeps(s, n - 1);
    RStripParts(s);
    assert RStrip(s)[..n] == s[..n];
  }

  /** Words that neither break a line nor hold an entry header. */
  predicate HeaderFree(s: string) {
    '\n' !in s && !Contains(s, HEADER)
  }

  lemma GapApart(x: string, y: string)
    requires |y| > 1 && y[0] == ' ' && y[1] != 'B'
    ensures Contains(x + y, HEADER) <==> Contains(x, HEADER) || Contains(y, HEADER)
  {
    assert HEADER[2] == ' ' && HEADER[3] == 'B';
    forall k: nat | k < |x| < k + |HEADER|
      ensures !OccursAt(x + y, HEADER, k)
    {
      if OccursAt(x + y, HEADER, k) {
        AcrossSeam(x, y, HEADER, k);
      }
    }
    SeamContains(x, y, HEADER);
  }

  /** A trailer of such words holds no header either. */
  lemma TrailerClean(reason: string, today: string, w: string)
    requires HeaderFree(reason) && HeaderFree(today) && AllSpace(w)
    ensures !Contains("\n" + Trailer(reason, today) + w, HEADER)
  {
    var last := " -->" + w;
    var dash := " " + [EM_DASH] + " ";
    AbsentChar(last, HEADER);
    GapApart(reason, last);
    FrontApart(dash, reason + last, HEADER);
    var more := dash + (reason + last);
    GapApart(today, more);
    FrontApart("\ncleared ", today + more, HEADER);
    TrailerText(reason, today, w);
  }

  lemma TrailerText(reason: string, today: string, w: string)
    ensures "\n" + Trailer(reason, today) + w ==
            "\ncleared " + (today + (" " + [EM_DASH] + " " + (reason + (" -->" + w))))
  {
    assert "\ncleared " == "\n" + "cleared ";
  }

  /** A heading found in a marked block was in the block before. */
  lemma MarkedHeadings(b: string, g: string, reason: string, today: string)
    requires HEADER <= g && '\n' !in g && HeaderFree(reason) && HeaderFree(today)
    ensures Contains(Tombstoned(b, reason, today), g) ==> Contains(b, g)
  {
    var core := RStrip(b);
    var w := b[|core|..];
    var z := "\n" + Trailer(reason, today) + w;
    RStripParts(b);
    assert b == core + w;
    assert g[0] == HEADER[0];
    FrontApart(OPEN + " ", core + z, g);
    LineApart(core, z, g);
    TrailerClean(reason, today, w);
    if Contains(z, g) {
      ContainsPrefix(z, g, HEADER);
    } else if Contains(core, g) {
      ContainsLeft(core, w, g);
    }
  }

  // ----- The reason on record -----

  lemma {:induction false} SkipUncleared(x: string, z: string)
    requires forall k: nat :: k < |x| ==> !OccursAt(x + z, CLEARED, k)
    ensures FindCleared(x + z) == if z == "" then NotCleared else FindCleared(z)
  {
    if x == "" {
      assert x + z == z;
    } else {
      assert (x + z)[1..] == x[1..] + z;
      forall k: nat | k < |x[1..]|
        ensures !OccursAt(x[1..] + z, CLEARED, k)
      {
        OccursShift(x + z, CLEARED, k);
      }
      SkipUncleared(x[1..], z);
      NotHere(x + z);
    }
  }

  lemma NotHere(s: string)
    requires !OccursAt(s, CLEARED, 0)
    ensures ClearedAt(s) == NotCleared
  {
    assert |CLEARED| <= |s| ==> s[0..|CLEARED|] == s[..|CLEARED|];
  }

  lemma LeadingDash(y: string)
    ensures DashAt(LStrip(" " + ([EM_DASH] + (" " + y)))) == ReasonAt(LStrip(" " + y))
  {
    var m := [EM_DASH] + (" " + y);
    LStripOf(" ", m);
    assert m[1..] == " " + y;
  }

  lemma BlankReason(reason: string, w: string)
    requires AllSpace(reason)
    ensures ReasonAt(LStrip(" " + (reason + (" -->" + w)))) == ClearedFor(Strip(reason))
  {
    var r := "-->" + w;
    var a := " " + reason + " ";
    assert " " + (reason + (" -->" + w)) == a + r by {
      assert " -->" + w == " " + r;
    }
    LStripOf(a, r);
    FindBefore("--", ">" + w, '>');
    assert r == "--" + (">" + w);
    StripBlank(reason);
    assert r[..0] == "";
  }

  lemma ClosedAfter(l: string, w: string)
    requires '>' !in l
    ensures ReasonAt(l + (" -->" + w)) == ClearedFor(Strip(l))
  {
    var r := l + (" -->" + w);
    FindBefore(l + " --", ">" + w, '>');
    assert r == (l + " --") + (">" + w);
    assert r[|l| + 1] == r[|l| + 2] == '-';
    assert r[..|l| + 1] == l + " ";
    StripMoreSpace(l, " ");
  }

  lemma ReasonClosed(reason: string, w: string)
    requires '>' !in reason
    ensures ReasonAt(LStrip(" " + (reason + (" -->" + w)))) == ClearedFor(Strip(reason))
  {
    if AllSpace(reason) {
      BlankReason(reason, w);
    } else {
      var a, l := " " + reason, LStrip(" " + reason);
      var i :| 0 <= i < |reason| && !IsSpace(reason[i]);
      assert a[i + 1] == reason[i];
      LStripAppend(a, " -->" + w);
      assert " " + (reason + (" -->" + w)) == a + (" -->" + w);
      LStripParts(a);
      StripLead(reason);
      ClosedAfter(l, w);
    }
  }

  lemma StripLead(s: string)
    ensures Strip(LStrip(" " + s)) == Strip(s)
  {
    LStripOf("", "");
    LeadDropped(" " + s);
    RStripParts(s);
    LeadDropped(s);
    assert LStrip(" " + s) == LStrip(s) by {
      assert (" " + s)[1..] == s;
    }
  }

  lemma LeadDropped(s: string)
    ensures Strip(LStrip(s)) == Strip(s)
  {
    LStripParts(s);
    var a, l := s[..|s| - |LStrip(s)|], LStrip(s);
    var r := RStrip(l);
    RStripParts(l);
    var v := l[|r|..];
    if r == "" {
      assert AllSpace(s) by {
        assert s == a + v;
      }
      StripBlank(s);
      StripBlank(l);
    } else {
      assert l[0] == r[0];
      assert LStrip(r) == r;
      assert s == a + r + v;
      StripOf(a, r, v);
      StripTrimmed(r);
      assert Strip(l) == LStrip(r);
    }
  }

  /** The trailer by itself reads as the reason. */
  lemma TrailerRead(reason: string, today: string, w: string)
    requires IsDate(today) && '>' !in reason && AllSpace(w)
    ensures FindCleared(Trailer(reason, today) + w) == ClearedFor(Strip(reason))
  {
    var y := reason + (" -->" + w);
    var d := today + (" " + ([EM_DASH] + (" " + y)));
    var s := CLEARED + (" " + d);
    assert Trailer(reason, today) + w == s by {
      TrailerOrder(reason, today, w);
    }
    assert s[..7] == CLEARED && s[7..] == " " + d;
    LStripOf(" ", d);
    assert d[..10] == today && d[10..] == " " + ([EM_DASH] + (" " + y));
    LeadingDash(y);
    ReasonClosed(reason, w);
  }

  lemma TrailerOrder(reason: string, today: string, w: string)
    ensures Trailer(reason, today) + w ==
            CLEARED + (" " + (today + (" " + ([EM_DASH] + (" " + (reason + (" -->" + w)))))))
  {
    assert "cleared " == CLEARED + " ";
  }

  /** What is put on record reads back: for a block that does not speak of anything cleared, a well-formed
      date and a reason without an angle bracket, a tombstoned block gives the reason, stripped. */
  lemma ReasonRecorded(b: string, reason: string, today: string)
    requires IsLive(b) && !Contains(b, CLEARED) && IsDate(today) && '>' !in reason
    ensures EntryOf(Tombstoned(b, reason, today)).tombstoned
    ensures EntryOf(Tombstoned(b, reason, today)).clearedReason == Strip(reason)
  {
    var core := RStrip(b);
    RStripParts(b);
    var w := b[|core|..];
    var x, z := OPEN + (" " + (core + "\n")), Trailer(reason, today) + w;
    assert Tombstoned(b, reason, today) == x + z by {
      RecordText(core, Trailer(reason, today), w);
    }
    NothingCleared(b, core, w, z);
    SkipUncleared(x, z);
    TrailerRead(reason, today, w);
  }

  lemma RecordText(core: string, trailer: string, w: string)
    ensures OPEN + " " + (core + ("\n" + trailer + w)) == OPEN + (" " + (core + "\n")) + (trailer + w)
  {
  }

  lemma NothingCleared(b: string, core: string, w: string, z: string)
    requires b == core + w && !Contains(b, CLEARED)
    ensures var x := OPEN + (" " + (core + "\n"));
            forall k: nat :: k < |x| ==> !OccursAt(x + z, CLEARED, k)
  {
    var o := OPEN + " ";
    var x := OPEN + (" " + (core + "\n"));
    assert x == o + (core + "\n");
    if Contains(core, CLEARED) {
      ContainsLeft(core, w, CLEARED);
    }
    LineApart(core, "\n", CLEARED);
    AbsentChar("\n", CLEARED);
    FrontApart(o, core + "\n", CLEARED);
    LineApart(x, z, CLEARED);
    forall k: nat | k < |x|
      ensures !OccursAt(x + z, CLEARED, k)
    {
      if k + |CLEARED| <= |x| {
        OccursLeft(x, z, CLEARED, k);
        if OccursAt(x, CLEARED, k) {
          IndexOfFirst(x, CLEARED, k);
        }
      }
    }
  }

  // ----- The text before a block -----

  lemma {:induction false} TiledAt(bs: seq<string>, k: nat)
    requires WellTiled(bs) && k + 1 < |bs|
    ensures Joins(bs[k], bs[k + 1])
  {
    if k > 0 {
      TiledAt(bs[1..], k - 1);
    }
  }

  lemma ConcatSnoc(bs: seq<string>, k: nat)
    requires k < |bs|
    ensures Concat(bs[..k + 1]) == Concat(bs[..k]) + bs[k]
  {
    assert bs[..k + 1] == bs[..k] + [bs[k]];
    ConcatAppend(bs[..k], [bs[k]]);
    assert [bs[k]][1..] == [];
    assert Concat([bs[k]]) == bs[k] + "";
  }

  lemma EndsBehind(pre: string, bs: seq<string>, k: nat)
    requires k < |bs| && bs[k] != "" && bs[k][|bs[k]| - 1] == '\n'
    ensures EndsInLineFeed(pre + Concat(bs[..k + 1]))
  {
    ConcatSnoc(bs, k);
    EndsAfter(pre, Concat(bs[..k]), bs[k]);
  }

  lemma JoinEnds(b: string, next: string)
    requires Joins(b, next)
    ensures b != "" && b[|b| - 1] == '\n'
  {
  }

  lemma EndsTiled(pre: string, bs: seq<string>, k: nat)
    requires WellTiled(bs) && k + 1 < |bs|
    ensures EndsInLineFeed(pre + Concat(bs[..k + 1]))
  {
    TiledAt(bs, k);
    JoinEnds(bs[k], bs[k + 1]);
    EndsBehind(pre, bs, k);
  }

  /** It ends its last line. */
  lemma EndsBefore(pre: string, bs: seq<string>, k: nat)
    requires WellTiled(bs) && PreambleFits(pre, bs) && k < |bs|
    ensures EndsInLineFeed(pre + Concat(bs[..k]))
  {
    if k == 0 {
      EndsAlone(pre, bs);
    } else {
      EndsTiled(pre, bs, k - 1);
    }
  }

  lemma EndsAlone(pre: string, bs: seq<string>)
    requires PreambleFits(pre, bs) && bs != []
    ensures EndsInLineFeed(pre + Concat(bs[..0]))
  {
    assert pre + "" == pre;
  }

  lemma EndsAfter(a: string, x: string, b: string)
    requires b != "" && b[|b| - 1] == '\n'
    ensures EndsInLineFeed(a + (x + b))
  {
  }

  /** The heading line of block `k` stands first where the block begins. */
  predicate OwnHeading(text: string, k: nat)
    requires k < |BlocksOf(text)|
  {
    IndexOf(text, Heading(BlocksOf(text)[k])) == StartOf(text, k)
  }

  function Before(text: string, k: nat): string
    requires k <= |BlocksOf(text)|
  {
    Preamble(text) + Concat(BlocksOf(text)[..k])
  }

  lemma BeforeEnds(text: string, k: nat)
    requires k < |BlocksOf(text)|
    ensures EndsInLineFeed(Before(text, k)) && |Before(text, k)| == StartOf(text, k)
  {
    ParsedFits(text);
    EndsBefore(Preamble(text), BlocksOf(text), k);
  }

  lemma OwnHeadingMeans(text: string, k: nat)
    requires k < |BlocksOf(text)| && IsLive(BlocksOf(text)[k])
    ensures OwnHeading(text, k) <==> !Contains(Before(text, k), Heading(BlocksOf(text)[k]))
    ensures OwnHeading(text, k) ==> IndexOf(text, BlocksOf(text)[k]) == StartOf(text, k)
  {
    var x, b := Before(text, k), BlocksOf(text)[k];
    BeforeEnds(text, k);
    HeadingParts(b);
    var c := Rest(text, k);
    FirstLineHere(x, b, Heading(b), c);
  }

  lemma FirstLineHere(x: string, b: string, g: string, c: string)
    requires EndsInLineFeed(x) && g != "" && g <= b && '\n' !in g
    ensures IndexOf(x + (b + c), g) == |x| <==> !Contains(x, g)
    ensures IndexOf(x + (b + c), g) == |x| ==> IndexOf(x + (b + c), b) == |x|
  {
    var text, y := x + (b + c), b[|g|..] + c;
    assert b == g + b[|g|..];
    Regroup2(g, b[|g|..], c);
    LineApart(x, g + y, g);
    FirstHere(x, g, y);
    OccursRight(x, b + c, b, |x|);
    Halves(b, c);
    IndexOfFirst(text, b, |x|);
    ContainsPrefix(text, b, g);
  }

  lemma Regroup2(a: string, b: string, c: string)
    ensures (a + b) + c == a + (b + c)
  {
  }

  lemma Rest(text: string, k: nat) returns (c: string)
    requires k < |BlocksOf(text)|
    ensures text == Before(text, k) + (BlocksOf(text)[k] + c)
  {
    var bs := BlocksOf(text);
    Tiling(text);
    Middle(bs, k, "");
    ConcatMiddle(bs[..k], bs[k], bs[k + 1..]);
    c := Concat(bs[k + 1..]);
    Regroup2(Preamble(text), Concat(bs[..k]), bs[k] + c);
  }

  // ----- Marking one block brings no heading in front of the others -----

  lemma SwapKeeps(a: string, b: string, c: string, t: string, g: string)
    requires '\n' !in g && EndsInLineFeed(a) && EndsInLineFeed(b) && EndsInLineFeed(t)
    requires Contains(t, g) ==> Contains(b, g)
    ensures Contains(a + (t + c), g) ==> Contains(a + (b + c), g)
  {
    LineApart(a, t + c, g);
    LineApart(t, c, g);
    LineApart(a, b + c, g);
    LineApart(b, c, g);
  }

  lemma MarkingKeeps(pre: string, bs: seq<string>, j: nat, k: nat, g: string, reason: string, today: string)
    requires WellTiled(bs) && PreambleFits(pre, bs) && j < |bs| && k < |bs| && j != k && IsLive(bs[j])
    requires HEADER <= g && '\n' !in g && HeaderFree(reason) && HeaderFree(today)
    ensures Contains(pre + Concat(bs[j := Tombstoned(bs[j], reason, today)][..k]), g)
            ==> Contains(pre + Concat(bs[..k]), g)
  {
    var t := Tombstoned(bs[j], reason, today);
    if k < j {
      assert bs[j := t][..k] == bs[..k];
    } else {
      EndsBefore(pre, bs, j);
      TiledAt(bs, j);
      TombstonedEnds(bs[j], reason, today);
      MarkedHeadings(bs[j], g, reason, today);
      var a, c := CutBefore(pre, bs, j, k, t);
      SwapKeeps(a, bs[j], c, t, g);
    }
  }

  lemma TombstonedEnds(b: string, reason: string, today: string)
    requires IsLive(b) && b[|b| - 1] == '\n'
    ensures EndsInLineFeed(Tombstoned(b, reason, today))
  {
    var core, w := TombstonedIs(b, reason, today);
    LastOf(core, "\n" + Trailer(reason, today), w);
  }

  lemma CutBefore(pre: string, bs: seq<string>, j: nat, k: nat, t: string) returns (a: string, c: string)
    requires j < k < |bs|
    ensures a == pre + Concat(bs[..j])
    ensures pre + Concat(bs[..k]) == a + (bs[j] + c) && pre + Concat(bs[j := t][..k]) == a + (t + c)
  {
    var us := bs[..k];
    Middle(us, j, t);
    assert us[..j] == bs[..j] && us[j] == bs[j] && bs[j := t][..k] == us[j := t];
    ConcatMiddle(us[..j], us[j], us[j + 1..]);
    ConcatMiddle(us[..j], t, us[j + 1..]);
    a, c := pre + Concat(us[..j]), Concat(us[j + 1..]);
    Regroup2(pre, Concat(us[..j]), us[j] + c);
    Regroup2(pre, Concat(us[..j]), t + c);
  }

  lemma HeadingKept(text: string, after: string, j: nat, k: nat, reason: string, today: string)
    requires j < |BlocksOf(text)| && k < |BlocksOf(text)| && j != k
    requires IsLive(BlocksOf(text)[j]) && IsLive(BlocksOf(text)[k])
    requires HeaderFree(reason) && HeaderFree(today)
    requires OnlyMarked(text, after, j, reason, today) && OwnHeading(text, k)
    ensures OwnHeading(after, k)
  {
    var bs := BlocksOf(text);
    ParsedFits(text);
    HeadingParts(bs[k]);
    MarkingKeeps(Preamble(text), bs, j, k, Heading(bs[k]), reason, today);
    OwnHeadingMeans(text, k);
    OwnHeadingMeans(after, k);
  }

  // ----- A condition on the text as it was -----

  predicate OwnHeadings(text: string, ks: seq<nat>) {
    forall i :: 0 <= i < |ks| ==> ks[i] < |BlocksOf(text)| && OwnHeading(text, ks[i])
  }

  /** When no target's heading line stands anywhere before the target, and the words of the trailer
      hold no heading, every turn finds its own entry. */
  lemma {:induction false} HeadingsClear(text: string, es: seq<Entry>, ks: seq<nat>, reason: string, today: string)
    requires TargetsAt(es, BlocksOf(text), ks) && OwnHeadings(text, ks)
    requires HeaderFree(reason) && HeaderFree(today)
    ensures ClearInTurn(text, es, ks, reason, today)
    decreases |ks|
  {
    if ks != [] {
      var k, one := ks[0], TombstoneOne(text, es[0], reason, today);
      OwnHeadingMeans(text, k);
      TombstoneOneFrame(text, k, es[0], reason, today);
      TargetsLeft(es, BlocksOf(text), ks, Tombstoned(es[0].block, reason, today));
      forall i | 0 <= i < |ks[1..]|
        ensures ks[1..][i] < |BlocksOf(one)| && OwnHeading(one, ks[1..][i])
      {
        assert ks[1..][i] == ks[i + 1];
        HeadingKept(text, one, k, ks[i + 1], reason, today);
      }
      HeadingsClear(one, es[1..], ks[1..], reason, today);
    }
  }

  /** So on such texts the list, in whatever order, is cleared in place and nothing else changes. */
  lemma ClearingByHeading(text: string, es: seq<Entry>, ks: seq<nat>, reason: string, today: string)
    requires TargetsAt(es, BlocksOf(text), ks) && OwnHeadings(text, ks)
    requires HeaderFree(reason) && HeaderFree(today)
    ensures var after := TombstoneAll(text, es, reason, today);
            Preamble(after) == Preamble(text) && BlocksOf(after) == MarkAll(BlocksOf(text), ks, reason, today)
  {
    HeadingsClear(text, es, ks, reason, today);
    TombstoneAllFrame(text, es, ks, reason, today);
  }
}
