/** Exactly when clearing entries written line by line is right, and what becomes of them otherwise
    (src/otaman_core/blocked_entries.py). */
module RenderedClearing {
  import opened Text
  import opened Occurrences
  import opened BlockedEntries
  import opened TombstoneFrame
  import opened Clearing

  // ----- Texts that leave no comment open -----

  lemma {:induction false} NoOpenSuffix(a: string, c: string, bol: bool)
    requires NoOpen(a + c, bol)
    ensures NoOpen(c, EndsLine(a, bol)) && NoOpen(c, false)
  {
    if a == "" {
      assert a + c == c;
    } else {
      assert (a + c)[1..] == a[1..] + c;
      NoOpenSuffix(a[1..], c, a[0] == '\n');
    }
  }

  /** In front of text that starts neither with white space nor inside a comment opening. */
  lemma {:induction false} NoOpenBehind(a: string, y: string, bol: bool)
    requires y != "" && !IsSpace(y[0]) && y[0] != '!' && y[0] != '-' && NoOpen(y, true)
    ensures NoOpen(a + y, bol)
  {
    if a == "" {
      assert a + y == y;
    } else {
      assert (a + y)[1..] == a[1..] + y;
      NoOpenBehind(a[1..], y, a[0] == '\n');
      NotOpened(a, y);
    }
  }

  lemma NotOpened(a: string, y: string)
    requires a != "" && y != "" && !IsSpace(y[0]) && y[0] != '!' && y[0] != '-'
    ensures !CommentOpen(a + y)
  {
    var s := a + y;
    assert s[|a|] == y[0];
    assert OPEN[1] == '!' && OPEN[2] == '-' && OPEN[3] == '-';
    if |a| >= 4 {
      assert s[4..][|a| - 4] == y[0];
    }
  }

  lemma {:induction false} NoOpenJoin(x: string, y: string, bol: bool)
    requires EndsLine(x, bol) && NoOpen(x, bol) && NoOpen(y, true)
    ensures NoOpen(x + y, bol)
  {
    if x == "" {
      assert x + y == y;
    } else {
      assert (x + y)[1..] == x[1..] + y;
      NoOpenJoin(x[1..], y, x[0] == '\n');
      OpenedBefore(x, y);
    }
  }

  lemma OpenedBefore(x: string, y: string)
    requires x != "" && x[|x| - 1] == '\n'
    ensures CommentOpen(x + y) ==> CommentOpen(x)
  {
    var s := x + y;
    PatternChars();
    if CommentOpen(s) {
      assert s[|x| - 1] == '\n';
      OpenedLine(s, |x| - 1);
      assert forall i :: 0 <= i < |x| - 4 ==> x[4..][i] == s[4..][i];
    }
  }

  lemma OpenedLine(s: string, k: nat)
    requires OPEN <= s && k < |s| && s[k] == '\n'
    ensures k >= 4
  {
    PatternChars();
    forall i | 0 <= i < 4
      ensures s[i] != '\n'
    {
      assert s[i] == OPEN[i];
    }
  }

  // ----- Parsing what follows such a text -----

  predicate Sealed(z: string) {
    EndsInLineFeed(z) && NoOpen(z, true)
  }

  lemma SealedEnd(a: string, b: string)
    requires Sealed(a + b) && b != ""
    ensures b[|b| - 1] == '\n'
  {
    assert (a + b)[|a + b| - 1] == b[|b| - 1];
  }

  lemma SealedBody(a: string, h: string, x: string)
    requires Sealed(a + (h + x)) && h != ""
    ensures NoOpen(x, false)
  {
    Regroup2(a, h, x);
    NoOpenSuffix(a + h, x, true);
  }

  lemma SealedSplit(a: string, b: string)
    requires Sealed(a + b) && HasHeader(b)
    ensures b[|b| - 1] == '\n' && NoOpen(Body(b), false)
  {
    SealedEnd(a, b);
    var h := b[..HeaderLen(b)];
    assert b == h + Body(b);
    SealedBody(a, h, Body(b));
  }

  lemma ConcatLast(pre: string, bs: seq<string>)
    requires bs != []
    ensures pre + Concat(bs) == (pre + Concat(bs[..|bs| - 1])) + bs[|bs| - 1]
  {
    var n := |bs| - 1;
    ConcatSnoc(bs, n);
    assert bs[..n + 1] == bs;
    Regroup2(pre, Concat(bs[..n]), bs[n]);
  }

  lemma LastBlock(pre: string, bs: seq<string>)
    requires bs != [] && HasHeader(bs[|bs| - 1]) && Sealed(pre + Concat(bs))
    ensures bs[|bs| - 1][|bs[|bs| - 1]| - 1] == '\n' && NoOpen(Body(bs[|bs| - 1]), false)
  {
    ConcatLast(pre, bs);
    SealedSplit(pre + Concat(bs[..|bs| - 1]), bs[|bs| - 1]);
  }

  lemma {:induction false} TiledAppend(bs: seq<string>, us: seq<string>)
    requires WellTiled(bs) && WellTiled(us) && bs != [] && us != []
    requires Joins(bs[|bs| - 1], us[0])
    ensures WellTiled(bs + us)
  {
    assert (bs + us)[1..] == bs[1..] + us;
    if |bs| == 1 {
      assert bs[1..] + us == us;
    } else {
      TiledAppend(bs[1..], us);
      assert (bs + us)[1] == bs[1];
    }
  }

  lemma {:induction false} TiledHeaders(bs: seq<string>, k: nat)
    requires WellTiled(bs) && k < |bs|
    ensures GoodBlock(bs[k])
  {
    if k > 0 {
      TiledHeaders(bs[1..], k - 1);
    }
  }

  /** Blocks behind such a text are parsed as they stand. */
  lemma SealedParse(z: string, us: seq<string>)
    requires Sealed(z) && WellTiled(us) && us != []
    ensures Preamble(z + Concat(us)) == Preamble(z) && BlocksOf(z + Concat(us)) == BlocksOf(z) + us
  {
    var pre, bs := Preamble(z), BlocksOf(z);
    ParsedFits(z);
    Tiling(z);
    if bs == [] {
      assert pre + "" == pre && bs + us == us;
      FittingParses(pre, us);
    } else {
      TiledHeaders(bs, |bs| - 1);
      LastBlock(pre, bs);
      TiledAppend(bs, us);
      assert (bs + us)[0] == bs[0];
      FittingParses(pre, bs + us);
      ConcatAppend(bs, us);
      Regroup2(pre, Concat(bs), Concat(us));
    }
  }

  // ----- Blocks written line by line -----

  /** A live entry that ends in one line feed and leaves no comment open. */
  predicate EntryBlock(b: string) {
    IsLive(b) && GoodBlock(b) && NoOpen(Body(b), false) && b == RStrip(b) + "\n"
  }

  const MARK := OPEN + " "

  /** The line a marked block ends in. */
  function LastLine(reason: string, today: string): string {
    Trailer(reason, today) + "\n"
  }

  lemma MarkedText(b: string, reason: string, today: string)
    requires b == RStrip(b) + "\n"
    ensures Tombstoned(b, reason, today) == MARK + (b + LastLine(reason, today))
  {
    var r := RStrip(b);
    assert b[|r|..] == "\n";
    Regroup2("\n", Trailer(reason, today), "\n");
    Regroup2(r, "\n", LastLine(reason, today));
  }

  lemma LastLineSealed(reason: string, today: string)
    requires '\n' !in reason && '\n' !in today
    ensures var y := LastLine(reason, today); y != "" && y[0] == 'c' && y[|y| - 1] == '\n' && NoOpen(y, true)
  {
    TrailerLine(reason, today);
    CalmLine(Trailer(reason, today), "\n", true);
  }

  lemma EntrySealed(b: string)
    requires EntryBlock(b)
    ensures b != "" && b[0] == '#' && b[|b| - 1] == '\n' && NoOpen(b, true)
  {
    assert b[0] == HEADER[0];
    assert b == HEADER + Body(b);
    PatternChars();
    NoOpenLine(HEADER, Body(b), true);
  }

  lemma {:induction false} NoOpenLine(h: string, y: string, bol: bool)
    requires '\n' !in h && h != "" && (bol ==> h[0] != '<') && NoOpen(y, false)
    ensures NoOpen(h + y, bol)
  {
    assert (h + y)[0] == h[0] && OPEN[0] == '<';
    assert (h + y)[1..] == h[1..] + y;
    if |h| == 1 {
      assert h[1..] + y == y;
    } else {
      NoOpenLine(h[1..], y, false);
    }
  }

  lemma MarkedSealed(b: string, reason: string, today: string)
    requires EntryBlock(b) && '\n' !in reason && '\n' !in today
    ensures var t := Tombstoned(b, reason, today);
            t != "" && t[0] == '<' && t[|t| - 1] == '\n' && NoOpen(t, true)
  {
    var y := LastLine(reason, today);
    MarkedText(b, reason, today);
    LastLineSealed(reason, today);
    NoOpenBehind(MARK + b, y, true);
    Regroup2(MARK, b, y);
  }

  // ----- Two identical entries -----

  /** A marked block holds the block, first behind the comment opening. */
  lemma InMark(b: string, reason: string, today: string)
    requires IsLive(b) && b == RStrip(b) + "\n"
    ensures IndexOf(Tombstoned(b, reason, today), b) == |MARK|
  {
    var y := LastLine(reason, today);
    assert b[0] == HEADER[0];
    MarkedText(b, reason, today);
    FrontApart(MARK, b + y, b);
    FirstHere(MARK, b, y);
    AbsentChar(MARK, b);
  }

  /** Marking a marked block again: it disappears inside the second comment. */
  lemma MarkedTwice(e: Entry, b: string, c: string, reason: string, today: string)
    requires Holds(e, b) && b == RStrip(b) + "\n"
    ensures var t := Tombstoned(b, reason, today);
            TombstoneOne(t + c, e, reason, today) == (MARK + (t + LastLine(reason, today))) + c
  {
    var t, y := Tombstoned(b, reason, today), LastLine(reason, today);
    InMark(b, reason, today);
    MarkedText(b, reason, today);
    ContainsLeft(t, c, b);
    Regroup2(MARK, b + y, c);
    Regroup2(b, y, c);
    ReplaceHere(MARK, b, y + c, t);
    Regroup2(t, y, c);
    Regroup2(MARK, t + y, c);
  }

  lemma FirstTurn(e: Entry, b: string, c: string, reason: string, today: string)
    requires Holds(e, b)
    ensures TombstoneOne(b + c, e, reason, today) == Tombstoned(b, reason, today) + c
  {
    var t := Tombstoned(b, reason, today);
    assert "" + (b + c) == b + c && "" + (t + c) == t + c;
    Halves(b, c);
    IndexOfFirst(b + c, b, 0);
    ReplaceHere("", b, c, t);
  }

  /** Two identical entries cleared in one call: the second turn marks the first entry again, and the
      second stays on the live list. */
  lemma IdenticalPair(b: string, reason: string, today: string)
    requires EntryBlock(b) && !EntryOf(b).tombstoned && '\n' !in reason && '\n' !in today
    ensures var e := EntryOf(b);
            var after := TombstoneAll(b + b, [e, e], reason, today);
            && EntriesOf(BlocksOf(b + b), false) == [e, e]
            && after == (MARK + (Tombstoned(b, reason, today) + LastLine(reason, today))) + b
            && OnLiveList(e, after)
  {
    PairParsed(b, b);
    EntriesTwo(b);
    LiveEntryHolds(b);
    PairCleared(EntryOf(b), b, reason, today);
    PairSealed(b, reason, today);
    LastAlone(MARK + (Tombstoned(b, reason, today) + LastLine(reason, today)), b);
  }

  lemma LastAlone(z: string, b: string)
    requires Sealed(z) && EntryBlock(b) && !EntryOf(b).tombstoned
    ensures OnLiveList(EntryOf(b), z + b)
  {
    EntryTiled(b, []);
    LastStaysLive(z, b, []);
    assert b + Concat([]) == b;
  }

  predicate OnLiveList(e: Entry, text: string) {
    e in EntriesOf(BlocksOf(text), false)
  }

  lemma PairCleared(e: Entry, b: string, reason: string, today: string)
    requires Holds(e, b) && b == RStrip(b) + "\n"
    ensures TombstoneAll(b + b, [e, e], reason, today)
            == (MARK + (Tombstoned(b, reason, today) + LastLine(reason, today))) + b
  {
    FirstTurn(e, b, b, reason, today);
    MarkedTwice(e, b, b, reason, today);
    TwoTurns(b + b, e, Tombstoned(b, reason, today) + b, reason, today);
  }

  lemma TwoTurns(x: string, e: Entry, y: string, reason: string, today: string)
    requires TombstoneOne(x, e, reason, today) == y
    ensures TombstoneAll(x, [e, e], reason, today) == TombstoneOne(y, e, reason, today)
  {
    AllCons(x, e, [e], reason, today);
    AllCons(y, e, [], reason, today);
    assert [e] + [e] == [e, e] && [e] + [] == [e];
  }

  lemma AllCons(x: string, e: Entry, es: seq<Entry>, reason: string, today: string)
    ensures TombstoneAll(x, [e] + es, reason, today) == TombstoneAll(TombstoneOne(x, e, reason, today), es, reason, today)
  {
    assert ([e] + es)[1..] == es;
  }

  lemma PairParsed(c: string, b: string)
    requires EntryBlock(c) && EntryBlock(b)
    ensures BlocksOf(c + b) == [c, b]
  {
    EntryTiled(b, []);
    EntryTiled(c, [b]);
    FittingParses("", [c] + [b]);
    assert Concat([]) == "" && [b] + [] == [b];
    PairText(c, b);
  }

  lemma PairText(c: string, b: string)
    ensures "" + (c + (b + "")) == c + b
  {
  }

  /** Such a block in front of others. */
  lemma EntryTiled(b: string, us: seq<string>)
    requires EntryBlock(b) && WellTiled(us)
    ensures WellTiled([b] + us) && Concat([b] + us) == b + Concat(us)
  {
    assert ([b] + us)[1..] == us;
  }

  lemma EntriesTwo(b: string)
    requires !EntryOf(b).tombstoned
    ensures EntriesOf([b, b], false) == [EntryOf(b), EntryOf(b)]
  {
    assert [b, b] == [b] + [b];
    EntriesConcat([b], [b], false);
    LiveAlone(b);
  }

  lemma LiveAlone(b: string)
    requires !EntryOf(b).tombstoned
    ensures EntriesOf([b], false) == [EntryOf(b)]
  {
  }

  lemma PairSealed(b: string, reason: string, today: string)
    requires EntryBlock(b) && '\n' !in reason && '\n' !in today
    ensures Sealed(MARK + (Tombstoned(b, reason, today) + LastLine(reason, today)))
  {
    var t, y := Tombstoned(b, reason, today), LastLine(reason, today);
    MarkedSealed(b, reason, today);
    LastLineSealed(reason, today);
    NoOpenJoin(t, y, true);
    NoOpenBehind(MARK, t + y, true);
    EndsAfter(MARK, t, y);
  }

  /** An unmarked block behind a sealed text, whatever that holds, is read as an entry. */
  lemma LastStaysLive(z: string, b: string, us: seq<string>)
    requires Sealed(z) && !EntryOf(b).tombstoned && WellTiled([b] + us)
    ensures var after := z + Concat([b] + us);
            BlocksOf(after) == BlocksOf(z) + ([b] + us) && OnLiveList(EntryOf(b), after)
  {
    SealedParse(z, [b] + us);
    EntriesConcat(BlocksOf(z), [b] + us, false);
    EntriesConcat([b], us, false);
    LiveAlone(b);
  }

  // ----- Clearing marked blocks in file order, turn by turn -----

  /** A block written line by line: every line behind its heading starts with a hyphen. */
  predicate LineBlock(b: string) {
    EntryBlock(b) && HyphenLines(b) && '\n' in RStrip(b)
  }

  predicate LineBlocks(bs: seq<string>) {
    forall i :: 0 <= i < |bs| ==> LineBlock(bs[i])
  }

  /** `es` are live entries of the marked blocks, in order. */
  predicate Targets(es: seq<Entry>, bs: seq<string>, marks: seq<bool>) {
    && |marks| == |bs|
    && if bs == [] then es == []
       else if marks[0] then es != [] && Holds(es[0], bs[0]) && Targets(es[1..], bs[1..], marks[1..])
       else Targets(es, bs[1..], marks[1..])
  }

  /** The blocks, the marked ones tombstoned. */
  function Marked(bs: seq<string>, marks: seq<bool>, reason: string, today: string): (us: seq<string>)
    requires |marks| == |bs|
    ensures |us| == |bs|
  {
    if bs == [] then []
    else [if marks[0] then Tombstoned(bs[0], reason, today) else bs[0]] + Marked(bs[1..], marks[1..], reason, today)
  }

  /** One turn: `x` is the text before block `b` as it stands then. */
  function Turn(x: string, b: string, mark: bool, reason: string, today: string): string {
    if !mark then x + b
    else if Contains(x, b) then ReplaceFirst(x, b, Tombstoned(b, reason, today)) + b
    else x + Tombstoned(b, reason, today)
  }

  function Sweep(x: string, bs: seq<string>, marks: seq<bool>, reason: string, today: string): string
    requires |marks| == |bs|
    decreases |bs|
  {
    if bs == [] then x else Sweep(Turn(x, bs[0], marks[0], reason, today), bs[1..], marks[1..], reason, today)
  }

  lemma TurnDone(e: Entry, x: string, b: string, y: string, reason: string, today: string)
    requires Holds(e, b) && LineBlock(b) && EndsInLineFeed(x)
    ensures TombstoneOne(x + (b + y), e, reason, today) == Turn(x, b, true, reason, today) + y
  {
    var t := Tombstoned(b, reason, today);
    EntrySealed(b);
    HyphensApart(x, b + y, b);
    FirstHere(x, b, y);
    if Contains(x, b) {
      ReplaceLeft(x, b, y, t);
    } else {
      ReplaceHere(x, b, y, t);
      Regroup2(x, t, y);
    }
  }

  lemma ReplaceAt(s: string, b: string, t: string, k: nat)
    requires IndexOf(s, b) == k
    ensures k + |b| <= |s| && ReplaceFirst(s, b, t) == s[..k] + t + s[k + |b|..]
  {
    IndexOfFound(s, b);
  }

  lemma ReplaceLeft(x: string, b: string, y: string, t: string)
    requires Contains(x, b)
    ensures Contains(x + (b + y), b)
    ensures ReplaceFirst(x + (b + y), b, t) == (ReplaceFirst(x, b, t) + b) + y
  {
    var k := IndexOf(x, b);
    ContainsLeft(x, b + y, b);
    ReplaceAt(x, b, t, k);
    ReplaceAt(x + (b + y), b, t, k);
    SplicedLeft(x, b, y, t, k, k + |b|);
  }

  lemma SplicedLeft(x: string, b: string, y: string, t: string, k: nat, n: nat)
    requires k <= n <= |x|
    ensures (x + (b + y))[..k] + t + (x + (b + y))[n..] == ((x[..k] + t + x[n..]) + b) + y
  {
    var s := x + (b + y);
    assert s[..k] == x[..k];
    assert s[n..] == x[n..] + (b + y);
    Regroup2(x[..k] + t, x[n..], b + y);
    Regroup2(x[..k] + t + x[n..], b, y);
  }

  lemma Resealed(x: string, b: string, reason: string, today: string)
    requires Sealed(x) && Contains(x, b) && EntryBlock(b) && '\n' !in reason && '\n' !in today
    ensures Sealed(ReplaceFirst(x, b, Tombstoned(b, reason, today)))
  {
    var t := Tombstoned(b, reason, today);
    var a, c := ReplaceParts(x, b, t);
    EntrySealed(b);
    MarkedSealed(b, reason, today);
    Swapped(a, b, c, t);
  }

  lemma ReplaceParts(x: string, b: string, t: string) returns (a: string, c: string)
    requires Contains(x, b)
    ensures x == (a + b) + c && ReplaceFirst(x, b, t) == a + (t + c)
  {
    var k := IndexOf(x, b);
    IndexOfFound(x, b);
    a, c := x[..k], x[k + |b|..];
    Regroup2(a, t, c);
  }

  lemma Swapped(a: string, b: string, c: string, t: string)
    requires Sealed((a + b) + c) && b != "" && b[|b| - 1] == '\n'
    requires t != "" && t[0] == '<' && t[|t| - 1] == '\n' && NoOpen(t, true)
    ensures Sealed(a + (t + c))
  {
    NoOpenSuffix(a + b, c, true);
    NoOpenJoin(t, c, true);
    NoOpenBehind(a, t + c, true);
  }

  lemma TurnSealed(x: string, b: string, mark: bool, reason: string, today: string)
    requires Sealed(x) && EntryBlock(b) && '\n' !in reason && '\n' !in today
    ensures Sealed(Turn(x, b, mark, reason, today))
  {
    EntrySealed(b);
    MarkedSealed(b, reason, today);
    NoOpenBehind(x, b, true);
    NoOpenBehind(x, Tombstoned(b, reason, today), true);
    if Contains(x, b) {
      Resealed(x, b, reason, today);
      NoOpenBehind(ReplaceFirst(x, b, Tombstoned(b, reason, today)), b, true);
    }
  }

  lemma TurnsCons(x: string, es: seq<Entry>, y: string, reason: string, today: string)
    requires es != [] && TombstoneOne(x, es[0], reason, today) == y
    ensures TombstoneAll(x, es, reason, today) == TombstoneAll(y, es[1..], reason, today)
  {
  }

  /** The loop over the targets is that sweep over the blocks. */
  lemma {:induction false} SweepIs(
      x: string, es: seq<Entry>, bs: seq<string>, marks: seq<bool>, reason: string, today: string)
    requires Sealed(x) && Targets(es, bs, marks) && '\n' !in reason && '\n' !in today
    requires LineBlocks(bs)
    ensures TombstoneAll(x + Concat(bs), es, reason, today) == Sweep(x, bs, marks, reason, today)
    decreases |bs|
  {
    if bs == [] {
      assert x + "" == x;
    } else {
      var b, rest := bs[0], bs[1..];
      var x' := Turn(x, b, marks[0], reason, today);
      TurnSealed(x, b, marks[0], reason, today);
      if marks[0] {
        assert LineBlock(b);
        TurnDone(es[0], x, b, Concat(rest), reason, today);
        SweepIs(x', es[1..], rest, marks[1..], reason, today);
        TurnsCons(x + Concat(bs), es, x' + Concat(rest), reason, today);
      } else {
        SweepIs(x', es, rest, marks[1..], reason, today);
        Regroup2(x, b, Concat(rest));
      }
    }
  }

  // ----- When every turn finds its own block -----

  predicate Right(x: string, bs: seq<string>, marks: seq<bool>, reason: string, today: string)
    requires |marks| == |bs|
    decreases |bs|
  {
    bs == [] ||
    (&& (marks[0] ==> !Contains(x, bs[0]))
     && Right(Turn(x, bs[0], marks[0], reason, today), bs[1..], marks[1..], reason, today))
  }

  lemma {:induction false} RightSweep(x: string, bs: seq<string>, marks: seq<bool>, reason: string, today: string)
    requires |marks| == |bs| && Right(x, bs, marks, reason, today)
    ensures Sweep(x, bs, marks, reason, today) == x + Concat(Marked(bs, marks, reason, today))
    decreases |bs|
  {
    if bs == [] {
      assert x + "" == x;
    } else {
      var u := if marks[0] then Tombstoned(bs[0], reason, today) else bs[0];
      var us := Marked(bs[1..], marks[1..], reason, today);
      RightSweep(x + u, bs[1..], marks[1..], reason, today);
      assert ([u] + us)[1..] == us;
      Regroup2(x, u, Concat(us));
    }
  }

  /** The same about the text before any turn. */
  predicate First(p: string, bs: seq<string>, marks: seq<bool>)
    requires |marks| == |bs|
    decreases |bs|
  {
    bs == [] || ((marks[0] ==> !Contains(p, bs[0])) && First(p + bs[0], bs[1..], marks[1..]))
  }

  /** `x` holds the line blocks that `p` holds. */
  ghost predicate Mirrors(x: string, p: string) {
    forall b: string :: LineBlock(b) ==> (Contains(x, b) <==> Contains(p, b))
  }

  lemma InnerChar(s: string, b: string, k: nat, i: nat)
    requires i < |b|
    ensures OccursAt(s, b, k) ==> k + i <= |s| - |b| + i && s[k + i] == b[i]
  {
    if OccursAt(s, b, k) {
      OccursChar(s, b, k, i);
    }
  }

  lemma OneLineFree(l: string, b: string, i: nat)
    requires '\n' !in l && i + 1 < |b| && b[i] == '\n'
    ensures !Contains(l + "\n", b)
  {
    var s := l + "\n";
    assert forall j :: 0 <= j < |l| ==> s[j] == l[j] && l[j] in l;
    var k := IndexOf(s, b);
    if k >= 0 {
      InnerChar(s, b, k, i);
    }
    IndexOfFound(s, b);
  }

  /** A marked block holds the line blocks it held before. */
  lemma MarkedHolds(b: string, c: string, reason: string, today: string)
    requires LineBlock(b) && LineBlock(c) && '\n' !in reason && '\n' !in today
    ensures Contains(Tombstoned(b, reason, today), c) <==> Contains(b, c)
  {
    EntrySealed(b);
    EntrySealed(c);
    MarkedText(b, reason, today);
    LastLineSealed(reason, today);
    LastLineFree(c, reason, today);
    BetweenLines(b, LastLine(reason, today), c);
  }

  lemma BetweenLines(b: string, y: string, c: string)
    requires c != "" && c[0] == '#' && HyphenLines(c)
    requires EndsInLineFeed(b) && y != "" && y[0] != '-' && !Contains(y, c)
    ensures Contains(MARK + (b + y), c) <==> Contains(b, c)
  {
    FrontApart(MARK, b + y, c);
    HyphensApart(b, y, c);
  }

  lemma LastLineFree(c: string, reason: string, today: string)
    requires c == RStrip(c) + "\n" && '\n' in RStrip(c) && '\n' !in reason && '\n' !in today
    ensures !Contains(LastLine(reason, today), c)
  {
    TrailerLine(reason, today);
    var r := RStrip(c);
    var i :| 0 <= i < |r| && r[i] == '\n';
    assert c[i] == r[i];
    OneLineFree(Trailer(reason, today), c, i);
  }

  lemma MirrorsTurn(x: string, p: string, b: string, mark: bool, reason: string, today: string)
    requires Mirrors(x, p) && Sealed(x) && EndsInLineFeed(p) && LineBlock(b)
    requires mark ==> !Contains(x, b)
    requires '\n' !in reason && '\n' !in today
    ensures Mirrors(Turn(x, b, mark, reason, today), p + b)
  {
    var u := if mark then Tombstoned(b, reason, today) else b;
    EntrySealed(b);
    MarkedSealed(b, reason, today);
    forall c: string | LineBlock(c)
      ensures Contains(x + u, c) <==> Contains(p + b, c)
    {
      HyphensApart(x, u, c);
      HyphensApart(p, b, c);
      MarkedHolds(b, c, reason, today);
    }
  }

  lemma {:induction false} RightIsFirst(
      x: string, p: string, bs: seq<string>, marks: seq<bool>, reason: string, today: string)
    requires |marks| == |bs| && LineBlocks(bs)
    requires Mirrors(x, p) && Sealed(x) && EndsInLineFeed(p) && '\n' !in reason && '\n' !in today
    ensures Right(x, bs, marks, reason, today) <==> First(p, bs, marks)
    decreases |bs|
  {
    if bs != [] {
      var b := bs[0];
      assert LineBlock(b);
      if marks[0] ==> !Contains(x, b) {
        MirrorsTurn(x, p, b, marks[0], reason, today);
        TurnSealed(x, b, marks[0], reason, today);
        EntrySealed(b);
        RightIsFirst(Turn(x, b, marks[0], reason, today), p + b, bs[1..], marks[1..], reason, today);
      }
    }
  }

  /** Block `k` of `bs`, behind the blocks `ls`, occurs first where it stands. */
  predicate StandsFirst(ls: seq<string>, bs: seq<string>, k: nat)
    requires k < |bs|
  {
    IndexOf(Concat(ls + bs), bs[k]) == |Concat(ls + bs[..k])|
  }

  lemma StandsShift(ls: seq<string>, bs: seq<string>, k: nat)
    requires k + 1 < |bs|
    ensures StandsFirst(ls + [bs[0]], bs[1..], k) <==> StandsFirst(ls, bs, k + 1)
  {
    assert (ls + [bs[0]]) + bs[1..] == ls + bs;
    assert (ls + [bs[0]]) + bs[1..][..k] == ls + bs[..k + 1];
  }

  lemma StandsHere(ls: seq<string>, bs: seq<string>)
    requires bs != [] && LineBlock(bs[0]) && EndsInLineFeed(Concat(ls))
    ensures StandsFirst(ls, bs, 0) <==> !Contains(Concat(ls), bs[0])
  {
    ConcatAppend(ls, bs);
    assert ls + bs[..0] == ls;
    EntrySealed(bs[0]);
    BlockHere(Concat(ls), bs[0], Concat(bs[1..]));
  }

  lemma BlockHere(x: string, b: string, y: string)
    requires EndsInLineFeed(x) && HyphenLines(b) && b != "" && b[0] != '-'
    ensures IndexOf(x + (b + y), b) == |x| <==> !Contains(x, b)
  {
    HyphensApart(x, b + y, b);
    FirstHere(x, b, y);
  }

  lemma {:induction false} FirstMeans(ls: seq<string>, bs: seq<string>, marks: seq<bool>)
    requires |marks| == |bs| && LineBlocks(bs)
    requires EndsInLineFeed(Concat(ls))
    ensures First(Concat(ls), bs, marks) <==> forall k :: 0 <= k < |bs| && marks[k] ==> StandsFirst(ls, bs, k)
    decreases |bs|
  {
    if bs != [] {
      var b, rest, more := bs[0], bs[1..], marks[1..];
      assert LineBlock(b);
      EntrySealed(b);
      StandsHere(ls, bs);
      ConcatAppend(ls, [b]);
      assert [b][1..] == [];
      assert Concat([b]) == b + "" == b;
      FirstMeans(ls + [b], rest, more);
      forall k | 0 <= k < |rest|
        ensures StandsFirst(ls + [b], rest, k) <==> StandsFirst(ls, bs, k + 1)
      {
        StandsShift(ls, bs, k);
      }
      FirstShift(ls, b, bs, marks);
    }
  }

  lemma FirstShift(ls: seq<string>, b: string, bs: seq<string>, marks: seq<bool>)
    requires bs != [] && bs[0] == b && |marks| == |bs|
    requires forall k :: 0 <= k < |bs[1..]| ==> (StandsFirst(ls + [b], bs[1..], k) <==> StandsFirst(ls, bs, k + 1))
    ensures (forall k :: 0 <= k < |bs| && marks[k] ==> StandsFirst(ls, bs, k)) <==>
            (marks[0] ==> StandsFirst(ls, bs, 0)) &&
            (forall k :: 0 <= k < |bs[1..]| && marks[1..][k] ==> StandsFirst(ls + [b], bs[1..], k))
  {
    if forall k :: 0 <= k < |bs[1..]| && marks[1..][k] ==> StandsFirst(ls + [b], bs[1..], k) {
      forall k | 0 < k < |bs| && marks[k]
        ensures StandsFirst(ls, bs, k)
      {
        assert marks[1..][k - 1];
        assert StandsFirst(ls + [b], bs[1..], k - 1);
      }
    }
    if forall k :: 0 <= k < |bs| && marks[k] ==> StandsFirst(ls, bs, k) {
      forall k | 0 <= k < |bs[1..]| && marks[1..][k]
        ensures StandsFirst(ls + [b], bs[1..], k)
      {
        assert marks[k + 1];
      }
    }
  }

  // ----- When some turn finds another -----

  /** The last turn that goes wrong leaves its block as it was, and marks all later ones. */
  lemma {:induction false} LastWrong(x: string, bs: seq<string>, marks: seq<bool>, reason: string, today: string)
    returns (i: nat, z: string)
    requires |marks| == |bs| && LineBlocks(bs)
    requires Sealed(x) && !Right(x, bs, marks, reason, today) && '\n' !in reason && '\n' !in today
    ensures i < |bs| && marks[i] && Sealed(z)
    ensures Sweep(x, bs, marks, reason, today) ==
            z + (bs[i] + Concat(Marked(bs[i + 1..], marks[i + 1..], reason, today)))
    decreases |bs|
  {
    var b := bs[0];
    assert LineBlock(b);
    var x' := Turn(x, b, marks[0], reason, today);
    TurnSealed(x, b, marks[0], reason, today);
    if Right(x', bs[1..], marks[1..], reason, today) {
      i, z := 0, ReplaceFirst(x, b, Tombstoned(b, reason, today));
      Resealed(x, b, reason, today);
      RightSweep(x', bs[1..], marks[1..], reason, today);
      Regroup2(z, b, Concat(Marked(bs[1..], marks[1..], reason, today)));
    } else {
      i, z := LastWrong(x', bs[1..], marks[1..], reason, today);
      assert bs[1..][i + 1..] == bs[i + 2..] && marks[1..][i + 1..] == marks[i + 2..];
      i := i + 1;
    }
  }

  // ----- Exactly when clearing is right -----

  lemma {:induction false} MarkedTiled(bs: seq<string>, marks: seq<bool>, reason: string, today: string)
    requires |marks| == |bs| && LineBlocks(bs)
    requires '\n' !in reason && '\n' !in today
    ensures WellTiled(Marked(bs, marks, reason, today))
  {
    if bs != [] {
      var b := bs[0];
      assert LineBlock(b);
      EntrySealed(b);
      TombstonedBlock(b, reason, today);
      var u := if marks[0] then Tombstoned(b, reason, today) else b;
      MarkedTiled(bs[1..], marks[1..], reason, today);
      assert ([u] + Marked(bs[1..], marks[1..], reason, today))[1..] == Marked(bs[1..], marks[1..], reason, today);
    }
  }

  lemma {:induction false} MarkedAt(bs: seq<string>, marks: seq<bool>, k: nat, reason: string, today: string)
    requires |marks| == |bs| && k < |bs|
    ensures Marked(bs, marks, reason, today)[k] == if marks[k] then Tombstoned(bs[k], reason, today) else bs[k]
  {
    if k > 0 {
      MarkedAt(bs[1..], marks[1..], k - 1, reason, today);
    }
  }

  /** Each marked block occurs first at its own place in the text as it was. */
  predicate AllStandFirst(bs: seq<string>, marks: seq<bool>)
    requires |marks| == |bs|
  {
    forall k :: 0 <= k < |bs| && marks[k] ==> StandsFirst([], bs, k)
  }

  lemma SweepStarts(es: seq<Entry>, bs: seq<string>, marks: seq<bool>, reason: string, today: string)
    requires Targets(es, bs, marks) && '\n' !in reason && '\n' !in today
    requires LineBlocks(bs)
    ensures TombstoneAll(Concat(bs), es, reason, today) == Sweep("", bs, marks, reason, today)
    ensures Right("", bs, marks, reason, today) <==> AllStandFirst(bs, marks)
  {
    assert "" + Concat(bs) == Concat(bs);
    SweepIs("", es, bs, marks, reason, today);
    RightIsFirst("", "", bs, marks, reason, today);
    FirstMeans([], bs, marks);
  }

  /** Right: the file is the blocks with the marked ones tombstoned. */
  lemma ClearedRight(es: seq<Entry>, bs: seq<string>, marks: seq<bool>, reason: string, today: string)
    requires Targets(es, bs, marks) && '\n' !in reason && '\n' !in today
    requires LineBlocks(bs)
    requires AllStandFirst(bs, marks)
    ensures var after := TombstoneAll(Concat(bs), es, reason, today);
            Preamble(after) == "" && BlocksOf(after) == Marked(bs, marks, reason, today)
  {
    SweepStarts(es, bs, marks, reason, today);
    RightSweep("", bs, marks, reason, today);
    MarkedTiled(bs, marks, reason, today);
    FittingParses("", Marked(bs, marks, reason, today));
  }

  /** Wrong: some target is parsed as the block it was, behind whatever `z` parses to. */
  lemma ClearedWrong(es: seq<Entry>, bs: seq<string>, marks: seq<bool>, reason: string, today: string)
    returns (i: nat, z: string)
    requires Targets(es, bs, marks) && '\n' !in reason && '\n' !in today
    requires LineBlocks(bs)
    requires !AllStandFirst(bs, marks)
    ensures i < |bs| && marks[i]
    ensures var rest := Marked(bs[i + 1..], marks[i + 1..], reason, today);
            BlocksOf(TombstoneAll(Concat(bs), es, reason, today)) == BlocksOf(z) + ([bs[i]] + rest)
  {
    SweepStarts(es, bs, marks, reason, today);
    i, z := LastWrong("", bs, marks, reason, today);
    RestTiled(bs, marks, i, reason, today);
    BehindSealed(z, bs[i], Marked(bs[i + 1..], marks[i + 1..], reason, today));
  }

  lemma RestTiled(bs: seq<string>, marks: seq<bool>, i: nat, reason: string, today: string)
    requires |marks| == |bs| && i < |bs| && LineBlocks(bs) && '\n' !in reason && '\n' !in today
    ensures EntryBlock(bs[i]) && WellTiled(Marked(bs[i + 1..], marks[i + 1..], reason, today))
  {
    assert LineBlock(bs[i]);
    MarkedTiled(bs[i + 1..], marks[i + 1..], reason, today);
  }

  lemma BehindSealed(z: string, b: string, us: seq<string>)
    requires Sealed(z) && EntryBlock(b) && WellTiled(us)
    ensures BlocksOf(z + (b + Concat(us))) == BlocksOf(z) + ([b] + us)
  {
    EntryTiled(b, us);
    SealedParse(z, [b] + us);
  }

  /** Clearing marks those blocks and no others exactly when each of them occurs first at its own
      place in the text before the call. */
  lemma ClearingExact(es: seq<Entry>, bs: seq<string>, marks: seq<bool>, reason: string, today: string)
    requires Targets(es, bs, marks) && '\n' !in reason && '\n' !in today
    requires LineBlocks(bs)
    ensures BlocksOf(TombstoneAll(Concat(bs), es, reason, today)) == Marked(bs, marks, reason, today)
            <==> AllStandFirst(bs, marks)
  {
    if AllStandFirst(bs, marks) {
      ClearedRight(es, bs, marks, reason, today);
    } else {
      var i, z := ClearedWrong(es, bs, marks, reason, today);
      assert LineBlock(bs[i]);
      MarkedAt(bs, marks, i, reason, today);
      TombstonedStart(bs[i], reason, today);
      var us := BlocksOf(z) + ([bs[i]] + Marked(bs[i + 1..], marks[i + 1..], reason, today));
      assert |us| == |bs| ==> us[i] == bs[i];
    }
  }
}
