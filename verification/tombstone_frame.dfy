/** What tombstoning leaves alone: the other entries, their order and their text
    (src/otaman_core/blocked_entries.py). */
module TombstoneFrame {
  import opened Text
  import opened BlockedEntries

  // ----- One replacement in a text -----

  lemma ReplaceHere(a: string, b: string, c: string, t: string)
    requires IndexOf(a + (b + c), b) == |a|
    ensures ReplaceFirst(a + (b + c), b, t) == a + (t + c)
  {
    var text := a + (b + c);
    assert text[..|a|] == a && text[|a| + |b|..] == c;
    assert a + t + c == a + (t + c);
  }

  lemma ReplaceEarlier(a: string, b: string, c: string, t: string)
    requires b != "" && t != ""
    requires 0 <= IndexOf(a + (b + c), b) < |a|
    ensures var o := IndexOf(a + (b + c), b);
            var r := ReplaceFirst(a + (b + c), b, t);
            o < |r| && r[o] == t[0] && (a + (t + c))[o] == b[0]
  {
    var text := a + (b + c);
    var o := IndexOf(text, b);
    IndexOfFound(text, b);
    assert text[o..o + |b|][0] == text[o];
    assert (text[..o] + t)[o] == t[0];
  }

  /** Replacing `b` in `a + b + c` replaces the `b` in the middle, exactly when it is the
      first; otherwise the text differs from the wanted one at the earlier place. */
  lemma ReplaceMiddle(a: string, b: string, c: string, t: string)
    requires b != "" && t != "" && b[0] != t[0]
    ensures Contains(a + (b + c), b)
    ensures ReplaceFirst(a + (b + c), b, t) == a + (t + c) <==> IndexOf(a + (b + c), b) == |a|
  {
    var text := a + (b + c);
    assert text[|a|..|a| + |b|] == b;
    IndexOfFirst(text, b, |a|);
    if IndexOf(text, b) == |a| {
      ReplaceHere(a, b, c, t);
    } else {
      ReplaceEarlier(a, b, c, t);
    }
  }

  lemma ConcatMiddle(ls: seq<string>, b: string, rs: seq<string>)
    ensures Concat(ls + [b] + rs) == Concat(ls) + (b + Concat(rs))
  {
    assert ls + [b] + rs == ls + ([b] + rs);
    ConcatAppend(ls, [b] + rs);
    assert ([b] + rs)[1..] == rs;
  }

  /** Putting a tombstoned block in place of a live one keeps the tiling. */
  lemma {:induction false} TiledMiddle(ls: seq<string>, b: string, rs: seq<string>, t: string)
    requires WellTiled(ls + [b] + rs)
    requires GoodBlock(t) && !IsLive(t) && NoOpen(Body(t), false)
    requires b != "" && (b[|b| - 1] == '\n' ==> t[|t| - 1] == '\n')
    ensures WellTiled(ls + [t] + rs)
    decreases |ls|
  {
    var bs, us := ls + [b] + rs, ls + [t] + rs;
    if ls == [] {
      assert us[1..] == rs && bs[1..] == rs;
      assert rs != [] ==> us[1] == bs[1] == rs[0];
    } else {
      assert us[0] == bs[0] == ls[0];
      assert us[1..] == ls[1..] + [t] + rs && bs[1..] == ls[1..] + [b] + rs;
      TiledMiddle(ls[1..], b, rs, t);
      assert |ls| > 1 ==> us[1] == bs[1] == ls[1];
      assert |ls| == 1 ==> us[1] == t && bs[1] == b;
    }
  }

  lemma {:induction false} TiledGood(ls: seq<string>, b: string, rs: seq<string>)
    requires WellTiled(ls + [b] + rs)
    ensures GoodBlock(b)
    decreases |ls|
  {
    if ls != [] {
      assert (ls + [b] + rs)[1..] == ls[1..] + [b] + rs;
      TiledGood(ls[1..], b, rs);
    }
  }

  lemma PreambleMiddle(pre: string, ls: seq<string>, b: string, rs: seq<string>, t: string)
    requires PreambleFits(pre, ls + [b] + rs) && !IsLive(t)
    ensures PreambleFits(pre, ls + [t] + rs)
  {
    assert ls != [] ==> (ls + [t] + rs)[0] == (ls + [b] + rs)[0] == ls[0];
    assert ls == [] ==> (ls + [t] + rs)[0] == t;
  }

  /** The text with blocks `ls`, a tombstoned `b`, and `rs` parses to just that. */
  lemma MarkedParses(pre: string, ls: seq<string>, b: string, rs: seq<string>, reason: string, today: string)
    requires WellTiled(ls + [b] + rs) && PreambleFits(pre, ls + [b] + rs) && IsLive(b)
    requires '\n' !in reason && '\n' !in today
    ensures var us := ls + [Tombstoned(b, reason, today)] + rs;
            Preamble(pre + Concat(us)) == pre && BlocksOf(pre + Concat(us)) == us
  {
    var t := Tombstoned(b, reason, today);
    TiledGood(ls, b, rs);
    TombstonedBlock(b, reason, today);
    TiledMiddle(ls, b, rs, t);
    PreambleMiddle(pre, ls, b, rs, t);
    FittingParses(pre, ls + [t] + rs);
  }

  // ----- The frame of one tombstone -----

  /** Where block `k` of a parsed text begins. */
  function StartOf(text: string, k: nat): nat
    requires k <= |BlocksOf(text)|
  {
    |Preamble(text)| + |Concat(BlocksOf(text)[..k])|
  }

  /** `e` stands for the live block `b`. */
  predicate Holds(e: Entry, b: string) {
    !e.tombstoned && e.block == b && IsLive(b)
  }

  /** `after` is `text` with block `k`, and nothing else, tombstoned. */
  predicate OnlyMarked(text: string, after: string, k: nat, reason: string, today: string)
    requires k < |BlocksOf(text)|
  {
    && Preamble(after) == Preamble(text)
    && BlocksOf(after) == BlocksOf(text)[k := Tombstoned(BlocksOf(text)[k], reason, today)]
  }

  lemma Middle(bs: seq<string>, k: nat, t: string)
    requires k < |bs|
    ensures bs == bs[..k] + [bs[k]] + bs[k + 1..]
    ensures bs[k := t] == bs[..k] + [t] + bs[k + 1..]
  {
  }

  lemma CutConcat(pre: string, bs: seq<string>, k: nat, t: string) returns (a: string, c: string)
    requires k < |bs|
    ensures pre + Concat(bs) == a + (bs[k] + c) && |a| == |pre| + |Concat(bs[..k])|
    ensures pre + Concat(bs[k := t]) == a + (t + c)
  {
    var ls, rs := bs[..k], bs[k + 1..];
    Middle(bs, k, t);
    ConcatMiddle(ls, bs[k], rs);
    ConcatMiddle(ls, t, rs);
    a, c := pre + Concat(ls), Concat(rs);
  }

  /** A text, cut at one of its blocks. */
  lemma TextAt(text: string, k: nat, t: string) returns (a: string, c: string)
    requires k < |BlocksOf(text)|
    ensures text == a + (BlocksOf(text)[k] + c) && |a| == StartOf(text, k)
    ensures Preamble(text) + Concat(BlocksOf(text)[k := t]) == a + (t + c)
  {
    Tiling(text);
    a, c := CutConcat(Preamble(text), BlocksOf(text), k, t);
  }

  /** As text: the edit gives the wanted file exactly when it finds the entry itself. */
  lemma TombstoneOneText(text: string, k: nat, e: Entry, reason: string, today: string)
    requires k < |BlocksOf(text)| && Holds(e, BlocksOf(text)[k])
    ensures TombstoneOne(text, e, reason, today) ==
            Preamble(text) + Concat(BlocksOf(text)[k := Tombstoned(e.block, reason, today)])
            <==> IndexOf(text, e.block) == StartOf(text, k)
  {
    var t := Tombstoned(e.block, reason, today);
    var a, c := TextAt(text, k, t);
    TombstonedStart(e.block, reason, today);
    ReplaceMiddle(a, e.block, c, t);
  }

  /** Tombstoning a live entry re-parses to the same entries with that one alone marked,
      exactly when the entry's text does not occur earlier in the file. */
  lemma TombstoneOneFrame(text: string, k: nat, e: Entry, reason: string, today: string)
    requires k < |BlocksOf(text)| && Holds(e, BlocksOf(text)[k])
    requires '\n' !in reason && '\n' !in today
    ensures OnlyMarked(text, TombstoneOne(text, e, reason, today), k, reason, today)
            <==> IndexOf(text, e.block) == StartOf(text, k)
  {
    var bs, t := BlocksOf(text), Tombstoned(e.block, reason, today);
    TombstoneOneText(text, k, e, reason, today);
    ParsedFits(text);
    Middle(bs, k, t);
    MarkedParses(Preamble(text), bs[..k], e.block, bs[k + 1..], reason, today);
    Tiling(TombstoneOne(text, e, reason, today));
  }

  lemma TombstonedStart(b: string, reason: string, today: string)
    requires IsLive(b)
    ensures b != "" && Tombstoned(b, reason, today) != "" && b[0] != Tombstoned(b, reason, today)[0]
  {
    var core, w := TombstonedIs(b, reason, today);
    assert b[0] == HEADER[0] && Tombstoned(b, reason, today)[0] == OPEN[0];
  }

  // ----- Several targets, one after the other -----

  predicate TargetsAt(es: seq<Entry>, bs: seq<string>, ks: seq<nat>) {
    && |es| == |ks|
    && (forall i :: 0 <= i < |ks| ==> ks[i] < |bs| && Holds(es[i], bs[ks[i]]))
    && (forall i, j :: 0 <= i < j < |ks| ==> ks[i] != ks[j])
  }

  function MarkAll(bs: seq<string>, ks: seq<nat>, reason: string, today: string): (us: seq<string>)
    requires forall i :: 0 <= i < |ks| ==> ks[i] < |bs|
    ensures |us| == |bs|
    decreases |ks|
  {
    if ks == [] then bs
    else MarkAll(bs[ks[0] := Tombstoned(bs[ks[0]], reason, today)], ks[1..], reason, today)
  }

  /** At its turn, the text of every target occurs first at the target itself. */
  predicate ClearInTurn(text: string, es: seq<Entry>, ks: seq<nat>, reason: string, today: string)
    requires |es| == |ks|
    decreases |ks|
  {
    ks == [] ||
    (&& ks[0] < |BlocksOf(text)|
     && IndexOf(text, es[0].block) == StartOf(text, ks[0])
     && ClearInTurn(TombstoneOne(text, es[0], reason, today), es[1..], ks[1..], reason, today))
  }

  lemma TargetsLeft(es: seq<Entry>, bs: seq<string>, ks: seq<nat>, t: string)
    requires ks != [] && TargetsAt(es, bs, ks)
    ensures TargetsAt(es[1..], bs[ks[0] := t], ks[1..])
  {
    forall i | 0 <= i < |ks[1..]| ensures ks[1..][i] < |bs| && Holds(es[1..][i], bs[ks[0] := t][ks[1..][i]]) {
      assert ks[1..][i] == ks[i + 1] && es[1..][i] == es[i + 1];
      assert ks[0] != ks[i + 1];
    }
  }

  /** Tombstoning a list of live entries marks those and no others, each in its place. */
  lemma {:induction false} TombstoneAllFrame(
      text: string, es: seq<Entry>, ks: seq<nat>, reason: string, today: string)
    requires TargetsAt(es, BlocksOf(text), ks) && ClearInTurn(text, es, ks, reason, today)
    requires '\n' !in reason && '\n' !in today
    ensures var after := TombstoneAll(text, es, reason, today);
            Preamble(after) == Preamble(text) && BlocksOf(after) == MarkAll(BlocksOf(text), ks, reason, today)
    decreases |ks|
  {
    if ks != [] {
      var k, one := ks[0], TombstoneOne(text, es[0], reason, today);
      TombstoneOneFrame(text, k, es[0], reason, today);
      TargetsLeft(es, BlocksOf(text), ks, Tombstoned(es[0].block, reason, today));
      TombstoneAllFrame(one, es[1..], ks[1..], reason, today);
    }
  }

  // ----- What readers see -----

  /** An entry the parser reports as live does stand for its block. */
  lemma LiveEntryHolds(b: string)
    requires !EntryOf(b).tombstoned
    ensures Holds(EntryOf(b), b)
  {
  }

  /** Marking one block removes its entry from the live list, and only that. */
  lemma LiveWithout(bs: seq<string>, k: nat, t: string)
    requires k < |bs| && EntryOf(t).tombstoned
    ensures EntriesOf(bs[k := t], false) == EntriesOf(bs[..k], false) + EntriesOf(bs[k + 1..], false)
  {
    Middle(bs, k, t);
    EntriesConcat(bs[..k] + [t], bs[k + 1..], false);
    EntriesConcat(bs[..k], [t], false);
    TombstonedOnly(t);
  }

  lemma TombstonedOnly(t: string)
    requires EntryOf(t).tombstoned
    ensures EntriesOf([t], false) == []
  {
  }

  /** Clearing one entry: it goes from the live list, with its title kept on the record,
      and every other live entry stays, unchanged and in order. */
  lemma ClearingOne(text: string, k: nat, reason: string, today: string)
    requires k < |BlocksOf(text)| && !EntryOf(BlocksOf(text)[k]).tombstoned
    requires '\n' !in reason && '\n' !in today
    requires IndexOf(text, BlocksOf(text)[k]) == StartOf(text, k)
    ensures var bs := BlocksOf(text);
            var after := BlocksOf(TombstoneOne(text, EntryOf(bs[k]), reason, today));
            && |after| == |bs|
            && EntriesOf(after, false) == EntriesOf(bs[..k], false) + EntriesOf(bs[k + 1..], false)
            && EntryOf(after[k]).tombstoned
            && EntryOf(after[k]).title == EntryOf(bs[k]).title
            && EntryOf(after[k]).malformed == EntryOf(bs[k]).malformed
  {
    var bs := BlocksOf(text);
    LiveEntryHolds(bs[k]);
    TombstoneOneFrame(text, k, EntryOf(bs[k]), reason, today);
    ParsedFits(text);
    Middle(bs, k, "");
    TiledGood(bs[..k], bs[k], bs[k + 1..]);
    TombstonedEntry(bs[k], reason, today);
    LiveWithout(bs, k, Tombstoned(bs[k], reason, today));
  }
}
