/** Finding entries by their reference, and clearing what was found: exactly when that is right
    (src/otaman_core/blocked_entries.py). */
module RefLookup {
  import opened Text
  import opened BlockedEntries
  import opened TombstoneFrame
  import opened EntryRendering
  import opened Occurrences
  import opened Clearing
  import opened RenderedClearing

  /** The optional limit to some kinds. */
  datatype Kinds = AnyKind | Only(kinds: set<string>)

  predicate Admits(ks: Kinds, kind: string) {
    ks.AnyKind? || kind in ks.kinds
  }

  predicate Fits(e: Entry, ref: string, ks: Kinds) {
    EntryRef(e) == ref && Admits(ks, EntryKind(e))
  }

  function Fitting(es: seq<Entry>, ref: string, ks: Kinds): seq<Entry> {
    if es == [] then [] else (if Fits(es[0], ref, ks) then [es[0]] else []) + Fitting(es[1..], ref, ks)
  }

  function Others(es: seq<Entry>, ref: string, ks: Kinds): seq<Entry> {
    if es == [] then [] else (if Fits(es[0], ref, ks) then [] else [es[0]]) + Others(es[1..], ref, ks)
  }

  function Live(text: string): seq<Entry> {
    EntriesOf(BlocksOf(text), false)
  }

  function FindByRef(text: string, ref: string, ks: Kinds): seq<Entry> {
    if Strip(ref) == "" then [] else Fitting(Live(text), Strip(ref), ks)
  }

  lemma {:induction false} FittingMeans(es: seq<Entry>, ref: string, ks: Kinds, e: Entry)
    ensures e in Fitting(es, ref, ks) <==> e in es && Fits(e, ref, ks)
  {
    if es != [] {
      FittingMeans(es[1..], ref, ks, e);
      assert es == [es[0]] + es[1..];
    }
  }

  /** A reference that is not blank finds exactly the live entries of just that reference, of the kinds asked
      for. */
  lemma FindMeans(text: string, ref: string, ks: Kinds, e: Entry)
    ensures e in FindByRef(text, ref, ks) <==>
            && !AllSpace(ref) && e in EntriesOf(BlocksOf(text), false) && EntryRef(e) == Strip(ref)
            && (ks == AnyKind || exists k :: k in ks.kinds && EntryKind(e) == k)
  {
    StripBlank(ref);
    FittingMeans(Live(text), Strip(ref), ks, e);
  }

  // ----- Finding what was rendered -----

  function WithRef(es: seq<NewEntry>, ref: string, ks: Kinds): seq<NewEntry> {
    if es == [] then []
    else (if es[0].ref == ref && Admits(ks, KindOf(es[0])) then [es[0]] else []) + WithRef(es[1..], ref, ks)
  }

  /** Written with one of the two reference labels, no extra field taking over a key that is read. */
  predicate Keyed(e: NewEntry) {
    && (e.refLabel == "Proposal" || e.refLabel == "Change")
    && forall i :: 0 <= i < |e.extra| ==> !Reserved(Lower(e.extra[i].0))
  }

  lemma {:induction false} FittingRead(es: seq<NewEntry>, ref: string, ks: Kinds)
    requires forall i :: 0 <= i < |es| ==> Keyed(es[i])
    ensures Fitting(ReadAllOf(es), ref, ks) == ReadAllOf(WithRef(es, ref, ks))
  {
    if es != [] {
      KindAndRefRead(es[0]);
      FittingRead(es[1..], ref, ks);
      ReadAllCons(es[0], WithRef(es[1..], ref, ks));
      assert ReadAllOf(es)[1..] == ReadAllOf(es[1..]);
      assert [] + WithRef(es[1..], ref, ks) == WithRef(es[1..], ref, ks);
      assert [] + Fitting(ReadAllOf(es[1..]), ref, ks) == Fitting(ReadAllOf(es[1..]), ref, ks);
    }
  }

  lemma ReadAllCons(e: NewEntry, es: seq<NewEntry>)
    ensures ReadAllOf([e] + es) == [AsRead(e)] + ReadAllOf(es)
  {
    assert ([e] + es)[1..] == es;
  }

  /** In a file of rendered entries a reference finds exactly the entries written with it, of the
      kinds asked for, in order. */
  lemma FindRendered(es: seq<NewEntry>, ref: string, ks: Kinds)
    requires forall i :: 0 <= i < |es| ==> Plain(es[i]) && Keyed(es[i])
    ensures FindByRef(Concat(RenderAll(es)), ref, ks) ==
            if Strip(ref) == "" then [] else ReadAllOf(WithRef(es, Strip(ref), ks))
  {
    RenderRoundTrip(es, false);
    FittingRead(es, Strip(ref), ks);
  }

  // ----- Clearing what was found -----

  predicate Chosen(b: string, ref: string, ks: Kinds) {
    !EntryOf(b).tombstoned && Fits(EntryOf(b), ref, ks)
  }

  function Flags(bs: seq<string>, ref: string, ks: Kinds): (r: seq<bool>)
    ensures |r| == |bs|
    ensures forall i :: 0 <= i < |bs| ==> r[i] == Chosen(bs[i], ref, ks)
  {
    seq(|bs|, i requires 0 <= i < |bs| => Chosen(bs[i], ref, ks))
  }

  /** The indices of the raised flags, from `i` on. */
  function Raised(flags: seq<bool>, i: nat): (r: seq<nat>)
    requires i <= |flags|
    decreases |flags| - i
  {
    if i == |flags| then [] else if flags[i] then [i] + Raised(flags, i + 1) else Raised(flags, i + 1)
  }

  /** The places of the chosen blocks. */
  function Places(bs: seq<string>, ref: string, ks: Kinds): seq<nat> {
    Raised(Flags(bs, ref, ks), 0)
  }

  lemma {:induction false} RaisedIn(flags: seq<bool>, i: nat, k: nat)
    requires i <= |flags|
    ensures k in Raised(flags, i) <==> i <= k < |flags| && flags[k]
    decreases |flags| - i
  {
    if i < |flags| {
      RaisedIn(flags, i + 1, k);
    }
  }

  predicate Ascending(ps: seq<nat>, least: nat) {
    ps == [] || (ps[0] >= least && Ascending(ps[1..], ps[0] + 1))
  }

  lemma {:induction false} RaisedAscending(flags: seq<bool>, i: nat, least: nat)
    requires least <= i <= |flags|
    ensures Ascending(Raised(flags, i), least)
    decreases |flags| - i
  {
    if i < |flags| {
      RaisedAscending(flags, i + 1, if flags[i] then i + 1 else least);
      var rest := Raised(flags, i + 1);
      assert ([i] + rest)[1..] == rest;
    }
  }

  lemma {:induction false} AscendingDistinct(ps: seq<nat>, least: nat)
    requires Ascending(ps, least)
    ensures forall a :: 0 <= a < |ps| ==> ps[a] >= least
    ensures forall a, b :: 0 <= a < b < |ps| ==> ps[a] != ps[b]
  {
    if ps != [] {
      var rest := ps[1..];
      AscendingDistinct(rest, ps[0] + 1);
      assert forall a :: 0 < a < |ps| ==> ps[a] == rest[a - 1];
    }
  }

  predicate StandAt(es: seq<Entry>, bs: seq<string>, ps: seq<nat>) {
    |es| == |ps| && forall j :: 0 <= j < |ps| ==> ps[j] < |bs| && es[j] == EntryOf(bs[ps[j]])
  }

  /** What is found stands at those places. */
  lemma {:induction false} FoundAt(bs: seq<string>, flags: seq<bool>, ref: string, ks: Kinds, i: nat)
    requires i <= |bs| && flags == Flags(bs, ref, ks)
    ensures StandAt(Fitting(EntriesOf(bs[i..], false), ref, ks), bs, Raised(flags, i))
    decreases |bs| - i
  {
    if i < |bs| {
      FoundAt(bs, flags, ref, ks, i + 1);
      FittingCons(bs, ref, ks, i);
      StandCons(Fitting(EntriesOf(bs[i + 1..], false), ref, ks), bs, Raised(flags, i + 1), i);
    }
  }

  lemma StandCons(es: seq<Entry>, bs: seq<string>, ps: seq<nat>, i: nat)
    requires StandAt(es, bs, ps) && i < |bs|
    ensures StandAt([EntryOf(bs[i])] + es, bs, [i] + ps) && [] + es == es
  {
  }

  lemma FittingCons(bs: seq<string>, ref: string, ks: Kinds, i: nat)
    requires i < |bs|
    ensures Fitting(EntriesOf(bs[i..], false), ref, ks) ==
            (if Chosen(bs[i], ref, ks) then [EntryOf(bs[i])] else []) + Fitting(EntriesOf(bs[i + 1..], false), ref, ks)
  {
    assert bs[i..][1..] == bs[i + 1..];
    var rest := EntriesOf(bs[i + 1..], false);
    assert ([EntryOf(bs[i])] + rest)[1..] == rest;
  }

  lemma FoundTargets(bs: seq<string>, ref: string, ks: Kinds)
    ensures TargetsAt(Fitting(EntriesOf(bs, false), ref, ks), bs, Places(bs, ref, ks))
  {
    var flags, ps := Flags(bs, ref, ks), Places(bs, ref, ks);
    RaisedAscending(flags, 0, 0);
    AscendingDistinct(ps, 0);
    FoundAt(bs, flags, ref, ks, 0);
    assert bs[0..] == bs;
    forall j | 0 <= j < |ps|
      ensures Holds(EntryOf(bs[ps[j]]), bs[ps[j]])
    {
      RaisedIn(flags, 0, ps[j]);
      LiveEntryHolds(bs[ps[j]]);
    }
  }

  /** At its turn, each entry the reference finds occurs first at its own place. */
  predicate ClearsInTurn(text: string, ref: string, ks: Kinds, reason: string, today: string) {
    var es, ps := FindByRef(text, ref, ks), Places(BlocksOf(text), Strip(ref), ks);
    |es| == |ps| && ClearInTurn(text, es, ps, reason, today)
  }

  lemma {:induction false} MarkAllAt(bs: seq<string>, ps: seq<nat>, reason: string, today: string, k: nat)
    requires forall i :: 0 <= i < |ps| ==> ps[i] < |bs|
    requires forall i, j :: 0 <= i < j < |ps| ==> ps[i] != ps[j]
    requires k < |bs|
    ensures MarkAll(bs, ps, reason, today)[k] == if k in ps then Tombstoned(bs[k], reason, today) else bs[k]
    decreases |ps|
  {
    if ps != [] {
      var bs' := bs[ps[0] := Tombstoned(bs[ps[0]], reason, today)];
      MarkAllAt(bs', ps[1..], reason, today, k);
      assert ps == [ps[0]] + ps[1..];
    }
  }

  lemma {:induction false} LiveAfter(bs: seq<string>, us: seq<string>, ref: string, ks: Kinds)
    requires |us| == |bs|
    requires forall i :: 0 <= i < |bs| ==> if Chosen(bs[i], ref, ks) then EntryOf(us[i]).tombstoned else us[i] == bs[i]
    ensures EntriesOf(us, false) == Others(EntriesOf(bs, false), ref, ks)
    decreases |bs|
  {
    if bs != [] {
      var bs', us' := bs[1..], us[1..];
      assert forall i :: 0 <= i < |bs'| ==> bs'[i] == bs[i + 1] && us'[i] == us[i + 1];
      LiveAfter(bs', us', ref, ks);
      var rest := EntriesOf(bs', false);
      assert ([EntryOf(bs[0])] + rest)[1..] == rest;
    }
  }

  /** Clearing what a reference finds, each in its turn, takes exactly those entries off the live list;
      all others stay, in order. */
  lemma ClearedInTurn(text: string, ref: string, ks: Kinds, reason: string, today: string)
    requires Strip(ref) != "" && '\n' !in reason && '\n' !in today
    requires ClearsInTurn(text, ref, ks, reason, today)
    ensures Live(TombstoneAll(text, FindByRef(text, ref, ks), reason, today)) == Others(Live(text), Strip(ref), ks)
  {
    var bs, r := BlocksOf(text), Strip(ref);
    var ps, es := Places(bs, r, ks), FindByRef(text, ref, ks);
    FoundTargets(bs, r, ks);
    TombstoneAllFrame(text, es, ps, reason, today);
    var us := MarkAll(bs, ps, reason, today);
    forall i | 0 <= i < |bs|
      ensures if Chosen(bs[i], r, ks) then EntryOf(us[i]).tombstoned else us[i] == bs[i]
    {
      MarkAllAt(bs, ps, reason, today, i);
      RaisedIn(Flags(bs, r, ks), 0, i);
      if Chosen(bs[i], r, ks) {
        MarkedEntry(text, i, reason, today);
      }
    }
    LiveAfter(bs, us, r, ks);
  }

  lemma MarkedEntry(text: string, k: nat, reason: string, today: string)
    requires k < |BlocksOf(text)| && !EntryOf(BlocksOf(text)[k]).tombstoned && '\n' !in reason && '\n' !in today
    ensures EntryOf(Tombstoned(BlocksOf(text)[k], reason, today)).tombstoned
  {
    var bs := BlocksOf(text);
    LiveEntryHolds(bs[k]);
    ParsedFits(text);
    Middle(bs, k, "");
    TiledGood(bs[..k], bs[k], bs[k + 1..]);
    TombstonedEntry(bs[k], reason, today);
  }

  lemma {:induction false} OthersFind(es: seq<Entry>, ref: string, ks: Kinds, ref': string, ks': Kinds)
    ensures Fitting(Others(es, ref, ks), ref, ks) == []
    ensures ref' != ref ==> Fitting(Others(es, ref, ks), ref', ks') == Fitting(es, ref', ks')
  {
    if es != [] {
      OthersFind(es[1..], ref, ks, ref', ks');
      var rest := Others(es[1..], ref, ks);
      assert ([es[0]] + rest)[1..] == rest && [] + rest == rest;
    }
  }

  // ----- Texts of any kind -----

  /** No found entry's heading line stands anywhere before the entry, in the text as it is. */
  predicate HeadingsFirst(text: string, ref: string, ks: Kinds) {
    forall k :: 0 <= k < |BlocksOf(text)| && Chosen(BlocksOf(text)[k], Strip(ref), ks) ==> OwnHeading(text, k)
  }

  /** Then clearing takes exactly the found entries off the live list, so that the reference finds
      nothing any more, and nobody else's entries are touched. */
  lemma ClearingByRef(text: string, ref: string, ks: Kinds, reason: string, today: string, ref': string, ks': Kinds)
    requires Strip(ref) != "" && HeaderFree(reason) && HeaderFree(today)
    requires HeadingsFirst(text, ref, ks)
    ensures var after := TombstoneAll(text, FindByRef(text, ref, ks), reason, today);
            && Live(after) == Others(Live(text), Strip(ref), ks)
            && FindByRef(after, ref, ks) == []
            && (Strip(ref') != Strip(ref) ==> FindByRef(after, ref', ks') == FindByRef(text, ref', ks'))
  {
    var bs, r := BlocksOf(text), Strip(ref);
    var ps := Places(bs, r, ks);
    FoundTargets(bs, r, ks);
    forall i | 0 <= i < |ps|
      ensures ps[i] < |bs| && OwnHeading(text, ps[i])
    {
      RaisedIn(Flags(bs, r, ks), 0, ps[i]);
    }
    HeadingsClear(text, FindByRef(text, ref, ks), ps, reason, today);
    ClearedInTurn(text, ref, ks, reason, today);
    OthersFind(Live(text), r, ks, Strip(ref'), ks');
  }

  // ----- Rendered files -----

  lemma HyphenLine(l: string, rest: string)
    requires '\n' !in l && HyphenLines(rest) && (rest != "" ==> rest[0] == '-')
    ensures HyphenLines(l + ("\n" + rest))
  {
  }

  lemma {:induction false} FieldLinesHyphens(fs: seq<(string, string)>)
    requires forall i :: 0 <= i < |fs| ==> PlainField(fs[i])
    ensures var s := FieldLines(fs); HyphenLines(s) && (s != "" ==> s[0] == '-')
    ensures fs != [] ==> EndsOnce(FieldLines(fs))
  {
    if fs != [] {
      FieldLinesHyphens(fs[1..]);
      FieldLineChars(fs[0]);
      HyphenLine(FieldLine(fs[0]), FieldLines(fs[1..]));
      FieldLineEnds(fs[0]);
      EndsBehind(FieldLine(fs[0]), FieldLines(fs[1..]));
    }
  }

  /** One line feed at the end, behind a character that is not white space. */
  predicate EndsOnce(s: string) {
    |s| > 1 && s[|s| - 1] == '\n' && !IsSpace(s[|s| - 2])
  }

  lemma FieldLineEnds(f: (string, string))
    requires PlainField(f)
    ensures var l := FieldLine(f); !IsSpace(l[|l| - 1])
  {
  }

  lemma EndsBehind(l: string, rest: string)
    requires l != "" && !IsSpace(l[|l| - 1]) && (rest == "" || EndsOnce(rest))
    ensures EndsOnce(l + ("\n" + rest))
  {
    var s := l + ("\n" + rest);
    assert rest != "" ==> s[|s| - 2] == rest[|rest| - 2];
  }

  lemma EndsOnceStrips(s: string)
    requires EndsOnce(s)
    ensures RStrip(s) == s[..|s| - 1] && s == RStrip(s) + "\n"
  {
    RStripOf(s[..|s| - 1], "\n");
    assert s == s[..|s| - 1] + "\n";
  }

  /** A rendered entry is written line by line. */
  lemma RenderedLines(e: NewEntry)
    requires Plain(e)
    ensures LineBlock(Rendered(e))
  {
    RenderedBlock(e);
    LabelledPlain(e);
    FieldLinesHyphens(Labelled(e));
    assert Labelled(e) != [];
    RenderedShape(" " + e.title, FieldLines(Labelled(e)));
  }

  lemma RenderedShape(l: string, rest: string)
    requires SingleLine(l) && HyphenLines(rest) && rest != "" && rest[0] == '-' && EndsOnce(rest)
    ensures var r := HEADER + (l + ("\n" + rest));
            HyphenLines(r) && r == RStrip(r) + "\n" && '\n' in RStrip(r)
  {
    var r, h := HEADER + (l + ("\n" + rest)), HEADER + l;
    PatternChars();
    assert r == h + ("\n" + rest);
    assert '\n' !in h by {
      assert forall i :: 0 <= i < |l| ==> !IsLineBreak(l[i]);
    }
    HyphenLine(h, rest);
    assert r[|r| - 2] == rest[|rest| - 2];
    EndsOnceStrips(r);
    assert RStrip(r)[|h|] == '\n';
  }

  lemma {:induction false} AllLines(es: seq<NewEntry>)
    requires forall i :: 0 <= i < |es| ==> Plain(es[i])
    ensures LineBlocks(RenderAll(es))
  {
    if es != [] {
      RenderedLines(es[0]);
      AllLines(es[1..]);
      LinesCons(Rendered(es[0]), RenderAll(es[1..]));
    }
  }

  lemma LinesCons(b: string, bs: seq<string>)
    requires LineBlock(b) && LineBlocks(bs)
    ensures LineBlocks([b] + bs)
  {
  }

  lemma FlagsCons(bs: seq<string>, ref: string, ks: Kinds)
    requires bs != []
    ensures Flags(bs, ref, ks)[0] == Chosen(bs[0], ref, ks) && Flags(bs, ref, ks)[1..] == Flags(bs[1..], ref, ks)
  {
  }

  function FoundIn(b: string, ref: string, ks: Kinds): seq<Entry> {
    if Chosen(b, ref, ks) then [EntryOf(b)] else []
  }

  lemma FoundHolds(b: string, ref: string, ks: Kinds)
    ensures var head := FoundIn(b, ref, ks);
            if Chosen(b, ref, ks) then |head| == 1 && Holds(head[0], b) else head == []
  {
    if Chosen(b, ref, ks) {
      LiveEntryHolds(b);
    }
  }

  /** What the reference finds are the entries of the chosen blocks. */
  lemma {:induction false} FoundMarked(bs: seq<string>, ref: string, ks: Kinds)
    ensures Targets(Fitting(EntriesOf(bs, false), ref, ks), bs, Flags(bs, ref, ks))
  {
    if bs != [] {
      FoundMarked(bs[1..], ref, ks);
      FlagsCons(bs, ref, ks);
      FoundHolds(bs[0], ref, ks);
      FoundCons(bs, ref, ks);
      TargetsStep(FoundIn(bs[0], ref, ks), Fitting(EntriesOf(bs[1..], false), ref, ks), bs, Flags(bs, ref, ks));
    }
  }

  lemma FoundCons(bs: seq<string>, ref: string, ks: Kinds)
    requires bs != []
    ensures Fitting(EntriesOf(bs, false), ref, ks) ==
            FoundIn(bs[0], ref, ks) + Fitting(EntriesOf(bs[1..], false), ref, ks)
  {
    FittingCons(bs, ref, ks, 0);
    assert bs[0..] == bs;
  }

  lemma TargetsStep(head: seq<Entry>, es: seq<Entry>, bs: seq<string>, marks: seq<bool>)
    requires bs != [] && |marks| == |bs| && Targets(es, bs[1..], marks[1..])
    requires if marks[0] then |head| == 1 && Holds(head[0], bs[0]) else head == []
    ensures Targets(head + es, bs, marks)
  {
    assert marks[0] ==> (head + es)[0] == head[0] && (head + es)[1..] == es;
    assert !marks[0] ==> head + es == es;
  }

  /** Each found entry's text occurs first at the entry itself, in the text as it is. */
  predicate EachFirst(text: string, ref: string, ks: Kinds) {
    forall k :: 0 <= k < |BlocksOf(text)| && Chosen(BlocksOf(text)[k], Strip(ref), ks) ==>
      IndexOf(text, BlocksOf(text)[k]) == StartOf(text, k)
  }

  lemma RenderedParsed(es: seq<NewEntry>)
    requires forall i :: 0 <= i < |es| ==> Plain(es[i])
    ensures Preamble(Concat(RenderAll(es))) == "" && BlocksOf(Concat(RenderAll(es))) == RenderAll(es)
  {
    RenderRoundTrip(es, false);
  }

  lemma StandsThere(text: string, k: nat)
    requires Preamble(text) == "" && text == Concat(BlocksOf(text)) && k < |BlocksOf(text)|
    ensures IndexOf(text, BlocksOf(text)[k]) == StartOf(text, k) <==> StandsFirst([], BlocksOf(text), k)
  {
    var bs := BlocksOf(text);
    assert [] + bs == bs && [] + bs[..k] == bs[..k];
  }

  lemma EachFirstMeans(text: string, ref: string, ks: Kinds)
    requires Preamble(text) == "" && text == Concat(BlocksOf(text))
    ensures EachFirst(text, ref, ks) <==> AllStandFirst(BlocksOf(text), Flags(BlocksOf(text), Strip(ref), ks))
  {
    forall k | 0 <= k < |BlocksOf(text)|
      ensures IndexOf(text, BlocksOf(text)[k]) == StartOf(text, k) <==> StandsFirst([], BlocksOf(text), k)
    {
      StandsThere(text, k);
    }
  }

  /** Right for every found entry: those, and no others, leave the live list. */
  lemma RenderedRight(es: seq<NewEntry>, ref: string, ks: Kinds, reason: string, today: string)
    requires forall i :: 0 <= i < |es| ==> Plain(es[i])
    requires Strip(ref) != "" && '\n' !in reason && '\n' !in today
    requires EachFirst(Concat(RenderAll(es)), ref, ks)
    ensures var text := Concat(RenderAll(es));
            Live(TombstoneAll(text, FindByRef(text, ref, ks), reason, today)) == Others(Live(text), Strip(ref), ks)
  {
    var bs, r := RenderAll(es), Strip(ref);
    var flags := Flags(bs, r, ks);
    RenderedParsed(es);
    AllLines(es);
    FoundMarked(bs, r, ks);
    EachFirstMeans(Concat(bs), ref, ks);
    ClearedRight(Fitting(EntriesOf(bs, false), r, ks), bs, flags, reason, today);
    MarkedLive(bs, r, ks, reason, today);
  }

  lemma MarkedLive(bs: seq<string>, ref: string, ks: Kinds, reason: string, today: string)
    requires LineBlocks(bs) && '\n' !in reason && '\n' !in today
    ensures EntriesOf(Marked(bs, Flags(bs, ref, ks), reason, today), false) == Others(EntriesOf(bs, false), ref, ks)
  {
    var us := Marked(bs, Flags(bs, ref, ks), reason, today);
    forall i | 0 <= i < |bs|
      ensures if Chosen(bs[i], ref, ks) then EntryOf(us[i]).tombstoned else us[i] == bs[i]
    {
      MarkedAt(bs, Flags(bs, ref, ks), i, reason, today);
      LineBlockMarked(bs[i], reason, today);
    }
    LiveAfter(bs, us, ref, ks);
  }

  lemma LineBlockMarked(b: string, reason: string, today: string)
    requires LineBlock(b) && '\n' !in reason && '\n' !in today
    ensures EntryOf(Tombstoned(b, reason, today)).tombstoned
  {
    TombstonedEntry(b, reason, today);
  }

  /** Wrong for some: the reference still finds that one. */
  lemma RenderedWrong(es: seq<NewEntry>, ref: string, ks: Kinds, reason: string, today: string)
    requires forall i :: 0 <= i < |es| ==> Plain(es[i])
    requires Strip(ref) != "" && '\n' !in reason && '\n' !in today
    requires !EachFirst(Concat(RenderAll(es)), ref, ks)
    ensures var text := Concat(RenderAll(es));
            FindByRef(TombstoneAll(text, FindByRef(text, ref, ks), reason, today), ref, ks) != []
  {
    var bs, r := RenderAll(es), Strip(ref);
    var flags := Flags(bs, r, ks);
    RenderedParsed(es);
    AllLines(es);
    FoundMarked(bs, r, ks);
    EachFirstMeans(Concat(bs), ref, ks);
    var i, z := ClearedWrong(Fitting(EntriesOf(bs, false), r, ks), bs, flags, reason, today);
    StillFound(BlocksOf(z), bs[i], Marked(bs[i + 1..], flags[i + 1..], reason, today), r, ks);
  }

  lemma StillFound(ls: seq<string>, b: string, us: seq<string>, ref: string, ks: Kinds)
    requires Chosen(b, ref, ks)
    ensures Fitting(EntriesOf(ls + ([b] + us), false), ref, ks) != []
  {
    EntriesConcat(ls, [b] + us, false);
    EntriesConcat([b], us, false);
    LiveAlone(b);
    FittingSome(EntriesOf(ls + ([b] + us), false), EntryOf(b), ref, ks);
  }

  lemma {:induction false} FittingSome(es: seq<Entry>, e: Entry, ref: string, ks: Kinds)
    requires e in es && Fits(e, ref, ks)
    ensures Fitting(es, ref, ks) != []
  {
    if es[0] != e {
      FittingSome(es[1..], e, ref, ks);
    }
  }

  /** In a file of rendered entries, clearing what a reference finds leaves exactly the other live
      entries, and nothing for the reference to find, exactly when every found entry's text occurs
      first at the entry itself, in the file before the call. */
  lemma ClearingRendered(es: seq<NewEntry>, ref: string, ks: Kinds, reason: string, today: string)
    requires forall i :: 0 <= i < |es| ==> Plain(es[i])
    requires Strip(ref) != "" && '\n' !in reason && '\n' !in today
    ensures var text := Concat(RenderAll(es));
            var after := TombstoneAll(text, FindByRef(text, ref, ks), reason, today);
            && (Live(after) == Others(Live(text), Strip(ref), ks) <==> EachFirst(text, ref, ks))
            && (FindByRef(after, ref, ks) == [] <==> EachFirst(text, ref, ks))
  {
    OthersFind(Live(Concat(RenderAll(es))), Strip(ref), ks, "", AnyKind);
    if EachFirst(Concat(RenderAll(es)), ref, ks) {
      RenderedRight(es, ref, ks, reason, today);
    } else {
      RenderedWrong(es, ref, ks, reason, today);
    }
  }

  /** Every other reference then finds what it found. */
  lemma RenderedOthers(
      es: seq<NewEntry>, ref: string, ks: Kinds, reason: string, today: string, ref': string, ks': Kinds)
    requires forall i :: 0 <= i < |es| ==> Plain(es[i])
    requires Strip(ref) != "" && '\n' !in reason && '\n' !in today && Strip(ref') != Strip(ref)
    requires EachFirst(Concat(RenderAll(es)), ref, ks)
    ensures var text := Concat(RenderAll(es));
            var after := TombstoneAll(text, FindByRef(text, ref, ks), reason, today);
            FindByRef(after, ref', ks') == FindByRef(text, ref', ks')
  {
    RenderedRight(es, ref, ks, reason, today);
    OthersFind(Live(Concat(RenderAll(es))), Strip(ref), ks, Strip(ref'), ks');
  }

  /** Two found entries of one text cannot both occur first. */
  lemma TwinsNotFirst(text: string, ref: string, ks: Kinds, i: nat, j: nat)
    requires i < j < |BlocksOf(text)| && BlocksOf(text)[i] == BlocksOf(text)[j]
    requires Chosen(BlocksOf(text)[i], Strip(ref), ks)
    ensures !EachFirst(text, ref, ks)
  {
    ParsedFits(text);
    TiledHeaders(BlocksOf(text), i);
    Longer(BlocksOf(text), i, j);
  }

  lemma Longer(bs: seq<string>, i: nat, j: nat)
    requires i < j <= |bs| && bs[i] != ""
    ensures |Concat(bs[..i])| < |Concat(bs[..j])|
  {
    var more := bs[i..j];
    assert bs[..j] == bs[..i] + more;
    ConcatAppend(bs[..i], more);
    assert more[0] == bs[i];
  }

  // ----- An earlier copy -----

  /** An entry whose title ends in the heading of `e`. */
  function Quoting(e: NewEntry): NewEntry {
    e.(title := "see " + HEADER + " " + e.title)
  }

  lemma QuotingHolds(e: NewEntry)
    ensures Contains(Rendered(Quoting(e)), Rendered(e))
  {
    var x := HEADER + " see ";
    assert Labelled(Quoting(e)) == Labelled(e);
    QuotingText(e.title, "\n" + FieldLines(Labelled(e)));
    OccursRight(x, Rendered(e), Rendered(e), |x|);
    IndexOfFirst(x + Rendered(e), Rendered(e), |x|);
  }

  lemma QuotingText(title: string, z: string)
    ensures HEADER + (" " + ("see " + HEADER + " " + title) + z) == HEADER + " see " + (HEADER + (" " + title + z))
  {
    assert " see " == " " + "see ";
  }

  /** Tombstoning an entry behind one that quotes its heading: the text found is inside the earlier
      entry, and the entry meant stays live. */
  lemma EarlierCopy(e: NewEntry, reason: string, today: string)
    requires Plain(e) && Plain(Quoting(e)) && '\n' !in reason && '\n' !in today
    ensures var o, b := Rendered(Quoting(e)), Rendered(e);
            var after := TombstoneOne(o + b, AsRead(e), reason, today);
            && BlocksOf(o + b) == [o, b] && Holds(AsRead(e), b)
            && !OnlyMarked(o + b, after, 1, reason, today)
            && OnLiveList(AsRead(e), after)
  {
    var o, b, text := Rendered(Quoting(e)), Rendered(e), Rendered(Quoting(e)) + Rendered(e);
    RenderedLines(Quoting(e));
    RenderedLines(e);
    PairParsed(o, b);
    RenderedRead(e);
    QuotingHolds(e);
    FoundInside(text, o, b);
    TombstoneOneFrame(text, 1, AsRead(e), reason, today);
    CopyMarked(AsRead(e), o, b, reason, today);
  }

  lemma FoundInside(text: string, o: string, b: string)
    requires text == o + b && BlocksOf(text) == [o, b] && Contains(o, b) && b != ""
    ensures IndexOf(text, b) < StartOf(text, 1)
  {
    ContainsLeft(o, b, b);
    IndexOfFound(o, b);
    assert [o, b][..1] == [o] && [o][1..] == [];
    assert Concat([o]) == o + "" == o;
  }

  lemma CopyMarked(e: Entry, o: string, b: string, reason: string, today: string)
    requires LineBlock(o) && LineBlock(b) && Contains(o, b) && Holds(e, b) && e == EntryOf(b)
    requires '\n' !in reason && '\n' !in today
    ensures OnLiveList(e, TombstoneOne(o + b, e, reason, today))
  {
    EntrySealed(o);
    OneTurn(e, o, b, reason, today);
    Resealed(o, b, reason, today);
    LastAlone(ReplaceFirst(o, b, Tombstoned(b, reason, today)), b);
  }

  lemma OneTurn(e: Entry, o: string, b: string, reason: string, today: string)
    requires Contains(o, b) && Holds(e, b)
    ensures TombstoneOne(o + b, e, reason, today) == ReplaceFirst(o, b, Tombstoned(b, reason, today)) + b
  {
    var t := Tombstoned(b, reason, today);
    ReplaceLeft(o, b, "", t);
    assert b + "" == b && (ReplaceFirst(o, b, t) + b) + "" == ReplaceFirst(o, b, t) + b;
  }
}
