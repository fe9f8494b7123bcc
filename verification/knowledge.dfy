/** The durable knowledge store and its amend edges (src/otaman_core/knowledge.py). */
module Knowledge {
  import opened Text
  import BusStem
  import opened Wrappers

  datatype Entry = Entry(
    kind: string, author: string, created: string, reviewBy: string, anchor: string, title: string, body: string,
    state: string, partition: string, domain: string, supersedes: string, accessedAt: string)

  /** The file name an entry is stored under. */
  function Stem(e: Entry): string {
    e.created + ("-" + BusStem.Slugify(e.title, None, "item"))
  }

  /** An entry as its file reads back: every field stripped, an absent state active. */
  function Filed(e: Entry): Entry {
    Entry(
      Strip(e.kind), Strip(e.author), Strip(e.created), Strip(e.reviewBy), Strip(e.anchor), Strip(e.title),
      Strip(e.body), if Strip(e.state) != "" then Strip(e.state) else "active",
      Strip(e.partition), Strip(e.domain), Strip(e.supersedes), Strip(e.accessedAt))
  }

  /** The directory: what each `<stem>.md` parses to, `None` for a file that is no entry. */
  type Files = map<string, Option<Entry>>

  function LoadByStem(files: Files, stem: string): Option<Entry> {
    if stem in files then files[stem] else None
  }

  predicate Has(files: Files, stem: string) {
    LoadByStem(files, stem).Some?
  }

  function Write(files: Files, e: Entry): Files {
    files[Stem(e) := Some(Filed(e))]
  }

  // ----- The verbs -----

  predicate KnownState(state: string) {
    state in ["active", "dormant", "retired"]
  }

  datatype Verb =
    | Amend(target: string, correcting: Entry)
    | Access(stem: string, date: string)
    | SetState(stem: string, state: string)

  datatype Outcome = Wrote(stem: string) | Absent | NothingToAmend | UnknownState

  function Answer(files: Files, v: Verb): Outcome {
    match v
    case Amend(target, correcting) =>
      if Has(files, target) then Wrote(Stem(correcting.(supersedes := target))) else NothingToAmend
    case Access(stem, date) =>
      if Has(files, stem) then Wrote(Stem(files[stem].value)) else Absent
    case SetState(stem, state) =>
      if !KnownState(state) then UnknownState
      else if Has(files, stem) then Wrote(Stem(files[stem].value)) else Absent
  }

  /** The directory after a verb. */
  function After(files: Files, v: Verb): Files {
    match v
    case Amend(target, correcting) =>
      if Has(files, target) then Write(files, correcting.(supersedes := target)) else files
    case Access(stem, date) =>
      if Has(files, stem) then Write(files, files[stem].value.(accessedAt := date)) else files
    case SetState(stem, state) =>
      if KnownState(state) && Has(files, stem) then Write(files, files[stem].value.(state := state)) else files
  }

  /** A verb is carried out exactly when the entry it names is there and the state it asks for is one of the
      three; otherwise it says so and nothing changes. */
  lemma VerbMeans(files: Files, v: Verb)
    ensures var stem := if v.Amend? then v.target else v.stem;
            var there := stem in files && files[stem] != None;
            var known := v.SetState? ==> v.state == "active" || v.state == "dormant" || v.state == "retired";
            && (Answer(files, v).Wrote? <==> there && known)
            && (Answer(files, v).UnknownState? <==> !known)
            && (Answer(files, v).NothingToAmend? <==> v.Amend? && !there)
            && (Answer(files, v).Absent? <==> !v.Amend? && known && !there)
            && (Answer(files, v).Wrote? ==>
                  Answer(files, v).stem in After(files, v) && After(files, v)[Answer(files, v).stem].Some?)
            && (!Answer(files, v).Wrote? ==> After(files, v) == files)
  {
  }

  /** The name is the date, a hyphen, and the slug of the title, or `item` for a title without a letter or
      digit. */
  lemma StemMeans(e: Entry)
    ensures var slug := BusStem.Core(e.title, None);
            var plain := forall i :: 0 <= i < |e.title| ==> !BusStem.IsSlugChar(LowerChar(e.title[i]));
            Stem(e) == e.created + ("-" + if plain then "item" else slug)
  {
    BusStem.SlugFallback(e.title, "item");
  }

  class Store {
    var files: Files

    method WriteEntry(e: Entry) returns (stem: string)
      modifies this
      ensures files == Write(old(files), e) && stem == Stem(e)
    {
      stem := Stem(e);
      files := files[stem := Some(Filed(e))];
    }

    method LoadEntryByStem(stem: string) returns (e: Option<Entry>)
      ensures e == LoadByStem(files, stem)
    {
      e := if stem in files then files[stem] else None;
    }

    method AmendEntry(target: string, correcting: Entry) returns (r: Outcome)
      modifies this
      ensures r == Answer(old(files), Amend(target, correcting))
      ensures files == After(old(files), Amend(target, correcting))
    {
      var superseded := LoadEntryByStem(target);
      if superseded.None? {
        return NothingToAmend;
      }
      var stem := WriteEntry(correcting.(supersedes := target));
      r := Wrote(stem);
    }

    method MarkAccessed(stem: string, accessed: string) returns (r: Outcome)
      modifies this
      ensures r == Answer(old(files), Access(stem, accessed))
      ensures files == After(old(files), Access(stem, accessed))
    {
      var entry := LoadEntryByStem(stem);
      if entry.None? {
        return Absent;
      }
      var written := WriteEntry(entry.value.(accessedAt := accessed));
      r := Wrote(written);
    }

    method MoveToState(stem: string, state: string) returns (r: Outcome)
      modifies this
      ensures r == Answer(old(files), SetState(stem, state))
      ensures files == After(old(files), SetState(stem, state))
    {
      if !KnownState(state) {
        return UnknownState;
      }
      var entry := LoadEntryByStem(stem);
      if entry.None? {
        return Absent;
      }
      var written := WriteEntry(entry.value.(state := state));
      r := Wrote(written);
    }
  }

  // ----- Names -----

  /** Every entry is stored under its own stem, as it reads back. */
  predicate Named(files: Files) {
    forall s :: s in files && files[s].Some? ==> Proper(files[s].value, s)
  }

  predicate Proper(e: Entry, s: string) {
    Stem(e) == s && Filed(e) == e
  }

  lemma FiledTwice(e: Entry)
    ensures Filed(Filed(e)) == Filed(e)
  {
    StripTrimmed(Strip(e.kind));
    StripTrimmed(Strip(e.author));
    StripTrimmed(Strip(e.created));
    StripTrimmed(Strip(e.reviewBy));
    StripTrimmed(Strip(e.anchor));
    StripTrimmed(Strip(e.title));
    StripTrimmed(Strip(e.body));
    StripTrimmed(Filed(e).state);
    StripTrimmed(Strip(e.partition));
    StripTrimmed(Strip(e.domain));
    StripTrimmed(Strip(e.supersedes));
    StripTrimmed(Strip(e.accessedAt));
  }

  /** An entry reads back as it was written exactly when none of its fields has white space around it and
      its state is not empty. */
  lemma FiledFixed(e: Entry)
    ensures Filed(e) == e <==>
            && Trimmed(e.kind) && Trimmed(e.author) && Trimmed(e.created) && Trimmed(e.reviewBy)
            && Trimmed(e.anchor) && Trimmed(e.title) && Trimmed(e.body) && Trimmed(e.state) && e.state != ""
            && Trimmed(e.partition) && Trimmed(e.domain) && Trimmed(e.supersedes) && Trimmed(e.accessedAt)
  {
    StripFixed(e.kind);
    StripFixed(e.author);
    StripFixed(e.created);
    StripFixed(e.reviewBy);
    StripFixed(e.anchor);
    StripFixed(e.title);
    StripFixed(e.body);
    StripFixed(e.state);
    StripFixed(e.partition);
    StripFixed(e.domain);
    StripFixed(e.supersedes);
    StripFixed(e.accessedAt);
  }

  lemma StripFixed(s: string)
    ensures Strip(s) == s <==> Trimmed(s)
  {
    if Trimmed(s) {
      StripTrimmed(s);
    }
  }

  lemma FiledStem(e: Entry)
    ensures Stem(Filed(e)) == Stem(e) <==> Trimmed(e.created)
  {
    BusStem.SlugOfStripped(e.title);
    var x := "-" + BusStem.Slugify(e.title, None, "item");
    if Trimmed(e.created) {
      StripTrimmed(e.created);
    }
    if Strip(e.created) + x == e.created + x {
      assert |Strip(e.created)| == |e.created|;
      Halves(e.created, x);
      Halves(Strip(e.created), x);
    }
  }

  lemma StemTrimmed(e: Entry)
    requires Trimmed(e.created)
    ensures Trimmed(Stem(e)) && Stem(e) != ""
  {
    var slug := BusStem.Slugify(e.title, None, "item");
    BusStem.CoreShape(e.title, None);
    assert slug != "" && !IsSpace(slug[|slug| - 1]);
    assert Stem(e)[|Stem(e)| - 1] == slug[|slug| - 1];
  }

  // ----- Edges -----

  /** The entry that the one at `s` corrects, "" for none. */
  function Edge(files: Files, s: string): string {
    if Has(files, s) then files[s].value.supersedes else ""
  }

  predicate Resolves(files: Files) {
    forall s :: s in files && Edge(files, s) != "" ==> Has(files, Edge(files, s))
  }

  /** The chain of corrections from `s` ends within `n` steps. */
  predicate Settles(files: Files, s: string, n: nat)
    decreases n
  {
    Edge(files, s) == "" || (n > 0 && Settles(files, Edge(files, s), n - 1))
  }

  ghost predicate Ends(files: Files, s: string) {
    exists n: nat :: Settles(files, s, n)
  }

  /** Every chain of corrections is finite. */
  ghost predicate Finite(files: Files) {
    forall s :: s in files ==> Ends(files, s)
  }

  ghost predicate Sound(files: Files) {
    Named(files) && Resolves(files) && Finite(files)
  }

  predicate Reaches(files: Files, x: string, y: string, k: nat)
    decreases k
  {
    x == y || (k > 0 && Edge(files, x) != "" && Reaches(files, Edge(files, x), y, k - 1))
  }

  /** `y` is on the chain of corrections from `x`. */
  ghost predicate OnChain(files: Files, x: string, y: string) {
    exists k: nat :: Reaches(files, x, y, k)
  }

  lemma OnChainNext(files: Files, x: string, y: string)
    requires Edge(files, x) != "" && OnChain(files, Edge(files, x), y)
    ensures OnChain(files, x, y)
  {
    var k: nat :| Reaches(files, Edge(files, x), y, k);
    assert Reaches(files, x, y, k + 1);
  }

  /** `after` differs from `files` in the edge of `s` only, which now leads to `t`. */
  ghost predicate Redirected(files: Files, after: Files, s: string, t: string) {
    Edge(after, s) == t && forall x :: x != s ==> Edge(after, x) == Edge(files, x)
  }

  lemma {:induction false} ChainSame(files: Files, after: Files, s: string, t: string, x: string, n: nat)
    requires Redirected(files, after, s, t) && Settles(files, x, n) && !OnChain(files, x, s)
    ensures Settles(after, x, n)
    decreases n
  {
    assert Reaches(files, x, x, 0);
    if Edge(files, x) != "" {
      if OnChain(files, Edge(files, x), s) {
        OnChainNext(files, x, s);
      }
      ChainSame(files, after, s, t, Edge(files, x), n - 1);
    }
  }

  lemma {:induction false} ChainEnds(files: Files, after: Files, s: string, t: string, x: string, n: nat, m: nat)
    requires Redirected(files, after, s, t) && Settles(files, x, n) && Settles(after, t, m)
    ensures Ends(after, x)
    decreases n
  {
    if x == s {
      assert Settles(after, s, m + 1);
    } else if Edge(files, x) == "" {
      assert Settles(after, x, 0);
    } else {
      ChainEnds(files, after, s, t, Edge(files, x), n - 1, m);
      var k: nat :| Settles(after, Edge(files, x), k);
      assert Settles(after, x, k + 1);
    }
  }

  lemma {:induction false} ChainCircles(
      files: Files, after: Files, s: string, t: string, x: string, kt: nat, kx: nat, n: nat)
    requires Redirected(files, after, s, t) && t != ""
    requires Reaches(files, t, s, kt) && Reaches(files, x, s, kx)
    ensures !Settles(after, x, n)
    decreases n
  {
    if n > 0 {
      if x == s {
        ChainCircles(files, after, s, t, t, kt, kt, n - 1);
      } else {
        ChainCircles(files, after, s, t, Edge(files, x), kt, kx - 1, n - 1);
      }
    }
  }

  /** A redirected edge keeps all chains finite exactly when it does not lead back to itself. */
  lemma RedirectFinite(files: Files, after: Files, s: string, t: string)
    requires Finite(files) && Redirected(files, after, s, t)
    requires t in files && t != "" && after.Keys == files.Keys + {s}
    ensures Finite(after) <==> !OnChain(files, t, s)
  {
    if OnChain(files, t, s) {
      var k: nat :| Reaches(files, t, s, k);
      forall n: nat
        ensures !Settles(after, t, n)
      {
        ChainCircles(files, after, s, t, t, k, k, n);
      }
      assert !Ends(after, t);
    } else {
      var m: nat :| Settles(files, t, m);
      ChainSame(files, after, s, t, t, m);
      forall x | x in after
        ensures Ends(after, x)
      {
        if x in files {
          var n: nat :| Settles(files, x, n);
          ChainEnds(files, after, s, t, x, n, m);
        } else {
          assert Settles(after, s, m + 1);
        }
      }
    }
  }

  // ----- One verb -----

  /** What an amend does to the edges. */
  lemma AmendEdges(files: Files, target: string, correcting: Entry)
    requires Named(files) && Has(files, target)
    ensures var after, s := After(files, Amend(target, correcting)), Stem(correcting);
            && after.Keys == files.Keys + {s}
            && (forall x :: Has(after, x) <==> x == s || Has(files, x))
            && Redirected(files, after, s, target)
            && target != ""
  {
    var e := files[target].value;
    assert Filed(e).created == e.created;
    StemTrimmed(e);
    StripTrimmed(target);
  }

  lemma AmendNamed(files: Files, target: string, correcting: Entry)
    requires Named(files) && Has(files, target)
    ensures Named(After(files, Amend(target, correcting))) <==> Trimmed(correcting.created)
  {
    var e := correcting.(supersedes := target);
    var after := After(files, Amend(target, correcting));
    FiledTwice(e);
    FiledStem(e);
    assert after[Stem(e)] == Some(Filed(e));
  }

  lemma AmendFinite(files: Files, target: string, correcting: Entry)
    requires Sound(files) && Has(files, target)
    ensures Resolves(After(files, Amend(target, correcting)))
    ensures Finite(After(files, Amend(target, correcting))) <==> !OnChain(files, target, Stem(correcting))
  {
    AmendEdges(files, target, correcting);
    RedirectResolves(files, After(files, Amend(target, correcting)), Stem(correcting), target);
    RedirectFinite(files, After(files, Amend(target, correcting)), Stem(correcting), target);
  }

  lemma RedirectResolves(files: Files, after: Files, s: string, t: string)
    requires Resolves(files) && Redirected(files, after, s, t) && Has(files, t)
    requires after.Keys == files.Keys + {s} && forall x :: Has(after, x) <==> x == s || Has(files, x)
    ensures Resolves(after)
  {
  }

  lemma SoundParts(files: Files, named: bool, finite: bool)
    requires Resolves(files) && (Named(files) <==> named) && (Finite(files) <==> finite)
    ensures Sound(files) <==> named && finite
  {
  }

  /** An amend of a sound store leaves it sound exactly when the date of the correction has no
      white space around it and its stem is not on the chain it is put in front of. */
  lemma AmendSound(files: Files, target: string, correcting: Entry)
    requires Sound(files) && Has(files, target)
    ensures Sound(After(files, Amend(target, correcting))) <==>
            Trimmed(correcting.created) && !OnChain(files, target, Stem(correcting))
    ensures Resolves(After(files, Amend(target, correcting)))
  {
    AmendNamed(files, target, correcting);
    AmendFinite(files, target, correcting);
    SoundParts(
      After(files, Amend(target, correcting)), Trimmed(correcting.created), !OnChain(files, target, Stem(correcting)));
  }

  lemma {:induction false} ChainStays(files: Files, x: string, y: string, k: nat)
    requires Resolves(files) && Has(files, x) && Reaches(files, x, y, k)
    ensures Has(files, y)
    decreases k
  {
    if x != y {
      ChainStays(files, Edge(files, x), y, k - 1);
    }
  }

  /** A fresh stem is on no chain. */
  lemma FreshOffChain(files: Files, target: string, s: string)
    requires Resolves(files) && Has(files, target) && s !in files
    ensures !OnChain(files, target, s)
  {
    forall k: nat
      ensures !Reaches(files, target, s, k)
    {
      if Reaches(files, target, s, k) {
        ChainStays(files, target, s, k);
      }
    }
  }

  lemma {:induction false} NoSelfEdge(files: Files, t: string, n: nat)
    requires Settles(files, t, n) && t != ""
    ensures Edge(files, t) != t
  {
    if Edge(files, t) == t {
      NoSelfEdge(files, t, n - 1);
    }
  }

  /** The superseded entry stays as it was written exactly when the correction is not stored in
      its place; every entry but the one at the correction's stem always does. */
  lemma AmendKeepsSuperseded(files: Files, target: string, correcting: Entry)
    requires Sound(files) && Has(files, target)
    ensures var after := After(files, Amend(target, correcting));
            && (after[target] == files[target] <==> Stem(correcting) != target)
            && (forall x :: x in files && x != Stem(correcting) ==> after[x] == files[x])
  {
    AmendEdges(files, target, correcting);
    var n: nat :| Settles(files, target, n);
    NoSelfEdge(files, target, n);
  }

  lemma FiledAccess(e: Entry, s: string, date: string)
    requires Proper(e, s)
    ensures Filed(e.(accessedAt := date)) == e.(accessedAt := Strip(date))
    ensures Proper(e.(accessedAt := Strip(date)), s) && Stem(e.(accessedAt := date)) == s
  {
    StripTrimmed(Strip(date));
  }

  lemma FiledState(e: Entry, s: string, state: string)
    requires Proper(e, s) && KnownState(state)
    ensures Filed(e.(state := state)) == e.(state := state)
    ensures Proper(e.(state := state), s)
  {
    KnownTrimmed(state);
  }

  /** Bookkeeping changes the one field of the one entry. */
  lemma AccessChanges(files: Files, stem: string, date: string)
    requires Named(files) && Has(files, stem)
    ensures After(files, Access(stem, date)) == files[stem := Some(files[stem].value.(accessedAt := Strip(date)))]
  {
    FiledAccess(files[stem].value, stem, date);
  }

  lemma StateChanges(files: Files, stem: string, state: string)
    requires Named(files) && Has(files, stem) && KnownState(state)
    ensures After(files, SetState(stem, state)) == files[stem := Some(files[stem].value.(state := state))]
  {
    FiledState(files[stem].value, stem, state);
  }

  lemma KnownTrimmed(state: string)
    requires KnownState(state)
    ensures Strip(state) == state != ""
  {
    StripTrimmed(state);
  }

  lemma {:induction false} SettlesSame(files: Files, after: Files, x: string, n: nat)
    requires forall y :: Edge(after, y) == Edge(files, y)
    requires Settles(files, x, n)
    ensures Settles(after, x, n)
    decreases n
  {
    if Edge(files, x) != "" {
      SettlesSame(files, after, Edge(files, x), n - 1);
    }
  }

  /** An entry replaced in place, its edge kept. */
  lemma ReplacedSound(files: Files, s: string, e: Entry)
    requires Sound(files) && Has(files, s) && Proper(e, s) && e.supersedes == Edge(files, s)
    ensures Sound(files[s := Some(e)])
    ensures forall x :: Edge(files[s := Some(e)], x) == Edge(files, x)
  {
    var after := files[s := Some(e)];
    assert forall x :: Has(after, x) <==> Has(files, x);
    assert after.Keys == files.Keys;
    EndsSame(files, after);
  }

  lemma EndsSame(files: Files, after: Files)
    requires after.Keys == files.Keys && Finite(files)
    requires forall y :: Edge(after, y) == Edge(files, y)
    ensures Finite(after)
  {
    forall x | x in after
      ensures Ends(after, x)
    {
      var n: nat :| Settles(files, x, n);
      SettlesSame(files, after, x, n);
    }
  }

  lemma BookkeepingSound(files: Files, v: Verb)
    requires Sound(files) && !v.Amend?
    ensures Sound(After(files, v))
    ensures forall x :: Edge(After(files, v), x) == Edge(files, x)
  {
    if Has(files, v.stem) {
      var e := files[v.stem].value;
      if v.Access? {
        AccessChanges(files, v.stem, v.date);
        FiledAccess(e, v.stem, v.date);
        ReplacedSound(files, v.stem, e.(accessedAt := Strip(v.date)));
      } else if KnownState(v.state) {
        StateChanges(files, v.stem, v.state);
        FiledState(e, v.stem, v.state);
        ReplacedSound(files, v.stem, e.(state := v.state));
      }
    }
  }

  // ----- Runs -----

  /** Every amend of the run names a fit correction, judged when it happens. */
  ghost predicate Careful(files: Files, run: seq<Verb>)
    decreases |run|
  {
    run == [] || (CarefulVerb(files, run[0]) && Careful(After(files, run[0]), run[1..]))
  }

  ghost predicate CarefulVerb(files: Files, v: Verb) {
    v.Amend? && Has(files, v.target) ==>
      Trimmed(v.correcting.created) && !OnChain(files, v.target, Stem(v.correcting))
  }

  /** The store is sound now and after every verb of the run. */
  ghost predicate SoundThroughout(files: Files, run: seq<Verb>)
    decreases |run|
  {
    Sound(files) && (run == [] || SoundThroughout(After(files, run[0]), run[1..]))
  }

  lemma VerbSound(files: Files, v: Verb)
    requires Sound(files)
    ensures Sound(After(files, v)) <==> CarefulVerb(files, v)
  {
    if v.Amend? {
      if Has(files, v.target) {
        AmendSound(files, v.target, v.correcting);
      }
    } else {
      BookkeepingSound(files, v);
    }
  }

  /** Over a whole run every edge resolves and every chain of corrections is finite, exactly
      when the run is careful. */
  lemma {:induction false} RunSound(files: Files, run: seq<Verb>)
    requires Sound(files)
    ensures SoundThroughout(files, run) <==> Careful(files, run)
    decreases |run|
  {
    if run != [] {
      VerbSound(files, run[0]);
      if CarefulVerb(files, run[0]) {
        RunSound(After(files, run[0]), run[1..]);
      }
    }
  }

  // ----- The derived flag -----

  /** `superseded_by`. */
  function SupersededBy(entries: seq<Entry>, stem: string): seq<string> {
    if entries == [] then []
    else (if entries[0].supersedes == stem then [Stem(entries[0])] else []) + SupersededBy(entries[1..], stem)
  }

  predicate IsAmended(e: Entry, entries: seq<Entry>) {
    exists i :: 0 <= i < |entries| && entries[i].supersedes == Stem(e)
  }

  /** `entries` holds what the directory does. */
  predicate Lists(entries: seq<Entry>, files: Files) {
    && (forall s :: s in files && files[s].Some? ==> files[s].value in entries)
    && (forall e :: e in entries ==> Stem(e) in files && files[Stem(e)] == Some(e))
  }

  /** The stems whose entries point at `stem`. */
  function Superseding(files: Files, stem: string): set<string> {
    set s | s in files && Has(files, s) && Edge(files, s) == stem
  }

  lemma {:induction false} SupersededByMeans(entries: seq<Entry>, stem: string, s: string)
    ensures s in SupersededBy(entries, stem) <==> exists e :: e in entries && e.supersedes == stem && Stem(e) == s
  {
    if entries != [] {
      SupersededByMeans(entries[1..], stem, s);
      assert entries == [entries[0]] + entries[1..];
    }
  }

  lemma ListedAt(files: Files, entries: seq<Entry>, e: Entry)
    requires Named(files) && Lists(entries, files)
    ensures e in entries <==> Has(files, Stem(e)) && files[Stem(e)].value == e
  {
  }

  /** Amending an entry with one of its own date and title: the correction takes its place, and points
      at itself. */
  lemma AmendSameName(e: Entry)
    requires Trimmed(e.created) && Strip(e.supersedes) == ""
    ensures var s := Stem(e);
            var files: Files := map[s := Some(Filed(e))];
            var after := After(files, Amend(s, e));
            && Sound(files) && Has(files, s)
            && after[s] != files[s] && Edge(after, s) == s && !Sound(after)
  {
    var s := Stem(e);
    var files: Files := map[s := Some(Filed(e))];
    FiledTwice(e);
    FiledStem(e);
    assert Settles(files, s, 0);
    AmendEdges(files, s, e);
    assert Reaches(files, s, s, 0);
    AmendSound(files, s, e);
  }

  /** The scan over the listed entries finds the reverse edges of the directory. */
  lemma ScanFindsEdges(files: Files, entries: seq<Entry>, stem: string)
    requires Named(files) && Lists(entries, files) && stem != ""
    ensures (set s | s in SupersededBy(entries, stem)) == Superseding(files, stem)
  {
    forall s
      ensures s in SupersededBy(entries, stem) <==> s in Superseding(files, stem)
    {
      SupersededByMeans(entries, stem, s);
      if s in Superseding(files, stem) {
        assert files[s].value in entries;
      }
      if s in SupersededBy(entries, stem) {
        var e :| e in entries && e.supersedes == stem && Stem(e) == s;
        ListedAt(files, entries, e);
      }
    }
  }

  /** The flag is set exactly when the scan finds something. */
  lemma {:induction false} FlagMeans(entries: seq<Entry>, e: Entry)
    ensures IsAmended(e, entries) <==> SupersededBy(entries, Stem(e)) != []
  {
    if entries != [] {
      var rest := entries[1..];
      FlagMeans(rest, e);
      if IsAmended(e, rest) {
        var i :| 0 <= i < |rest| && rest[i].supersedes == Stem(e);
        assert entries[i + 1].supersedes == Stem(e);
      }
      if IsAmended(e, entries) && entries[0].supersedes != Stem(e) {
        var i :| 0 <= i < |entries| && entries[i].supersedes == Stem(e);
        assert rest[i - 1].supersedes == Stem(e);
      }
    }
  }

  /** A fresh correction adds one reverse edge, to the entry it amends, and removes none. */
  lemma AmendAddsEdge(files: Files, target: string, correcting: Entry, stem: string)
    requires Named(files) && Has(files, target) && Stem(correcting) !in files && stem != ""
    ensures Superseding(After(files, Amend(target, correcting)), stem) ==
            Superseding(files, stem) + if stem == target then {Stem(correcting)} else {}
  {
    AmendEdges(files, target, correcting);
  }
}
