/** The manifest of consumed changelog fragments: its canonical order, its plain-dict form
    and the index of what earlier cuts consumed
    (src/otaman_core/changelog_manifest.py). */
module Manifests {
  import opened Text
  import opened Wrappers

  datatype Fragment = Fragment(repo: string, filename: string, hash: string)

  datatype Manifest = Manifest(release: string, fragments: seq<Fragment>)

  // ----- Order -----

  /** Code point by code point, a prefix first. */
  predicate Leq(a: string, b: string)
    decreases |a|
  {
    a == "" || (b != "" && (a[0] < b[0] || (a[0] == b[0] && Leq(a[1..], b[1..]))))
  }

  lemma {:induction false} LeqTotal(a: string, b: string)
    ensures Leq(a, b) || Leq(b, a)
    ensures Leq(a, b) && Leq(b, a) <==> a == b
    decreases |a|
  {
    if a != "" && b != "" && a[0] == b[0] {
      LeqTotal(a[1..], b[1..]);
      assert a[1..] == b[1..] ==> a == b;
    }
  }

  lemma {:induction false} LeqTransitive(a: string, b: string, c: string)
    requires Leq(a, b) && Leq(b, c)
    ensures Leq(a, c)
    decreases |a|
  {
    if a != "" && a[0] == b[0] == c[0] {
      LeqTransitive(a[1..], b[1..], c[1..]);
    }
  }

  /** The key of `build_manifest`: repository, file name, hash. */
  predicate ByKey(a: Fragment, b: Fragment) {
    if a.repo != b.repo then Leq(a.repo, b.repo)
    else if a.filename != b.filename then Leq(a.filename, b.filename)
    else Leq(a.hash, b.hash)
  }

  /** The key of `to_dict`: repository and file name only. */
  predicate ByName(a: Fragment, b: Fragment) {
    if a.repo != b.repo then Leq(a.repo, b.repo) else Leq(a.filename, b.filename)
  }

  lemma ByKeyTotal(a: Fragment, b: Fragment)
    ensures ByKey(a, b) || ByKey(b, a)
    ensures ByKey(a, b) && ByKey(b, a) <==> a == b
  {
    LeqTotal(a.repo, b.repo);
    LeqTotal(a.filename, b.filename);
    LeqTotal(a.hash, b.hash);
  }

  lemma KeyIsName(a: Fragment, b: Fragment)
    requires ByKey(a, b)
    ensures ByName(a, b)
  {
    LeqTotal(a.filename, b.filename);
  }

  lemma ByKeyTransitive(a: Fragment, b: Fragment, c: Fragment)
    requires ByKey(a, b) && ByKey(b, c)
    ensures ByKey(a, c)
  {
    KeyIsName(a, b);
    KeyIsName(b, c);
    ByNameTransitive(a, b, c);
    if a.repo == b.repo == c.repo && a.filename == b.filename == c.filename {
      LeqTransitive(a.hash, b.hash, c.hash);
    }
  }

  lemma ByNameTotal(a: Fragment, b: Fragment)
    ensures ByName(a, b) || ByName(b, a)
    ensures ByName(a, b) && ByName(b, a) <==> a.repo == b.repo && a.filename == b.filename
  {
    LeqTotal(a.repo, b.repo);
    LeqTotal(a.filename, b.filename);
  }

  lemma ByNameTransitive(a: Fragment, b: Fragment, c: Fragment)
    requires ByName(a, b) && ByName(b, c)
    ensures ByName(a, c)
    ensures a.repo == c.repo ==> a.repo == b.repo
    ensures a.repo == c.repo && a.filename == c.filename ==> a.filename == b.filename
  {
    LeqTotal(a.repo, b.repo);
    if a.repo == b.repo || b.repo == c.repo {
    } else {
      LeqTransitive(a.repo, b.repo, c.repo);
    }
    if a.repo == b.repo == c.repo {
      LeqTransitive(a.filename, b.filename, c.filename);
    }
    LeqTotal(a.filename, b.filename);
  }

  // ----- Sorting -----

  type Order = (Fragment, Fragment) -> bool

  /** `x` goes in front of the first element it does not follow. */
  function Insert(le: Order, x: Fragment, xs: seq<Fragment>): seq<Fragment> {
    if xs == [] || le(x, xs[0]) then [x] + xs else [xs[0]] + Insert(le, x, xs[1..])
  }

  /** `sorted`, which keeps elements of equal key in their order. */
  function Sort(le: Order, xs: seq<Fragment>): seq<Fragment> {
    if xs == [] then [] else Insert(le, xs[0], Sort(le, xs[1..]))
  }

  lemma {:induction false} InsertElements(le: Order, x: Fragment, xs: seq<Fragment>)
    ensures multiset(Insert(le, x, xs)) == multiset([x]) + multiset(xs)
  {
    if xs != [] && !le(x, xs[0]) {
      InsertElements(le, x, xs[1..]);
      assert xs == [xs[0]] + xs[1..];
    }
  }

  lemma {:induction false} SortElements(le: Order, xs: seq<Fragment>)
    ensures multiset(Sort(le, xs)) == multiset(xs)
  {
    if xs != [] {
      SortElements(le, xs[1..]);
      InsertElements(le, xs[0], Sort(le, xs[1..]));
      assert xs == [xs[0]] + xs[1..];
    }
  }

  predicate Below(le: Order, x: Fragment, xs: seq<Fragment>) {
    forall y :: y in xs ==> le(x, y)
  }

  predicate Sorted(le: Order, xs: seq<Fragment>) {
    xs == [] || (Below(le, xs[0], xs[1..]) && Sorted(le, xs[1..]))
  }

  lemma {:induction false} InsertSorted(le: Order, x: Fragment, xs: seq<Fragment>)
    requires le == ByKey || le == ByName
    requires Sorted(le, xs)
    ensures Sorted(le, Insert(le, x, xs))
  {
    if xs == [] {
    } else if le(x, xs[0]) {
      forall y | y in xs
        ensures le(x, y)
      {
        OrderTransitive(le, x, xs[0], y);
      }
      assert ([x] + xs)[1..] == xs;
    } else {
      var rest := Insert(le, x, xs[1..]);
      InsertSorted(le, x, xs[1..]);
      OrderTotal(le, x, xs[0]);
      InsertElements(le, x, xs[1..]);
      forall y | y in rest
        ensures le(xs[0], y)
      {
        assert y in multiset(rest);
      }
      assert ([xs[0]] + rest)[1..] == rest;
    }
  }

  lemma OrderTotal(le: Order, a: Fragment, b: Fragment)
    requires le == ByKey || le == ByName
    ensures le(a, b) || le(b, a)
  {
    ByKeyTotal(a, b);
    ByNameTotal(a, b);
  }

  lemma OrderTransitive(le: Order, a: Fragment, b: Fragment, c: Fragment)
    requires le == ByKey || le == ByName
    requires le(a, b) && (b == c || le(b, c))
    ensures le(a, c)
  {
    if b != c {
      if le == ByKey {
        ByKeyTransitive(a, b, c);
      } else {
        ByNameTransitive(a, b, c);
      }
    }
  }

  lemma {:induction false} SortSorted(le: Order, xs: seq<Fragment>)
    requires le == ByKey || le == ByName
    ensures Sorted(le, Sort(le, xs))
  {
    if xs != [] {
      SortSorted(le, xs[1..]);
      InsertSorted(le, xs[0], Sort(le, xs[1..]));
    }
  }

  /** A sorted list is determined by its elements. */
  lemma {:induction false} SortedUnique(xs: seq<Fragment>, ys: seq<Fragment>)
    requires Sorted(ByKey, xs) && Sorted(ByKey, ys) && multiset(xs) == multiset(ys)
    ensures xs == ys
  {
    if xs == [] || ys == [] {
      assert |multiset(xs)| == |multiset(ys)|;
    } else {
      SameHead(xs, ys);
      TailElements(xs);
      TailElements(ys);
      SortedUnique(xs[1..], ys[1..]);
      assert xs == [xs[0]] + xs[1..] && ys == [ys[0]] + ys[1..];
    }
  }

  lemma SameHead(xs: seq<Fragment>, ys: seq<Fragment>)
    requires xs != [] && ys != []
    requires Sorted(ByKey, xs) && Sorted(ByKey, ys) && multiset(xs) == multiset(ys)
    ensures xs[0] == ys[0]
  {
    assert xs[0] in multiset(ys) && ys[0] in multiset(xs);
    ByKeyTotal(xs[0], ys[0]);
    HeadBelow(xs, ys[0]);
    HeadBelow(ys, xs[0]);
  }

  lemma TailElements(xs: seq<Fragment>)
    requires xs != []
    ensures multiset(xs[1..]) == multiset(xs) - multiset([xs[0]])
  {
    assert xs == [xs[0]] + xs[1..];
  }

  lemma HeadBelow(xs: seq<Fragment>, y: Fragment)
    requires xs != [] && Sorted(ByKey, xs) && y in xs
    ensures ByKey(xs[0], y)
  {
    ByKeyTotal(y, y);
    assert y == xs[0] || y in xs[1..];
  }

  // ----- Manifests -----

  function BuildManifest(release: string, fragments: seq<Fragment>): Manifest {
    Manifest(release, Sort(ByKey, fragments))
  }

  /** A built manifest depends on the fragments and how often each occurs, not on their order. */
  lemma BuildCanonical(release: string, xs: seq<Fragment>, ys: seq<Fragment>)
    ensures BuildManifest(release, xs) == BuildManifest(release, ys) <==> multiset(xs) == multiset(ys)
  {
    SortElements(ByKey, xs);
    SortElements(ByKey, ys);
    if multiset(xs) == multiset(ys) {
      SortSorted(ByKey, xs);
      SortSorted(ByKey, ys);
      SortedUnique(Sort(ByKey, xs), Sort(ByKey, ys));
    }
  }

  /** Building again changes nothing. */
  lemma BuildTwice(release: string, xs: seq<Fragment>)
    ensures var m := BuildManifest(release, xs); BuildManifest(m.release, m.fragments) == m
  {
    SortElements(ByKey, xs);
    BuildCanonical(release, Sort(ByKey, xs), xs);
  }

  // ----- The recorded form -----

  /** An entry as read back: each key may be missing, and it may be no mapping at all. */
  datatype Entry = NotMapping | Entry(filename: Option<string>, sha256: Option<string>, contentHash: Option<string>)

  datatype Group = Group(repo: string, entries: Option<seq<Entry>>)

  /** The plain dict; groups in insertion order. */
  datatype Recorded = Recorded(release: Option<string>, fragments: Option<seq<Group>>)

  /** `x or default`. */
  function Or(x: Option<string>, default_: string): string {
    if x.Some? && x.value != "" then x.value else default_
  }

  function EntryOf(f: Fragment): Entry {
    Entry(Some(f.filename), Some(f.hash), None)
  }

  /** `setdefault(repo, []).append(entry)`. */
  function AppendTo(groups: seq<Group>, repo: string, e: Entry): seq<Group> {
    if groups == [] then [Group(repo, Some([e]))]
    else if groups[0].repo == repo then [Group(repo, Some(Entries(groups[0]) + [e]))] + groups[1..]
    else [groups[0]] + AppendTo(groups[1..], repo, e)
  }

  function Entries(g: Group): seq<Entry> {
    if g.entries.Some? then g.entries.value else []
  }

  function Grouped(xs: seq<Fragment>): seq<Group> {
    if xs == [] then []
    else
      var f := xs[|xs| - 1];
      AppendTo(Grouped(xs[..|xs| - 1]), f.repo, EntryOf(f))
  }

  function Record(m: Manifest): Recorded {
    Recorded(Some(m.release), Some(Grouped(Sort(ByName, m.fragments))))
  }

  method ToDict(m: Manifest) returns (r: Recorded)
    ensures r == Record(m)
  {
    var ordered := Sort(ByName, m.fragments);
    var grouped := [];
    for i := 0 to |ordered|
      invariant grouped == Grouped(ordered[..i])
    {
      assert ordered[..i + 1][..i] == ordered[..i];
      grouped := AppendTo(grouped, ordered[i].repo, EntryOf(ordered[i]));
    }
    assert ordered[..|ordered|] == ordered;
    r := Recorded(Some(m.release), Some(grouped));
  }

  /** What one recorded entry contributes. */
  function ReadEntry(repo: string, e: Entry): seq<Fragment> {
    if e.NotMapping? then []
    else
      var filename := Strip(Or(e.filename, ""));
      if filename == "" then [] else [Fragment(repo, filename, Strip(Or(e.sha256, Or(e.contentHash, ""))))]
  }

  function ReadEntries(repo: string, es: seq<Entry>): seq<Fragment> {
    if es == [] then [] else ReadEntries(repo, es[..|es| - 1]) + ReadEntry(repo, es[|es| - 1])
  }

  function ReadGroups(groups: seq<Group>): seq<Fragment> {
    if groups == [] then []
    else ReadEntries(groups[0].repo, Entries(groups[0])) + ReadGroups(groups[1..])
  }

  function Parse(data: Option<Recorded>): Manifest {
    if data.None? then BuildManifest("", [])
    else
      BuildManifest(
        Or(data.value.release, ""),
        if data.value.fragments.Some? then ReadGroups(data.value.fragments.value) else [])
  }

  method FromDict(data: Option<Recorded>) returns (m: Manifest)
    ensures m == Parse(data)
  {
    var fragments := [];
    if data.Some? && data.value.fragments.Some? {
      fragments := ReadAllGroups(data.value.fragments.value);
    }
    m := BuildManifest(if data.Some? then Or(data.value.release, "") else "", fragments);
  }

  method ReadAllGroups(groups: seq<Group>) returns (fragments: seq<Fragment>)
    ensures fragments == ReadGroups(groups)
  {
    fragments := [];
    for i := 0 to |groups|
      invariant fragments + ReadGroups(groups[i..]) == ReadGroups(groups)
    {
      var more := ReadGroup(groups[i]);
      assert groups[i..][1..] == groups[i + 1..];
      Reassociate(fragments, more, ReadGroups(groups[i + 1..]));
      fragments := fragments + more;
    }
  }

  lemma Reassociate(a: seq<Fragment>, b: seq<Fragment>, c: seq<Fragment>)
    ensures a + (b + c) == (a + b) + c
  {
  }

  method ReadGroup(g: Group) returns (out: seq<Fragment>)
    ensures out == ReadEntries(g.repo, Entries(g))
  {
    out := [];
    var es := Entries(g);
    for j := 0 to |es|
      invariant out == ReadEntries(g.repo, es[..j])
    {
      EntriesSnoc(g.repo, es[..j], es[j]);
      assert es[..j + 1] == es[..j] + [es[j]];
      if es[j].Entry? {
        var filename := Strip(Or(es[j].filename, ""));
        if filename != "" {
          out := out + [Fragment(g.repo, filename, Strip(Or(es[j].sha256, Or(es[j].contentHash, ""))))];
        }
      }
    }
    assert es[..|es|] == es;
  }

  // ----- What is read from any record -----

  /** The entry gives this fragment: a name that is not blank, and the hash under its own key, or else under
      the older one, or none; both without the white space around them. */
  predicate Gives(repo: string, e: Entry, f: Fragment) {
    && e.Entry? && f.repo == repo
    && e.filename.Some? && !AllSpace(e.filename.value) && f.filename == Strip(e.filename.value)
    && HashUnder(e, f.hash)
  }

  predicate HashUnder(e: Entry, hash: string)
    requires e.Entry?
  {
    if e.sha256.Some? && |e.sha256.value| > 0 then hash == Strip(e.sha256.value)
    else if e.contentHash.Some? then hash == Strip(e.contentHash.value)
    else hash == ""
  }

  lemma HashRead(e: Entry, hash: string)
    requires e.Entry?
    ensures hash == Strip(Or(e.sha256, Or(e.contentHash, ""))) <==> HashUnder(e, hash)
  {
    StripBlank("");
    assert e.contentHash == Some("") ==> Or(e.contentHash, "") == "";
  }

  /** A group of the record gives this fragment. */
  ghost predicate Listed(g: Group, f: Fragment) {
    g.entries.Some? && exists e :: e in g.entries.value && Gives(g.repo, e, f)
  }

  lemma EntryGives(repo: string, e: Entry, f: Fragment)
    ensures f in ReadEntry(repo, e) <==> Gives(repo, e, f)
  {
    if e.Entry? && e.filename.Some? {
      StripBlank(e.filename.value);
      HashRead(e, f.hash);
    }
  }

  lemma GivenSnoc(repo: string, front: seq<Entry>, last: Entry, f: Fragment)
    ensures (exists e :: e in front + [last] && Gives(repo, e, f)) <==>
            (exists e :: e in front && Gives(repo, e, f)) || Gives(repo, last, f)
  {
    assert last in front + [last];
    assert forall e :: e in front ==> e in front + [last];
  }

  lemma {:induction false} EntriesGive(repo: string, es: seq<Entry>, f: Fragment)
    ensures f in ReadEntries(repo, es) <==> exists e :: e in es && Gives(repo, e, f)
  {
    if es != [] {
      var front, last := es[..|es| - 1], es[|es| - 1];
      assert es == front + [last];
      EntriesGive(repo, front, f);
      EntriesSnoc(repo, front, last);
      EntryGives(repo, last, f);
      GivenSnoc(repo, front, last, f);
    }
  }

  lemma GroupGives(g: Group, f: Fragment)
    ensures f in ReadEntries(g.repo, Entries(g)) <==> Listed(g, f)
  {
    EntriesGive(g.repo, Entries(g), f);
  }

  lemma {:induction false} GroupsGive(groups: seq<Group>, f: Fragment)
    ensures f in ReadGroups(groups) <==> exists g :: g in groups && Listed(g, f)
  {
    if groups != [] {
      GroupsGive(groups[1..], f);
      GroupGives(groups[0], f);
      assert groups == [groups[0]] + groups[1..];
      assert f in ReadGroups(groups) <==> Listed(groups[0], f) || f in ReadGroups(groups[1..]);
    }
  }

  /** A missing record is empty; from any other just the fragments that its groups give are read. */
  lemma ParseMeans(data: Option<Recorded>, f: Fragment)
    ensures f in Parse(data).fragments <==>
            && data.Some? && data.value.fragments.Some?
            && exists g :: g in data.value.fragments.value && Listed(g, f)
    ensures Parse(data).release ==
            if data.Some? && data.value.release.Some? then data.value.release.value else ""
  {
    if data.Some? && data.value.fragments.Some? {
      var groups := data.value.fragments.value;
      GroupsGive(groups, f);
      SortElements(ByKey, ReadGroups(groups));
      assert f in Parse(data).fragments <==> f in multiset(Parse(data).fragments);
      assert f in ReadGroups(groups) <==> f in multiset(ReadGroups(groups));
    }
  }

  // ----- Round trip -----

  /** What survives the strip of `from_dict`. */
  predicate Clean(f: Fragment) {
    f.filename != "" && Trimmed(f.filename) && Trimmed(f.hash)
  }

  function FlatMap(g: Fragment -> seq<Fragment>, xs: seq<Fragment>): seq<Fragment> {
    if xs == [] then [] else g(xs[0]) + FlatMap(g, xs[1..])
  }

  function Reading(f: Fragment): seq<Fragment> {
    ReadEntry(f.repo, EntryOf(f))
  }

  /** The fragments as they come back, in the order they were given. */
  function Stripped(xs: seq<Fragment>): seq<Fragment> {
    FlatMap(Reading, xs)
  }

  lemma EntriesSnoc(repo: string, es: seq<Entry>, e: Entry)
    ensures ReadEntries(repo, es + [e]) == ReadEntries(repo, es) + ReadEntry(repo, e)
  {
    assert (es + [e])[..|es|] == es;
  }

  lemma {:induction false} AppendRead(groups: seq<Group>, repo: string, e: Entry)
    ensures multiset(ReadGroups(AppendTo(groups, repo, e))) ==
            multiset(ReadGroups(groups)) + multiset(ReadEntry(repo, e))
  {
    var out := AppendTo(groups, repo, e);
    if groups == [] {
      EntriesSnoc(repo, [], e);
      assert [] + [e] == [e];
    } else {
      var es := Entries(groups[0]);
      if groups[0].repo == repo {
        EntriesSnoc(repo, es, e);
        assert out[1..] == groups[1..];
      } else {
        AppendRead(groups[1..], repo, e);
        assert out[1..] == AppendTo(groups[1..], repo, e);
      }
    }
  }

  lemma AppendReading(g: Fragment -> seq<Fragment>, groups: seq<Group>, f: Fragment)
    requires g == Reading
    ensures multiset(ReadGroups(AppendTo(groups, f.repo, EntryOf(f)))) == multiset(ReadGroups(groups)) + multiset(g(f))
  {
    AppendRead(groups, f.repo, EntryOf(f));
  }

  lemma GroupedStep(g: Fragment -> seq<Fragment>, groups: seq<Group>, front: seq<Fragment>, f: Fragment)
    requires g == Reading && multiset(ReadGroups(groups)) == multiset(FlatMap(g, front))
    ensures multiset(ReadGroups(AppendTo(groups, f.repo, EntryOf(f)))) == multiset(FlatMap(g, front + [f]))
  {
    AppendReading(g, groups, f);
    FlatMapSnoc(g, front, f);
  }

  lemma GroupedSnoc(front: seq<Fragment>, f: Fragment)
    ensures Grouped(front + [f]) == AppendTo(Grouped(front), f.repo, EntryOf(f))
  {
    assert (front + [f])[..|front|] == front;
  }

  /** What the groups of a list read as, taken together. */
  ghost function GroupedReading(xs: seq<Fragment>): multiset<Fragment> {
    multiset(ReadGroups(Grouped(xs)))
  }

  lemma GroupedReadSnoc(g: Fragment -> seq<Fragment>, front: seq<Fragment>, f: Fragment)
    requires g == Reading && GroupedReading(front) == multiset(FlatMap(g, front))
    ensures GroupedReading(front + [f]) == multiset(FlatMap(g, front + [f]))
  {
    GroupedSnoc(front, f);
    GroupedStep(g, Grouped(front), front, f);
  }

  lemma {:induction false} GroupedRead(g: Fragment -> seq<Fragment>, xs: seq<Fragment>)
    requires g == Reading
    ensures GroupedReading(xs) == multiset(FlatMap(g, xs))
  {
    if xs == [] {
      assert GroupedReading([]) == multiset{};
    } else {
      var front, f := xs[..|xs| - 1], xs[|xs| - 1];
      assert xs == front + [f];
      GroupedRead(g, front);
      GroupedReadSnoc(g, front, f);
    }
  }

  lemma {:induction false} FlatMapSnoc(g: Fragment -> seq<Fragment>, xs: seq<Fragment>, f: Fragment)
    ensures FlatMap(g, xs + [f]) == FlatMap(g, xs) + g(f)
  {
    if xs == [] {
      assert [f][1..] == [] && xs + [f] == [f];
    } else {
      FlatMapSnoc(g, xs[1..], f);
      assert (xs + [f])[1..] == xs[1..] + [f];
      Reassociate(g(xs[0]), FlatMap(g, xs[1..]), g(f));
    }
  }

  lemma {:induction false} InsertMapped(le: Order, g: Fragment -> seq<Fragment>, x: Fragment, xs: seq<Fragment>)
    ensures multiset(FlatMap(g, Insert(le, x, xs))) == multiset(g(x)) + multiset(FlatMap(g, xs))
  {
    var out := Insert(le, x, xs);
    if xs == [] || le(x, xs[0]) {
      assert out[1..] == xs;
    } else {
      InsertMapped(le, g, x, xs[1..]);
      assert out[1..] == Insert(le, x, xs[1..]);
    }
  }

  lemma {:induction false} SortMapped(le: Order, g: Fragment -> seq<Fragment>, xs: seq<Fragment>)
    ensures multiset(FlatMap(g, Sort(le, xs))) == multiset(FlatMap(g, xs))
  {
    if xs != [] {
      SortMapped(le, g, xs[1..]);
      InsertMapped(le, g, xs[0], Sort(le, xs[1..]));
    }
  }

  /** Recording and reading back is building from the stripped fragments, for every manifest. */
  lemma RecordParse(m: Manifest)
    ensures Parse(Some(Record(m))) == BuildManifest(m.release, Stripped(m.fragments))
  {
    var ordered := Sort(ByName, m.fragments);
    GroupedRead(Reading, ordered);
    SortMapped(ByName, Reading, m.fragments);
    BuildCanonical(m.release, ReadGroups(Grouped(ordered)), Stripped(m.fragments));
  }

  lemma {:induction false} StrippedClean(xs: seq<Fragment>)
    ensures forall f :: f in FlatMap(Reading, xs) ==> Clean(f)
    ensures (forall f :: f in xs ==> Clean(f)) ==> FlatMap(Reading, xs) == xs
  {
    if xs != [] {
      StrippedClean(xs[1..]);
      ReadingClean(xs[0]);
      assert xs == [xs[0]] + xs[1..];
    }
  }

  lemma ReadingClean(x: Fragment)
    ensures forall f :: f in Reading(x) ==> Clean(f)
    ensures Clean(x) ==> Reading(x) == [x]
  {
    if Clean(x) {
      StripTrimmed(x.filename);
      StripTrimmed(x.hash);
    }
  }

  /** A manifest survives its record exactly when no name is empty and neither a name nor a
      hash has white space around it. */
  lemma RoundTrip(m: Manifest)
    ensures Parse(Some(Record(m))) == BuildManifest(m.release, m.fragments) <==>
            forall f :: f in m.fragments ==> Clean(f)
  {
    RecordParse(m);
    StrippedClean(m.fragments);
    BuildCanonical(m.release, Stripped(m.fragments), m.fragments);
    if multiset(Stripped(m.fragments)) == multiset(m.fragments) {
      forall f | f in m.fragments
        ensures Clean(f)
      {
        assert f in multiset(Stripped(m.fragments));
      }
    }
  }

  // ----- The record's order -----

  function Named(xs: seq<Fragment>, n: Fragment): seq<Fragment> {
    if xs == [] then []
    else (if xs[0].repo == n.repo && xs[0].filename == n.filename then [xs[0]] else []) + Named(xs[1..], n)
  }

  /** The fragments of one name, in order: read from the other end it is the same choice. */
  lemma {:induction false} NamedLast(xs: seq<Fragment>, x: Fragment, n: Fragment)
    ensures Named(xs + [x], n) == Named(xs, n) + (if (x.repo, x.filename) == (n.repo, n.filename) then [x] else [])
    ensures Named([], n) == []
  {
    if xs == [] {
      assert xs + [x] == [x] && [x][1..] == [];
    } else {
      assert (xs + [x])[1..] == xs[1..] + [x];
      NamedLast(xs[1..], x, n);
    }
  }

  lemma {:induction false} InsertStable(x: Fragment, xs: seq<Fragment>, n: Fragment)
    ensures Named(Insert(ByName, x, xs), n) == Named([x] + xs, n)
  {
    var out := Insert(ByName, x, xs);
    assert ([x] + xs)[1..] == xs;
    if xs != [] && !ByName(x, xs[0]) {
      ByNameTotal(x, xs[0]);
      InsertStable(x, xs[1..], n);
      assert ([x] + xs[1..])[1..] == xs[1..];
      assert out[1..] == Insert(ByName, x, xs[1..]);
    }
  }

  /** Fragments of one name are recorded in the order the manifest holds them. */
  lemma {:induction false} SortStable(xs: seq<Fragment>, n: Fragment)
    ensures Named(Sort(ByName, xs), n) == Named(xs, n)
  {
    if xs != [] {
      SortStable(xs[1..], n);
      InsertStable(xs[0], Sort(ByName, xs[1..]), n);
      assert ([xs[0]] + Sort(ByName, xs[1..]))[1..] == Sort(ByName, xs[1..]);
    }
  }

  function Repos(groups: seq<Group>): set<string> {
    set g | g in groups :: g.repo
  }

  function NameOf(e: Entry): string {
    if e.Entry? then Or(e.filename, "") else ""
  }

  predicate NamesAscend(es: seq<Entry>) {
    forall i, j :: 0 <= i < j < |es| ==> Leq(NameOf(es[i]), NameOf(es[j]))
  }

  /** Each repository once, in ascending order, its file names ascending. */
  predicate Tidy(groups: seq<Group>) {
    groups == [] || (HeadTidy(groups[0], Repos(groups[1..])) && Tidy(groups[1..]))
  }

  predicate HeadTidy(g: Group, later: set<string>) {
    && (forall r :: r in later ==> r != g.repo && Leq(g.repo, r))
    && NamesAscend(Entries(g))
  }

  /** Nothing recorded so far comes after `f`. */
  predicate Under(groups: seq<Group>, f: Fragment) {
    forall g :: g in groups ==> GroupUnder(g, f)
  }

  predicate GroupUnder(g: Group, f: Fragment) {
    && Leq(g.repo, f.repo)
    && (g.repo == f.repo ==> forall e :: e in Entries(g) ==> Leq(NameOf(e), f.filename))
  }

  lemma UnderLater(groups: seq<Group>, f: Fragment, f': Fragment)
    requires Under(groups, f) && ByName(f, f')
    ensures Under(groups, f')
  {
    forall g | g in groups
      ensures GroupUnder(g, f')
    {
      GroupUnderLater(g, f, f');
    }
  }

  lemma GroupUnderLater(g: Group, f: Fragment, f': Fragment)
    requires GroupUnder(g, f) && ByName(f, f')
    ensures GroupUnder(g, f')
  {
    LeqTotal(f.repo, f'.repo);
    LeqTransitive(g.repo, f.repo, f'.repo);
    if g.repo == f'.repo {
      LeqTotal(f.repo, g.repo);
      forall e | e in Entries(g)
        ensures Leq(NameOf(e), f'.filename)
      {
        LeqTransitive(NameOf(e), f.filename, f'.filename);
      }
    }
  }

  lemma {:induction false} AppendRepos(groups: seq<Group>, repo: string, e: Entry)
    ensures Repos(AppendTo(groups, repo, e)) == Repos(groups) + {repo}
  {
    if groups != [] && groups[0].repo != repo {
      AppendRepos(groups[1..], repo, e);
      ReposCons(groups[0], groups[1..]);
      ReposCons(groups[0], AppendTo(groups[1..], repo, e));
      assert groups == [groups[0]] + groups[1..];
    } else if groups != [] {
      ReposCons(groups[0], groups[1..]);
      ReposCons(Group(repo, Some(Entries(groups[0]) + [e])), groups[1..]);
      assert groups == [groups[0]] + groups[1..];
    }
  }

  lemma ReposCons(g: Group, groups: seq<Group>)
    ensures Repos([g] + groups) == {g.repo} + Repos(groups)
  {
    assert forall h :: h in [g] + groups <==> h == g || h in groups;
  }

  /** A group that takes one more entry at its end. */
  function Extended(g: Group, f: Fragment): Group {
    Group(f.repo, Some(Entries(g) + [EntryOf(f)]))
  }

  lemma ExtendedTidy(g: Group, f: Fragment, later: set<string>)
    requires HeadTidy(g, later) && GroupUnder(g, f) && g.repo == f.repo
    ensures HeadTidy(Extended(g, f), later) && GroupUnder(Extended(g, f), f)
  {
    LeqTotal(f.filename, f.filename);
    assert NameOf(EntryOf(f)) == f.filename;
    var es := Entries(g);
    assert forall i :: 0 <= i < |es| ==> es[i] in es;
  }

  lemma AloneTidy(f: Fragment)
    ensures HeadTidy(Group(f.repo, Some([EntryOf(f)])), {}) && GroupUnder(Group(f.repo, Some([EntryOf(f)])), f)
  {
    LeqTotal(f.repo, f.repo);
    LeqTotal(f.filename, f.filename);
  }

  lemma UnderCons(g: Group, groups: seq<Group>, f: Fragment)
    ensures Under([g] + groups, f) <==> GroupUnder(g, f) && Under(groups, f)
  {
    if Under([g] + groups, f) {
      assert g in [g] + groups;
      assert forall h :: h in groups ==> h in [g] + groups;
    }
  }

  lemma {:induction false} AppendTidy(groups: seq<Group>, f: Fragment)
    requires Tidy(groups) && Under(groups, f)
    ensures Tidy(AppendTo(groups, f.repo, EntryOf(f))) && Under(AppendTo(groups, f.repo, EntryOf(f)), f)
  {
    var e := EntryOf(f);
    var out := AppendTo(groups, f.repo, e);
    if groups == [] {
      AloneTidy(f);
      assert out[1..] == [];
    } else {
      var g, rest := groups[0], groups[1..];
      assert groups == [g] + rest;
      UnderCons(g, rest, f);
      if g.repo == f.repo {
        ExtendedTidy(g, f, Repos(rest));
        assert out == [Extended(g, f)] + rest && out[1..] == rest;
        UnderCons(Extended(g, f), rest, f);
      } else {
        AppendTidy(rest, f);
        AppendRepos(rest, f.repo, e);
        assert out[1..] == AppendTo(rest, f.repo, e);
        UnderCons(g, AppendTo(rest, f.repo, e), f);
      }
    }
  }

  lemma {:induction false} GroupedTidy(xs: seq<Fragment>)
    requires forall i, j :: 0 <= i < j < |xs| ==> ByName(xs[i], xs[j])
    ensures Tidy(Grouped(xs))
    ensures xs != [] ==> Under(Grouped(xs), xs[|xs| - 1])
  {
    if xs != [] {
      var front, f := xs[..|xs| - 1], xs[|xs| - 1];
      GroupedTidy(front);
      if front != [] {
        UnderLater(Grouped(front), front[|front| - 1], f);
      }
      AppendTidy(Grouped(front), f);
    }
  }

  lemma {:induction false} SortedPairs(le: Order, xs: seq<Fragment>)
    requires Sorted(le, xs)
    ensures forall i, j :: 0 <= i < j < |xs| ==> le(xs[i], xs[j])
  {
    if xs != [] {
      var rest := xs[1..];
      SortedPairs(le, rest);
      forall i, j | 0 <= i < j < |xs|
        ensures le(xs[i], xs[j])
      {
        assert xs[j] == rest[j - 1] && xs[j] in rest;
        if i > 0 {
          assert le(rest[i - 1], rest[j - 1]);
        }
      }
    }
  }

  /** A record lists each repository once, repositories and file names ascending. */
  lemma RecordTidy(m: Manifest)
    ensures Tidy(Record(m).fragments.value)
  {
    SortSorted(ByName, m.fragments);
    SortedPairs(ByName, Sort(ByName, m.fragments));
    GroupedTidy(Sort(ByName, m.fragments));
  }

  // ----- What earlier cuts consumed -----

  function Key(f: Fragment): (string, string, string) {
    (f.repo, f.filename, f.hash)
  }

  function Keys(xs: seq<Fragment>): set<(string, string, string)> {
    set f | f in xs :: Key(f)
  }

  function Index(ms: seq<Manifest>): set<(string, string, string)> {
    if ms == [] then {} else Keys(ms[0].fragments) + Index(ms[1..])
  }

  method ConsumedIndex(ms: seq<Manifest>) returns (index: set<(string, string, string)>)
    ensures index == Index(ms)
  {
    index := {};
    for i := 0 to |ms|
      invariant index + Index(ms[i..]) == Index(ms)
    {
      assert ms[i..][1..] == ms[i + 1..];
      index := index + Keys(ms[i].fragments);
    }
  }

  predicate IsConsumed(f: Fragment, prior: seq<Manifest>) {
    Key(f) in Index(prior)
  }

  /** Consumed means: an equal fragment is listed by an earlier manifest. */
  lemma {:induction false} ConsumedMeans(f: Fragment, prior: seq<Manifest>)
    ensures IsConsumed(f, prior) <==> exists i :: 0 <= i < |prior| && f in prior[i].fragments
  {
    if prior != [] {
      var rest := prior[1..];
      ConsumedMeans(f, rest);
      assert Key(f) in Keys(prior[0].fragments) <==> f in prior[0].fragments;
      if IsConsumed(f, rest) {
        var i :| 0 <= i < |rest| && f in rest[i].fragments;
        assert f in prior[i + 1].fragments;
      }
      if exists i :: 0 < i < |prior| && f in prior[i].fragments {
        var i :| 0 < i < |prior| && f in prior[i].fragments;
        assert f in rest[i - 1].fragments;
      }
    }
  }

  /** The manifests as read back from their records. */
  function Reread(ms: seq<Manifest>): seq<Manifest> {
    if ms == [] then [] else [Parse(Some(Record(ms[0])))] + Reread(ms[1..])
  }

  /** Answers from the records are the answers from the manifests themselves. */
  lemma {:induction false} ConsumedKept(ms: seq<Manifest>)
    requires forall i, f :: 0 <= i < |ms| && f in ms[i].fragments ==> Clean(f)
    ensures Index(Reread(ms)) == Index(ms)
  {
    if ms != [] {
      var m := ms[0];
      RoundTrip(m);
      SortElements(ByKey, m.fragments);
      SameKeys(Sort(ByKey, m.fragments), m.fragments);
      ConsumedKept(ms[1..]);
      assert Reread(ms)[1..] == Reread(ms[1..]);
    }
  }

  lemma SameKeys(xs: seq<Fragment>, ys: seq<Fragment>)
    requires multiset(xs) == multiset(ys)
    ensures Keys(xs) == Keys(ys)
  {
    forall f
      ensures f in xs <==> f in ys
    {
      assert f in xs <==> f in multiset(xs);
      assert f in ys <==> f in multiset(ys);
    }
  }
}
