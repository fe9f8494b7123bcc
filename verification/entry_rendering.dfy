/** Rendering blocked entries, and reading back what was rendered
    (src/otaman_core/blocked_entries.py). */
module EntryRendering {
  import opened Text
  import opened BlockedEntries

  const APPROVAL := "awaiting-approval"
  const DEPENDENCY := "awaiting-dependency"

  predicate IsKind(k: string) {
    k == APPROVAL || k == DEPENDENCY
  }

  /** The arguments of `render_entry`. */
  datatype NewEntry = NewEntry(
    title: string, kind: string, ref: string, refLabel: string, since: string, extra: seq<(string, string)>)

  function KindOf(e: NewEntry): (k: string)
    ensures IsKind(k)
  {
    if IsKind(e.kind) then e.kind else if e.refLabel == "Proposal" then APPROVAL else DEPENDENCY
  }

  function OwnFields(e: NewEntry): seq<(string, string)> {
    (if e.ref != "" then [(e.refLabel, e.ref)] else [])
    + [("Kind", KindOf(e))]
    + (if e.since != "" then [("Blocked since", e.since)] else [])
  }

  /** The labelled values of an entry, in the order they are written. */
  function Labelled(e: NewEntry): seq<(string, string)> {
    OwnFields(e) + e.extra
  }

  function FieldLine(f: (string, string)): string {
    "- **" + f.0 + "**: " + f.1
  }

  function FieldLines(fs: seq<(string, string)>): string {
    if fs == [] then "" else FieldLine(fs[0]) + ("\n" + FieldLines(fs[1..]))
  }

  function Rendered(e: NewEntry): string {
    HEADER + (" " + e.title + ("\n" + FieldLines(Labelled(e))))
  }

  /** `"\n".join(lines) + "\n"`, for a list that is not empty. */
  function JoinLines(lines: seq<string>): string {
    if lines == [] then "" else lines[0] + ("\n" + JoinLines(lines[1..]))
  }

  lemma {:induction false} JoinLinesSnoc(lines: seq<string>, l: string)
    ensures JoinLines(lines + [l]) == JoinLines(lines) + (l + "\n")
  {
    if lines == [] {
      assert lines + [l] == [l];
    } else {
      assert (lines + [l])[1..] == lines[1..] + [l];
      JoinLinesSnoc(lines[1..], l);
    }
  }

  lemma {:induction false} FieldLinesConcat(a: seq<(string, string)>, b: seq<(string, string)>)
    ensures FieldLines(a + b) == FieldLines(a) + FieldLines(b)
  {
    if a == [] {
      assert a + b == b;
    } else {
      assert (a + b)[1..] == a[1..] + b;
      FieldLinesConcat(a[1..], b);
    }
  }

  /** `lines` is the heading and the written fields. */
  ghost predicate Written(lines: seq<string>, heading: string, fs: seq<(string, string)>) {
    lines != [] && lines[0] == heading && JoinLines(lines[1..]) == FieldLines(fs)
  }

  lemma WrittenSnoc(lines: seq<string>, heading: string, fs: seq<(string, string)>, f: (string, string))
    requires Written(lines, heading, fs)
    ensures Written(lines + [FieldLine(f)], heading, fs + [f])
  {
    JoinLinesSnoc(lines[1..], FieldLine(f));
    FieldLinesConcat(fs, [f]);
    assert (lines + [FieldLine(f)])[1..] == lines[1..] + [FieldLine(f)];
    assert [f][1..] == [];
    assert FieldLines([f]) == FieldLine(f) + ("\n" + "");
  }

  method RenderEntry(e: NewEntry) returns (r: string)
    ensures r == Rendered(e)
  {
    var kind := e.kind;
    if !IsKind(kind) {
      kind := if e.refLabel == "Proposal" then APPROVAL else DEPENDENCY;
    }
    ghost var heading := HEADER + (" " + e.title);
    var lines := RenderOwn(e, kind);
    lines := RenderExtra(lines, e.extra, heading, OwnFields(e));
    r := JoinLines(lines);
    assert heading + ("\n" + FieldLines(Labelled(e))) == Rendered(e);
  }

  /** The heading and the fields every entry may have. */
  method RenderOwn(e: NewEntry, kind: string) returns (lines: seq<string>)
    requires kind == KindOf(e)
    ensures Written(lines, HEADER + (" " + e.title), OwnFields(e))
  {
    ghost var heading := HEADER + (" " + e.title);
    lines := [HEADER + (" " + e.title)];
    ghost var fs: seq<(string, string)> := [];
    if e.ref != "" {
      WrittenSnoc(lines, heading, fs, (e.refLabel, e.ref));
      lines, fs := lines + [FieldLine((e.refLabel, e.ref))], fs + [(e.refLabel, e.ref)];
    }
    WrittenSnoc(lines, heading, fs, ("Kind", kind));
    lines, fs := lines + [FieldLine(("Kind", kind))], fs + [("Kind", kind)];
    if e.since != "" {
      WrittenSnoc(lines, heading, fs, ("Blocked since", e.since));
      lines, fs := lines + [FieldLine(("Blocked since", e.since))], fs + [("Blocked since", e.since)];
    }
    assert fs == OwnFields(e);
  }

  /** The loop over the extra fields. */
  method RenderExtra(
      before: seq<string>, extra: seq<(string, string)>, ghost heading: string, ghost fs: seq<(string, string)>)
    returns (lines: seq<string>)
    requires Written(before, heading, fs)
    ensures Written(lines, heading, fs + extra)
  {
    lines := before;
    assert fs + extra[..0] == fs;
    for i := 0 to |extra|
      invariant Written(lines, heading, fs + extra[..i])
    {
      WrittenSnoc(lines, heading, fs + extra[..i], extra[i]);
      assert fs + extra[..i + 1] == (fs + extra[..i]) + [extra[i]];
      lines := lines + [FieldLine(extra[i])];
    }
    assert extra[..|extra|] == extra;
  }

  // ----- What can be written and read back -----

  predicate PlainText(s: string) {
    s != "" && Trimmed(s) && '\n' !in s
  }

  predicate PlainField(f: (string, string)) {
    PlainText(f.0) && '*' !in f.0 && PlainText(f.1)
  }

  /** Lines no rendered entry may contain to be read back as it was written. */
  predicate Plain(e: NewEntry) {
    && e.title != "" && Trimmed(e.title) && SingleLine(e.title) && e.title[0] != '-'
    && (e.ref != "" ==> PlainField((e.refLabel, e.ref)))
    && (e.since != "" ==> PlainText(e.since))
    && (forall i :: 0 <= i < |e.extra| ==> PlainField(e.extra[i]))
    && !Contains(Rendered(e), "-->")
  }

  lemma LabelledPlain(e: NewEntry)
    requires Plain(e)
    ensures forall i :: 0 <= i < |Labelled(e)| ==> PlainField(Labelled(e)[i])
  {
    assert PlainField(("Kind", KindOf(e)));
    assert e.since != "" ==> PlainField(("Blocked since", e.since));
  }

  // ----- Field lines -----

  lemma LineEnd(l: string, rest: string)
    requires '\n' !in l
    ensures Find(l + ("\n" + rest), '\n') == |l|
    ensures NextLine(l + ("\n" + rest)) == rest
  {
    var x := "\n" + rest;
    FindBefore(l, x, '\n');
    Halves(l, x);
    Cut(l + x, |l|, |l| + 1);
    assert x[1..] == rest;
  }

  lemma ValueRead(key: string, value: string, rest: string)
    requires PlainText(value)
    ensures ValueAt(key, LStrip(" " + (value + ("\n" + rest)))) == Found(key, value, "\n" + rest)
  {
    var v := value + ("\n" + rest);
    LStripOf(" ", v);
    LineEnd(value, rest);
    Halves(value, "\n" + rest);
    StripTrimmed(value);
  }

  lemma KeyRead(f: (string, string), rest: string)
    requires PlainField(f)
    ensures KeyAt("**" + (f.0 + ("**:" + (" " + (f.1 + ("\n" + rest)))))) == Found(Lower(f.0), f.1, "\n" + rest)
  {
    var v := " " + (f.1 + ("\n" + rest));
    var t := "**:" + v;
    var b := "**" + (f.0 + t);
    assert b[2..] == f.0 + t;
    FindBefore(f.0, t, '*');
    Halves(f.0, t);
    StripTrimmed(f.0);
    assert t[3..] == v;
    ValueRead(Lower(f.0), f.1, rest);
  }

  /** A field line reads as its key, in lower case, and its value. */
  lemma FieldLineRead(f: (string, string), rest: string)
    requires PlainField(f)
    ensures FieldAt(FieldLine(f) + ("\n" + rest)) == Found(Lower(f.0), f.1, "\n" + rest)
  {
    var b := "**" + (f.0 + ("**:" + (" " + (f.1 + ("\n" + rest)))));
    var s := FieldLine(f) + ("\n" + rest);
    FieldLineText(f, "\n" + rest);
    assert s[0] == '-' && s[1..] == " " + b;
    LStripOf("", s);
    assert "" + s == s;
    LStripOf(" ", b);
    KeyRead(f, rest);
  }

  lemma FieldLineText(f: (string, string), x: string)
    ensures FieldLine(f) + x == "-" + (" " + ("**" + (f.0 + ("**:" + (" " + (f.1 + x))))))
  {
    assert "- **" == "-" + (" " + "**") && "**: " == "**:" + " ";
  }

  function LowerKeys(fs: seq<(string, string)>): seq<(string, string)> {
    if fs == [] then [] else [(Lower(fs[0].0), fs[0].1)] + LowerKeys(fs[1..])
  }

  lemma FieldsFound(s: string, key: string, value: string, rest: string)
    requires s != "" && FieldAt(s) == Found(key, value, "\n" + rest)
    ensures Fields(s) == [(key, value)] + Fields(rest)
  {
    LineEnd("", rest);
    assert "" + ("\n" + rest) == "\n" + rest;
  }

  lemma {:induction false} FieldLinesRead(fs: seq<(string, string)>)
    requires forall i :: 0 <= i < |fs| ==> PlainField(fs[i])
    ensures Fields(FieldLines(fs)) == LowerKeys(fs)
  {
    if fs != [] {
      var rest := FieldLines(fs[1..]);
      FieldLineRead(fs[0], rest);
      FieldsFound(FieldLine(fs[0]) + ("\n" + rest), Lower(fs[0].0), fs[0].1, rest);
      FieldLinesRead(fs[1..]);
    }
  }

  /** The title line is no field. */
  lemma TitleSkipped(title: string, lines: string)
    requires title != "" && Trimmed(title) && '\n' !in title && title[0] != '-'
    ensures Fields(" " + title + ("\n" + lines)) == Fields(lines)
  {
    var body := " " + title + ("\n" + lines);
    assert body == " " + (title + ("\n" + lines));
    LStripOf(" ", title + ("\n" + lines));
    assert FieldAt(body) == NoField;
    LineEnd(" " + title, lines);
  }

  /** A body: the title, which is no field, and the field lines. */
  lemma BodyRead(title: string, fs: seq<(string, string)>)
    requires title != "" && Trimmed(title) && SingleLine(title) && title[0] != '-'
    requires forall i :: 0 <= i < |fs| ==> PlainField(fs[i])
    ensures var body := " " + title + ("\n" + FieldLines(fs));
            Fields(body) == LowerKeys(fs) && FirstLine(body) == " " + title
  {
    TitleSkipped(title, FieldLines(fs));
    FieldLinesRead(fs);
    FirstLineBroken(" " + title, "\n" + FieldLines(fs));
    FirstLineWhole(" " + title);
  }

  lemma {:induction false} FirstLineWhole(s: string)
    requires SingleLine(s)
    ensures FirstLine(s) == s
  {
    if s != "" {
      FirstLineWhole(s[1..]);
      assert s == [s[0]] + s[1..];
    }
  }

  // ----- Rendered entries are blocks -----

  /** A line that cannot start an entry, before calm lines. */
  lemma {:induction false} CalmBefore(l: string, rest: string, bol: bool)
    requires '\n' !in l && (bol && l != "" ==> l[0] != '#' && l[0] != '<')
    requires Calm(rest, true) && NoOpen(rest, true)
    ensures Calm(l + ("\n" + rest), bol) && NoOpen(l + ("\n" + rest), bol)
  {
    var s := l + ("\n" + rest);
    PatternChars();
    if l == "" {
      assert s == "\n" + rest && s[1..] == rest;
    } else {
      assert s[1..] == l[1..] + ("\n" + rest);
      CalmBefore(l[1..], rest, false);
    }
  }

  lemma {:induction false} FieldLinesCalm(fs: seq<(string, string)>)
    requires forall i :: 0 <= i < |fs| ==> PlainField(fs[i])
    ensures Calm(FieldLines(fs), true) && NoOpen(FieldLines(fs), true)
    ensures fs != [] ==> FieldLines(fs)[|FieldLines(fs)| - 1] == '\n'
  {
    if fs != [] {
      FieldLinesCalm(fs[1..]);
      FieldLineChars(fs[0]);
      CalmBefore(FieldLine(fs[0]), FieldLines(fs[1..]), true);
    }
  }

  lemma FieldLineChars(f: (string, string))
    requires PlainField(f)
    ensures '\n' !in FieldLine(f) && FieldLine(f)[0] == '-'
  {
  }

  lemma RenderedBlock(e: NewEntry)
    requires Plain(e)
    ensures var r := Rendered(e);
            && IsLive(r) && GoodBlock(r) && NoOpen(Body(r), false) && r[|r| - 1] == '\n'
            && Body(r) == " " + e.title + ("\n" + FieldLines(Labelled(e)))
  {
    var lines := FieldLines(Labelled(e));
    var body := " " + e.title + ("\n" + lines);
    LabelledPlain(e);
    FieldLinesCalm(Labelled(e));
    assert '\n' !in " " + e.title by {
      assert forall i :: 0 <= i < |e.title| ==> !IsLineBreak(e.title[i]);
    }
    CalmBefore(" " + e.title, lines, false);
    var r := HEADER + body;
    assert r[..|HEADER|] == HEADER && r[|HEADER|..] == body;
  }

  // ----- Live entries carry no trailer -----

  predicate IsSuffix(r: string, s: string) {
    |r| <= |s| && s[|s| - |r|..] == r
  }

  lemma SuffixTrans(a: string, b: string, c: string)
    requires IsSuffix(a, b) && IsSuffix(b, c)
    ensures IsSuffix(a, c)
  {
    assert c[|c| - |b|..][|b| - |a|..] == c[|c| - |a|..];
  }

  lemma SuffixStrip(s: string, k: nat)
    requires k <= |s|
    ensures IsSuffix(LStrip(s[k..]), s)
  {
    LStripParts(s[k..]);
    assert IsSuffix(s[k..], s);
    SuffixTrans(LStrip(s[k..]), s[k..], s);
  }

  lemma SuffixOccurs(r: string, s: string, t: string, k: nat)
    requires IsSuffix(r, s) && OccursAt(r, t, k)
    ensures Contains(s, t)
  {
    var d := |s| - |r|;
    assert s[d..][k..k + |t|] == s[d + k..d + k + |t|];
    IndexOfFirst(s, t, d + k);
  }

  lemma ReasonArrow(r: string)
    ensures ReasonAt(r).ClearedFor? ==> Contains(r, "-->")
  {
    var g := Find(r, '>');
    if g < |r| && g >= 2 && r[g - 2] == r[g - 1] == '-' {
      assert r[g - 2..g + 1] == [r[g - 2], r[g - 1], r[g]];
      IndexOfFirst(r, "-->", g - 2);
    }
  }

  lemma ArrowAfter(s: string, k: nat)
    requires k <= |s| && Contains(LStrip(s[k..]), "-->")
    ensures Contains(s, "-->")
  {
    var r := LStrip(s[k..]);
    SuffixStrip(s, k);
    IndexOfFound(r, "-->");
    SuffixOccurs(r, s, "-->", IndexOf(r, "-->"));
  }

  lemma ClearedArrow(s: string)
    ensures ClearedAt(s).ClearedFor? ==> Contains(s, "-->")
  {
    if ClearedAt(s).ClearedFor? {
      var d := LStrip(s[7..]);
      var m := LStrip(d[10..]);
      ReasonArrow(LStrip(m[1..]));
      ArrowAfter(m, 1);
      ArrowAfter(d, 10);
      ArrowAfter(s, 7);
    }
  }

  lemma {:induction false} FoundArrow(s: string)
    ensures FindCleared(s).ClearedFor? ==> Contains(s, "-->")
  {
    ClearedArrow(s);
    if s != "" {
      FoundArrow(s[1..]);
      if Contains(s[1..], "-->") {
        IndexOfFound(s[1..], "-->");
        assert IsSuffix(s[1..], s);
        SuffixOccurs(s[1..], s, "-->", IndexOf(s[1..], "-->"));
      }
    }
  }

  // ----- Reading back -----

  function AsRead(e: NewEntry): Entry {
    Entry(e.title, Rendered(e), LowerKeys(Labelled(e)), false, "", false)
  }

  lemma RenderedRead(e: NewEntry)
    requires Plain(e)
    ensures EntryOf(Rendered(e)) == AsRead(e)
  {
    RenderedBlock(e);
    LabelledPlain(e);
    BodyRead(e.title, Labelled(e));
    FoundArrow(Rendered(e));
    StripOf(" ", e.title, "");
    assert " " + e.title + "" == " " + e.title;
    assert (" " + e.title)[..1] == " ";
  }

  function RenderAll(es: seq<NewEntry>): seq<string> {
    if es == [] then [] else [Rendered(es[0])] + RenderAll(es[1..])
  }

  function ReadAllOf(es: seq<NewEntry>): seq<Entry> {
    if es == [] then [] else [AsRead(es[0])] + ReadAllOf(es[1..])
  }

  lemma {:induction false} RenderedTile(es: seq<NewEntry>)
    requires forall i :: 0 <= i < |es| ==> Plain(es[i])
    ensures WellTiled(RenderAll(es))
    ensures es != [] ==> IsLive(RenderAll(es)[0])
  {
    if es != [] {
      RenderedBlock(es[0]);
      RenderedTile(es[1..]);
      assert RenderAll(es)[1..] == RenderAll(es[1..]);
    }
  }

  lemma {:induction false} RenderedEntries(es: seq<NewEntry>, includeTombstoned: bool)
    requires forall i :: 0 <= i < |es| ==> Plain(es[i])
    ensures EntriesOf(RenderAll(es), includeTombstoned) == ReadAllOf(es)
  {
    if es != [] {
      RenderedRead(es[0]);
      RenderedEntries(es[1..], includeTombstoned);
      assert RenderAll(es)[1..] == RenderAll(es[1..]);
    }
  }

  /** Writing entries one after the other and parsing the file gives back exactly those
      entries: live, well formed, with their titles and fields. */
  lemma RenderRoundTrip(es: seq<NewEntry>, includeTombstoned: bool)
    requires forall i :: 0 <= i < |es| ==> Plain(es[i])
    ensures var text := Concat(RenderAll(es));
            && Preamble(text) == "" && BlocksOf(text) == RenderAll(es)
            && EntriesOf(BlocksOf(text), includeTombstoned) == ReadAllOf(es)
  {
    RenderedTile(es);
    FittingParses("", RenderAll(es));
    assert "" + Concat(RenderAll(es)) == Concat(RenderAll(es));
    RenderedEntries(es, includeTombstoned);
  }

  // ----- Kind and reference -----

  /** A field by its lower-case key; the last of several wins. */
  function Get(fs: seq<(string, string)>, key: string): string {
    if fs == [] then ""
    else if fs[|fs| - 1].0 == key then fs[|fs| - 1].1
    else Get(fs[..|fs| - 1], key)
  }

  function EntryKind(e: Entry): string {
    var declared := Lower(Get(e.fields, "kind"));
    if IsKind(declared) then declared
    else if Get(e.fields, "proposal") != "" then APPROVAL
    else DEPENDENCY
  }

  function EntryRef(e: Entry): string {
    if Get(e.fields, "proposal") != "" then Get(e.fields, "proposal") else Get(e.fields, "change")
  }

  /** The last field under a key stands at `i`. */
  predicate LastOf(fs: seq<(string, string)>, key: string, i: nat) {
    i < |fs| && fs[i].0 == key && forall j :: i < j < |fs| ==> fs[j].0 != key
  }

  lemma {:induction false} GetMeans(fs: seq<(string, string)>, key: string)
    ensures forall i: nat :: LastOf(fs, key, i) ==> Get(fs, key) == fs[i].1
    ensures (forall i: nat :: !LastOf(fs, key, i)) <==> forall i :: 0 <= i < |fs| ==> fs[i].0 != key
    ensures (forall i: nat :: !LastOf(fs, key, i)) ==> Get(fs, key) == ""
  {
    if fs != [] {
      var last := |fs| - 1;
      GetMeans(fs[..last], key);
      if fs[last].0 == key {
        assert LastOf(fs, key, last);
      } else {
        forall i: nat | LastOf(fs[..last], key, i)
          ensures LastOf(fs, key, i)
        {
        }
      }
      forall i: nat | LastOf(fs, key, i)
        ensures Get(fs, key) == fs[i].1
      {
        assert i < |fs| - 1 ==> LastOf(fs[..|fs| - 1], key, i);
      }
    }
  }

  /** An entry is of the kind it declares, in any case, if that is one of the two; an undeclared one waits for
      approval exactly when it names a proposal. Its reference is the proposal, or else the change. */
  lemma KindMeans(e: Entry)
    ensures var declared, proposal := Lower(Get(e.fields, "kind")), Get(e.fields, "proposal");
            && (EntryKind(e) == "awaiting-approval" <==>
                declared == "awaiting-approval" || (declared != "awaiting-dependency" && |proposal| > 0))
            && (EntryKind(e) == "awaiting-dependency" <==>
                declared == "awaiting-dependency" || (declared != "awaiting-approval" && |proposal| == 0))
            && EntryRef(e) == if |proposal| > 0 then proposal else Get(e.fields, "change")
  {
  }

  predicate Reserved(key: string) {
    key == "kind" || key == "proposal" || key == "change"
  }

  /** Fields of other keys do not matter. */
  lemma {:induction false} GetPast(a: seq<(string, string)>, b: seq<(string, string)>, key: string)
    requires forall i :: 0 <= i < |b| ==> b[i].0 != key
    ensures Get(a + b, key) == Get(a, key)
  {
    if b == [] {
      assert a + b == a;
    } else {
      var b' := b[..|b| - 1];
      assert (a + b)[..|a + b| - 1] == a + b';
      GetPast(a, b', key);
    }
  }

  lemma {:induction false} LowerKeysConcat(a: seq<(string, string)>, b: seq<(string, string)>)
    ensures LowerKeys(a + b) == LowerKeys(a) + LowerKeys(b)
  {
    if a == [] {
      assert a + b == b;
    } else {
      assert (a + b)[1..] == a[1..] + b;
      LowerKeysConcat(a[1..], b);
    }
  }

  lemma {:induction false} LowerKeysAt(fs: seq<(string, string)>)
    ensures |LowerKeys(fs)| == |fs|
    ensures forall i :: 0 <= i < |fs| ==> LowerKeys(fs)[i] == (Lower(fs[i].0), fs[i].1)
  {
    if fs != [] {
      LowerKeysAt(fs[1..]);
      assert forall i :: 0 < i < |fs| ==> fs[i] == fs[1..][i - 1];
    }
  }

  /** The fields the readers look at come first; the rest carry other keys. */
  lemma LabelledParts(e: NewEntry) returns (rest: seq<(string, string)>)
    requires forall i :: 0 <= i < |e.extra| ==> !Reserved(Lower(e.extra[i].0))
    ensures var refs := if e.ref != "" then [(e.refLabel, e.ref)] else [];
            LowerKeys(Labelled(e)) == (LowerKeys(refs) + [("kind", KindOf(e))]) + rest
    ensures forall i :: 0 <= i < |rest| ==> !Reserved(rest[i].0)
  {
    var refs := if e.ref != "" then [(e.refLabel, e.ref)] else [];
    var kinds := [("Kind", KindOf(e))];
    var tail := (if e.since != "" then [("Blocked since", e.since)] else []) + e.extra;
    assert Labelled(e) == refs + kinds + tail;
    LowerKeysConcat(refs + kinds, tail);
    LowerKeysConcat(refs, kinds);
    LowerNames();
    assert kinds[1..] == [];
    assert LowerKeys(kinds) == [("kind", KindOf(e))];
    LowerKeysAt(tail);
    rest := LowerKeys(tail);
  }

  /** A rendered entry is read with its own kind and reference, provided its extra fields
      do not take over a key the readers look at. */
  lemma KindAndRefRead(e: NewEntry)
    requires e.refLabel == "Proposal" || e.refLabel == "Change"
    requires forall i :: 0 <= i < |e.extra| ==> !Reserved(Lower(e.extra[i].0))
    ensures EntryRef(AsRead(e)) == e.ref
    ensures EntryKind(AsRead(e)) ==
            if e.kind == "awaiting-approval" || e.kind == "awaiting-dependency" then e.kind
            else if e.refLabel == "Proposal" then "awaiting-approval" else "awaiting-dependency"
  {
    var rest := LabelledParts(e);
    var head := LowerKeys(if e.ref != "" then [(e.refLabel, e.ref)] else []) + [("kind", KindOf(e))];
    GetPast(head, rest, "kind");
    GetPast(head, rest, "proposal");
    GetPast(head, rest, "change");
    HeadRead(e.refLabel, e.ref, KindOf(e));
  }

  lemma GetSnoc(fs: seq<(string, string)>, f: (string, string), key: string)
    ensures Get(fs + [f], key) == if f.0 == key then f.1 else Get(fs, key)
  {
    assert (fs + [f])[..|fs + [f]| - 1] == fs;
  }

  lemma HeadRead(tag: string, ref: string, kind: string)
    requires (tag == "Proposal" || tag == "Change") && IsKind(kind)
    ensures var head := LowerKeys(if ref != "" then [(tag, ref)] else []) + [("kind", kind)];
            && Get(head, "kind") == kind && Lower(kind) == kind
            && (if Get(head, "proposal") != "" then Get(head, "proposal") else Get(head, "change")) == ref
  {
    LowerNames();
    var refs := if ref != "" then [(tag, ref)] else [];
    LowerKeysAt(refs);
    var lowered := LowerKeys(refs);
    GetSnoc(lowered, ("kind", kind), "kind");
    GetSnoc(lowered, ("kind", kind), "proposal");
    GetSnoc(lowered, ("kind", kind), "change");
    var none: seq<(string, string)> := [];
    if ref != "" {
      assert lowered == none + [(Lower(tag), ref)];
      GetSnoc(none, (Lower(tag), ref), "proposal");
      GetSnoc(none, (Lower(tag), ref), "change");
    }
  }

  lemma LowerNames()
    ensures Lower("Proposal") == "proposal" && Lower("Change") == "change" && Lower("Kind") == "kind"
    ensures !Reserved(Lower("Blocked since"))
    ensures Lower(APPROVAL) == APPROVAL && Lower(DEPENDENCY) == DEPENDENCY
  {
    assert Lower("Blocked since")[0] == 'b';
  }
}
