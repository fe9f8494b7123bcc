/** The spec-change-request template: rendering it, and reading its sections back
    (src/otaman_core/scr_template.py). The section table is a
    parameter; `TableInUse` is the one in use. */
module ScrTemplate {
  import opened Text
  import opened Wrappers

  datatype Section = Section(key: string, heading: string, guidance: string)

  // ----- Heading lines -----

  function Hashes(line: string): (n: nat)
    ensures n <= |line|
  {
    if line != "" && line[0] == '#' then 1 + Hashes(line[1..]) else 0
  }

  /** `^#{2,4}\s+(.+?)\s*$`: the heading text of a line, stripped. */
  function HeadingOf(line: string): Option<string> {
    TextAfter(Hashes(line), line[Hashes(line)..])
  }

  /** The heading text after `n` hashes. */
  function TextAfter(n: nat, rest: string): Option<string> {
    var text := LStrip(rest);
    if n < 2 || n > 4 || |text| == |rest| then None
    else if text != "" then Some(Strip(text))
    else if |rest| >= 2 then Some("")
    else None
  }

  /** Between two and four hashes, white space behind them, and one more character at least. */
  predicate HeadedAt(line: string, n: nat) {
    2 <= n <= 4 && n + 2 <= |line| && (forall i :: 0 <= i < n ==> line[i] == '#') && IsSpace(line[n])
  }

  lemma {:induction false} HashesAre(line: string, n: nat)
    requires n < |line| && (forall i :: 0 <= i < n ==> line[i] == '#') && line[n] != '#'
    ensures Hashes(line) == n
  {
    if n > 0 {
      HashesAre(line[1..], n - 1);
    }
  }

  lemma {:induction false} HashesMean(line: string)
    ensures forall i :: 0 <= i < Hashes(line) ==> line[i] == '#'
  {
    if line != "" && line[0] == '#' {
      HashesMean(line[1..]);
    }
  }

  lemma StripBetween(a: string, core: string, b: string)
    requires AllSpace(a) && AllSpace(b) && Trimmed(core)
    ensures Strip(a + (core + b)) == core && Strip(core + b) == core
  {
    StripOf(a, core, b);
    StripOf("", core, b);
    assert a + core + b == a + (core + b) && "" + core + b == core + b;
  }

  lemma RStripTrimmed(text: string)
    requires text != "" ==> !IsSpace(text[0])
    ensures Trimmed(RStrip(text)) && AllSpace(text[|RStrip(text)|..]) && text == RStrip(text) + text[|RStrip(text)|..]
  {
    RStripParts(text);
    assert RStrip(text) != "" ==> RStrip(text)[0] == text[0];
  }

  lemma StripLed(rest: string)
    ensures Strip(LStrip(rest)) == Strip(rest)
    ensures |LStrip(rest)| == |rest| <==> rest == "" || !IsSpace(rest[0])
  {
    var text := LStrip(rest);
    LStripParts(rest);
    RStripTrimmed(text);
    StripBetween(rest[..|rest| - |text|], RStrip(text), text[|RStrip(text)|..]);
    assert rest == rest[..|rest| - |text|] + text;
  }

  /** A line is a heading of this text exactly when it opens so and the text is what follows, stripped. */
  lemma HeadingMeans(line: string, text: string)
    ensures HeadingOf(line) == Some(text) <==> exists n: nat :: HeadedAt(line, n) && text == Strip(line[n..])
  {
    var h := Hashes(line);
    HashesMean(line);
    StripLed(line[h..]);
    if n: nat :| HeadedAt(line, n) && text == Strip(line[n..]) {
      HashesAre(line, n);
    }
    assert |line[h..]| > 0 ==> line[h..][0] == line[h];
  }

  /** The section whose heading `title` is, whatever its case. */
  function KeyFor(secs: seq<Section>, title: string): Option<string> {
    if secs == [] then None
    else
      var rest := KeyFor(secs[1..], title);
      if rest.Some? then rest
      else if Lower(secs[0].heading) == Lower(title) then Some(secs[0].key)
      else None
  }

  // ----- Reading the sections -----

  datatype Scan = Scan(found: map<string, string>, current: Option<string>, buf: seq<string>)

  function Flush(st: Scan): map<string, string> {
    if st.current.Some? then st.found[st.current.value := Strip(JoinLF(st.buf))] else st.found
  }

  function OnLine(secs: seq<Section>, st: Scan, line: string): Scan {
    match HeadingOf(line)
    case Some(title) => Scan(Flush(st), KeyFor(secs, title), [])
    case None => if st.current.Some? then st.(buf := st.buf + [line]) else st
  }

  function ScanLines(secs: seq<Section>, st: Scan, lines: seq<string>): Scan
    decreases |lines|
  {
    if lines == [] then st else ScanLines(secs, OnLine(secs, st, lines[0]), lines[1..])
  }

  const START := Scan(map[], None, [])

  function Bodies(secs: seq<Section>, body: string): map<string, string> {
    Flush(ScanLines(secs, START, SplitLines(body)))
  }

  method SectionBodies(secs: seq<Section>, body: string) returns (found: map<string, string>)
    ensures found == Bodies(secs, body)
  {
    var lines := SplitLines(body);
    found := map[];
    var current: Option<string> := None;
    var buf: seq<string> := [];
    for i := 0 to |lines|
      invariant ScanLines(secs, Scan(found, current, buf), lines[i..]) == ScanLines(secs, START, lines)
    {
      assert lines[i..][1..] == lines[i + 1..];
      var heading := HeadingOf(lines[i]);
      if heading.Some? {
        if current.Some? {
          found := found[current.value := Strip(JoinLF(buf))];
        }
        current, buf := KeyFor(secs, heading.value), [];
      } else if current.Some? {
        buf := buf + [lines[i]];
      }
    }
    if current.Some? {
      found := found[current.value := Strip(JoinLF(buf))];
    }
  }

  // ----- Rendering -----

  /** What stands under a section: the text given, stripped, or a prompt. */
  function BodyFor(sec: Section, given: map<string, string>): string {
    var b := if sec.key in given then Strip(given[sec.key]) else "";
    if b != "" then b else "TODO: " + sec.guidance
  }

  function SectionParts(secs: seq<Section>, given: map<string, string>): seq<string> {
    if secs == [] then []
    else ["### " + secs[0].heading, BodyFor(secs[0], given), ""] + SectionParts(secs[1..], given)
  }

  const SUBJECT_TEXT := "Subject: Spec change request: "
  const SUBJECT := "## " + SUBJECT_TEXT
  const LEVEL := "**Evidence level**: "

  function HeadParts(title: string, level: string): seq<string> {
    [SUBJECT + title, ""] + if level != "" then [LEVEL + level, ""] else []
  }

  function Rendered(secs: seq<Section>, title: string, given: map<string, string>, level: string): string {
    RStrip(JoinLF(HeadParts(title, level) + SectionParts(secs, given))) + "\n"
  }

  method Render(secs: seq<Section>, title: string, given: map<string, string>, level: string) returns (r: string)
    ensures r == Rendered(secs, title, given, level)
  {
    var parts := [SUBJECT + title, ""];
    if level != "" {
      parts := parts + [LEVEL + level, ""];
    }
    ghost var head := parts;
    assert head == HeadParts(title, level);
    for i := 0 to |secs|
      invariant parts + SectionParts(secs[i..], given) == head + SectionParts(secs, given)
    {
      parts := AddSection(parts, secs, i, given);
    }
    assert parts + [] == parts;
    r := RStrip(JoinLF(parts)) + "\n";
  }

  /** One turn of the loop over the sections. */
  method AddSection(parts: seq<string>, secs: seq<Section>, i: nat, given: map<string, string>)
    returns (more: seq<string>)
    requires i < |secs|
    ensures more + SectionParts(secs[i + 1..], given) == parts + SectionParts(secs[i..], given)
  {
    var sec := secs[i];
    more := parts + ["### " + sec.heading];
    var body := if sec.key in given then Strip(given[sec.key]) else "";
    more := more + [if body != "" then body else "TODO: " + sec.guidance];
    more := more + [""];
    assert secs[i..][1..] == secs[i + 1..];
    assert more == parts + ["### " + sec.heading, BodyFor(sec, given), ""];
  }

  // ----- The round trip -----

  predicate PlainLine(s: string) {
    s != "" && Trimmed(s) && SingleLine(s)
  }

  predicate LikeSubject(heading: string) {
    |heading| >= 2 && LowerChar(heading[0]) == 's' && LowerChar(heading[1]) == 'u'
  }

  /** A table that can be read back: plain headings, told apart whatever their case, none
      looking like the subject line. */
  predicate GoodTable(secs: seq<Section>) {
    && secs != []
    && (forall i :: 0 <= i < |secs| ==>
          PlainLine(secs[i].heading) && PlainLine(secs[i].guidance) && !LikeSubject(secs[i].heading))
    && (forall i, j :: 0 <= i < j < |secs| ==>
          secs[i].key != secs[j].key && Lower(secs[i].heading) != Lower(secs[j].heading))
  }

  predicate NoHeadings(lines: seq<string>) {
    forall i :: 0 <= i < |lines| ==> HeadingOf(lines[i]) == None
  }

  /** The bodies given contain no heading line. */
  predicate PlainGiven(secs: seq<Section>, given: map<string, string>) {
    forall i :: 0 <= i < |secs| && secs[i].key in given ==> NoHeadings(SplitLines(Strip(given[secs[i].key])))
  }

  /** A text after its lines were split and joined again. */
  function Relined(b: string): string {
    Strip(JoinLF(SplitLines(b)))
  }

  lemma RelinedSame(b: string)
    requires Trimmed(b) && LineFeedsOnly(b)
    ensures Relined(b) == b
  {
    JoinSplit(b);
    StripTrimmed(b);
  }

  /** Every part, each ended by a line feed. */
  function Terminated(parts: seq<string>): string {
    if parts == [] then "" else parts[0] + ("\n" + Terminated(parts[1..]))
  }

  lemma {:induction false} TerminatedJoin(parts: seq<string>)
    requires parts != []
    ensures Terminated(parts) == JoinLF(parts) + "\n"
  {
    if |parts| > 1 {
      TerminatedJoin(parts[1..]);
    } else {
      assert parts[1..] == [];
      assert "\n" + "" == "\n";
    }
  }

  function LinesOf(part: string): seq<string> {
    if part == "" then [""] else SplitLines(part)
  }

  function AllLines(parts: seq<string>): seq<string> {
    if parts == [] then [] else LinesOf(parts[0]) + AllLines(parts[1..])
  }

  predicate Closed(part: string) {
    part == "" || !IsLineBreak(part[|part| - 1])
  }

  lemma {:induction false} TerminatedLines(parts: seq<string>)
    requires AllClosed(parts)
    ensures SplitLines(Terminated(parts)) == AllLines(parts)
  {
    if parts != [] {
      assert forall i :: 0 <= i < |parts[1..]| ==> parts[1..][i] == parts[i + 1];
      var rest := Terminated(parts[1..]);
      TerminatedLines(parts[1..]);
      if parts[0] == "" {
        SplitLinesCons("", rest);
      } else {
        SplitLinesAppend(parts[0], rest);
      }
    }
  }

  lemma {:induction false} AllLinesConcat(a: seq<string>, b: seq<string>)
    ensures AllLines(a + b) == AllLines(a) + AllLines(b)
  {
    if a == [] {
      assert a + b == b;
    } else {
      assert (a + b)[1..] == a[1..] + b;
      AllLinesConcat(a[1..], b);
    }
  }

  lemma {:induction false} ScanConcat(secs: seq<Section>, st: Scan, a: seq<string>, b: seq<string>)
    ensures ScanLines(secs, st, a + b) == ScanLines(secs, ScanLines(secs, st, a), b)
    decreases |a|
  {
    if a == [] {
      assert a + b == b;
    } else {
      assert (a + b)[1..] == a[1..] + b;
      ScanConcat(secs, OnLine(secs, st, a[0]), a[1..], b);
    }
  }

  /** Lines under a known heading are buffered; others are skipped. */
  lemma {:induction false} ScanPlain(secs: seq<Section>, st: Scan, lines: seq<string>)
    requires NoHeadings(lines)
    ensures ScanLines(secs, st, lines) == if st.current.Some? then st.(buf := st.buf + lines) else st
    decreases |lines|
  {
    if lines == [] {
      assert st.buf + lines == st.buf;
    } else {
      assert forall i :: 0 <= i < |lines[1..]| ==> lines[1..][i] == lines[i + 1];
      ScanPlain(secs, OnLine(secs, st, lines[0]), lines[1..]);
      assert st.buf + [lines[0]] + lines[1..] == st.buf + lines;
    }
  }

  lemma JoinEmptyLast(lines: seq<string>)
    requires lines != []
    ensures JoinLF(lines + [""]) == JoinLF(lines) + "\n"
    decreases |lines|
  {
    var all := lines + [""];
    if |lines| == 1 {
      assert all[1..] == [""];
      assert "\n" + "" == "\n";
    } else {
      assert all[1..] == lines[1..] + [""];
      JoinEmptyLast(lines[1..]);
    }
  }

  /** What a section's buffer comes to: its body, relined. */
  lemma BufferText(b: string)
    requires b != ""
    ensures Strip(JoinLF(SplitLines(b) + [""])) == Relined(b)
  {
    SplitLinesSome(b);
    JoinEmptyLast(SplitLines(b));
    var t := JoinLF(SplitLines(b));
    RStripParts(t);
    var r := RStrip(t);
    assert t + "\n" == r + (t[|r|..] + "\n");
    RStripOf(r, t[|r|..] + "\n");
  }

  lemma {:induction false} KeyForAt(secs: seq<Section>, k: nat)
    requires k < |secs|
    requires forall i, j :: 0 <= i < j < |secs| ==> Lower(secs[i].heading) != Lower(secs[j].heading)
    ensures KeyFor(secs, secs[k].heading) == Some(secs[k].key)
  {
    assert forall i :: 0 <= i < |secs[1..]| ==> secs[1..][i] == secs[i + 1];
    if k > 0 {
      KeyForAt(secs[1..], k - 1);
    } else {
      KeyForNone(secs[1..], secs[0].heading);
    }
  }

  lemma {:induction false} KeyForNone(secs: seq<Section>, title: string)
    requires forall i :: 0 <= i < |secs| ==> Lower(secs[i].heading) != Lower(title)
    ensures KeyFor(secs, title) == None
  {
    if secs != [] {
      assert forall i :: 0 <= i < |secs[1..]| ==> secs[1..][i] == secs[i + 1];
      KeyForNone(secs[1..], title);
    }
  }

  lemma UnlikeSubject(heading: string, title: string)
    requires !LikeSubject(heading) && LikeSubject(title)
    ensures Lower(heading) != Lower(title)
  {
    assert |heading| >= 2 ==> Lower(heading)[0] == LowerChar(heading[0]) && Lower(heading)[1] == LowerChar(heading[1]);
    assert Lower(title)[0] == LowerChar(title[0]) && Lower(title)[1] == LowerChar(title[1]);
  }

  lemma HeadingLine(heading: string)
    requires heading != "" && Trimmed(heading)
    ensures HeadingOf("### " + heading) == Some(heading)
  {
    var rest := " " + heading;
    HashCons(rest);
    HashCons("#" + rest);
    HashCons("#" + ("#" + rest));
    assert "### " + heading == "#" + ("#" + ("#" + rest));
    assert ("#" + ("#" + ("#" + rest)))[3..] == rest;
    SpacedText(3, heading);
    StripTrimmed(heading);
  }

  lemma SpacedText(n: nat, text: string)
    requires 2 <= n <= 4 && text != "" && !IsSpace(text[0])
    ensures Hashes(" " + text) == 0 && TextAfter(n, " " + text) == Some(Strip(text))
  {
    LStripOf(" ", text);
  }

  lemma HashCons(s: string)
    ensures Hashes("#" + s) == 1 + Hashes(s)
  {
    assert ("#" + s)[1..] == s;
  }

  /** The subject line is a heading, of no section. */
  lemma SubjectLine(secs: seq<Section>, title: string)
    requires GoodTable(secs)
    ensures HeadingOf(SUBJECT + title).Some? && KeyFor(secs, HeadingOf(SUBJECT + title).value) == None
  {
    var text := SUBJECT_TEXT + title;
    assert text[0] == SUBJECT_TEXT[0] == 'S' && text[1] == SUBJECT_TEXT[1] == 'u';
    assert SUBJECT + title == "## " + text;
    TwoHashes(text);
    StripStart(text);
    forall i | 0 <= i < |secs| ensures Lower(secs[i].heading) != Lower(Strip(text)) {
      UnlikeSubject(secs[i].heading, Strip(text));
    }
    KeyForNone(secs, Strip(text));
  }

  lemma TwoHashes(text: string)
    requires text != "" && !IsSpace(text[0])
    ensures HeadingOf("## " + text) == Some(Strip(text))
  {
    var rest := " " + text;
    HashCons(rest);
    HashCons("#" + rest);
    assert "## " + text == "#" + ("#" + rest);
    assert ("#" + ("#" + rest))[2..] == rest;
    SpacedText(2, text);
  }

  lemma StripStart(text: string)
    requires |text| >= 2 && text[0] == 'S' && text[1] == 'u'
    ensures LikeSubject(Strip(text))
  {
    RStripParts(text);
    RStripKeeps(text, 1);
    var r := RStrip(text);
    assert r[0] == 'S' && r[1] == 'u';
    assert LStrip(r) == r;
  }

  // ----- The parts of a rendered request -----

  lemma BodyShape(sec: Section, given: map<string, string>)
    requires PlainLine(sec.guidance)
    ensures BodyFor(sec, given) != "" && Trimmed(BodyFor(sec, given))
  {
  }

  predicate AllClosed(parts: seq<string>) {
    forall i :: 0 <= i < |parts| ==> Closed(parts[i])
  }

  lemma {:induction false} SectionPartsClosed(secs: seq<Section>, given: map<string, string>)
    requires forall i :: 0 <= i < |secs| ==> PlainLine(secs[i].heading) && PlainLine(secs[i].guidance)
    ensures AllClosed(SectionParts(secs, given))
  {
    if secs != [] {
      assert forall i :: 0 <= i < |secs[1..]| ==> secs[1..][i] == secs[i + 1];
      SectionPartsClosed(secs[1..], given);
      BodyShape(secs[0], given);
      assert Closed("### " + secs[0].heading);
    }
  }

  lemma {:induction false} SectionPartsEnd(secs: seq<Section>, given: map<string, string>) returns (init: seq<string>)
    requires secs != []
    ensures SectionParts(secs, given) == init + [BodyFor(secs[|secs| - 1], given), ""]
  {
    if |secs| == 1 {
      init := ["### " + secs[0].heading];
    } else {
      var more := SectionPartsEnd(secs[1..], given);
      init := ["### " + secs[0].heading, BodyFor(secs[0], given), ""] + more;
    }
  }

  lemma {:induction false} JoinLast(parts: seq<string>)
    requires parts != [] && parts[|parts| - 1] != ""
    ensures JoinLF(parts) != ""
    ensures JoinLF(parts)[|JoinLF(parts)| - 1] == parts[|parts| - 1][|parts[|parts| - 1]| - 1]
  {
    if |parts| > 1 {
      JoinLast(parts[1..]);
    }
  }

  lemma RStripLineFeed(t: string)
    requires t != "" && !IsSpace(t[|t| - 1])
    ensures RStrip(t + "\n") == t
  {
    RStripOf(t, "\n");
  }

  lemma EndsInText(parts: seq<string>, last: string)
    requires last != "" && Trimmed(last)
    ensures RStrip(JoinLF(parts + [last, ""])) + "\n" == Terminated(parts + [last])
  {
    var init := parts + [last];
    assert parts + [last, ""] == init + [""];
    assert init[|init| - 1] == last;
    JoinLast(init);
    JoinEmptyLast(init);
    RStripLineFeed(JoinLF(init));
    TerminatedJoin(init);
  }

  /** A rendered request is all its parts but the last, each ended by a line feed. */
  lemma RenderedParts(secs: seq<Section>, title: string, given: map<string, string>, level: string)
    returns (init: seq<string>)
    requires GoodTable(secs) && SingleLine(title) && SingleLine(level)
    ensures HeadParts(title, level) + SectionParts(secs, given) == init + [""]
    ensures Rendered(secs, title, given, level) == Terminated(init)
    ensures AllClosed(init)
  {
    var head, last := HeadParts(title, level), BodyFor(secs[|secs| - 1], given);
    var most := SectionPartsEnd(secs, given);
    SectionPartsClosed(secs, given);
    HeadClosed(title, level);
    BodyShape(secs[|secs| - 1], given);
    init := head + most + [last];
    ClosedInit(head, SectionParts(secs, given), most, last);
    assert head + (most + [last, ""]) == (head + most) + [last, ""];
    EndsInText(head + most, last);
  }

  lemma ClosedInit(head: seq<string>, sp: seq<string>, most: seq<string>, last: string)
    requires AllClosed(head) && AllClosed(sp) && sp == most + [last, ""]
    ensures AllClosed(head + most + [last])
    ensures head + sp == head + most + [last] + [""]
  {
    var init := head + most + [last];
    assert forall i :: |head| <= i < |init| ==> init[i] == sp[i - |head|];
  }

  lemma HeadClosed(title: string, level: string)
    requires SingleLine(title) && SingleLine(level)
    ensures AllClosed(HeadParts(title, level))
    ensures SingleLine(SUBJECT + title) && SingleLine(LEVEL + level)
  {
    assert SingleLine(SUBJECT) && SingleLine(LEVEL);
  }

  // ----- Reading back -----

  /** What is read under each section: the text it was given, or its prompt. */
  function Expected(secs: seq<Section>, given: map<string, string>): map<string, string> {
    if secs == [] then map[]
    else map[secs[0].key := Relined(BodyFor(secs[0], given))] + Expected(secs[1..], given)
  }

  /** An empty last line makes no difference. */
  lemma FlushEmptyLine(secs: seq<Section>, st: Scan)
    ensures Flush(OnLine(secs, st, "")) == Flush(st)
  {
    if st.current.Some? {
      if st.buf == [] {
        assert st.buf + [""] == [""];
      } else {
        JoinEmptyLast(st.buf);
        StripLineFeed(JoinLF(st.buf));
      }
    }
  }

  lemma StripLineFeed(t: string)
    ensures Strip(t + "\n") == Strip(t)
  {
    RStripParts(t);
    var r := RStrip(t);
    assert t + "\n" == r + (t[|r|..] + "\n");
    RStripOf(r, t[|r|..] + "\n");
  }

  lemma BodyLines(sec: Section, given: map<string, string>)
    requires PlainLine(sec.guidance)
    requires sec.key in given ==> NoHeadings(SplitLines(Strip(given[sec.key])))
    ensures NoHeadings(SplitLines(BodyFor(sec, given)) + [""])
  {
    var prompt := "TODO: " + sec.guidance;
    assert SingleLine(prompt) && prompt[0] == 'T';
    SplitLinesOne(prompt);
    assert Hashes(prompt) == 0 && Hashes("") == 0;
  }

  lemma AllLinesThree(h: string, b: string)
    requires h != "" && b != "" && SplitLines(h) == [h]
    ensures AllLines([h, b, ""]) == [h] + (SplitLines(b) + [""])
  {
    assert [h, b, ""][1..] == [b, ""] && [b, ""][1..] == [""] && [""][1..] == [];
    assert AllLines([""]) == [""];
    assert AllLines([b, ""]) == SplitLines(b) + [""];
  }

  /** One section of the table, scanned. */
  lemma ScanSection(table: seq<Section>, st: Scan, k: nat, given: map<string, string>)
    requires k < |table| && GoodTable(table)
    requires table[k].key in given ==> NoHeadings(SplitLines(Strip(given[table[k].key])))
    ensures var sec := table[k];
            var t := ScanLines(table, st, AllLines(["### " + sec.heading, BodyFor(sec, given), ""]));
            Flush(t) == Flush(st)[sec.key := Relined(BodyFor(sec, given))]
  {
    var sec := table[k];
    var h, b := "### " + sec.heading, BodyFor(sec, given);
    var lines := SplitLines(b) + [""];
    BodyShape(sec, given);
    assert SingleLine(h);
    SplitLinesOne(h);
    AllLinesThree(h, b);
    HeadingLine(sec.heading);
    KeyForAt(table, k);
    BodyLines(sec, given);
    var st1 := OnLine(table, st, h);
    assert ([h] + lines)[1..] == lines;
    ScanPlain(table, st1, lines);
    assert st1.buf + lines == lines;
    BufferText(b);
  }

  lemma {:induction false} ScanSections(table: seq<Section>, st: Scan, k: nat, given: map<string, string>)
    requires k <= |table| && GoodTable(table) && PlainGiven(table, given)
    ensures Flush(ScanLines(table, st, AllLines(SectionParts(table[k..], given)))) ==
            Flush(st) + Expected(table[k..], given)
    decreases |table| - k
  {
    if k < |table| {
      var sec, rest := table[k], table[k + 1..];
      var first := ["### " + sec.heading, BodyFor(sec, given), ""];
      assert table[k..][1..] == rest;
      ScanSection(table, st, k, given);
      var t := ScanLines(table, st, AllLines(first));
      AllLinesConcat(first, SectionParts(rest, given));
      ScanConcat(table, st, AllLines(first), AllLines(SectionParts(rest, given)));
      ScanSections(table, t, k + 1, given);
      MapCons(Flush(st), sec.key, Relined(BodyFor(sec, given)), Expected(rest, given));
    } else {
      assert table[k..] == [];
    }
  }

  lemma MapCons(m: map<string, string>, key: string, value: string, rest: map<string, string>)
    ensures m[key := value] + rest == m + (map[key := value] + rest)
  {
  }

  lemma ScanHead(table: seq<Section>, title: string, level: string)
    requires GoodTable(table) && SingleLine(title) && SingleLine(level)
    ensures ScanLines(table, START, AllLines(HeadParts(title, level))) == START
  {
    var s := SUBJECT + title;
    SubjectLine(table, title);
    HeadClosed(title, level);
    SplitLinesOne(s);
    assert OnLine(table, START, s) == START;
    assert [s, ""][1..] == [""] && [""][1..] == [];
    assert AllLines([s, ""]) == [s] + [""];
    var l := LEVEL + level;
    SplitLinesOne(l);
    assert [l, ""][1..] == [""];
    assert AllLines([l, ""]) == [l] + [""];
    assert l[0] == '*' && Hashes(l) == 0 && Hashes("") == 0;
    var tail := if level != "" then [l, ""] else [];
    AllLinesConcat([s, ""], tail);
    ScanConcat(table, START, [s], [""] + AllLines(tail));
    assert [s][1..] == [];
    ScanPlain(table, START, [""] + AllLines(tail));
    assert [s] + [""] + AllLines(tail) == [s] + ([""] + AllLines(tail));
  }

  lemma ScanDropLast(secs: seq<Section>, lines: seq<string>)
    ensures Flush(ScanLines(secs, START, lines)) == Flush(ScanLines(secs, START, lines + [""]))
  {
    ScanConcat(secs, START, lines, [""]);
    LastLine(secs, ScanLines(secs, START, lines));
    FlushEmptyLine(secs, ScanLines(secs, START, lines));
  }

  lemma LinesOfParts(secs: seq<Section>, title: string, given: map<string, string>, level: string)
    requires GoodTable(secs) && SingleLine(title) && SingleLine(level)
    ensures SplitLines(Rendered(secs, title, given, level)) + [""] ==
            AllLines(HeadParts(title, level)) + AllLines(SectionParts(secs, given))
  {
    var init := RenderedParts(secs, title, given, level);
    TerminatedLines(init);
    AllLinesConcat(init, [""]);
    AllLinesConcat(HeadParts(title, level), SectionParts(secs, given));
    assert [""][1..] == [];
    assert AllLines([""]) == [""];
  }

  lemma BodiesFromLines(secs: seq<Section>, body: string, lines: seq<string>)
    requires SplitLines(body) + [""] == lines
    ensures Bodies(secs, body) == Flush(ScanLines(secs, START, lines))
  {
    ScanDropLast(secs, SplitLines(body));
  }

  lemma SkipHead(secs: seq<Section>, title: string, level: string, lines: seq<string>)
    requires GoodTable(secs) && SingleLine(title) && SingleLine(level)
    ensures ScanLines(secs, START, AllLines(HeadParts(title, level)) + lines) == ScanLines(secs, START, lines)
  {
    ScanConcat(secs, START, AllLines(HeadParts(title, level)), lines);
    ScanHead(secs, title, level);
  }

  lemma ScanAllSections(secs: seq<Section>, given: map<string, string>)
    requires GoodTable(secs) && PlainGiven(secs, given)
    ensures Flush(ScanLines(secs, START, AllLines(SectionParts(secs, given)))) == Expected(secs, given)
  {
    assert secs[0..] == secs;
    ScanSections(secs, START, 0, given);
    assert Flush(START) + Expected(secs, given) == Expected(secs, given);
  }

  /** Reading a rendered request gives every section's text, or its prompt, and nothing else. */
  lemma RoundTrip(secs: seq<Section>, title: string, given: map<string, string>, level: string)
    requires GoodTable(secs) && SingleLine(title) && SingleLine(level) && PlainGiven(secs, given)
    ensures Bodies(secs, Rendered(secs, title, given, level)) == Expected(secs, given)
  {
    LinesOfParts(secs, title, given, level);
    BodiesFromLines(secs, Rendered(secs, title, given, level),
                    AllLines(HeadParts(title, level)) + AllLines(SectionParts(secs, given)));
    SkipHead(secs, title, level, AllLines(SectionParts(secs, given)));
    ScanAllSections(secs, given);
  }

  lemma LastLine(secs: seq<Section>, st: Scan)
    ensures ScanLines(secs, st, [""]) == OnLine(secs, st, "")
  {
    assert [""][1..] == [];
  }

  lemma {:induction false} ExpectedAt(secs: seq<Section>, given: map<string, string>, k: nat)
    requires k < |secs|
    requires forall i, j :: 0 <= i < j < |secs| ==> secs[i].key != secs[j].key
    ensures secs[k].key in Expected(secs, given) && Expected(secs, given)[secs[k].key] == Relined(BodyFor(secs[k], given))
  {
    var rest := secs[1..];
    assert forall i :: 0 <= i < |rest| ==> rest[i] == secs[i + 1];
    if k > 0 {
      ExpectedAt(rest, given, k - 1);
      assert rest[k - 1].key != secs[0].key;
    } else {
      ExpectedMissing(rest, given, secs[0].key);
    }
  }

  lemma {:induction false} ExpectedMissing(secs: seq<Section>, given: map<string, string>, key: string)
    requires forall i :: 0 <= i < |secs| ==> secs[i].key != key
    ensures key !in Expected(secs, given)
  {
    if secs != [] {
      assert forall i :: 0 <= i < |secs[1..]| ==> secs[1..][i] == secs[i + 1];
      ExpectedMissing(secs[1..], given, key);
    }
  }

  /** Under each heading stands exactly the stripped text given for it, when that has no
      line breaks other than line feeds, and the prompt when nothing was given. */
  lemma SectionRead(secs: seq<Section>, title: string, given: map<string, string>, level: string, k: nat)
    requires GoodTable(secs) && SingleLine(title) && SingleLine(level) && PlainGiven(secs, given)
    requires k < |secs| && LineFeedsOnly(BodyFor(secs[k], given))
    ensures var found := Bodies(secs, Rendered(secs, title, given, level));
            secs[k].key in found && found[secs[k].key] == BodyFor(secs[k], given)
  {
    RoundTrip(secs, title, given, level);
    ExpectedAt(secs, given, k);
    BodyShape(secs[k], given);
    RelinedSame(BodyFor(secs[k], given));
  }

  // ----- The table in use -----

  /** The seven sections; their prompts are wording. */
  function TableInUse(g: seq<string>): seq<Section>
    requires |g| == 7
  {
    [Section("problem", "Problem as observed", g[0]),
     Section("evidence", "Evidence", g[1]),
     Section("impact", "Impact", g[2]),
     Section("direction", "Proposed direction", g[3]),
     Section("scope", "Scope boundary", g[4]),
     Section("routing", "Routing", g[5]),
     Section("workaround", "Workaround in use", g[6])]
  }

  lemma HeadingPlain(h: string, c: char)
    requires |h| > 1 && !IsSpace(h[0]) && !IsSpace(h[|h| - 1])
    requires forall i :: 0 <= i < |h| ==> h[i] as int >= 32
    requires LowerChar(h[0]) == c && LowerChar(h[1]) != 'u'
    ensures PlainLine(h) && !LikeSubject(h) && Lower(h)[0] == c
  {
  }

  lemma HeadingsPlain(g: seq<string>)
    requires |g| == 7
    ensures var t := TableInUse(g);
            forall i :: 0 <= i < 7 ==>
              PlainLine(t[i].heading) && !LikeSubject(t[i].heading)
              && Lower(t[i].heading)[0] == ['p', 'e', 'i', 'p', 's', 'r', 'w'][i]
  {
    HeadingPlain("Problem as observed", 'p');
    HeadingPlain("Evidence", 'e');
    HeadingPlain("Impact", 'i');
    HeadingPlain("Proposed direction", 'p');
    HeadingPlain("Scope boundary", 's');
    HeadingPlain("Routing", 'r');
    HeadingPlain("Workaround in use", 'w');
  }

  lemma HeadingsDiffer(g: seq<string>)
    requires |g| == 7
    ensures var t := TableInUse(g);
            forall i, j :: 0 <= i < j < 7 ==>
              t[i].key != t[j].key && Lower(t[i].heading) != Lower(t[j].heading)
  {
    var t := TableInUse(g);
    var firsts := ['p', 'e', 'i', 'p', 's', 'r', 'w'];
    HeadingsPlain(g);
    assert |t[0].heading| == 19 && |t[3].heading| == 18;
    forall i, j | 0 <= i < j < 7 ensures t[i].key != t[j].key && Lower(t[i].heading) != Lower(t[j].heading) {
      assert Lower(t[i].heading)[0] == firsts[i] && Lower(t[j].heading)[0] == firsts[j];
      assert firsts[i] == firsts[j] ==> i == 0 && j == 3;
      KeysDiffer(g, i, j);
    }
  }

  lemma KeysDiffer(g: seq<string>, i: nat, j: nat)
    requires |g| == 7 && i < j < 7
    ensures TableInUse(g)[i].key != TableInUse(g)[j].key
  {
    var lengths := [7, 8, 6, 9, 5, 7, 10];
    assert forall k :: 0 <= k < 7 ==> |TableInUse(g)[k].key| == lengths[k];
    assert TableInUse(g)[0].key[0] == 'p' && TableInUse(g)[5].key[0] == 'r';
  }

  lemma TableInUseGood(g: seq<string>)
    requires |g| == 7 && forall i :: 0 <= i < 7 ==> PlainLine(g[i])
    ensures GoodTable(TableInUse(g))
  {
    HeadingsPlain(g);
    HeadingsDiffer(g);
    assert forall i :: 0 <= i < 7 ==> TableInUse(g)[i].guidance == g[i];
  }
}
