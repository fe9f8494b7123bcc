/** The dotenv secret store: its readers and its one writer (src/otaman_core/_secrets.py). A file
    is its text; a missing one is empty. */
module Secrets {
  import opened Text
  import opened Wrappers

  // ----- Lines -----

  /** A `KEY=VALUE` line, taken apart; quotes not yet removed. */
  datatype Line = Skipped | Pair(key: string, value: string)

  function ReadLine(raw: string): Line {
    var line := Strip(raw);
    var k := Find(line, '=');
    if line == "" || line[0] == '#' || k == |line| then Skipped
    else Pair(Strip(line[..k]), Strip(line[k + 1..]))
  }

  /** One pair of matching quotes is dropped. */
  function Unquote(v: string): string {
    if |v| >= 2 && v[0] == v[|v| - 1] && (v[0] == '"' || v[0] == '\'') then v[1..|v| - 1] else v
  }

  predicate Defines(raw: string, key: string) {
    ReadLine(raw).Pair? && ReadLine(raw).key == key
  }

  // ----- Readers -----

  /** The value of `key` on the first line that defines it, `None` when it is empty. */
  function Read(lines: seq<string>, key: string): Option<string> {
    if lines == [] then None
    else if Defines(lines[0], key) then
      var v := Unquote(ReadLine(lines[0]).value);
      if v != "" then Some(v) else None
    else Read(lines[1..], key)
  }

  /** What one line adds to the pairs read so far. */
  function Take(raw: string, out: map<string, string>): map<string, string> {
    match ReadLine(raw)
    case Pair(key, value) => if key != "" then out[key := Unquote(value)] else out
    case Skipped => out
  }

  /** All pairs; the last line of a key wins. */
  function Load(lines: seq<string>, out: map<string, string>): map<string, string>
    decreases |lines|
  {
    if lines == [] then out else Load(lines[1..], Take(lines[0], out))
  }

  function Keys(lines: seq<string>): set<string> {
    if lines == [] then {}
    else
      (match ReadLine(lines[0])
       case Pair(key, _) => if key != "" then {key} else {}
       case Skipped => {})
      + Keys(lines[1..])
  }

  method ReadDotenvValue(text: string, key: string) returns (r: Option<string>)
    ensures r == Read(SplitLines(text), key)
  {
    var lines := SplitLines(text);
    for i := 0 to |lines|
      invariant Read(lines, key) == Read(lines[i..], key)
    {
      assert lines[i..][1..] == lines[i + 1..];
      var line := ReadLine(lines[i]);
      if line.Pair? && line.key == key {
        var value := Unquote(line.value);
        return if value != "" then Some(value) else None;
      }
    }
    return None;
  }

  method LoadDotenv(text: string) returns (out: map<string, string>)
    ensures out == Load(SplitLines(text), map[])
  {
    var lines := SplitLines(text);
    out := map[];
    for i := 0 to |lines|
      invariant Load(lines[i..], out) == Load(lines, map[])
    {
      assert lines[i..][1..] == lines[i + 1..];
      var line := ReadLine(lines[i]);
      if line.Pair? && line.key != "" {
        out := out[line.key := Unquote(line.value)];
      }
    }
  }

  method DotenvKeys(text: string) returns (keys: set<string>)
    ensures keys == Keys(SplitLines(text))
  {
    var lines := SplitLines(text);
    keys := {};
    for i := 0 to |lines|
      invariant keys + Keys(lines[i..]) == Keys(lines)
    {
      assert lines[i..][1..] == lines[i + 1..];
      var line := ReadLine(lines[i]);
      if line.Pair? && line.key != "" {
        keys := keys + {line.key};
      }
    }
  }

  // ----- The writer -----

  predicate ValidKey(key: string) {
    key != "" && '=' !in key && forall i :: 0 <= i < |key| ==> !IsSpace(key[i])
  }

  predicate WritableValue(value: string) {
    '\n' !in value && '\r' !in value && '"' !in value
  }

  predicate NeedsQuotes(value: string) {
    value == "" || value != Strip(value) || ' ' in value || '#' in value
  }

  function RenderedValue(value: string): string {
    if NeedsQuotes(value) then "\"" + value + "\"" else value
  }

  function RenderedLine(key: string, value: string): string {
    key + ("=" + RenderedValue(value))
  }

  /** Every line of `key` is replaced; the others stay where they are. */
  function Replaced(lines: seq<string>, key: string, rendered: string): seq<string> {
    if lines == [] then []
    else [if Defines(lines[0], key) then rendered else lines[0]] + Replaced(lines[1..], key, rendered)
  }

  predicate AnyDefines(lines: seq<string>, key: string) {
    exists i :: 0 <= i < |lines| && Defines(lines[i], key)
  }

  function UpsertLines(lines: seq<string>, key: string, rendered: string): seq<string> {
    Replaced(lines, key, rendered) + if AnyDefines(lines, key) then [] else [rendered]
  }

  function Upserted(text: string, key: string, value: string): string {
    JoinLF(UpsertLines(SplitLines(text), key, RenderedLine(key, value))) + "\n"
  }

  datatype Written = Saved(text: string) | InvalidKey | InvalidValue

  method UpsertDotenvSecret(text: string, key: string, value: string) returns (r: Written)
    ensures r == InvalidKey <==> !ValidKey(key)
    ensures r == InvalidValue <==> ValidKey(key) && !WritableValue(value)
    ensures r.Saved? ==> r.text == Upserted(text, key, value)
  {
    if !ValidKey(key) {
      return InvalidKey;
    }
    if !WritableValue(value) {
      return InvalidValue;
    }
    var rendered := RenderedLine(key, value);
    var out, replaced := RewriteLines(SplitLines(text), key, rendered);
    if !replaced {
      out := out + [rendered];
    }
    assert out == UpsertLines(SplitLines(text), key, rendered);
    r := Saved(JoinLF(out) + "\n");
  }

  /** The loop over the existing lines. */
  method RewriteLines(existing: seq<string>, key: string, rendered: string) returns (out: seq<string>, replaced: bool)
    ensures out == Replaced(existing, key, rendered)
    ensures replaced <==> AnyDefines(existing, key)
  {
    out := [];
    replaced := false;
    for i := 0 to |existing|
      invariant out == Replaced(existing[..i], key, rendered)
      invariant replaced <==> AnyDefines(existing[..i], key)
    {
      assert existing[..i + 1] == existing[..i] + [existing[i]];
      var defines := Defines(existing[i], key);
      AnyDefinesSnoc(existing[..i], existing[i], key);
      ReplacedSnoc(existing[..i], existing[i], key, rendered);
      if defines {
        out := out + [rendered];
        replaced := true;
      } else {
        out := out + [existing[i]];
      }
    }
    assert existing[..|existing|] == existing;
  }

  lemma {:induction false} ReplacedSnoc(lines: seq<string>, l: string, key: string, rendered: string)
    ensures Replaced(lines + [l], key, rendered) ==
            Replaced(lines, key, rendered) + [if Defines(l, key) then rendered else l]
  {
    if lines == [] {
      assert lines + [l] == [l] && [l][1..] == [];
    } else {
      assert (lines + [l])[1..] == lines[1..] + [l];
      ReplacedSnoc(lines[1..], l, key, rendered);
    }
  }

  lemma AnyDefinesSnoc(lines: seq<string>, l: string, key: string)
    ensures AnyDefines(lines + [l], key) <==> AnyDefines(lines, key) || Defines(l, key)
  {
    if AnyDefines(lines, key) {
      var i :| 0 <= i < |lines| && Defines(lines[i], key);
      assert Defines((lines + [l])[i], key);
    }
    if Defines(l, key) {
      assert Defines((lines + [l])[|lines|], key);
    }
  }

  // ----- A written file, read line by line -----

  predicate AllSingle(lines: seq<string>) {
    forall i :: 0 <= i < |lines| ==> SingleLine(lines[i])
  }

  lemma SingleCons(l: string, lines: seq<string>)
    requires SingleLine(l) && AllSingle(lines)
    ensures AllSingle([l] + lines)
  {
  }

  lemma {:induction false} SplitLinesSingle(s: string)
    ensures AllSingle(SplitLines(s))
    decreases |s|
  {
    if s != "" {
      if FindBreak(s) < |s| {
        var l, br, rest := FirstBreak(s);
        SplitLinesSingle(rest);
        SingleCons(l, SplitLines(rest));
      } else {
        BeforeBreak(s);
        assert s[..|s|] == s;
        SplitLinesOne(s);
      }
    }
  }

  lemma JoinedLine(l: string, lines: seq<string>)
    requires lines != []
    ensures JoinLF([l] + lines) + "\n" == l + ("\n" + (JoinLF(lines) + "\n"))
  {
    JoinStep([l] + lines, l, lines, JoinLF(lines));
  }

  /** What a written line is split into. */
  function Pieces(l: string): seq<string> {
    if SingleLine(l) then [l] else SplitLines(l)
  }

  predicate Closed(l: string) {
    SingleLine(l) || !IsLineBreak(l[|l| - 1])
  }

  predicate AllClosed(lines: seq<string>) {
    forall i :: 0 <= i < |lines| ==> Closed(lines[i])
  }

  function Flat(lines: seq<string>): seq<string> {
    if lines == [] then [] else Pieces(lines[0]) + Flat(lines[1..])
  }

  lemma PiecesAhead(l: string, b: string)
    requires Closed(l)
    ensures SplitLines(l + ("\n" + b)) == Pieces(l) + SplitLines(b)
  {
    if SingleLine(l) {
      SplitLinesCons(l, b);
    } else {
      SplitLinesAppend(l, b);
    }
  }

  /** Joined lines, the last one ended, split into their pieces. */
  lemma {:induction false} SplitJoined(lines: seq<string>)
    requires AllClosed(lines) && lines != []
    ensures SplitLines(JoinLF(lines) + "\n") == Flat(lines)
  {
    var l, rest := lines[0], lines[1..];
    assert lines == [l] + rest;
    if rest == [] {
      PiecesAhead(l, "");
      assert "\n" + "" == "\n";
    } else {
      assert AllClosed(rest);
      SplitJoined(rest);
      JoinedLine(l, rest);
      PiecesAhead(l, JoinLF(rest) + "\n");
    }
  }

  lemma {:induction false} FlatConcat(a: seq<string>, b: seq<string>)
    ensures Flat(a + b) == Flat(a) + Flat(b)
  {
    if a == [] {
      assert a + b == b;
    } else {
      assert (a + b)[1..] == a[1..] + b;
      FlatConcat(a[1..], b);
    }
  }

  /** Every line of `key` gives way to `parts`. */
  function Expanded(lines: seq<string>, key: string, parts: seq<string>): seq<string> {
    if lines == [] then []
    else (if Defines(lines[0], key) then parts else [lines[0]]) + Expanded(lines[1..], key, parts)
  }

  function UpsertedLines(lines: seq<string>, key: string, parts: seq<string>): seq<string> {
    Expanded(lines, key, parts) + if AnyDefines(lines, key) then [] else parts
  }

  lemma {:induction false} ReplacedFlat(lines: seq<string>, key: string, rendered: string)
    requires AllSingle(lines) && Closed(rendered)
    ensures AllClosed(Replaced(lines, key, rendered))
    ensures Flat(Replaced(lines, key, rendered)) == Expanded(lines, key, Pieces(rendered))
  {
    if lines != [] {
      assert AllSingle(lines[1..]);
      ReplacedFlat(lines[1..], key, rendered);
      var r := Replaced(lines, key, rendered);
      assert r[1..] == Replaced(lines[1..], key, rendered);
      assert SingleLine(lines[0]);
    }
  }

  /** The lines a rendered pair is read as: several, when the value holds a line break that the
      writer lets through. */
  function Parts(key: string, value: string): seq<string> {
    SplitLines(RenderedLine(key, value))
  }

  lemma RenderedClosed(key: string, value: string)
    requires ValidKey(key)
    ensures Closed(RenderedLine(key, value)) && Pieces(RenderedLine(key, value)) == Parts(key, value)
  {
    var rendered, v := RenderedLine(key, value), RenderedValue(value);
    RenderedTrimmed(value);
    assert rendered[|rendered| - 1] == v[|v| - 1];
    if SingleLine(rendered) {
      SplitLinesOne(rendered);
    }
  }

  /** The lines of the file after a write: every line of the key, or the end, holds the parts. */
  lemma WrittenLines(text: string, key: string, value: string)
    requires ValidKey(key)
    ensures SplitLines(Upserted(text, key, value)) == UpsertedLines(SplitLines(text), key, Parts(key, value))
  {
    SplitLinesSingle(text);
    RenderedClosed(key, value);
    UpsertSplit(SplitLines(text), key, RenderedLine(key, value));
  }

  lemma UpsertSplit(lines: seq<string>, key: string, rendered: string)
    requires AllSingle(lines) && Closed(rendered)
    ensures SplitLines(JoinLF(UpsertLines(lines, key, rendered)) + "\n") == UpsertedLines(lines, key, Pieces(rendered))
  {
    ReplacedFlat(lines, key, rendered);
    var tail := if AnyDefines(lines, key) then [] else [rendered];
    FlatConcat(Replaced(lines, key, rendered), tail);
    assert [rendered][1..] == [];
    UpsertSome(lines, key, rendered);
    SplitJoined(UpsertLines(lines, key, rendered));
  }

  lemma UpsertSome(lines: seq<string>, key: string, rendered: string)
    ensures UpsertLines(lines, key, rendered) != []
  {
    if AnyDefines(lines, key) {
      assert Replaced(lines, key, rendered) != [];
    }
  }

  // ----- What a rendered line reads as -----

  lemma {:induction false} FindBreakSkip(a: string, x: string)
    requires SingleLine(a)
    ensures FindBreak(a + x) == |a| + FindBreak(x)
  {
    if a == "" {
      assert a + x == x;
    } else {
      assert (a + x)[1..] == a[1..] + x;
      FindBreakSkip(a[1..], x);
    }
  }

  /** A line that starts with a key and an equals sign. */
  lemma HeadRead(key: string, v: string)
    requires ValidKey(key)
    ensures var line := ReadLine(key + ("=" + v));
            if key[0] == '#' then line == Skipped else line.Pair? && line.key == key
  {
    HeadStrips(key, v);
    assert Trimmed(key);
    StripTrimmed(key);
    if key[0] != '#' {
      PairRead(key + ("=" + v), key, RStrip(v));
    }
  }

  lemma HeadStrips(key: string, v: string)
    requires ValidKey(key)
    ensures Strip(key + ("=" + v)) == key + ("=" + RStrip(v))
  {
    var r := RStrip(v);
    RStripParts(v);
    var core := key + ("=" + r);
    assert key + ("=" + v) == core + v[|r|..];
    assert core[|core| - 1] == if r == "" then '=' else r[|r| - 1];
    RStripOf(core, v[|r|..]);
    assert core[0] == key[0];
    assert LStrip(core) == core;
  }

  /** The first part is the key's own line. */
  lemma FirstPart(key: string, value: string)
    requires ValidKey(key)
    ensures Parts(key, value) != []
    ensures var line := ReadLine(Parts(key, value)[0]);
            if key[0] == '#' then line == Skipped else line.Pair? && line.key == key
  {
    var v := RenderedValue(value);
    FirstText(key, v);
    HeadRead(key, v[..FindBreak(v)]);
  }

  lemma FirstText(key: string, v: string)
    requires ValidKey(key)
    ensures var ls := SplitLines(key + ("=" + v)); ls != [] && ls[0] == key + ("=" + v[..FindBreak(v)])
  {
    FindBreakSkip(key + "=", v);
    FrontLine(key, v, FindBreak(v));
    SplitHead(key + ("=" + v));
  }

  lemma FrontLine(key: string, v: string, k: nat)
    requires k <= |v|
    ensures key + ("=" + v) == (key + "=") + v
    ensures (key + ("=" + v))[..|key + "="| + k] == key + ("=" + v[..k])
  {
  }

  lemma SplitHead(s: string)
    requires s != ""
    ensures SplitLines(s) != [] && SplitLines(s)[0] == s[..FindBreak(s)]
  {
    assert s[..|s|] == s;
  }

  lemma RenderedSingle(key: string, value: string)
    requires ValidKey(key)
    ensures SingleLine(RenderedLine(key, value)) <==> SingleLine(value)
  {
    var rendered, v := RenderedLine(key, value), RenderedValue(value);
    assert SingleLine(key);
    assert forall i :: 0 <= i < |v| ==> v[i] == rendered[|key| + 1 + i];
    assert SingleLine(value) ==> SingleLine(v);
    assert NeedsQuotes(value) ==> forall i :: 0 <= i < |value| ==> value[i] == v[i + 1];
  }

  lemma PartsCount(key: string, value: string)
    requires ValidKey(key)
    ensures if SingleLine(value) then Parts(key, value) == [RenderedLine(key, value)] else |Parts(key, value)| > 1
  {
    var rendered := RenderedLine(key, value);
    RenderedSingle(key, value);
    RenderedClosed(key, value);
    if SingleLine(value) {
      SplitLinesOne(rendered);
    } else {
      BreakInside(rendered);
      var l, br, rest := FirstBreak(rendered);
      SplitLinesSome(rest);
    }
  }

  lemma BreakInside(s: string)
    requires !SingleLine(s)
    ensures FindBreak(s) < |s|
  {
    BeforeBreak(s);
    assert s[..|s|] == s;
  }

  /** A value the reader would take the quotes off. */
  predicate Wrapped(value: string) {
    |value| >= 2 && value[0] == value[|value| - 1] == '\''
  }

  lemma AtEquals(key: string, v: string)
    requires '=' !in key && (key != "" ==> key[0] != '#')
    ensures var line := key + ("=" + v);
            && Find(line, '=') == |key| < |line| && line[0] != '#'
            && line[..|key|] == key && line[|key| + 1..] == v
  {
    FindBefore(key, "=" + v, '=');
  }

  lemma PairRead(raw: string, key: string, v: string)
    requires Strip(raw) == key + ("=" + v) && '=' !in key && (key != "" ==> key[0] != '#')
    ensures ReadLine(raw) == Pair(Strip(key), Strip(v))
  {
    AtEquals(key, v);
  }

  lemma RenderedRead(key: string, value: string)
    requires ValidKey(key) && WritableValue(value)
    ensures key[0] == '#' ==> ReadLine(RenderedLine(key, value)) == Skipped
    ensures key[0] != '#' ==> ReadLine(RenderedLine(key, value)) == Pair(key, RenderedValue(value))
  {
    var v := RenderedValue(value);
    RenderedTrimmed(value);
    assert Trimmed(key) && Trimmed(RenderedLine(key, value));
    StripTrimmed(RenderedLine(key, value));
    StripTrimmed(key);
    StripTrimmed(v);
    if key[0] != '#' {
      PairRead(RenderedLine(key, value), key, v);
    }
  }

  lemma RenderedTrimmed(value: string)
    ensures Trimmed(RenderedValue(value)) && RenderedValue(value) != ""
  {
  }

  lemma RenderedUnquoted(value: string)
    requires WritableValue(value)
    ensures Unquote(RenderedValue(value)) == value <==> NeedsQuotes(value) || !Wrapped(value)
  {
    var v := RenderedValue(value);
    if NeedsQuotes(value) {
      assert v[1..|v| - 1] == value;
    } else {
      assert value[0] != '"';
    }
  }

  // ----- Reading after a write -----

  /** Lines that do not define a key do not matter to its reader. */
  lemma {:induction false} ReadConcat(a: seq<string>, b: seq<string>, key: string)
    ensures !AnyDefines(a, key) ==> Read(a + b, key) == Read(b, key)
    ensures AnyDefines(a, key) ==> Read(a + b, key) == Read(a, key)
  {
    if a == [] {
      assert a + b == b;
    } else {
      assert (a + b)[1..] == a[1..] + b;
      ReadConcat(a[1..], b, key);
      AnyDefinesCons(a, key);
    }
  }

  lemma AnyDefinesCons(lines: seq<string>, key: string)
    requires lines != []
    ensures AnyDefines(lines, key) <==> Defines(lines[0], key) || AnyDefines(lines[1..], key)
  {
    if AnyDefines(lines[1..], key) {
      var i :| 0 <= i < |lines[1..]| && Defines(lines[1..][i], key);
      assert Defines(lines[i + 1], key);
    }
    if AnyDefines(lines, key) && !Defines(lines[0], key) {
      var i :| 0 <= i < |lines| && Defines(lines[i], key);
      assert Defines(lines[1..][i - 1], key);
    }
  }

  lemma {:induction false} ExpandedSame(lines: seq<string>, key: string, parts: seq<string>)
    requires !AnyDefines(lines, key)
    ensures Expanded(lines, key, parts) == lines
  {
    if lines != [] {
      AnyDefinesCons(lines, key);
      ExpandedSame(lines[1..], key, parts);
    }
  }

  lemma {:induction false} ExpandedRead(lines: seq<string>, key: string, parts: seq<string>)
    requires AnyDefines(parts, key) && AnyDefines(lines, key)
    ensures AnyDefines(Expanded(lines, key, parts), key)
    ensures Read(Expanded(lines, key, parts), key) == Read(parts, key)
  {
    var rest := Expanded(lines[1..], key, parts);
    AnyDefinesCons(lines, key);
    if Defines(lines[0], key) {
      ReadConcat(parts, rest, key);
      DefinesConcat(parts, rest, key);
    } else {
      ExpandedRead(lines[1..], key, parts);
      ReadConcat([lines[0]], rest, key);
      DefinesConcat([lines[0]], rest, key);
      AnyDefinesCons([lines[0]], key);
    }
  }

  lemma {:induction false} DefinesConcat(a: seq<string>, b: seq<string>, key: string)
    ensures AnyDefines(a + b, key) <==> AnyDefines(a, key) || AnyDefines(b, key)
  {
    if a == [] {
      assert a + b == b;
    } else {
      assert (a + b)[1..] == a[1..] + b;
      DefinesConcat(a[1..], b, key);
      AnyDefinesCons(a, key);
      AnyDefinesCons(a + b, key);
    }
  }

  lemma UpsertRead(lines: seq<string>, key: string, parts: seq<string>)
    requires AnyDefines(parts, key)
    ensures AnyDefines(UpsertedLines(lines, key, parts), key)
    ensures Read(UpsertedLines(lines, key, parts), key) == Read(parts, key)
  {
    if AnyDefines(lines, key) {
      ExpandedRead(lines, key, parts);
      assert UpsertedLines(lines, key, parts) == Expanded(lines, key, parts);
    } else {
      ExpandedSame(lines, key, parts);
      ReadConcat(lines, parts, key);
      DefinesConcat(lines, parts, key);
    }
  }

  /** No line is read as a key that starts with `#`. */
  lemma {:induction false} HashNeverRead(lines: seq<string>, key: string)
    requires key != "" && key[0] == '#'
    ensures !AnyDefines(lines, key) && Read(lines, key) == None
  {
    if lines != [] {
      AnyDefinesCons(lines, key);
      HashNeverRead(lines[1..], key);
      HashLine(lines[0], key);
    }
  }

  lemma HashLine(raw: string, key: string)
    requires key != "" && key[0] == '#'
    ensures !Defines(raw, key)
  {
    var line := Strip(raw);
    var k := Find(line, '=');
    if line != "" && line[0] != '#' && k < |line| && k > 0 {
      var head := line[..k];
      RStripParts(head);
      RStripKeeps(head, 0);
      var r := RStrip(head);
      assert r[0] == head[0] == line[0];
      assert LStrip(r) == r;
    } else if k == 0 {
      assert line[..0] == "";
      assert Strip("") == "";
    }
  }

  /** What is read comes from one line: it has no line break in it. */
  lemma {:induction false} ReadSingle(lines: seq<string>, key: string)
    requires AllSingle(lines)
    ensures Read(lines, key).Some? ==> SingleLine(Read(lines, key).value)
  {
    if lines != [] {
      assert AllSingle(lines[1..]);
      ReadSingle(lines[1..], key);
      ValueSingle(lines[0]);
    }
  }

  lemma ValueSingle(raw: string)
    requires SingleLine(raw)
    ensures ReadLine(raw).Pair? ==> SingleLine(Unquote(ReadLine(raw).value))
  {
    var line := Strip(raw);
    StripPart(raw);
    var k := Find(line, '=');
    if k < |line| {
      StripPart(line[k + 1..]);
    }
  }

  lemma StripPart(s: string)
    requires SingleLine(s)
    ensures SingleLine(Strip(s))
  {
    RStripParts(s);
    LStripParts(RStrip(s));
  }

  lemma KeyInParts(key: string, value: string)
    requires ValidKey(key) && key[0] != '#'
    ensures AnyDefines(Parts(key, value), key)
  {
    FirstPart(key, value);
    assert Defines(Parts(key, value)[0], key);
  }

  /** When a write reads back. */
  predicate ReadsBack(key: string, value: string) {
    key != "" && key[0] != '#' && value != "" && SingleLine(value) && (NeedsQuotes(value) || !Wrapped(value))
  }

  /** What is read after a write of a single-line value. */
  lemma SingleRead(text: string, key: string, value: string)
    requires ValidKey(key) && WritableValue(value) && SingleLine(value) && key[0] != '#'
    ensures var v := Unquote(RenderedValue(value));
            Read(SplitLines(Upserted(text, key, value)), key) == if v != "" then Some(v) else None
  {
    WrittenLines(text, key, value);
    PartsCount(key, value);
    KeyInParts(key, value);
    UpsertRead(SplitLines(text), key, Parts(key, value));
    RenderedRead(key, value);
    OneRead(RenderedLine(key, value), key, RenderedValue(value));
  }

  lemma OneRead(l: string, key: string, v: string)
    requires ReadLine(l) == Pair(key, v)
    ensures Read([l], key) == if Unquote(v) != "" then Some(Unquote(v)) else None
  {
  }

  /** Reading after a write gives the value back, exactly for a key that is no comment and a
      non-empty single-line value whose own single quotes the reader would not take off. */
  lemma UpsertRoundTrip(text: string, key: string, value: string)
    requires ValidKey(key) && WritableValue(value)
    ensures Read(SplitLines(Upserted(text, key, value)), key) == Some(value) <==> ReadsBack(key, value)
  {
    if key[0] == '#' {
      HashNeverRead(SplitLines(Upserted(text, key, value)), key);
    } else if SingleLine(value) {
      SingleRead(text, key, value);
      RenderedUnquoted(value);
    } else {
      SplitLinesSingle(Upserted(text, key, value));
      ReadSingle(SplitLines(Upserted(text, key, value)), key);
    }
  }
}
