/** What a write to the dotenv store does to the other keys, to the two readers, and when it is
    repeated (src/otaman_core/_secrets.py). */
module SecretFrames {
  import opened Text
  import opened Wrappers
  import opened Secrets

  // ----- The other keys -----

  lemma {:induction false} NothingRead(lines: seq<string>, key: string)
    requires !AnyDefines(lines, key)
    ensures Read(lines, key) == None
  {
    if lines != [] {
      AnyDefinesCons(lines, key);
      NothingRead(lines[1..], key);
    }
  }

  lemma {:induction false} ExpandedOther(lines: seq<string>, key: string, parts: seq<string>, other: string)
    requires !AnyDefines(parts, other) && other != key
    ensures Read(Expanded(lines, key, parts), other) == Read(lines, other)
    ensures AnyDefines(Expanded(lines, key, parts), other) <==> AnyDefines(lines, other)
  {
    if lines != [] {
      var head := if Defines(lines[0], key) then parts else [lines[0]];
      var rest := Expanded(lines[1..], key, parts);
      ExpandedOther(lines[1..], key, parts, other);
      ReadConcat(head, rest, other);
      DefinesConcat(head, rest, other);
      AnyDefinesCons(lines, other);
      AnyDefinesCons([lines[0]], other);
    }
  }

  /** For a key that starts with `#`, whose line reads as a comment, every write adds one more. */
  lemma HashGrows(text: string, key: string, value: string)
    requires ValidKey(key) && key[0] == '#'
    ensures SplitLines(Upserted(text, key, value)) == SplitLines(text) + Parts(key, value)
  {
    WrittenLines(text, key, value);
    HashNeverRead(SplitLines(text), key);
    ExpandedSame(SplitLines(text), key, Parts(key, value));
  }

  /** The parts behind the first: what a line break in the value lets the value define. */
  function Later(key: string, value: string): seq<string> {
    if Parts(key, value) == [] then [] else Parts(key, value)[1..]
  }

  /** No later part is a line of `other`; behind a comment key an empty one does no harm. */
  predicate Harmless(key: string, value: string, other: string) {
    if key != "" && key[0] == '#' then Read(Later(key, value), other) == None else !AnyDefines(Later(key, value), other)
  }

  lemma LaterOnly(key: string, value: string, other: string)
    requires ValidKey(key) && other != key
    ensures Read(Parts(key, value), other) == Read(Later(key, value), other)
    ensures AnyDefines(Parts(key, value), other) <==> AnyDefines(Later(key, value), other)
  {
    FirstPart(key, value);
    AnyDefinesCons(Parts(key, value), other);
  }

  /** Another key reads as before. */
  lemma UpsertFrame(text: string, key: string, value: string, other: string)
    requires ValidKey(key) && other != key && Harmless(key, value, other)
    ensures Read(SplitLines(Upserted(text, key, value)), other) == Read(SplitLines(text), other)
  {
    var lines, parts := SplitLines(text), Parts(key, value);
    LaterOnly(key, value, other);
    if key[0] == '#' {
      HashGrows(text, key, value);
      ReadConcat(lines, parts, other);
    } else {
      WrittenLines(text, key, value);
      ExpandedOther(lines, key, parts, other);
      NothingRead(parts, other);
      ReadConcat(Expanded(lines, key, parts), if AnyDefines(lines, key) then [] else parts, other);
    }
    if !AnyDefines(lines, other) {
      NothingRead(lines, other);
    }
  }

  /** A key some line defines can be written into a line of its own. */
  lemma KeyShape(raw: string, other: string)
    requires SingleLine(raw) && Defines(raw, other)
    ensures Trimmed(other) && SingleLine(other) && '=' !in other && (other != "" ==> other[0] != '#')
  {
    var line := Strip(raw);
    var head := line[..Find(line, '=')];
    StripPart(raw);
    StripPart(head);
    StripChars(head);
    if other != "" && other[0] == '#' {
      HashLine(raw, other);
    }
  }

  lemma StripChars(s: string)
    ensures forall c :: c in Strip(s) ==> c in s
  {
    RStripParts(s);
    LStripParts(RStrip(s));
  }

  lemma PlainRead(other: string)
    requires Trimmed(other) && SingleLine(other) && '=' !in other && (other != "" ==> other[0] != '#')
    ensures ReadLine(other + "=v") == Pair(other, "v") && SingleLine(other + "=v")
  {
    ShortLine(other);
    assert other + "=v" == other + ("=" + "v");
    PairRead(other + "=v", other, "v");
    StripTrimmed(other);
    StripTrimmed("v");
  }

  lemma ShortLine(other: string)
    requires Trimmed(other) && SingleLine(other) && (other != "" ==> other[0] != '#')
    ensures var raw := other + "=v"; Strip(raw) == raw && raw[0] != '#' && SingleLine(raw)
  {
    var raw := other + "=v";
    assert Trimmed(raw);
    StripTrimmed(raw);
  }

  /** A file with a line of `key` and one of `other`. */
  function TwoLines(key: string, other: string): string {
    key + "=v" + ("\n" + (other + "=v"))
  }

  /** A later line of `other`, even an empty one, takes over from the line behind it. */
  lemma LaterTakesOver(key: string, value: string, other: string)
    requires ValidKey(key) && key[0] != '#' && other != key && AnyDefines(Later(key, value), other)
    ensures Read(SplitLines(TwoLines(key, other)), other) == Some("v")
    ensures Read(SplitLines(Upserted(TwoLines(key, other), key, value)), other) == Read(Later(key, value), other)
  {
    LaterShape(key, value, other);
    PlainRead(other);
    assert SingleLine(key) && Trimmed(key);
    PlainRead(key);
    TwoSplit(key + "=v", other + "=v");
    LaterOnly(key, value, other);
    WrittenLines(TwoLines(key, other), key, value);
    TwoExpanded(key + "=v", other + "=v", key, other, Parts(key, value));
  }

  lemma TwoSplit(l: string, m: string)
    requires SingleLine(l) && SingleLine(m) && m != ""
    ensures SplitLines(l + ("\n" + m)) == [l] + [m]
  {
    SplitLinesCons(l, m);
    SplitLinesOne(m);
  }

  lemma LaterShape(key: string, value: string, other: string)
    requires ValidKey(key) && AnyDefines(Later(key, value), other)
    ensures Trimmed(other) && SingleLine(other) && '=' !in other && (other != "" ==> other[0] != '#')
  {
    var i :| 0 <= i < |Later(key, value)| && Defines(Later(key, value)[i], other);
    SplitLinesSingle(RenderedLine(key, value));
    assert Later(key, value)[i] == Parts(key, value)[i + 1];
    KeyShape(Parts(key, value)[i + 1], other);
  }

  lemma TwoExpanded(l: string, m: string, key: string, other: string, parts: seq<string>)
    requires ReadLine(l) == Pair(key, "v") && ReadLine(m) == Pair(other, "v") && other != key
    requires AnyDefines(parts, other)
    ensures Read([l] + [m], other) == Some("v")
    ensures Read(UpsertedLines([l] + [m], key, parts), other) == Read(parts, other)
  {
    OneDefines(l, key);
    OneDefines(l, other);
    OneDefines(m, key);
    DefinesConcat([l], [m], key);
    ExpandedConcat([l], [m], key, parts);
    ReadConcat([l], [m], other);
    OneRead(m, other, "v");
    ReadConcat(parts, [m], other);
    assert parts + [m] + [] == parts + [m];
  }

  lemma OneDefines(l: string, key: string)
    ensures AnyDefines([l], key) <==> Defines(l, key)
    ensures forall parts :: Expanded([l], key, parts) == if Defines(l, key) then parts else [l]
  {
    AnyDefinesCons([l], key);
    assert [l][1..] == [];
    forall parts: seq<string>
      ensures Expanded([l], key, parts) == if Defines(l, key) then parts else [l]
    {
      assert parts + [] == parts && [l] + [] == [l];
    }
  }

  /** A write leaves another key as it was in every file exactly when no later part of the written
      line is a line of that key. */
  lemma HarmlessExactly(key: string, value: string, other: string)
    requires ValidKey(key) && other != key
    ensures (forall text: string :: Read(SplitLines(Upserted(text, key, value)), other) == Read(SplitLines(text), other))
            <==> Harmless(key, value, other)
  {
    if Harmless(key, value, other) {
      forall text: string
        ensures Read(SplitLines(Upserted(text, key, value)), other) == Read(SplitLines(text), other)
      {
        UpsertFrame(text, key, value, other);
      }
    } else {
      LaterOnly(key, value, other);
      WrittenAlone(key, value);
      assert Read(SplitLines(Upserted("", key, value)), other) == Read(Later(key, value), other);
      if Read(Later(key, value), other) == None {
        LaterTakesOver(key, value, other);
      }
    }
  }

  const TAB := "\U{000B}"

  /** A value of two lines: the second is a line of its own. */
  lemma TwoParts(key: string, x: string, l: string)
    requires ValidKey(key) && !NeedsQuotes(x + (TAB + l)) && SingleLine(x) && SingleLine(l) && l != ""
    ensures Parts(key, x + (TAB + l)) == [key + ("=" + x)] + [l]
  {
    var head := key + ("=" + x);
    assert RenderedLine(key, x + (TAB + l)) == head + (TAB + l);
    assert SingleLine(head);
    SplitLinesBreak(head, TAB, l);
    SplitLinesOne(l);
  }

  lemma SecondLine(key: string, x: string, l: string, other: string, v: string)
    requires ValidKey(key) && other != key && !NeedsQuotes(x + (TAB + l))
    requires SingleLine(x) && SingleLine(l) && l != "" && ReadLine(l) == Pair(other, v) && Unquote(v) != ""
    ensures Read(SplitLines(Upserted("", key, x + (TAB + l))), other) == Some(Unquote(v))
  {
    TwoParts(key, x, l);
    assert Later(key, x + (TAB + l)) == [l];
    OneRead(l, other, v);
    LaterOnly(key, x + (TAB + l), other);
    WrittenAlone(key, x + (TAB + l));
  }

  /** A write into an empty file. */
  lemma WrittenAlone(key: string, value: string)
    requires ValidKey(key)
    ensures SplitLines(Upserted("", key, value)) == Parts(key, value)
  {
    WrittenLines("", key, value);
    assert UpsertedLines([], key, Parts(key, value)) == Parts(key, value);
  }

  predicate PlainWord(s: string) {
    s != "" && forall i :: 0 <= i < |s| ==> !IsSpace(s[i]) && s[i] != '#' && s[i] != '"' && s[i] != '\''
  }

  /** So a value with a vertical tab in it can define another key. */
  lemma OtherKeyWritten(key: string, other: string, x: string, v: string)
    requires ValidKey(key) && ValidKey(other) && other != key
    requires PlainWord(other) && PlainWord(x) && PlainWord(v)
    ensures var value := x + (TAB + RenderedLine(other, v));
            WritableValue(value) && Read(SplitLines(Upserted("", key, value)), other) == Some(v)
  {
    WordRendered(x);
    WordRendered(v);
    WordLine(other, v);
    TabbedPlain(x, other, v);
    SecondLine(key, x, RenderedLine(other, v), other, v);
  }

  lemma WordRendered(v: string)
    requires PlainWord(v)
    ensures RenderedValue(v) == v && Unquote(v) == v && SingleLine(v) && WritableValue(v)
  {
    StripTrimmed(v);
  }

  lemma WordLine(other: string, v: string)
    requires ValidKey(other) && PlainWord(other) && PlainWord(v)
    ensures ReadLine(RenderedLine(other, v)) == Pair(other, v)
    ensures SingleLine(RenderedLine(other, v)) && RenderedLine(other, v) != ""
  {
    WordRendered(v);
    RenderedRead(other, v);
    RenderedSingle(other, v);
  }

  lemma TabbedPlain(x: string, other: string, v: string)
    requires PlainWord(x) && PlainWord(other) && PlainWord(v)
    ensures var value := x + (TAB + RenderedLine(other, v)); !NeedsQuotes(value) && WritableValue(value)
  {
    WordRendered(v);
    var value := x + (TAB + RenderedLine(other, v));
    assert value[0] == x[0] && value[|value| - 1] == v[|v| - 1];
    StripTrimmed(value);
  }

  // ----- The two readers after a write -----

  lemma {:induction false} LoadConcat(a: seq<string>, b: seq<string>, out: map<string, string>)
    ensures Load(a + b, out) == Load(b, Load(a, out))
    decreases |a|
  {
    if a == [] {
      assert a + b == b;
    } else {
      assert (a + b)[1..] == a[1..] + b;
      LoadConcat(a[1..], b, Take(a[0], out));
    }
  }

  /** A listed key is a non-empty one that some line defines. */
  lemma {:induction false} KeysDefined(lines: seq<string>, key: string)
    ensures key in Keys(lines) <==> key != "" && AnyDefines(lines, key)
  {
    if lines != [] {
      KeysDefined(lines[1..], key);
      AnyDefinesCons(lines, key);
    }
  }

  /** Loading lines that list `key` gives it the same value whatever was loaded before; lines that do
      not leave it. */
  lemma {:induction false} LoadKey(lines: seq<string>, key: string, a: map<string, string>, b: map<string, string>)
    ensures key in Keys(lines) ==>
              key in Load(lines, a) && key in Load(lines, b) && Load(lines, a)[key] == Load(lines, b)[key]
    ensures key !in Keys(lines) ==>
              (key in Load(lines, a) <==> key in a) && (key in a ==> Load(lines, a)[key] == a[key]) &&
              (key in Load(lines, b) <==> key in b) && (key in b ==> Load(lines, b)[key] == b[key])
    decreases |lines|
  {
    if lines != [] {
      LoadKey(lines[1..], key, Take(lines[0], a), Take(lines[0], b));
    }
  }

  /** The last line of a key decides: the value in `b` when `b` lists it, else the one in `a`. */
  lemma LoadLast(a: seq<string>, b: seq<string>, key: string)
    ensures key in Keys(b) ==>
              key in Load(a + b, map[]) && key in Load(b, map[]) && Load(a + b, map[])[key] == Load(b, map[])[key]
    ensures key !in Keys(b) ==>
              (key in Load(a + b, map[]) <==> key in Load(a, map[])) &&
              (key in Load(a, map[]) ==> Load(a + b, map[])[key] == Load(a, map[])[key])
  {
    LoadConcat(a, b, map[]);
    LoadKey(b, key, Load(a, map[]), map[]);
  }

  predicate Maps(m: map<string, string>, key: string, value: string) {
    key in m && m[key] == value
  }

  lemma {:induction false} ExpandedLoad(lines: seq<string>, key: string, parts: seq<string>, value: string)
    requires key in Keys(parts) && Maps(Load(parts, map[]), key, value) && AnyDefines(lines, key)
    ensures Maps(Load(Expanded(lines, key, parts), map[]), key, value)
  {
    var head := if Defines(lines[0], key) then parts else [lines[0]];
    var rest := Expanded(lines[1..], key, parts);
    AnyDefinesCons(lines, key);
    LoadLast(head, rest, key);
    KeysDefined(rest, key);
    if AnyDefines(lines[1..], key) {
      ExpandedLoad(lines[1..], key, parts, value);
      KeysDefined(parts, key);
      ExpandedRead(lines[1..], key, parts);
    } else {
      ExpandedSame(lines[1..], key, parts);
    }
  }

  lemma UpsertLoad(lines: seq<string>, key: string, parts: seq<string>, value: string)
    requires key in Keys(parts) && Maps(Load(parts, map[]), key, value)
    ensures Maps(Load(UpsertedLines(lines, key, parts), map[]), key, value)
  {
    if AnyDefines(lines, key) {
      ExpandedLoad(lines, key, parts, value);
      assert UpsertedLines(lines, key, parts) == Expanded(lines, key, parts);
    } else {
      LoadLast(Expanded(lines, key, parts), parts, key);
    }
  }

  /** The first line's value, as the reader reports it, is the last line's. */
  predicate Agree(lines: seq<string>, key: string) {
    var m := Load(lines, map[]);
    key in m && Read(lines, key) == if m[key] != "" then Some(m[key]) else None
  }

  /** After a write the first-wins reader and the last-wins loader agree on the key exactly when they
      agree on the written lines alone, whatever file was written to. */
  lemma ReadersAgree(text: string, key: string, value: string)
    requires ValidKey(key) && key[0] != '#'
    ensures Agree(SplitLines(Upserted(text, key, value)), key) <==> Agree(Parts(key, value), key)
    ensures SingleLine(value) ==> Agree(SplitLines(Upserted(text, key, value)), key)
  {
    var lines, parts := SplitLines(text), Parts(key, value);
    WrittenLines(text, key, value);
    KeyInParts(key, value);
    KeysDefined(parts, key);
    LoadKey(parts, key, map[], map[]);
    UpsertRead(lines, key, parts);
    UpsertLoad(lines, key, parts, Load(parts, map[])[key]);
    if SingleLine(value) {
      PartsCount(key, value);
      AgreeOne(parts[0], key);
    }
  }

  lemma AgreeOne(l: string, key: string)
    requires key != "" && Defines(l, key)
    ensures Agree([l], key)
  {
    assert [l][1..] == [];
  }

  /** Two sets of pairs that are the same but for `key`. */
  lemma {:induction false} LoadOthers(lines: seq<string>, key: string, a: map<string, string>, b: map<string, string>)
    requires a - {key} == b - {key}
    ensures Load(lines, a) - {key} == Load(lines, b) - {key}
    decreases |lines|
  {
    if lines != [] {
      TakeOther(lines[0], key, a, b);
      LoadOthers(lines[1..], key, Take(lines[0], a), Take(lines[0], b));
    }
  }

  lemma TakeOther(raw: string, key: string, a: map<string, string>, b: map<string, string>)
    requires a - {key} == b - {key}
    ensures Take(raw, a) - {key} == Take(raw, b) - {key}
  {
    if ReadLine(raw).Pair? {
      var k, v := ReadLine(raw).key, Unquote(ReadLine(raw).value);
      if k == key {
        DropKey(a, key, v);
        DropKey(b, key, v);
      } else {
        AddKey(a, key, k, v);
        AddKey(b, key, k, v);
      }
    }
  }

  lemma DropKey(a: map<string, string>, key: string, v: string)
    ensures a[key := v] - {key} == a - {key}
  {
  }

  lemma AddKey(a: map<string, string>, key: string, k: string, v: string)
    requires k != key
    ensures a[k := v] - {key} == (a - {key})[k := v]
  {
  }

  /** Lines that list no key but `key` change nothing else. */
  lemma {:induction false} LoadOwn(lines: seq<string>, key: string, a: map<string, string>)
    requires Keys(lines) <= {key}
    ensures Load(lines, a) - {key} == a - {key}
    decreases |lines|
  {
    if lines != [] {
      if ReadLine(lines[0]).Pair? && ReadLine(lines[0]).key != "" {
        assert ReadLine(lines[0]).key in Keys(lines);
        DropKey(a, key, Unquote(ReadLine(lines[0]).value));
      }
      LoadOwn(lines[1..], key, Take(lines[0], a));
    }
  }

  lemma {:induction false} ExpandedOthers(lines: seq<string>, key: string, parts: seq<string>, a: map<string, string>)
    requires Keys(parts) <= {key}
    ensures Load(Expanded(lines, key, parts), a) - {key} == Load(lines, a) - {key}
    decreases |lines|
  {
    if lines != [] {
      var head := if Defines(lines[0], key) then parts else [lines[0]];
      LoadConcat(head, Expanded(lines[1..], key, parts), a);
      ExpandedOthers(lines[1..], key, parts, Load(head, a));
      HeadOthers(lines[0], key, parts, a);
      LoadOthers(lines[1..], key, Load(head, a), Take(lines[0], a));
    }
  }

  lemma HeadOthers(l: string, key: string, parts: seq<string>, a: map<string, string>)
    requires Keys(parts) <= {key}
    ensures Load(if Defines(l, key) then parts else [l], a) - {key} == Take(l, a) - {key}
  {
    if Defines(l, key) {
      LoadOwn(parts, key, a);
      DropKey(a, key, Unquote(ReadLine(l).value));
    } else {
      assert [l][1..] == [];
    }
  }

  /** The loader's other keys are as before in every file exactly when the written lines list no key
      but the one written. */
  lemma LoaderFrame(key: string, value: string)
    requires ValidKey(key)
    ensures (forall text: string ::
               Load(SplitLines(Upserted(text, key, value)), map[]) - {key} == Load(SplitLines(text), map[]) - {key})
            <==> Keys(Parts(key, value)) <= {key}
  {
    var parts := Parts(key, value);
    if Keys(parts) <= {key} {
      forall text: string
        ensures Load(SplitLines(Upserted(text, key, value)), map[]) - {key} == Load(SplitLines(text), map[]) - {key}
      {
        LoaderKeeps(text, key, value);
      }
    } else {
      var other :| other in Keys(parts) && other != key;
      WrittenAlone(key, value);
      LoadKey(parts, other, map[], map[]);
      assert other in Load(parts, map[]) - {key};
      assert other !in Load(SplitLines(""), map[]) - {key};
    }
  }

  lemma LoaderKeeps(text: string, key: string, value: string)
    requires ValidKey(key) && Keys(Parts(key, value)) <= {key}
    ensures Load(SplitLines(Upserted(text, key, value)), map[]) - {key} == Load(SplitLines(text), map[]) - {key}
  {
    var lines, parts := SplitLines(text), Parts(key, value);
    WrittenLines(text, key, value);
    ExpandedOthers(lines, key, parts, map[]);
    var tail := if AnyDefines(lines, key) then [] else parts;
    LoadConcat(Expanded(lines, key, parts), tail, map[]);
    LoadOwn(tail, key, Load(Expanded(lines, key, parts), map[]));
  }

  // ----- Writing twice -----

  /** Lines grow when a line of the key gives way to several. */
  lemma {:induction false} ExpandedLonger(lines: seq<string>, key: string, parts: seq<string>)
    requires |parts| > 1
    ensures |Expanded(lines, key, parts)| >= |lines|
    ensures AnyDefines(lines, key) ==> |Expanded(lines, key, parts)| > |lines|
  {
    if lines != [] {
      ExpandedLonger(lines[1..], key, parts);
      AnyDefinesCons(lines, key);
    }
  }

  /** Writing the same pair twice is writing it once, exactly for a key that is no comment and a
      value of one line; otherwise every write makes the file longer. */
  lemma UpsertTwice(text: string, key: string, value: string)
    requires ValidKey(key)
    ensures Upserted(Upserted(text, key, value), key, value) == Upserted(text, key, value)
            <==> key[0] != '#' && SingleLine(value)
  {
    var once := Upserted(text, key, value);
    var parts := Parts(key, value);
    PartsCount(key, value);
    WrittenLines(text, key, value);
    WrittenLines(once, key, value);
    if key[0] == '#' {
      FirstPart(key, value);
      HashGrows(once, key, value);
    } else {
      KeyInParts(key, value);
      UpsertRead(SplitLines(text), key, parts);
      if SingleLine(value) {
        OneDefines(RenderedLine(key, value), key);
        LinesTwice(SplitLines(text), key, parts);
        SameLines(text, once, key, value);
      } else {
        ExpandedLonger(SplitLines(once), key, parts);
      }
    }
  }

  lemma {:induction false} ExpandedTwice(lines: seq<string>, key: string, parts: seq<string>)
    requires Expanded(parts, key, parts) == parts
    ensures Expanded(Expanded(lines, key, parts), key, parts) == Expanded(lines, key, parts)
  {
    if lines != [] {
      var head := if Defines(lines[0], key) then parts else [lines[0]];
      ExpandedTwice(lines[1..], key, parts);
      ExpandedConcat(head, Expanded(lines[1..], key, parts), key, parts);
      OneDefines(lines[0], key);
    }
  }

  lemma LinesTwice(lines: seq<string>, key: string, parts: seq<string>)
    requires Expanded(parts, key, parts) == parts && AnyDefines(parts, key)
    ensures var out := UpsertedLines(lines, key, parts); UpsertedLines(out, key, parts) == out
  {
    UpsertRead(lines, key, parts);
    ExpandedTwice(lines, key, parts);
    var tail := if AnyDefines(lines, key) then [] else parts;
    ExpandedConcat(Expanded(lines, key, parts), tail, key, parts);
  }

  lemma {:induction false} ExpandedConcat(a: seq<string>, b: seq<string>, key: string, parts: seq<string>)
    ensures Expanded(a + b, key, parts) == Expanded(a, key, parts) + Expanded(b, key, parts)
  {
    if a == [] {
      assert a + b == b;
    } else {
      assert (a + b)[1..] == a[1..] + b;
      ExpandedConcat(a[1..], b, key, parts);
    }
  }

  lemma {:induction false} ReplacedExpanded(lines: seq<string>, key: string, rendered: string)
    ensures Replaced(lines, key, rendered) == Expanded(lines, key, [rendered])
  {
    if lines != [] {
      ReplacedExpanded(lines[1..], key, rendered);
    }
  }

  /** With a line of one part, the text is determined by the lines it is split into. */
  lemma SameLines(text: string, once: string, key: string, value: string)
    requires ValidKey(key) && SingleLine(value) && once == Upserted(text, key, value)
    requires UpsertedLines(SplitLines(once), key, [RenderedLine(key, value)]) == SplitLines(once)
    ensures Upserted(once, key, value) == once
  {
    var rendered := RenderedLine(key, value);
    WrittenLines(text, key, value);
    PartsCount(key, value);
    ReplacedExpanded(SplitLines(text), key, rendered);
    ReplacedExpanded(SplitLines(once), key, rendered);
  }
}
