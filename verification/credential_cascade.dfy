/** One credential over the layered dotenv stores: the value, resolved nearest layer first,
    and the values-free inventory, built farthest layer first
    (src/otaman_core/_secrets.py). */
module CredentialCascade {
  import opened Text
  import opened Secrets
  import opened SecretFrames
  import opened Wrappers

  /** An applicable layer and the text of its file; an absent file is empty. */
  datatype Layer = Layer(name: string, text: string)

  function ValueIn(layer: Layer, key: string): Option<string> {
    Read(SplitLines(layer.text), key)
  }

  predicate Lists(layer: Layer, key: string) {
    key in Keys(SplitLines(layer.text))
  }

  /** The nearest layer that lists `key`; the number of layers when there is none. */
  function Winner(layers: seq<Layer>, key: string): (w: nat)
    ensures w <= |layers|
  {
    if layers == [] || Lists(layers[0], key) then 0 else Winner(layers[1..], key) + 1
  }

  lemma {:induction false} WinnerLists(layers: seq<Layer>, key: string)
    requires Winner(layers, key) < |layers|
    ensures Lists(layers[Winner(layers, key)], key)
  {
    if !Lists(layers[0], key) {
      WinnerLists(layers[1..], key);
    }
  }

  lemma {:induction false} BeforeWinner(layers: seq<Layer>, key: string, i: nat)
    requires i < Winner(layers, key)
    ensures !Lists(layers[i], key)
  {
    if i > 0 {
      BeforeWinner(layers[1..], key, i - 1);
      assert layers[1..][i - 1] == layers[i];
    }
  }

  /** The first non-empty value, nearest layer first. */
  function FirstValue(layers: seq<Layer>, key: string): Option<string> {
    if layers == [] then None
    else if ValueIn(layers[0], key).Some? then ValueIn(layers[0], key)
    else FirstValue(layers[1..], key)
  }

  /** `p` is the inventory of `layers`. */
  ghost predicate Inventory(p: map<string, string>, layers: seq<Layer>) {
    && (forall key :: key in p <==> Winner(layers, key) < |layers|)
    && (forall key :: key in p ==> p[key] == layers[Winner(layers, key)].name)
  }

  method ResolveCascade(key: string, layers: seq<Layer>) returns (r: Option<string>)
    ensures r == FirstValue(layers, key)
  {
    for i := 0 to |layers|
      invariant FirstValue(layers[i..], key) == FirstValue(layers, key)
    {
      assert layers[i..][1..] == layers[i + 1..];
      var value := ReadDotenvValue(layers[i].text, key);
      if value.Some? {
        return value;
      }
    }
    return None;
  }

  /** Farthest layer first; nearer ones overwrite. */
  method CredentialProvenance(layers: seq<Layer>) returns (p: map<string, string>)
    ensures Inventory(p, layers)
  {
    p := map[];
    var i := |layers|;
    while i > 0
      invariant 0 <= i <= |layers|
      invariant Inventory(p, layers[i..])
    {
      i := i - 1;
      assert layers[i..] == [layers[i]] + layers[i + 1..];
      assert layers[i..][1..] == layers[i + 1..];
      var keys := DotenvKeys(layers[i].text);
      ghost var farther := p;
      p := Overwrite(p, keys, layers[i].name);
      NearerLayer(farther, p, layers[i], layers[i + 1..]);
    }
    assert layers[0..] == layers;
  }

  method Overwrite(p: map<string, string>, keys: set<string>, name: string) returns (q: map<string, string>)
    ensures q.Keys == p.Keys + keys
    ensures forall key :: key in q ==> q[key] == if key in keys then name else p[key]
  {
    q := p;
    var rest := keys;
    while rest != {}
      invariant rest <= keys && q.Keys == p.Keys + (keys - rest)
      invariant forall key :: key in q ==> q[key] == if key in keys - rest then name else p[key]
    {
      var key :| key in rest;
      q := q[key := name];
      rest := rest - {key};
    }
  }

  function AllKeys(layers: seq<Layer>): set<string> {
    if layers == [] then {} else Keys(SplitLines(layers[0].text)) + AllKeys(layers[1..])
  }

  /** The names of all secrets: the union over the layers. */
  method ListKeys(layers: seq<Layer>) returns (keys: set<string>)
    ensures keys == AllKeys(layers)
  {
    keys := {};
    for i := 0 to |layers|
      invariant keys + AllKeys(layers[i..]) == AllKeys(layers)
    {
      assert layers[i..][1..] == layers[i + 1..];
      var more := DotenvKeys(layers[i].text);
      keys := keys + more;
    }
  }

  lemma NearerLayer(p: map<string, string>, q: map<string, string>, layer: Layer, rest: seq<Layer>)
    requires Inventory(p, rest)
    requires q.Keys == p.Keys + Keys(SplitLines(layer.text))
    requires forall key :: key in q ==> q[key] == if Lists(layer, key) then layer.name else p[key]
    ensures Inventory(q, [layer] + rest)
  {
    forall key
      ensures key in q <==> Winner([layer] + rest, key) < |[layer] + rest|
      ensures key in q ==> q[key] == ([layer] + rest)[Winner([layer] + rest, key)].name
    {
      assert key in q <==> key in p || Lists(layer, key);
      WinnerCons(layer, rest, key);
    }
  }

  lemma WinnerCons(layer: Layer, rest: seq<Layer>, key: string)
    ensures Winner([layer] + rest, key) == if Lists(layer, key) then 0 else Winner(rest, key) + 1
  {
    assert ([layer] + rest)[1..] == rest;
  }

  // ----- Names and values -----

  lemma UnlistedUnread(layer: Layer, key: string)
    requires key != "" && !Lists(layer, key)
    ensures ValueIn(layer, key) == None
  {
    KeysDefined(SplitLines(layer.text), key);
    NothingRead(SplitLines(layer.text), key);
  }

  /** What the inventory promises about a key: the value in the layer it names, if it names one. */
  function Promised(layers: seq<Layer>, key: string): Option<string> {
    var w := Winner(layers, key);
    if w < |layers| then ValueIn(layers[w], key) else None
  }

  /** Some layer farther than the one the inventory names holds a value. */
  predicate HeldFarther(layers: seq<Layer>, key: string) {
    exists j :: Winner(layers, key) < j < |layers| && ValueIn(layers[j], key).Some?
  }

  /** The two views of the cascade agree on a key exactly when the layer the inventory names
      holds a value, or no farther layer does: an empty value shadows in one view only. */
  lemma {:induction false} CascadeAgrees(layers: seq<Layer>, key: string)
    requires key != ""
    ensures FirstValue(layers, key) == Promised(layers, key) <==>
            Promised(layers, key).Some? || !HeldFarther(layers, key)
  {
    if layers != [] && !Lists(layers[0], key) {
      var rest := layers[1..];
      UnlistedUnread(layers[0], key);
      CascadeAgrees(rest, key);
      FartherShift(layers, key);
    } else if layers != [] && ValueIn(layers[0], key) == None {
      NoValueAhead(layers[1..], key);
      var rest := layers[1..];
      if exists j :: 0 <= j < |rest| && ValueIn(rest[j], key).Some? {
        var j :| 0 <= j < |rest| && ValueIn(rest[j], key).Some?;
        assert ValueIn(layers[j + 1], key).Some?;
      }
    }
  }

  lemma FartherShift(layers: seq<Layer>, key: string)
    requires layers != [] && !Lists(layers[0], key)
    ensures HeldFarther(layers, key) <==> HeldFarther(layers[1..], key)
  {
    var rest := layers[1..];
    if HeldFarther(layers, key) {
      var j :| Winner(layers, key) < j < |layers| && ValueIn(layers[j], key).Some?;
      assert ValueIn(rest[j - 1], key).Some?;
    }
    if HeldFarther(rest, key) {
      var j :| Winner(rest, key) < j < |rest| && ValueIn(rest[j], key).Some?;
      assert ValueIn(layers[j + 1], key).Some?;
    }
  }

  lemma {:induction false} NoValueAhead(layers: seq<Layer>, key: string)
    ensures FirstValue(layers, key) == None <==> forall j :: 0 <= j < |layers| ==> ValueIn(layers[j], key) == None
  {
    if layers != [] {
      NoValueAhead(layers[1..], key);
      if ValueIn(layers[0], key) == None {
        var rest := layers[1..];
        assert forall j :: 0 < j < |layers| ==> layers[j] == rest[j - 1];
        assert forall j :: 0 <= j < |rest| ==> rest[j] == layers[j + 1];
      }
    }
  }

  /** No layer lists `key` with an empty value. */
  predicate NeverEmpty(layers: seq<Layer>, key: string) {
    forall i :: 0 <= i < |layers| && Lists(layers[i], key) ==> ValueIn(layers[i], key).Some?
  }

  /** Without empty values the inventory tells the truth: a key resolves to the value in the layer
      named for it, and to nothing exactly when none is. */
  lemma CascadeTruthful(layers: seq<Layer>, key: string, p: map<string, string>)
    requires key != "" && NeverEmpty(layers, key) && Inventory(p, layers)
    ensures FirstValue(layers, key) == None <==> key !in p
    ensures key in p ==>
              var w := Winner(layers, key);
              p[key] == layers[w].name && FirstValue(layers, key) == ValueIn(layers[w], key)
  {
    CascadeAgrees(layers, key);
    if key in p {
      WinnerLists(layers, key);
    }
    if key !in p {
      forall j | 0 <= j < |layers|
        ensures ValueIn(layers[j], key) == None
      {
        BeforeWinner(layers, key, j);
        UnlistedUnread(layers[j], key);
      }
      NoValueAhead(layers, key);
    }
  }

  lemma {:induction false} NoEmptyWinner(layers: seq<Layer>)
    ensures Winner(layers, "") == |layers|
  {
    if layers != [] {
      KeysDefined(SplitLines(layers[0].text), "");
      NoEmptyWinner(layers[1..]);
    }
  }

  /** The empty name is never listed, yet resolves as soon as some layer holds a value for it. */
  lemma EmptyNameUnlisted(layers: seq<Layer>)
    ensures Winner(layers, "") == |layers|
    ensures FirstValue(layers, "") == None <==>
            forall j :: 0 <= j < |layers| ==> ValueIn(layers[j], "") == None
  {
    NoEmptyWinner(layers);
    NoValueAhead(layers, "");
  }

  /** A line that starts with an equals sign holds such a value. */
  lemma EmptyNameResolves(name: string)
    ensures var layer := Layer(name, "=v");
            !Lists(layer, "") && FirstValue([layer], "") == Some("v") && Promised([layer], "") == None
  {
    SplitLinesOne("=v");
    PlainRead("");
    assert "" + "=v" == "=v";
    OneRead("=v", "", "v");
    KeysDefined(["=v"], "");
    NoEmptyWinner([Layer(name, "=v")]);
  }

  /** An empty value in the nearest layer hides a farther one from the inventory only. */
  lemma ValueHidden(name: string, far: string, key: string)
    requires ValidKey(key) && key[0] != '#'
    ensures var layers := [Layer(name, key + "="), Layer(far, key + "=v")];
            FirstValue(layers, key) == Some("v") && Winner(layers, key) == 0 && Promised(layers, key) == None
  {
    var layers := [Layer(name, key + "="), Layer(far, key + "=v")];
    var line := key + "=";
    assert SingleLine(key) && Trimmed(key) && '=' !in key;
    SplitLinesOne(line);
    assert key + ("=" + "") == line;
    HeadStrips(key, "");
    PairRead(line, key, "");
    StripTrimmed(key);
    OneRead(line, key, "");
    KeysDefined([line], key);
    assert Defines([line][0], key);
    PlainRead(key);
    SplitLinesOne(key + "=v");
    OneRead(key + "=v", key, "v");
    assert layers[1..] == [Layer(far, key + "=v")];
  }

  /** `list_keys` is the domain of the inventory. */
  lemma KeysAreDomain(layers: seq<Layer>, p: map<string, string>)
    requires Inventory(p, layers)
    ensures AllKeys(layers) == p.Keys
  {
    forall key
      ensures key in AllKeys(layers) <==> key in p
    {
      ListedSomewhere(layers, key);
    }
  }

  lemma {:induction false} ListedSomewhere(layers: seq<Layer>, key: string)
    ensures key in AllKeys(layers) <==> Winner(layers, key) < |layers|
  {
    if layers != [] {
      ListedSomewhere(layers[1..], key);
    }
  }

  // ----- Writing into a layer -----

  /** The stores after a write into layer `i`. */
  function Written(layers: seq<Layer>, i: nat, key: string, value: string): (r: seq<Layer>)
    requires i < |layers|
    ensures |r| == |layers|
  {
    layers[i := layers[i].(text := Upserted(layers[i].text, key, value))]
  }

  lemma {:induction false} ResolvedShape(layers: seq<Layer>, key: string)
    ensures FirstValue(layers, key).Some? ==>
              FirstValue(layers, key).value != "" && SingleLine(FirstValue(layers, key).value)
  {
    if layers != [] {
      var lines := SplitLines(layers[0].text);
      SplitLinesSingle(layers[0].text);
      ReadSingle(lines, key);
      ReadFilled(lines, key);
      ResolvedShape(layers[1..], key);
    }
  }

  lemma {:induction false} ReadFilled(lines: seq<string>, key: string)
    ensures Read(lines, key) != Some("")
  {
    if lines != [] {
      ReadFilled(lines[1..], key);
    }
  }

  lemma {:induction false} HashUnresolved(layers: seq<Layer>, key: string)
    requires key != "" && key[0] == '#'
    ensures FirstValue(layers, key) == None
  {
    if layers != [] {
      HashNeverRead(SplitLines(layers[0].text), key);
      HashUnresolved(layers[1..], key);
    }
  }

  /** What two single quotes come to: nothing, so that a farther layer is asked. */
  lemma QuotedAway(value: string)
    requires WritableValue(value) && !NeedsQuotes(value) && Wrapped(value)
    ensures Unquote(RenderedValue(value)) != value
    ensures Unquote(RenderedValue(value)) == "" <==> value == "''"
  {
    assert |Unquote(value)| == |value| - 2;
    assert |value| == 2 ==> value == [value[0], value[1]] == "''";
  }

  /** A value written into the nearest layer is the one that resolves, exactly when it reads back from
      there, or is a pair of single quotes and a farther layer holds just that. */
  lemma NearestWriteWins(layers: seq<Layer>, key: string, value: string)
    requires layers != [] && ValidKey(key) && WritableValue(value)
    ensures FirstValue(Written(layers, 0, key, value), key) == Some(value) <==>
            ReadsBack(key, value) || (value == "''" && FirstValue(layers[1..], key) == Some(value))
  {
    var after := Written(layers, 0, key, value);
    assert after[1..] == layers[1..];
    UpsertRoundTrip(layers[0].text, key, value);
    ResolvedShape(layers[1..], key);
    if key[0] == '#' {
      HashUnresolved(after, key);
      HashUnresolved(layers[1..], key);
    } else if SingleLine(value) {
      SingleRead(layers[0].text, key, value);
      RenderedUnquoted(value);
      if !NeedsQuotes(value) && Wrapped(value) {
        QuotedAway(value);
      }
    } else {
      SplitLinesSingle(after[0].text);
      ReadSingle(SplitLines(after[0].text), key);
    }
  }

  /** And then that layer is named for it. */
  lemma NearestWriteNamed(layers: seq<Layer>, key: string, value: string)
    requires layers != [] && ValidKey(key) && WritableValue(value) && key[0] != '#'
    ensures Winner(Written(layers, 0, key, value), key) == 0
  {
    var text := layers[0].text;
    WrittenLines(text, key, value);
    KeyInParts(key, value);
    UpsertRead(SplitLines(text), key, Parts(key, value));
    KeysDefined(SplitLines(Upserted(text, key, value)), key);
  }

  /** A write into any layer leaves every other key resolving as before, unless a later part of the
      written line is a line of it. */
  lemma {:induction false} WriteLeavesOthers(layers: seq<Layer>, i: nat, key: string, value: string, other: string)
    requires i < |layers| && ValidKey(key) && other != key && Harmless(key, value, other)
    ensures FirstValue(Written(layers, i, key, value), other) == FirstValue(layers, other)
  {
    var after := Written(layers, i, key, value);
    UpsertFrame(layers[i].text, key, value, other);
    if i > 0 {
      assert after[1..] == Written(layers[1..], i - 1, key, value);
      WriteLeavesOthers(layers[1..], i - 1, key, value, other);
    } else {
      assert after[1..] == layers[1..];
    }
  }

  /** And for no other write. */
  lemma WriteHarmless(key: string, value: string, other: string)
    requires ValidKey(key) && other != key
    ensures (forall layers: seq<Layer>, i: nat | i < |layers| ::
               FirstValue(Written(layers, i, key, value), other) == FirstValue(layers, other))
            <==> Harmless(key, value, other)
  {
    if Harmless(key, value, other) {
      forall layers: seq<Layer>, i: nat | i < |layers|
        ensures FirstValue(Written(layers, i, key, value), other) == FirstValue(layers, other)
      {
        WriteLeavesOthers(layers, i, key, value, other);
      }
    } else {
      HarmlessExactly(key, value, other);
      var text: string :| Read(SplitLines(Upserted(text, key, value)), other) != Read(SplitLines(text), other);
      var layers := [Layer("", text)];
      assert Written(layers, 0, key, value)[1..] == [] && layers[1..] == [];
      assert FirstValue(Written(layers, 0, key, value), other) != FirstValue(layers, other);
    }
  }
}
