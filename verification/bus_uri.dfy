/** Bus endpoint addresses and the lock keys made from them
    (src/otaman_core/bus/uri.py, src/otaman_core/acting_lock.py). */
module BusUris {
  import opened Text
  import OwnerPaths
  import opened Wrappers

  datatype BusUri = BusUri(org: string, program: string, agent: string)

  datatype Error = EmptyAddress | BadShape | BadOrg | BadProgram | BadAgent | NotFull

  const SCHEME := "otaman://"

  // ----- Segments -----

  predicate IsLetter(c: char) {
    'a' <= c <= 'z'
  }

  predicate IsSegmentChar(c: char) {
    IsLetter(c) || '0' <= c <= '9' || c == '-'
  }

  /** `[a-z][a-z0-9-]{1,63}`. */
  predicate Grammar(s: string) {
    2 <= |s| <= 64 && IsLetter(s[0]) && forall i :: 0 <= i < |s| ==> IsSegmentChar(s[i])
  }

  /** What the pattern accepts: its `$` also stands before a final line feed. */
  predicate ValidSegment(s: string) {
    Grammar(s) || (s != "" && s[|s| - 1] == '\n' && Grammar(s[..|s| - 1]))
  }

  lemma SegmentChars(s: string)
    requires ValidSegment(s)
    ensures |s| >= 2 && IsLetter(s[0])
    ensures forall i :: 0 <= i < |s| ==> IsSegmentChar(s[i]) || s[i] == '\n'
  {
  }

  // ----- Parsing and printing -----

  function Validated(org: string, program: string, agent: string): Result<BusUri, Error> {
    if !ValidSegment(org) then Err(BadOrg)
    else if !ValidSegment(program) then Err(BadProgram)
    else if !ValidSegment(agent) then Err(BadAgent)
    else Ok(BusUri(org, program, agent))
  }

  function Parse(address: string, localOrg: string, localProgram: string): Result<BusUri, Error> {
    ParseRaw(Strip(address), localOrg, localProgram)
  }

  function ParseRaw(raw: string, localOrg: string, localProgram: string): Result<BusUri, Error> {
    var k := Find(raw, '@');
    if raw == "" then Err(EmptyAddress)
    else if SCHEME <= raw then ParseFull(raw[|SCHEME|..])
    else if k < |raw| then
      if '@' in raw[k + 1..] then Err(BadShape) else Validated(localOrg, raw[k + 1..], raw[..k])
    else Validated(localOrg, localProgram, raw)
  }

  function ParseFull(path: string): Result<BusUri, Error> {
    var parts := OwnerPaths.Split(path);
    if |parts| != 3 then Err(BadShape) else Validated(parts[0], parts[1], parts[2])
  }

  function Path(u: BusUri): string {
    u.org + ("/" + (u.program + ("/" + u.agent)))
  }

  function Str(u: BusUri): string {
    SCHEME + Path(u)
  }

  function Canonicalize(address: string, localOrg: string, localProgram: string): Result<string, Error> {
    match Parse(address, localOrg, localProgram)
    case Ok(u) => Ok(Str(u))
    case Err(e) => Err(e)
  }

  predicate ValidUri(u: BusUri) {
    ValidSegment(u.org) && ValidSegment(u.program) && ValidSegment(u.agent)
  }

  lemma PathSplit(u: BusUri)
    requires ValidUri(u)
    ensures OwnerPaths.Split(Path(u)) == [u.org, u.program, u.agent]
  {
    SegmentChars(u.org);
    SegmentChars(u.program);
    SegmentChars(u.agent);
    var rest := u.program + ("/" + u.agent);
    SplitOff(u.org, rest);
    SplitOff(u.program, u.agent);
    OwnerPaths.SplitNoSlash(u.agent);
  }

  lemma SplitOff(a: string, b: string)
    requires '/' !in a
    ensures OwnerPaths.Split(a + ("/" + b)) == [a] + OwnerPaths.Split(b)
  {
    var w := "/" + b;
    Halves(a, w);
    Halves("/", b);
    Cut(a + w, |a|, |a| + 1);
    OwnerPaths.SplitAt(a + w, |a|);
  }

  lemma StrTrimmed(u: BusUri)
    requires ValidUri(u)
    ensures Trimmed(Str(u)) <==> Grammar(u.agent)
    ensures SCHEME <= Str(u) && Str(u)[|SCHEME|..] == Path(u)
  {
    SegmentChars(u.agent);
    Halves(SCHEME, Path(u));
    assert Str(u)[0] == SCHEME[0] == 'o';
    assert Str(u)[|Str(u)| - 1] == u.agent[|u.agent| - 1];
  }

  lemma StrRead(u: BusUri, localOrg: string, localProgram: string)
    requires ValidUri(u)
    ensures ParseRaw(Str(u), localOrg, localProgram) == Ok(u)
  {
    StrTrimmed(u);
    PathSplit(u);
  }

  /** The canonical form of an endpoint parses back to it, exactly when its agent does not keep
      the line feed the segment pattern lets through. */
  lemma ParseStr(u: BusUri, localOrg: string, localProgram: string)
    requires ValidUri(u)
    ensures Parse(Str(u), localOrg, localProgram) == Ok(u) <==> Grammar(u.agent)
  {
    if Grammar(u.agent) {
      StrTrimmed(u);
      StripTrimmed(Str(u));
      StrRead(u, localOrg, localProgram);
    } else {
      LineFeedLost(u, localOrg, localProgram);
    }
  }

  /** Stripping takes the line feed off. */
  lemma LineFeedLost(u: BusUri, localOrg: string, localProgram: string)
    requires ValidUri(u) && !Grammar(u.agent)
    ensures Parse(Str(u), localOrg, localProgram) == Ok(u.(agent := u.agent[..|u.agent| - 1]))
  {
    var agent := u.agent[..|u.agent| - 1];
    var v := BusUri(u.org, u.program, agent);
    assert ValidSegment(agent);
    StrTrimmed(v);
    StrRead(v, localOrg, localProgram);
    assert u.agent == agent + "\n";
    AppendedLast(u.org, u.program, agent, "\n");
    StripOf("", Str(v), "\n");
    assert "" + Str(v) + "\n" == Str(v) + "\n";
  }

  lemma AppendedLast(org: string, program: string, agent: string, x: string)
    ensures Str(BusUri(org, program, agent + x)) == Str(BusUri(org, program, agent)) + x
  {
    assert program + ("/" + (agent + x)) == (program + ("/" + agent)) + x;
    assert org + ("/" + ((program + ("/" + agent)) + x)) == Path(BusUri(org, program, agent)) + x;
  }

  /** Whatever parses is valid. */
  lemma ParsedValid(address: string, localOrg: string, localProgram: string)
    ensures var r := Parse(address, localOrg, localProgram); r.Ok? ==> ValidUri(r.value)
  {
  }

  /** The three forms of one address name the same endpoint. */
  lemma FormsAgree(u: BusUri, otherOrg: string, otherProgram: string)
    requires Grammar(u.org) && Grammar(u.program) && Grammar(u.agent)
    ensures Parse(u.agent, u.org, u.program) == Ok(u)
    ensures Parse(u.agent + ("@" + u.program), u.org, otherProgram) == Ok(u)
    ensures Parse(Str(u), otherOrg, otherProgram) == Ok(u)
    ensures Canonicalize(u.agent, u.org, u.program) == Ok(Str(u))
    ensures Canonicalize(u.agent + ("@" + u.program), u.org, otherProgram) == Ok(Str(u))
  {
    ParseStr(u, otherOrg, otherProgram);
    BareForm(u);
    ShorthandForm(u, otherProgram);
  }

  /** A canonical form is its own canonical form, wherever it is read, exactly when its agent does
      not end in a line feed. */
  lemma CanonicalStable(address: string, org: string, program: string, otherOrg: string, otherProgram: string)
    requires Parse(address, org, program).Ok?
    ensures var u := Parse(address, org, program).value;
            var s := Canonicalize(address, org, program).value;
            Canonicalize(s, otherOrg, otherProgram) == Ok(s) <==> Grammar(u.agent)
  {
    var u := Parse(address, org, program).value;
    ParsedValid(address, org, program);
    ParseStr(u, otherOrg, otherProgram);
    if !Grammar(u.agent) {
      LineFeedLost(u, otherOrg, otherProgram);
    }
  }

  lemma NoScheme(s: string)
    requires forall i :: 0 <= i < |s| ==> IsSegmentChar(s[i]) || s[i] == '@'
    ensures !(SCHEME <= s)
  {
    SchemeColon(s);
  }

  lemma SchemeColon(s: string)
    ensures SCHEME <= s ==> |s| > 6 && s[6] == ':'
  {
    assert SCHEME[6] == ':';
  }

  lemma BareForm(u: BusUri)
    requires Grammar(u.org) && Grammar(u.program) && Grammar(u.agent)
    ensures Parse(u.agent, u.org, u.program) == Ok(u)
  {
    StripTrimmed(u.agent);
    NoScheme(u.agent);
    assert '@' !in u.agent;
  }

  lemma ShorthandForm(u: BusUri, otherProgram: string)
    requires Grammar(u.org) && Grammar(u.program) && Grammar(u.agent)
    ensures Parse(u.agent + ("@" + u.program), u.org, otherProgram) == Ok(u)
  {
    ShorthandChars(u.agent, u.program);
    StripTrimmed(u.agent + ("@" + u.program));
    NoScheme(u.agent + ("@" + u.program));
    ShorthandCut(u.agent, u.program);
  }

  lemma ShorthandChars(agent: string, program: string)
    requires Grammar(program) && Grammar(agent)
    ensures var s := agent + ("@" + program);
            Trimmed(s) && forall i :: 0 <= i < |s| ==> IsSegmentChar(s[i]) || s[i] == '@'
  {
    var w := "@" + program;
    assert w[0] == '@' && forall i :: 0 < i < |w| ==> w[i] == program[i - 1];
  }

  lemma ShorthandCut(agent: string, program: string)
    requires Grammar(program) && Grammar(agent)
    ensures var s := agent + ("@" + program);
            var k := Find(s, '@');
            k == |agent| < |s| && s[..k] == agent && s[k + 1..] == program && '@' !in program
  {
    var w := "@" + program;
    Halves(agent, w);
    Halves("@", program);
    Cut(agent + w, |agent|, |agent| + 1);
    FindBefore(agent, w, '@');
  }

  // ----- All addresses -----

  const LETTERS := "abcdefghijklmnopqrstuvwxyz"

  /** A letter and one to 63 letters, digits or hyphens. */
  predicate Lettered(s: string) {
    2 <= |s| <= 64 && s[0] in LETTERS && forall c :: c in s ==> c in LETTERS || c in "0123456789-"
  }

  lemma GrammarMeans(s: string)
    ensures Grammar(s) <==> Lettered(s)
  {
    assert forall c: char :: IsLetter(c) <==> c in LETTERS;
    assert forall c: char :: '0' <= c <= '9' || c == '-' <==> c in "0123456789-";
    assert forall i :: 0 <= i < |s| ==> s[i] in s;
  }

  /** A segment is that, with one line feed behind at most. */
  lemma SegmentMeans(s: string)
    ensures ValidSegment(s) <==> exists body :: (s == body || s == body + "\n") && Lettered(body)
  {
    GrammarMeans(s);
    if s != "" {
      var body := s[..|s| - 1];
      GrammarMeans(body);
      assert s[|s| - 1] == '\n' <==> s == body + "\n";
    }
    if body :| (s == body || s == body + "\n") && Lettered(body) {
      assert s == body + "\n" ==> s[..|s| - 1] == body;
    }
  }

  /** The three forms of an address. */
  predicate Written(raw: string, u: BusUri, localOrg: string, localProgram: string) {
    || raw == Str(u)
    || (raw == u.agent + ("@" + u.program) && u.org == localOrg)
    || (raw == u.agent && u.org == localOrg && u.program == localProgram)
  }

  lemma SegmentText(s: string)
    requires ValidSegment(s)
    ensures '@' !in s && !(SCHEME <= s) && forall x :: !(SCHEME <= s + ("@" + x))
  {
    SegmentChars(s);
    SchemeColon(s);
    forall x
      ensures !(SCHEME <= s + ("@" + x))
    {
      var t := s + ("@" + x);
      var i := if |s| <= 6 then |s| else 6;
      assert t[i] == (if |s| <= 6 then '@' else s[6]);
      SchemeChars(i);
      NoSchemeAt(t, i);
    }
  }

  lemma SchemeChars(i: nat)
    requires i < |SCHEME|
    ensures SCHEME[i] != '@' && SCHEME[6] == ':'
  {
  }

  lemma NoSchemeAt(t: string, i: nat)
    requires i < |SCHEME| && i < |t| && t[i] != SCHEME[i]
    ensures !(SCHEME <= t)
  {
  }

  lemma PathOf(path: string)
    requires |OwnerPaths.Split(path)| == 3
    ensures var p := OwnerPaths.Split(path); path == Path(BusUri(p[0], p[1], p[2]))
  {
    var p := OwnerPaths.Split(path);
    OwnerPaths.SplitJoin(path);
    assert p == [p[0], p[1], p[2]];
    JoinThree(p[0], p[1], p[2]);
  }

  lemma JoinThree(a: string, b: string, c: string)
    ensures OwnerPaths.Join([a, b, c]) == a + ("/" + (b + ("/" + c)))
  {
    assert [a, b, c][1..] == [b, c] && [b, c][1..] == [c];
    assert OwnerPaths.Join([c]) == c;
    assert OwnerPaths.Join([b, c]) == b + "/" + OwnerPaths.Join([b, c][1..]);
    assert OwnerPaths.Join([a, b, c]) == a + "/" + OwnerPaths.Join([a, b, c][1..]);
    assert b + "/" + c == b + ("/" + c);
    assert a + "/" + (b + ("/" + c)) == a + ("/" + (b + ("/" + c)));
  }

  lemma ShorthandRead(agent: string, program: string)
    requires '@' !in agent
    ensures var s := agent + ("@" + program);
            var k := Find(s, '@'); k == |agent| < |s| && s[..k] == agent && s[k + 1..] == program
  {
    var w := "@" + program;
    Halves(agent, w);
    Halves("@", program);
    Cut(agent + w, |agent|, |agent| + 1);
    FindBefore(agent, w, '@');
  }

  lemma WrittenReads(raw: string, u: BusUri, localOrg: string, localProgram: string)
    requires ValidUri(u) && Written(raw, u, localOrg, localProgram)
    ensures ParseRaw(raw, localOrg, localProgram) == Ok(u)
  {
    SegmentText(u.agent);
    SegmentText(u.program);
    if raw == Str(u) {
      StrRead(u, localOrg, localProgram);
    } else if raw == u.agent + ("@" + u.program) {
      ShorthandRead(u.agent, u.program);
    }
  }

  lemma ReadWritten(raw: string, localOrg: string, localProgram: string)
    requires ParseRaw(raw, localOrg, localProgram).Ok?
    ensures Written(raw, ParseRaw(raw, localOrg, localProgram).value, localOrg, localProgram)
  {
    var k := Find(raw, '@');
    if SCHEME <= raw {
      PathOf(raw[|SCHEME|..]);
      assert raw == SCHEME + raw[|SCHEME|..];
    } else if k < |raw| {
      assert raw == raw[..k] + ("@" + raw[k + 1..]);
    }
  }

  /** An address names an endpoint exactly when its stripped text is one of the endpoint's three forms. */
  lemma AddressMeans(address: string, u: BusUri, localOrg: string, localProgram: string)
    ensures Parse(address, localOrg, localProgram) == Ok(u) <==>
            ValidUri(u) && Written(Strip(address), u, localOrg, localProgram)
    ensures Parse(address, localOrg, localProgram) == Err(EmptyAddress) <==> AllSpace(address)
  {
    ParsedValid(address, localOrg, localProgram);
    StripBlank(address);
    if Parse(address, localOrg, localProgram).Ok? {
      ReadWritten(Strip(address), localOrg, localProgram);
    }
    if ValidUri(u) && Written(Strip(address), u, localOrg, localProgram) {
      WrittenReads(Strip(address), u, localOrg, localProgram);
    }
  }

  // ----- Lock keys -----

  function KeyOf(u: BusUri): string {
    u.org + ("--" + (u.program + ("--" + u.agent)))
  }

  function LockKey(resolved: string): Result<string, Error> {
    if !(SCHEME <= resolved) then Err(NotFull)
    else
      match Parse(resolved, "", "")
      case Ok(u) => Ok(KeyOf(u))
      case Err(e) => Err(e)
  }

  /** A text gets a lock key exactly when it begins with the scheme and, stripped, is the full form of an
      endpoint; the key is then that endpoint's. */
  lemma LockKeyMeans(resolved: string, key: string)
    ensures LockKey(resolved) == Ok(key) <==>
            SCHEME <= resolved && exists u :: ValidUri(u) && Strip(resolved) == Str(u) && key == KeyOf(u)
    ensures LockKey(resolved) == Err(NotFull) <==> !(SCHEME <= resolved)
  {
    forall u
      ensures Parse(resolved, "", "") == Ok(u) <==> ValidUri(u) && Strip(resolved) == Str(u)
    {
      AddressMeans(resolved, u, "", "");
    }
  }

  /** `--` in front of a letter: where a separator can stand. */
  predicate SepAt(s: string, k: nat) {
    k + 3 <= |s| && s[k] == '-' && s[k + 1] == '-' && IsLetter(s[k + 2])
  }

  predicate NoSep(s: string) {
    forall k: nat :: k + 3 <= |s| ==> !SepAt(s, k)
  }

  lemma SepIn(x: string, y: string, k: nat)
    requires NoSep(x) && y != "" && IsLetter(y[0])
    ensures SepAt(x + ("--" + y), k) <==> k == |x| || (k >= |x| + 2 && SepAt(y, k - |x| - 2))
  {
    var w := "--" + y;
    var s := x + w;
    assert w[0] == '-' && w[1] == '-' && forall i :: 0 <= i < |y| ==> w[i + 2] == y[i];
    assert forall i :: 0 <= i < |x| ==> s[i] == x[i];
    assert forall i :: 0 <= i < |w| ==> s[|x| + i] == w[i];
    assert k + 3 <= |x| ==> !SepAt(x, k);
    assert forall i :: 0 <= i < |y| ==> s[|x| + 2 + i] == y[i];
  }

  /** The two separators of a key are places where a separator can stand. */
  lemma OwnSeps(u: BusUri)
    requires ValidUri(u)
    ensures SepAt(KeyOf(u), |u.org|) && SepAt(KeyOf(u), |u.org| + 2 + |u.program|)
  {
    SegmentChars(u.program);
    SegmentChars(u.agent);
    var w := u.program + ("--" + u.agent);
    SepPlace(u.program, u.agent);
    SepPlace(u.org, w);
    assert SepAt(w, |u.program|);
    assert forall i :: 0 <= i < |w| ==> KeyOf(u)[|u.org| + 2 + i] == w[i];
  }

  lemma SepPlace(x: string, y: string)
    requires y != "" && IsLetter(y[0])
    ensures SepAt(x + ("--" + y), |x|)
  {
  }

  predicate Separable(u: BusUri) {
    NoSep(u.org) && NoSep(u.program) && NoSep(u.agent)
  }

  lemma OnlySeps(u: BusUri, k: nat)
    requires ValidUri(u) && Separable(u) && SepAt(KeyOf(u), k)
    ensures k == |u.org| || k == |u.org| + 2 + |u.program|
  {
    SegmentChars(u.program);
    SegmentChars(u.agent);
    SepIn(u.org, u.program + ("--" + u.agent), k);
    if k != |u.org| {
      SepIn(u.program, u.agent, k - |u.org| - 2);
    }
  }

  /** An endpoint none of whose segments has a `--` in front of a letter shares its lock key with
      no other endpoint, whatever that other one looks like. */
  lemma LockKeyUnique(u: BusUri, v: BusUri)
    requires ValidUri(u) && ValidUri(v) && Separable(u)
    ensures KeyOf(u) == KeyOf(v) <==> u == v
  {
    if KeyOf(u) == KeyOf(v) {
      OwnSeps(v);
      OnlySeps(u, |v.org|);
      OnlySeps(u, |v.org| + 2 + |v.program|);
      OwnSeps(u);
      SameCut(u.org, u.program, u.agent, v.org, v.program, v.agent);
    }
  }

  lemma SameCut(a: string, b: string, c: string, a': string, b': string, c': string)
    requires a + ("--" + (b + ("--" + c))) == a' + ("--" + (b' + ("--" + c'))) && |a| == |a'| && |b| == |b'|
    ensures a == a' && b == b' && c == c'
  {
    Halves(a, "--" + (b + ("--" + c)));
    Halves(a', "--" + (b' + ("--" + c')));
    Halves("--", b + ("--" + c));
    Halves("--", b' + ("--" + c'));
    Halves(b, "--" + c);
    Halves(b', "--" + c');
    Halves("--", c);
    Halves("--", c');
  }

  /** The endpoint a key is cut into at two separator places. */
  function CutAt(key: string, i: nat, j: nat): BusUri
    requires i + 2 <= j && j + 2 <= |key|
  {
    BusUri(key[..i], key[i + 2..j], key[j + 2..])
  }

  predicate GoodCut(key: string, i: nat, j: nat) {
    i + 2 <= j && SepAt(key, i) && SepAt(key, j) && ValidUri(CutAt(key, i, j))
  }

  lemma CutBack(key: string, i: nat, j: nat)
    requires GoodCut(key, i, j)
    ensures KeyOf(CutAt(key, i, j)) == key
  {
    assert key[i..i + 2] == [key[i], key[i + 1]] == "--";
    assert key[j..j + 2] == [key[j], key[j + 1]] == "--";
    assert key == key[..i] + (key[i..i + 2] + (key[i + 2..j] + (key[j..j + 2] + key[j + 2..])));
  }

  lemma OwnCut(u: BusUri)
    requires ValidUri(u)
    ensures GoodCut(KeyOf(u), |u.org|, |u.org| + 2 + |u.program|)
    ensures CutAt(KeyOf(u), |u.org|, |u.org| + 2 + |u.program|) == u
  {
    OwnSeps(u);
    CutParts(u.org, u.program, u.agent);
    assert CutAt(KeyOf(u), |u.org|, |u.org| + 2 + |u.program|) == u;
  }

  lemma CutParts(a: string, b: string, c: string)
    ensures var key := a + ("--" + (b + ("--" + c)));
            var i, j := |a|, |a| + 2 + |b|;
            |key| == j + 2 + |c| && key[..i] == a && key[i + 2..j] == b && key[j + 2..] == c
  {
  }

  predicate SharesKey(u: BusUri, v: BusUri) {
    ValidUri(v) && v != u && KeyOf(v) == KeyOf(u)
  }

  predicate OtherCut(u: BusUri, i: nat, j: nat) {
    GoodCut(KeyOf(u), i, j) && (i != |u.org| || j != |u.org| + 2 + |u.program|)
  }

  lemma OtherUri(u: BusUri, i: nat, j: nat)
    requires OtherCut(u, i, j)
    ensures SharesKey(u, CutAt(KeyOf(u), i, j))
  {
    CutBack(KeyOf(u), i, j);
    var v := CutAt(KeyOf(u), i, j);
    assert |v.org| == i && |v.program| == j - i - 2;
  }

  lemma OtherPlaces(u: BusUri, v: BusUri)
    requires ValidUri(u) && SharesKey(u, v)
    ensures OtherCut(u, |v.org|, |v.org| + 2 + |v.program|)
  {
    OwnCut(u);
    OwnCut(v);
  }

  /** An endpoint shares its lock key with another valid one exactly when the key can be cut at two
      other places into three segments that pass the pattern. */
  lemma LockKeyShared(u: BusUri)
    requires ValidUri(u)
    ensures (exists v: BusUri :: SharesKey(u, v)) <==> (exists i: nat, j: nat :: OtherCut(u, i, j))
  {
    if v: BusUri :| SharesKey(u, v) {
      OtherPlaces(u, v);
    }
    if i: nat, j: nat :| OtherCut(u, i, j) {
      OtherUri(u, i, j);
    }
  }

  lemma SameParts(a: string, b: string, c: string, d: string)
    ensures KeyOf(BusUri(a + ("--" + b), c, d)) == KeyOf(BusUri(a, b + ("--" + c), d))
  {
    var y := "--" + (c + ("--" + d));
    assert (a + ("--" + b)) + y == a + ("--" + (b + y));
    assert (b + ("--" + c)) + ("--" + d) == b + y;
  }

  /** Two different valid endpoints of one lock key: `b` can go with either neighbour. */
  lemma LockKeyCollides(a: string, b: string, c: string, agent: string)
    requires Grammar(a) && Grammar(c) && Grammar(agent)
    requires Grammar(a + ("--" + b)) && Grammar(b + ("--" + c))
    ensures var u, v := BusUri(a + ("--" + b), c, agent), BusUri(a, b + ("--" + c), agent);
            u != v && SharesKey(u, v) && ValidUri(u) && LockKey(Str(u)).Ok? && LockKey(Str(u)) == LockKey(Str(v))
  {
    LockKeyOf(BusUri(a + ("--" + b), c, agent));
    LockKeyOf(BusUri(a, b + ("--" + c), agent));
    SameParts(a, b, c, agent);
    assert |a + ("--" + b)| > |a|;
  }

  /** Such as these. */
  lemma CollidingPair()
    ensures ValidUri(BusUri("aa--bb", "cc", "dd"))
    ensures SharesKey(BusUri("aa--bb", "cc", "dd"), BusUri("aa", "bb--cc", "dd"))
  {
    assert "aa--bb" == "aa" + ("--" + "bb") && "bb--cc" == "bb" + ("--" + "cc");
    SameParts("aa", "bb", "cc", "dd");
  }

  lemma LockKeyOf(u: BusUri)
    requires ValidUri(u) && Grammar(u.agent)
    ensures LockKey(Str(u)) == Ok(KeyOf(u))
  {
    StrTrimmed(u);
    ParseStr(u, "", "");
  }

  /** On resolved addresses: with a separable endpoint on one side, the lock keys are the same exactly
      when both name one endpoint. */
  lemma LockKeySafe(address: string, other: string)
    requires LockKey(address).Ok? && LockKey(other).Ok? && Separable(Parse(address, "", "").value)
    ensures LockKey(address) == LockKey(other) <==> Parse(address, "", "") == Parse(other, "", "")
  {
    ParsedValid(address, "", "");
    ParsedValid(other, "", "");
    LockKeyUnique(Parse(address, "", "").value, Parse(other, "", "").value);
  }
}
