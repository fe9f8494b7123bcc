/** The blocked-entry text store: splitting a file into entries, and tombstoning some of
    them in place (src/otaman_core/blocked_entries.py). */
module BlockedEntries {
  import opened Text

  // ----- Headers and blocks -----

  const HEADER := "## Blocked:"
  const OPEN := "<!--"

  /** The length of the entry header at the start of `s`, with its comment opening if it
      has one; 0 when there is none. */
  function HeaderLen(s: string): (n: nat)
    ensures n <= |s|
    ensures n > 0 ==> n >= |HEADER| && s[n - 1] == ':'
  {
    if HEADER <= s then |HEADER|
    else if OPEN <= s && HEADER <= LStrip(s[4..]) then
      LStripParts(s[4..]);
      var t := LStrip(s[4..]);
      assert s[|s| - |t|..] == t;
      |s| - |t| + |HEADER|
    else 0
  }

  predicate HasHeader(s: string) {
    HeaderLen(s) > 0
  }

  /** A live header: one without a comment opening. */
  predicate IsLive(s: string) {
    HEADER <= s
  }

  function Body(b: string): string {
    b[HeaderLen(b)..]
  }

  /** The text up to the next header that starts a line, and the text from there on;
      `bol` says whether `s` itself starts a line. */
  function ToHeader(s: string, bol: bool): (r: (string, string))
    ensures s == r.0 + r.1
    ensures r.1 != "" ==> HasHeader(r.1) && EndsLine(r.0, bol)
  {
    if s == "" || (bol && HasHeader(s)) then
      assert "" + s == s;
      ("", s)
    else
      var r := ToHeader(s[1..], s[0] == '\n');
      PieceCons(s, r.0, r.1);
      ([s[0]] + r.0, r.1)
  }

  lemma PieceCons(s: string, p: string, x: string)
    requires s != "" && s[1..] == p + x
    ensures s == ([s[0]] + p) + x
    ensures forall bol :: EndsLine([s[0]] + p, bol) <==> EndsLine(p, s[0] == '\n')
  {
    assert s == [s[0]] + s[1..];
    assert p != "" ==> ([s[0]] + p)[|p|] == p[|p| - 1];
  }

  predicate EndsLine(p: string, bol: bool) {
    if p == "" then bol else p[|p| - 1] == '\n'
  }

  /** The blocks of a text that starts with a header: each reaches to the next one. */
  function Blocks(s: string): seq<string>
    decreases |s|
  {
    if !HasHeader(s) then []
    else
      var r := ToHeader(Body(s), false);
      [s[..HeaderLen(s)] + r.0] + Blocks(r.1)
  }

  function Preamble(text: string): string {
    ToHeader(text, true).0
  }

  function BlocksOf(text: string): seq<string> {
    Blocks(ToHeader(text, true).1)
  }

  // ----- What a header depends on -----

  /** An opened comment that only white space follows: a header if an entry comes next. */
  predicate CommentOpen(a: string) {
    OPEN <= a && AllSpace(a[4..])
  }

  lemma {:induction false} LStripAppend(a: string, x: string)
    ensures AllSpace(a) ==> LStrip(a) == "" && LStrip(a + x) == LStrip(x)
    ensures !AllSpace(a) ==> LStrip(a) != "" && LStrip(a + x) == LStrip(a) + x
  {
    if a == "" {
      assert a + x == x;
    } else {
      LStripAppend(a[1..], x);
      assert (a + x)[1..] == a[1..] + x;
      assert a == [a[0]] + a[1..];
    }
  }

  /** A prefix match is decided within `a` when the text goes on with a character
      that the pattern does not have there. */
  lemma PrefixLocal(t: string, a: string, x: string)
    requires a != ""
    requires x == "" || |a| >= |t| || t[|a|] != x[0] || (|x| > 1 && |a| + 1 < |t| && t[|a| + 1] != x[1])
    ensures t <= a + x <==> t <= a
  {
    if |t| <= |a| {
      assert (a + x)[..|t|] == a[..|t|];
    }
  }

  lemma PatternChars()
    ensures forall i :: 0 < i < |HEADER| ==> HEADER[i] != '<' && HEADER[i] != '\n' && (i > 1 ==> HEADER[i] != '#')
    ensures forall i :: 0 < i < |OPEN| ==> OPEN[i] != '<' && OPEN[i] != '\n' && OPEN[i] != '#'
    ensures HEADER[0] == HEADER[1] == '#' && OPEN[0] == '<'
  {
  }

  /** Characters after which no header can be completed. */
  predicate Inert(x: string) {
    x == "" || x[0] == '<' || (x[0] == '\n' && |x| > 1 && !IsSpace(x[1]) && x[1] != '#')
  }

  lemma HeaderLocal(a: string, x: string)
    requires a != "" && (x == "" || x[0] == '<' || x[0] == '\n' || (|x| > 1 && x[0] == x[1] == '#'))
    ensures HEADER <= a + x <==> HEADER <= a
    ensures OPEN <= a + x <==> OPEN <= a
  {
    PatternChars();
    PrefixLocal(HEADER, a, x);
    PrefixLocal(OPEN, a, x);
  }

  /** Text that goes on inertly leaves the headers before it as they are. */
  lemma HeaderBeforeInert(a: string, x: string)
    requires a != "" && Inert(x)
    ensures HeaderLen(a + x) == HeaderLen(a)
  {
    HeaderLocal(a, x);
    if OPEN <= a {
      assert (a + x)[4..] == a[4..] + x;
      LStripAppend(a[4..], x);
      if AllSpace(a[4..]) {
        InertStart(x);
      } else {
        HeaderLocal(LStrip(a[4..]), x);
      }
    }
  }

  lemma InertStart(x: string)
    requires Inert(x)
    ensures !(HEADER <= LStrip(x))
  {
    PatternChars();
    if x != "" && x[0] == '\n' {
      assert LStrip(x[1..]) == x[1..];
    }
  }

  /** A following entry completes exactly an opened comment. */
  lemma HeaderBeforeEntry(a: string, x: string)
    requires a != "" && IsLive(x)
    ensures CommentOpen(a) ==> HeaderLen(a + x) > 0
    ensures !CommentOpen(a) ==> HeaderLen(a + x) == HeaderLen(a)
  {
    PatternChars();
    assert x[0] == HEADER[0] && x[1] == HEADER[1];
    HeaderLocal(a, x);
    if OPEN <= a {
      assert (a + x)[4..] == a[4..] + x;
      LStripAppend(a[4..], x);
      if AllSpace(a[4..]) {
        assert LStrip(x) == x;
      } else {
        HeaderLocal(LStrip(a[4..]), x);
      }
    }
  }

  /** More text does not change a header that is complete. */
  lemma HeaderKept(a: string, x: string)
    requires HeaderLen(a) > 0
    ensures HeaderLen(a + x) == HeaderLen(a)
  {
    if HEADER <= a {
      assert (a + x)[..|HEADER|] == a[..|HEADER|];
    } else {
      assert (a + x)[..4] == a[..4];
      assert (a + x)[4..] == a[4..] + x;
      LStripAppend(a[4..], x);
      var t := LStrip(a[4..]);
      assert (t + x)[..|HEADER|] == t[..|HEADER|];
      assert HEADER[0] == '#' && a[0] == '<';
    }
  }

  // ----- Which lists of blocks a text can have -----

  /** No line of `p` starts a comment that stays open to its end. */
  predicate NoOpen(p: string, bol: bool) {
    p == "" || (!(bol && CommentOpen(p)) && NoOpen(p[1..], p[0] == '\n'))
  }

  /** No line of `p` starts a header. */
  predicate Calm(p: string, bol: bool) {
    p == "" || (!(bol && HasHeader(p)) && Calm(p[1..], p[0] == '\n'))
  }

  lemma {:induction false} CalmWhole(p: string, bol: bool)
    ensures Calm(p, bol) <==> ToHeader(p, bol) == (p, "")
  {
    if p != "" {
      CalmWhole(p[1..], p[0] == '\n');
      assert p == [p[0]] + p[1..];
      var r := ToHeader(p[1..], p[0] == '\n');
      assert [p[0]] + r.0 == p ==> ([p[0]] + r.0)[1..] == p[1..];
    }
  }

  /** A piece of text stays whole before an entry exactly when it holds no header itself
      and leaves no comment open for the entry to close. */
  lemma {:induction false} PieceBefore(p: string, bol: bool, x: string)
    requires HasHeader(x) && EndsLine(p, bol)
    ensures ToHeader(p + x, bol) == (p, x) <==> Calm(p, bol) && (IsLive(x) ==> NoOpen(p, bol))
  {
    if p == "" {
      assert p + x == x;
    } else {
      var q, nl := p[1..], p[0] == '\n';
      assert (p + x)[1..] == q + x;
      assert EndsLine(q, nl);
      PieceBefore(q, nl, x);
      HeaderBefore(p, x);
      var r := ToHeader(q + x, nl);
      assert p == [p[0]] + q;
      assert [p[0]] + r.0 == p ==> ([p[0]] + r.0)[1..] == q;
    }
  }

  lemma HeaderBefore(p: string, x: string)
    requires p != "" && HasHeader(x)
    ensures HasHeader(p + x) <==> HasHeader(p) || (IsLive(x) && CommentOpen(p))
  {
    PatternChars();
    if IsLive(x) {
      HeaderBeforeEntry(p, x);
    } else {
      HeaderBeforeInert(p, x);
    }
    if HasHeader(p) {
      HeaderKept(p, x);
    }
  }

  predicate GoodBlock(b: string) {
    HasHeader(b) && Calm(Body(b), false)
  }

  /** `b` ends its last line, and does not swallow a live entry that follows. */
  predicate Joins(b: string, next: string) {
    b != "" && b[|b| - 1] == '\n' && (IsLive(next) ==> NoOpen(Body(b), false))
  }

  /** `x` is nothing, or goes on after `b` with an entry that `b` leaves alone. */
  predicate Follows(b: string, x: string) {
    x == "" || (HasHeader(x) && Joins(b, x))
  }

  predicate WellTiled(bs: seq<string>) {
    bs == [] || (GoodBlock(bs[0]) && (|bs| > 1 ==> Joins(bs[0], bs[1])) && WellTiled(bs[1..]))
  }

  predicate PreambleFits(pre: string, bs: seq<string>) {
    Calm(pre, true) && (bs != [] ==> EndsLine(pre, true) && (IsLive(bs[0]) ==> NoOpen(pre, true)))
  }

  lemma HeaderOfConcat(bs: seq<string>)
    requires bs != [] && HasHeader(bs[0])
    ensures HeaderLen(Concat(bs)) == HeaderLen(bs[0])
    ensures IsLive(Concat(bs)) <==> IsLive(bs[0])
  {
    HeaderKept(bs[0], Concat(bs[1..]));
    LiveKept(bs[0], Concat(bs[1..]));
  }

  lemma LiveKept(b: string, x: string)
    requires HasHeader(b)
    ensures IsLive(b + x) <==> IsLive(b)
  {
    PatternChars();
    assert (b + x)[0] == b[0];
    if IsLive(b) {
      assert (b + x)[..|HEADER|] == b[..|HEADER|];
    }
  }

  /** The header is inside the block it starts. */
  lemma HeaderOfBlock(s: string, p: string, x: string)
    requires HasHeader(s) && Body(s) == p + x
    ensures HeaderLen(s[..HeaderLen(s)] + p) == HeaderLen(s)
  {
    var n := HeaderLen(s);
    HeaderAlone(s);
    HeaderKept(s[..n], p);
  }

  lemma HeaderAlone(s: string)
    requires HasHeader(s)
    ensures HeaderLen(s[..HeaderLen(s)]) == HeaderLen(s)
  {
    var n := HeaderLen(s);
    if IsLive(s) {
      assert s[..n] == HEADER;
    } else {
      var w := CommentParts(s);
      CommentHeader(w, "");
      assert HEADER + "" == HEADER;
      assert s[..n] == OPEN + (w + HEADER);
    }
  }

  lemma CommentShape(s: string)
    requires HasHeader(s) && !IsLive(s)
    ensures OPEN <= s && HEADER <= LStrip(s[4..]) && HeaderLen(s) == |s| - |LStrip(s[4..])| + |HEADER|
  {
  }

  lemma CommentSlices(w: string, y: string)
    ensures (OPEN + (w + (HEADER + y)))[|OPEN| + |w| + |HEADER|..] == y
  {
    assert OPEN + (w + (HEADER + y)) == (OPEN + (w + HEADER)) + y;
  }

  /** A commented header, taken apart. */
  lemma CommentParts(s: string) returns (w: string)
    requires HasHeader(s) && !IsLive(s)
    ensures AllSpace(w) && HeaderLen(s) == |OPEN| + |w| + |HEADER|
    ensures s == OPEN + (w + (HEADER + Body(s)))
  {
    CommentShape(s);
    var u := s[4..];
    var t := LStrip(u);
    LStripParts(u);
    w := u[..|u| - |t|];
    var y := t[|HEADER|..];
    assert s == OPEN + u && u == w + t && t == HEADER + y;
    CommentSlices(w, y);
  }

  lemma CommentHeader(w: string, y: string)
    requires AllSpace(w)
    ensures HeaderLen(OPEN + (w + (HEADER + y))) == |OPEN| + |w| + |HEADER|
    ensures Body(OPEN + (w + (HEADER + y))) == y
    ensures !IsLive(OPEN + (w + (HEADER + y)))
  {
    var t := HEADER + y;
    var s := OPEN + (w + t);
    PatternChars();
    assert s[4..] == w + t;
    assert t[0] == HEADER[0] && t[..|HEADER|] == HEADER;
    LStripAppend(w, t);
    assert s[0] == OPEN[0] && s[..4] == OPEN;
    assert s == (OPEN + (w + HEADER)) + y;
  }

  /** The body of a block inside a longer text. */
  lemma BodyBefore(b: string, x: string)
    requires HasHeader(b)
    requires x == "" || (HasHeader(x) && EndsLine(Body(b), false))
    ensures ToHeader(Body(b) + x, false) == (Body(b), x) <==> GoodBlock(b) && Follows(b, x)
  {
    var body := Body(b);
    if x == "" {
      assert body + x == body;
      CalmWhole(body, false);
    } else {
      assert body[|body| - 1] == b[|b| - 1];
      PieceBefore(body, false, x);
    }
  }

  lemma BodyOfCons(b: string, x: string)
    requires HasHeader(b)
    ensures HeaderLen(b + x) == HeaderLen(b) && Body(b + x) == Body(b) + x
    ensures (b + x)[..HeaderLen(b)] + Body(b) == b
  {
    HeaderKept(b, x);
  }

  lemma BlocksCons(b: string, x: string)
    requires GoodBlock(b) && Follows(b, x)
    ensures Blocks(b + x) == [b] + Blocks(x)
  {
    BodyOfCons(b, x);
    BodyEnds(b);
    BodyBefore(b, x);
  }

  /** A block that ends its line does so in its body: the header ends in a colon. */
  lemma BodyEnds(b: string)
    requires HasHeader(b)
    ensures b[|b| - 1] == '\n' ==> EndsLine(Body(b), false)
  {
    assert b[HeaderLen(b) - 1] == ':';
  }

  lemma BlocksUncons(s: string) returns (b: string, x: string)
    requires HasHeader(s)
    ensures s == b + x && b != "" && GoodBlock(b) && Follows(b, x)
    ensures Blocks(s) == [b] + Blocks(x)
    ensures IsLive(s) <==> IsLive(b)
  {
    var h := s[..HeaderLen(s)];
    var r := ToHeader(Body(s), false);
    x := r.1;
    b := h + r.0;
    assert s == h + Body(s);
    assert h + (r.0 + r.1) == b + x;
    HeaderOfBlock(s, r.0, r.1);
    assert Body(b) == r.0;
    BodyBefore(b, x);
    LiveKept(b, x);
  }

  lemma {:induction false} BlocksTile(s: string)
    requires s == "" || HasHeader(s)
    ensures Concat(Blocks(s)) == s
    decreases |s|
  {
    if s != "" {
      var b, x := BlocksUncons(s);
      BlocksTile(x);
      assert ([b] + Blocks(x))[1..] == Blocks(x);
    }
  }

  /** The blocks tile the text after its preamble. */
  lemma Tiling(text: string)
    ensures text == Preamble(text) + Concat(BlocksOf(text))
  {
    BlocksTile(ToHeader(text, true).1);
  }

  lemma TiledFollows(bs: seq<string>)
    requires bs != [] && WellTiled(bs)
    ensures Follows(bs[0], Concat(bs[1..]))
  {
    if |bs| > 1 {
      HeaderOfConcat(bs[1..]);
      assert bs[1..][0] == bs[1];
    }
  }

  lemma {:induction false} TiledBlocks(bs: seq<string>)
    requires WellTiled(bs)
    ensures Blocks(Concat(bs)) == bs
  {
    if bs != [] {
      var b, rest := bs[0], bs[1..];
      assert bs == [b] + rest;
      TiledFollows(bs);
      TiledBlocks(rest);
      BlocksCons(b, Concat(rest));
    }
  }

  lemma {:induction false} BlocksTiled(s: string)
    requires s == "" || HasHeader(s)
    ensures WellTiled(Blocks(s))
    ensures s != "" ==> Blocks(s) != [] && HasHeader(Blocks(s)[0]) && (IsLive(s) <==> IsLive(Blocks(s)[0]))
    decreases |s|
  {
    if s != "" {
      var b, x := BlocksUncons(s);
      BlocksTiled(x);
      assert ([b] + Blocks(x))[1..] == Blocks(x);
      assert ([b] + Blocks(x))[0] == b;
      assert |[b] + Blocks(x)| > 1 ==> ([b] + Blocks(x))[1] == Blocks(x)[0];
    }
  }

  /** A preamble and blocks that fit are what parsing their text gives back. */
  lemma FittingParses(pre: string, bs: seq<string>)
    requires WellTiled(bs) && PreambleFits(pre, bs)
    ensures Preamble(pre + Concat(bs)) == pre && BlocksOf(pre + Concat(bs)) == bs
  {
    var x := Concat(bs);
    TiledBlocks(bs);
    if bs == [] {
      assert pre + x == pre;
      CalmWhole(pre, true);
    } else {
      HeaderOfConcat(bs);
      PieceBefore(pre, true, x);
    }
  }

  /** What parsing a text gives always fits. */
  lemma ParsedFits(text: string)
    ensures WellTiled(BlocksOf(text)) && PreambleFits(Preamble(text), BlocksOf(text))
  {
    var r := ToHeader(text, true);
    BlocksTiled(r.1);
    if r.1 == "" {
      assert text == r.0;
      CalmWhole(r.0, true);
    } else {
      PieceBefore(r.0, true, r.1);
    }
  }

  // ----- Entries -----

  datatype Entry = Entry(
    title: string,
    block: string,
    fields: seq<(string, string)>,  // in order; a later field of the same key wins
    tombstoned: bool,
    clearedReason: string,
    malformed: bool)

  /** `(s.splitlines() or [""])[0]`. */
  function FirstLine(s: string): string {
    if s == "" || IsLineBreak(s[0]) then "" else [s[0]] + FirstLine(s[1..])
  }

  predicate IsDigit(c: char) {
    '0' <= c <= '9'
  }

  predicate IsDate(s: string) {
    |s| == 10 && forall i :: 0 <= i < 10 ==> if i == 4 || i == 7 then s[i] == '-' else IsDigit(s[i])
  }

  lemma DateMeans(s: string)
    ensures IsDate(s) <==>
            && |s| == 10 && s[4] == '-' && s[7] == '-'
            && forall i :: 0 <= i < 10 && i != 4 && i != 7 ==> s[i] in "0123456789"
  {
    assert forall c: char :: IsDigit(c) <==> c in "0123456789";
    if |s| == 10 && s[4] == '-' && s[7] == '-' {
      assert forall i :: 0 <= i < 10 && i != 4 && i != 7 ==> (IsDigit(s[i]) <==> s[i] in "0123456789");
    }
  }

  const EM_DASH := '\U{2014}'

  datatype Cleared = NotCleared | ClearedFor(reason: string)

  const CLEARED := "cleared"

  /** The `cleared <date> — <reason> -->` trailer at the start of `s`. */
  function ClearedAt(s: string): Cleared {
    if CLEARED <= s && |s| > 7 && IsSpace(s[7]) then DateAt(LStrip(s[7..])) else NotCleared
  }

  function DateAt(d: string): Cleared {
    if |d| >= 10 && IsDate(d[..10]) then DashAt(LStrip(d[10..])) else NotCleared
  }

  function DashAt(m: string): Cleared {
    if m != "" && m[0] == EM_DASH then ReasonAt(LStrip(m[1..])) else NotCleared
  }

  function ReasonAt(r: string): Cleared {
    var g := Find(r, '>');
    if g < |r| && g >= 2 && r[g - 2] == r[g - 1] == '-' then ClearedFor(Strip(r[..g - 2])) else NotCleared
  }

  /** The leftmost trailer of `s`. */
  function FindCleared(s: string): Cleared {
    if ClearedAt(s).ClearedFor? || s == "" then ClearedAt(s) else FindCleared(s[1..])
  }

  /** The text after the first line feed. */
  function NextLine(s: string): (r: string)
    ensures |r| <= |s| && (s != "" ==> |r| < |s|)
  {
    var k := Find(s, '\n');
    if k < |s| then s[k + 1..] else ""
  }

  datatype Field = NoField | Found(key: string, value: string, rest: string)

  /** The `- **key**: value` field at the start of a line, white space before it included. */
  function FieldAt(s: string): (f: Field)
    ensures f.Found? ==> |f.rest| < |s|
  {
    var a := LStrip(s);
    if a != "" && a[0] == '-' then KeyAt(LStrip(a[1..])) else NoField
  }

  function KeyAt(b: string): (f: Field)
    ensures f.Found? ==> |f.rest| < |b|
  {
    if |b| < 2 || b[0] != '*' || b[1] != '*' then NoField
    else
      var k := Find(b[2..], '*');
      var key, t := b[2..][..k], b[2..][k..];
      if key == "" || |t| < 3 || t[1] != '*' || t[2] != ':' then NoField
      else ValueAt(Lower(Strip(key)), LStrip(t[3..]))
  }

  function ValueAt(key: string, v: string): (f: Field)
    ensures f.Found? && |f.rest| <= |v|
  {
    var n := Find(v, '\n');
    Found(key, Strip(v[..n]), v[n..])
  }

  /** All fields of a body, line by line. */
  function Fields(s: string): seq<(string, string)>
    decreases |s|
  {
    if s == "" then []
    else
      match FieldAt(s)
      case Found(key, value, rest) => [(key, value)] + Fields(NextLine(rest))
      case NoField => Fields(NextLine(s))
  }

  /** One captured block, read. */
  function EntryOf(block: string): Entry {
    var body := Body(block);
    var title := Strip(FirstLine(body));
    var cleared := FindCleared(block);
    Entry(title, block, Fields(body),
      !IsLive(block) || cleared.ClearedFor?,
      if cleared.ClearedFor? then cleared.reason else "",
      !(" " <= FirstLine(body) && title != ""))
  }

  function EntriesOf(blocks: seq<string>, includeTombstoned: bool): seq<Entry> {
    if blocks == [] then []
    else
      var rest := EntriesOf(blocks[1..], includeTombstoned);
      if EntryOf(blocks[0]).tombstoned && !includeTombstoned then rest else [EntryOf(blocks[0])] + rest
  }

  lemma {:induction false} EntriesConcat(a: seq<string>, b: seq<string>, includeTombstoned: bool)
    ensures EntriesOf(a + b, includeTombstoned) == EntriesOf(a, includeTombstoned) + EntriesOf(b, includeTombstoned)
  {
    if a == [] {
      assert a + b == b;
    } else {
      assert (a + b)[1..] == a[1..] + b;
      EntriesConcat(a[1..], b, includeTombstoned);
    }
  }

  /** One match of the entry expression: an entry, or none when it is tombstoned and unwanted. */
  method ReadBlock(block: string, includeTombstoned: bool) returns (out: seq<Entry>)
    ensures out == EntriesOf([block], includeTombstoned)
  {
    var entry := EntryOf(block);
    if entry.tombstoned && !includeTombstoned {
      out := [];
    } else {
      out := [entry];
    }
  }

  /** `_ENTRY_RE.finditer(text)`: all blocks, one match after the other. */
  method FindAll(text: string) returns (blocks: seq<string>)
    ensures blocks == BlocksOf(text)
  {
    blocks := [];
    var rest := ToHeader(text, true).1;
    while rest != ""
      invariant rest == "" || HasHeader(rest)
      invariant blocks + Blocks(rest) == BlocksOf(text)
      decreases |rest|
    {
      var r := ToHeader(Body(rest), false);
      blocks := blocks + [rest[..HeaderLen(rest)] + r.0];
      rest := r.1;
    }
  }

  method ParseEntries(text: string, includeTombstoned: bool) returns (out: seq<Entry>)
    ensures out == EntriesOf(BlocksOf(text), includeTombstoned)
  {
    var blocks := FindAll(text);
    out := ReadAll(blocks, includeTombstoned);
  }

  method ReadAll(blocks: seq<string>, includeTombstoned: bool) returns (out: seq<Entry>)
    ensures out == EntriesOf(blocks, includeTombstoned)
  {
    out := [];
    for i := 0 to |blocks|
      invariant out == EntriesOf(blocks[..i], includeTombstoned)
    {
      EntriesConcat(blocks[..i], [blocks[i]], includeTombstoned);
      assert blocks[..i + 1] == blocks[..i] + [blocks[i]];
      var read := ReadBlock(blocks[i], includeTombstoned);
      out := out + read;
    }
    assert blocks[..|blocks|] == blocks;
  }

  // ----- Tombstoning -----

  function Trailer(reason: string, today: string): string {
    "cleared " + today + " " + [EM_DASH] + " " + reason + " -->"
  }

  function Tombstoned(block: string, reason: string, today: string): string {
    var stripped := RStrip(block);
    OPEN + " " + (stripped + ("\n" + Trailer(reason, today) + block[|stripped|..]))
  }

  /** The comment as it is written: the block, the date, a spaced em dash and the reason, and the white space
      the block ended with behind it. */
  lemma TombstonedText(block: string, reason: string, today: string)
    ensures Tombstoned(block, reason, today) ==
            "<!-- " + (RStrip(block) + ("\ncleared " + (today + (" \U{2014} " + (reason + (" -->"
              + block[|RStrip(block)|..]))))))
  {
    var w := block[|RStrip(block)|..];
    TrailerText(reason, today, w);
    assert "\n" + (Trailer(reason, today) + w) == "\n" + Trailer(reason, today) + w;
    assert "\ncleared " == "\n" + "cleared ";
    var x := today + (" \U{2014} " + (reason + (" -->" + w)));
    assert "\ncleared " + x == "\n" + ("cleared " + x);
    assert OPEN + " " == "<!-- ";
  }

  lemma TrailerText(reason: string, today: string, w: string)
    ensures Trailer(reason, today) + w == "cleared " + (today + (" \U{2014} " + (reason + (" -->" + w))))
  {
    assert " " + [EM_DASH] + " " == " \U{2014} ";
    var a := "cleared " + today;
    assert a + " " + [EM_DASH] + " " == a + (" " + [EM_DASH] + " ");
    Chain("cleared ", today, " \U{2014} ", reason, " -->", w);
  }

  lemma Chain(a: string, b: string, c: string, d: string, e: string, f: string)
    ensures a + b + c + d + e + f == a + (b + (c + (d + (e + f))))
  {
  }

  /** One turn of the loop of `tombstone`. */
  function TombstoneOne(text: string, entry: Entry, reason: string, today: string): string {
    if entry.tombstoned || !Contains(text, entry.block) then text
    else ReplaceFirst(text, entry.block, Tombstoned(entry.block, reason, today))
  }

  function TombstoneAll(text: string, entries: seq<Entry>, reason: string, today: string): string
    decreases |entries|
  {
    if entries == [] then text
    else TombstoneAll(TombstoneOne(text, entries[0], reason, today), entries[1..], reason, today)
  }

  method Tombstone(text: string, entries: seq<Entry>, reason: string, today: string) returns (out: string)
    ensures out == TombstoneAll(text, entries, reason, today)
  {
    out := text;
    var i := 0;
    while i < |entries|
      invariant 0 <= i <= |entries|
      invariant TombstoneAll(out, entries[i..], reason, today) == TombstoneAll(text, entries, reason, today)
    {
      var entry := entries[i];
      assert entries[i..][1..] == entries[i + 1..];
      if !entry.tombstoned && Contains(out, entry.block) {
        var stripped := RStrip(entry.block);
        var trailing := entry.block[|stripped|..];
        var wrapped := OPEN + " " + (stripped + ("\n" + Trailer(reason, today) + trailing));
        out := ReplaceFirst(out, entry.block, wrapped);
      }
      i := i + 1;
    }
  }

  // ----- A tombstoned block is one block still -----

  lemma {:induction false} CalmSpace(w: string, bol: bool)
    requires AllSpace(w)
    ensures Calm(w, bol) && NoOpen(w, bol)
  {
    if w != "" {
      PatternChars();
      CalmSpace(w[1..], w[0] == '\n');
    }
  }

  /** A line that starts with neither `#` nor `<`, before white space. */
  lemma {:induction false} CalmLine(l: string, w: string, bol: bool)
    requires AllSpace(w) && '\n' !in l
    requires bol && l != "" ==> l[0] != '#' && l[0] != '<'
    ensures Calm(l + w, bol) && NoOpen(l + w, bol)
  {
    if l == "" {
      assert l + w == w;
      CalmSpace(w, bol);
    } else {
      PatternChars();
      assert (l + w)[1..] == l[1..] + w;
      CalmLine(l[1..], w, false);
    }
  }

  /** Moving the closing white space behind a new last line makes no header. */
  lemma {:induction false} CalmTail(core: string, w: string, l: string, bol: bool)
    requires AllSpace(w) && Calm(core + w, bol)
    requires '\n' !in l && l != "" && l[0] != '#' && l[0] != '<' && !IsSpace(l[0])
    ensures Calm(core + ("\n" + l + w), bol) && NoOpen(core + ("\n" + l + w), bol)
  {
    var z := "\n" + l + w;
    if core == "" {
      PatternChars();
      assert core + z == z && z[1..] == l + w;
      CalmLine(l, w, true);
    } else {
      assert (core + z)[1..] == core[1..] + z;
      assert (core + w)[1..] == core[1..] + w;
      CalmTail(core[1..], w, l, core[0] == '\n');
      NoNewHeader(core, w, z);
    }
  }

  lemma NoNewHeader(core: string, w: string, z: string)
    requires core != "" && Inert(z) && |z| > 1 && z[0] == '\n'
    ensures HasHeader(core + z) ==> HasHeader(core + w)
    ensures !CommentOpen(core + z)
  {
    HeaderBeforeInert(core, z);
    if HasHeader(core) { HeaderKept(core, w); }
    HeaderLocal(core, z);
    if OPEN <= core {
      assert !IsSpace((core + z)[4..][|core| + 1 - 4]);
    }
  }

  /** A live block: its header, then text up to the last that is not white space, then the rest. */
  lemma LiveShape(b: string) returns (core: string, w: string)
    requires IsLive(b)
    ensures AllSpace(w) && Trimmed(HEADER + core) && Body(b) == core + w
    ensures RStrip(b) == HEADER + core && b[|RStrip(b)|..] == w
  {
    var stripped := RStrip(b);
    w := b[|stripped|..];
    RStripParts(b);
    assert b == stripped + w;
    var n := |HEADER|;
    assert b[n - 1] == HEADER[n - 1];
    RStripKeeps(b, n - 1);
    core := stripped[n..];
    assert stripped == b[..n] + core && b[..n] == HEADER;
    assert b == HEADER + (core + w);
  }

  /** A live entry with body `y`, inside an opened comment. */
  function Commented(y: string): string {
    OPEN + (" " + (HEADER + y))
  }

  lemma TombstonedIs(b: string, reason: string, today: string) returns (core: string, w: string)
    requires IsLive(b)
    ensures AllSpace(w) && Trimmed(HEADER + core) && Body(b) == core + w
    ensures Tombstoned(b, reason, today) == Commented(core + ("\n" + Trailer(reason, today) + w))
    ensures w == "" ==> !IsSpace(b[|b| - 1])
    ensures w != "" ==> w[|w| - 1] == b[|b| - 1]
  {
    core, w := LiveShape(b);
    var z := "\n" + Trailer(reason, today) + w;
    Reassociate(OPEN, " ", HEADER, core, z);
    RStripParts(b);
    assert b == RStrip(b) + w;
  }

  lemma Reassociate(a: string, b: string, c: string, d: string, e: string)
    ensures a + b + (c + d + e) == a + (b + (c + (d + e)))
  {
  }

  lemma TombstonedShape(core: string, w: string, l: string)
    requires AllSpace(w) && Calm(core + w, false)
    requires '\n' !in l && l != "" && l[0] != '#' && l[0] != '<' && !IsSpace(l[0])
    ensures var t := Commented(core + ("\n" + l + w));
            && GoodBlock(t) && !IsLive(t) && NoOpen(Body(t), false)
            && Body(t) == core + ("\n" + l + w)
  {
    CalmTail(core, w, l, false);
    assert AllSpace(" ");
    CommentHeader(" ", core + ("\n" + l + w));
  }

  lemma TombstonedBlock(b: string, reason: string, today: string)
    requires IsLive(b) && GoodBlock(b) && '\n' !in reason && '\n' !in today
    ensures var t := Tombstoned(b, reason, today);
            GoodBlock(t) && !IsLive(t) && NoOpen(Body(t), false) && (b[|b| - 1] == '\n' ==> t[|t| - 1] == '\n')
  {
    var core, w := TombstonedIs(b, reason, today);
    TrailerLine(reason, today);
    TombstonedShape(core, w, Trailer(reason, today));
    LastOf(core, "\n" + Trailer(reason, today), w);
  }

  lemma LastOf(core: string, m: string, w: string)
    ensures w != "" ==> Commented(core + (m + w))[|Commented(core + (m + w))| - 1] == w[|w| - 1]
  {
  }

  lemma TrailerLine(reason: string, today: string)
    requires '\n' !in reason && '\n' !in today
    ensures '\n' !in Trailer(reason, today) && Trailer(reason, today)[0] == 'c'
  {
  }

  lemma {:induction false} FirstLineBroken(core: string, z: string)
    requires z != "" && IsLineBreak(z[0])
    ensures FirstLine(core + z) == FirstLine(core)
  {
    if core == "" {
      assert core + z == z;
    } else {
      assert (core + z)[1..] == core[1..] + z;
      FirstLineBroken(core[1..], z);
    }
  }

  lemma {:induction false} FirstLineSpaced(core: string, w: string) returns (v: string)
    requires AllSpace(w)
    ensures AllSpace(v) && FirstLine(core + w) == FirstLine(core) + v
  {
    if core == "" {
      assert core + w == w;
      v := FirstLine(w);
      FirstLineSpace(w);
    } else {
      assert (core + w)[1..] == core[1..] + w;
      if IsLineBreak(core[0]) {
        v := "";
      } else {
        v := FirstLineSpaced(core[1..], w);
      }
    }
  }

  lemma {:induction false} FirstLineSpace(w: string)
    requires AllSpace(w)
    ensures AllSpace(FirstLine(w))
  {
    if w != "" {
      FirstLineSpace(w[1..]);
    }
  }

  lemma StripMoreSpace(s: string, v: string)
    requires AllSpace(v)
    ensures Strip(s + v) == Strip(s)
  {
    RStripParts(s);
    var r := RStrip(s);
    var u := s[|r|..];
    assert s + v == r + (u + v);
    RStripOf(r, u + v);
  }

  /** Tombstoning changes neither an entry's title nor whether it is well formed. */
  lemma TombstonedEntry(b: string, reason: string, today: string)
    requires IsLive(b) && GoodBlock(b) && '\n' !in reason && '\n' !in today
    ensures var e := EntryOf(Tombstoned(b, reason, today));
            e.tombstoned && e.title == EntryOf(b).title && e.malformed == EntryOf(b).malformed
  {
    var core, w := TombstonedIs(b, reason, today);
    var l := Trailer(reason, today);
    TrailerLine(reason, today);
    TombstonedShape(core, w, l);
    FirstLineBroken(core, "\n" + l + w);
    var v := FirstLineSpaced(core, w);
    StripMoreSpace(FirstLine(core), v);
    var f := FirstLine(core);
    if f == "" {
      assert f + v == v;
      StripOf("", "", v);
      assert "" + "" + v == v;
    } else {
      assert (f + v)[0] == f[0];
      assert " " <= f + v <==> " " <= f;
    }
  }
}
