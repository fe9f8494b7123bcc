/** The audit log over whole runs of the two write paths
    (src/otaman_core/registry_access.py). */
module AuditLog {
  import opened Text
  import opened RegistryAccess

  datatype Call = Create(record: Fields) | Apply(id: string, t: Transition)

  function Exec(data: Data, c: Call): Data {
    match c
    case Create(record) => Created(data, record).0
    case Apply(id, t) => Transitioned(data, id, t).0
  }

  function RunAll(data: Data, calls: seq<Call>): Data
    decreases |calls|
  {
    if calls == [] then data else RunAll(Exec(data, calls[0]), calls[1..])
  }

  /** The fields of every transition are a dict. */
  predicate DictCalls(calls: seq<Call>) {
    forall i :: 0 <= i < |calls| && calls[i].Apply? ==> DistinctKeys(calls[i].t.fields)
  }

  lemma DictTail(calls: seq<Call>)
    requires DictCalls(calls) && calls != []
    ensures DictCalls(calls[1..]) && (calls[0].Apply? ==> DistinctKeys(calls[0].t.fields))
  {
    assert forall j :: 0 <= j < |calls[1..]| ==> calls[1..][j] == calls[j + 1];
  }

  predicate Touches(data: Data, c: Call, i: nat) {
    c.Apply? && Transitioned(data, c.id, c.t).1 == Done && FindRecord(Records(data), c.id) == i
  }

  /** The entry a call adds to record `i`, if any. */
  function Added(data: Data, c: Call, i: nat): seq<LogEntry>
    requires i < |Records(data)| && Records(data)[i].Rec?
  {
    if Touches(data, c, i) then [EntryFor(Records(data)[i].fields, c.t)] else []
  }

  /** The entries that accept or reject a cost or choose carry their approval. */
  predicate Approved(log: seq<LogEntry>) {
    forall i :: 0 <= i < |log| && log[i].Entry? && log[i].action in ["accept-cost", "choose", "reject-cost"] ==>
      Authorizes(log[i].approval)
  }

  /** `log` accounts for the change from `before` to `after`: it is what the log gained,
      replaying it gives the new record, walking it back gives the old one, and its
      approval-bearing entries carry their approval. */
  predicate Accounts(before: Fields, after: Fields, log: seq<LogEntry>) {
    && LogOf(after) == LogOf(before) + log
    && StateOf(after) == Replay(StateOf(before), log)
    && ("status" in before ==> "status" in after && WalkBack(StateOf(after), log) == StateOf(before))
    && Approved(log)
  }

  lemma AccountsTrans(a: Fields, b: Fields, c: Fields, ab: seq<LogEntry>, bc: seq<LogEntry>)
    requires Accounts(a, b, ab) && Accounts(b, c, bc)
    ensures Accounts(a, c, ab + bc)
  {
    ReplayConcat(StateOf(a), ab, bc);
    WalkBackConcat(StateOf(c), ab, bc);
    assert LogOf(c) == LogOf(a) + (ab + bc);
  }

  /** A transition of record `i` that names the log among its fields. */
  predicate Overwrites(data: Data, c: Call, i: nat) {
    Touches(data, c, i) && KeyIn(c.t.fields, "transitions")
  }

  /** One call: record `i` stays where it is, unchanged unless the call touches it. */
  lemma ExecStays(data: Data, c: Call, i: nat)
    requires i < |Records(data)| && Records(data)[i].Rec?
    ensures var before, after := Records(data), Records(Exec(data, c));
            && i < |after| && after[i].Rec?
            && after[i] == if Touches(data, c, i) then Rec(Moved(before[i].fields, c.t)) else before[i]
  {
  }

  /** Its own entry accounts for its change. */
  lemma ExecOne(data: Data, c: Call, i: nat)
    requires i < |Records(data)| && Records(data)[i].Rec?
    requires (c.Apply? ==> DistinctKeys(c.t.fields)) && !Overwrites(data, c, i)
    ensures var before, after := Records(data), Records(Exec(data, c));
            && i < |after| && after[i].Rec?
            && Accounts(before[i].fields, after[i].fields, Added(data, c, i))
  {
    ExecStays(data, c, i);
    if Touches(data, c, i) {
      var rec := Records(data)[i].fields;
      TransitionMeans(data, c.id, c.t);
      MovedReplays(rec, c.t);
      MovedUndoes(rec, c.t);
      OneEntry(StateOf(rec), EntryFor(rec, c.t));
      OneEntry(StateOf(Moved(rec, c.t)), EntryFor(rec, c.t));
    }
  }

  lemma OneEntry(st: Fields, e: LogEntry)
    ensures Replay(st, [e]) == Redo(st, e) && WalkBack(st, [e]) == Undo(st, e)
  {
    assert [e][1..] == [] && [e][..0] == [];
  }

  /** The entries the transitions of a run make for record `i`. */
  function Appended(data: Data, calls: seq<Call>, i: nat): seq<LogEntry>
    requires i < |Records(data)| && Records(data)[i].Rec?
    decreases |calls|
  {
    if calls == [] then []
    else
      ExecStays(data, calls[0], i);
      Added(data, calls[0], i) + Appended(Exec(data, calls[0]), calls[1..], i)
  }

  /** Some transition of record `i` names its log among the fields. */
  predicate Overwritten(data: Data, calls: seq<Call>, i: nat)
    decreases |calls|
  {
    calls != [] && (Overwrites(data, calls[0], i) || Overwritten(Exec(data, calls[0]), calls[1..], i))
  }

  lemma {:induction false} ReplayConcat(st: Fields, a: seq<LogEntry>, b: seq<LogEntry>)
    ensures Replay(st, a + b) == Replay(Replay(st, a), b)
    decreases |a|
  {
    if a == [] {
      assert a + b == b;
    } else {
      assert (a + b)[1..] == a[1..] + b;
      ReplayConcat(Redo(st, a[0]), a[1..], b);
    }
  }

  lemma {:induction false} WalkBackConcat(st: Fields, a: seq<LogEntry>, b: seq<LogEntry>)
    ensures WalkBack(st, a + b) == WalkBack(WalkBack(st, b), a)
    decreases |b|
  {
    if b == [] {
      assert a + b == a;
    } else {
      var b' := b[..|b| - 1];
      assert (a + b)[..|a + b| - 1] == a + b';
      WalkBackConcat(Undo(st, b[|b| - 1]), a, b');
    }
  }

  /** Over any run in which no transition of the record names the log, the entries of its own
      transitions account for its change. */
  lemma {:induction false} RunAudit(data: Data, calls: seq<Call>, i: nat)
    requires DictCalls(calls) && i < |Records(data)| && Records(data)[i].Rec?
    requires !Overwritten(data, calls, i)
    ensures var before, after := Records(data), Records(RunAll(data, calls));
            && i < |after| && after[i].Rec?
            && Accounts(before[i].fields, after[i].fields, Appended(data, calls, i))
    decreases |calls|
  {
    if calls != [] {
      var c, rest, next := calls[0], calls[1..], Exec(data, calls[0]);
      DictTail(calls);
      ExecOne(data, c, i);
      RunAudit(next, rest, i);
      AccountsTrans(Records(data)[i].fields, Records(next)[i].fields, Records(RunAll(next, rest))[i].fields,
                    Added(data, c, i), Appended(next, rest, i));
    }
  }

  /** One entry for each transition that went through, none otherwise. */
  function Hits(data: Data, calls: seq<Call>, i: nat): nat
    decreases |calls|
  {
    if calls == [] then 0
    else (if Touches(data, calls[0], i) then 1 else 0) + Hits(Exec(data, calls[0]), calls[1..], i)
  }

  lemma {:induction false} OneEntryPerTransition(data: Data, calls: seq<Call>, i: nat)
    requires i < |Records(data)| && Records(data)[i].Rec?
    ensures |Appended(data, calls, i)| == Hits(data, calls, i)
    decreases |calls|
  {
    if calls != [] {
      ExecStays(data, calls[0], i);
      OneEntryPerTransition(Exec(data, calls[0]), calls[1..], i);
    }
  }

  // ----- Identity -----

  predicate SameId(a: Item, b: Item) {
    a.Rec? && b.Rec? && "id" in a.fields && "id" in b.fields &&
    a.fields["id"].Text? && a.fields["id"] == b.fields["id"]
  }

  predicate UniqueIds(items: seq<Item>) {
    forall i, j :: 0 <= i < j < |items| ==> !SameId(items[i], items[j])
  }

  /** No transition names the id among its fields. */
  predicate IdsLeft(calls: seq<Call>) {
    forall i :: 0 <= i < |calls| && calls[i].Apply? ==> !KeyIn(calls[i].t.fields, "id")
  }

  lemma ExecUnique(data: Data, c: Call)
    requires UniqueIds(Records(data)) && (c.Apply? ==> !KeyIn(c.t.fields, "id"))
    ensures UniqueIds(Records(Exec(data, c)))
  {
    var items := Records(data);
    match c
    case Create(record) =>
      if Created(data, record).1 == Done {
        assert forall i :: 0 <= i < |items| ==> !HasId(items[i], record["id"].s);
      }
    case Apply(id, t) =>
      if Transitioned(data, id, t).1 == Done {
        var k := FindRecord(items, id);
        MovedKeepsId(items[k].fields, t);
        var after := Records(Exec(data, c));
        assert forall i :: 0 <= i < |items| && i != k ==> after[i] == items[i];
        assert forall x: Item :: SameId(x, after[k]) <==> SameId(x, items[k]);
        assert forall x: Item :: SameId(after[k], x) <==> SameId(items[k], x);
      }
  }

  /** Ids stay unique over any run. */
  lemma {:induction false} RunUnique(data: Data, calls: seq<Call>)
    requires UniqueIds(Records(data)) && IdsLeft(calls)
    ensures UniqueIds(Records(RunAll(data, calls)))
    decreases |calls|
  {
    if calls != [] {
      assert forall j :: 0 <= j < |calls[1..]| ==> calls[1..][j] == calls[j + 1];
      ExecUnique(data, calls[0]);
      RunUnique(Exec(data, calls[0]), calls[1..]);
    }
  }

  // ----- Where append-only fails -----

  function ListIn(v: Value): seq<LogEntry> {
    if v.Log? then v.entries else []
  }

  /** A field update named `transitions` replaces the whole history by its value. */
  lemma HistoryReplaced(rec: Fields, t: Transition, k: nat)
    requires DistinctKeys(t.fields) && k < |t.fields| && t.fields[k].0 == "transitions"
    ensures LogOf(Moved(rec, t)) == ListIn(t.fields[k].1)
  {
    var logged := rec["transitions" := Log(LogOf(rec) + [EntryFor(rec, t)])];
    SetAllLast(WithStatus(logged, t.toStatus), t.fields, k);
  }

  lemma {:induction false} ChangesAt(rec: Fields, fields: seq<(string, Value)>, k: nat)
    requires k < |fields|
    ensures |ChangesFrom(rec, fields)| == |fields| && ChangesFrom(rec, fields)[k].new_ == fields[k].1
  {
    if k > 0 {
      ChangesAt(rec, fields[1..], k - 1);
    } else if |fields| > 1 {
      ChangesAt(rec, fields[1..], 0);
    }
  }

  /** An entry does not lie in a list that it carries as a new value. */
  lemma NotWithin(e: LogEntry, k: nat)
    requires e.Entry? && k < |e.changes|
    ensures e !in ListIn(e.changes[k].new_)
  {
    var v := e.changes[k].new_;
    forall i | 0 <= i < |ListIn(v)|
      ensures ListIn(v)[i] != e
    {
      assert e.changes[k].new_.entries[i] < e;
    }
  }

  lemma EntryLost(rec: Fields, t: Transition, k: nat)
    requires DistinctKeys(t.fields) && k < |t.fields| && t.fields[k].0 == "transitions"
    ensures EntryFor(rec, t) !in LogOf(Moved(rec, t))
  {
    HistoryReplaced(rec, t, k);
    ChangesAt(rec, t.fields, k);
    NotWithin(EntryFor(rec, t), k);
  }

  /** One transition appends its entry to the log exactly when its fields do not name the log. */
  lemma HistoryKept(rec: Fields, t: Transition)
    requires Appendable(rec) && DistinctKeys(t.fields)
    ensures LogOf(Moved(rec, t)) == LogOf(rec) + [EntryFor(rec, t)] <==> !KeyIn(t.fields, "transitions")
  {
    if KeyIn(t.fields, "transitions") {
      LostHere(rec, t);
      assert EntryFor(rec, t) in LogOf(rec) + [EntryFor(rec, t)];
    } else {
      MovedReplays(rec, t);
    }
  }

  /** After the last overwriting, the log is the value written and what came later; the overwriting
      transition's own entry is not in it. */
  lemma {:induction false} RunOverwritten(data: Data, calls: seq<Call>, i: nat)
    returns (l: seq<LogEntry>, pre: seq<LogEntry>, e: LogEntry, post: seq<LogEntry>)
    requires DictCalls(calls) && i < |Records(data)| && Records(data)[i].Rec?
    requires Overwritten(data, calls, i)
    ensures i < |Records(RunAll(data, calls))| && Records(RunAll(data, calls))[i].Rec?
    ensures Appended(data, calls, i) == pre + [e] + post && e !in l
    ensures LogOf(Records(RunAll(data, calls))[i].fields) == l + post
    decreases |calls|
  {
    var c, rest, next := calls[0], calls[1..], Exec(data, calls[0]);
    DictTail(calls);
    ExecStays(data, c, i);
    if Overwritten(next, rest, i) {
      l, pre, e, post := RunOverwritten(next, rest, i);
      Prepend(Added(data, c, i), pre, e, post);
      pre := Added(data, c, i) + pre;
    } else {
      LostHere(Records(data)[i].fields, c.t);
      RunAudit(next, rest, i);
      var rec := Records(data)[i].fields;
      l, pre, e, post := LogOf(Moved(rec, c.t)), [], EntryFor(rec, c.t), Appended(next, rest, i);
    }
  }

  lemma LostHere(rec: Fields, t: Transition)
    requires DistinctKeys(t.fields) && KeyIn(t.fields, "transitions")
    ensures EntryFor(rec, t) !in LogOf(Moved(rec, t))
  {
    var k :| 0 <= k < |t.fields| && t.fields[k].0 == "transitions";
    EntryLost(rec, t, k);
  }

  lemma Prepend(a: seq<LogEntry>, pre: seq<LogEntry>, e: LogEntry, post: seq<LogEntry>)
    ensures a + (pre + [e] + post) == (a + pre) + [e] + post
  {
  }

  /** Over any run, a record's log ends as it began with the entries of the record's own transitions
      behind it, exactly when none of those transitions names the log among its fields. */
  lemma RunHistory(data: Data, calls: seq<Call>, i: nat)
    requires DictCalls(calls) && i < |Records(data)| && Records(data)[i].Rec?
    ensures i < |Records(RunAll(data, calls))| && Records(RunAll(data, calls))[i].Rec?
    ensures LogOf(Records(RunAll(data, calls))[i].fields) == LogOf(Records(data)[i].fields) + Appended(data, calls, i)
            <==> !Overwritten(data, calls, i)
  {
    if Overwritten(data, calls, i) {
      var l, pre, e, post := RunOverwritten(data, calls, i);
      NotSplit(l, LogOf(Records(data)[i].fields), pre, e, post);
    } else {
      RunAudit(data, calls, i);
    }
  }

  lemma NotSplit(l: seq<LogEntry>, log: seq<LogEntry>, pre: seq<LogEntry>, e: LogEntry, post: seq<LogEntry>)
    requires e !in l
    ensures l + post != log + (pre + [e] + post)
  {
    var a, b := l + post, log + (pre + [e] + post);
    var k := |log| + |pre|;
    assert b[k] == e;
    assert |a| == |b| ==> a[k] == l[k];
  }

  lemma {:induction false} SetAllLast(rec: Fields, fields: seq<(string, Value)>, k: nat)
    requires DistinctKeys(fields) && k < |fields|
    ensures fields[k].0 in SetAll(rec, fields) && SetAll(rec, fields)[fields[k].0] == fields[k].1
    decreases |fields|
  {
    TailDistinct(fields);
    var next := rec[fields[0].0 := fields[0].1];
    if k == 0 {
      SetAllKeeps(next, fields[1..], fields[0].0);
    } else {
      SetAllLast(next, fields[1..], k - 1);
    }
  }
}
