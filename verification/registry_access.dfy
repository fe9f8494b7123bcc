/** The decision register: records changed only by creation and by transitions that leave
    an audit entry (src/otaman_core/registry_access.py). */
module RegistryAccess {
  import opened Text
  import opened Wrappers

  // ----- Data -----

  /** A value in a record: null, a string, an audit log, or anything else. */
  datatype Value = Null | Text(s: string) | Log(entries: seq<LogEntry>) | Other(id: nat)

  datatype Change = Change(field: string, old_: Option<Value>, new_: Value)

  datatype Move = Move(from: Value, to: string)

  /** One audit entry; `Legacy` stands for a historical row of another shape. */
  datatype LogEntry =
    | Legacy(id: nat)
    | Entry(at: string, actor: string, action: string, move: Option<Move>, changes: seq<Change>,
            note: Option<string>, approval: Option<map<string, Value>>)

  type Fields = map<string, Value>

  datatype Item = Rec(fields: Fields) | Junk

  /** What the file holds under the records key. */
  datatype Data = NotMapping | NoRecords | NotAList | Items(items: seq<Item>)

  /** The arguments of `apply_transition`; `fields` is a dict, so its keys differ. */
  datatype Transition = Transition(
    action: string, actor: string, at: string, toStatus: Option<string>,
    fields: seq<(string, Value)>, approval: Option<map<string, Value>>, note: string)

  datatype Error = BlankId | DuplicateId | NoSuchRecord | BadApproval | NoRecordsList | NotAppendable

  datatype Outcome = Done | Raised(error: Error)

  predicate DistinctKeys(fields: seq<(string, Value)>) {
    forall i, j :: 0 <= i < j < |fields| ==> fields[i].0 != fields[j].0
  }

  predicate KeyIn(fields: seq<(string, Value)>, key: string) {
    exists i :: 0 <= i < |fields| && fields[i].0 == key
  }

  // ----- Approvals -----

  predicate NeedsApproval(action: string) {
    action == "accept-cost" || action == "choose" || action == "reject-cost"
  }

  predicate Filled(m: map<string, Value>, key: string) {
    key in m && m[key].Text? && Strip(m[key].s) != ""
  }

  predicate ValidVia(v: Value) {
    v == Text("hitl") || v == Text("roster-role") || v == Text("hat")
  }

  predicate ValidApproval(a: Option<map<string, Value>>) {
    && a.Some?
    && Filled(a.value, "by")
    && "via" in a.value && ValidVia(a.value["via"])
    && Filled(a.value, "at") && Filled(a.value, "spec")
    && ("hat" in a.value && a.value["hat"] != Null ==> Filled(a.value, "hat"))
  }

  // ----- Finding a record -----

  predicate HasId(item: Item, id: string) {
    item.Rec? && "id" in item.fields && item.fields["id"] == Text(id)
  }

  /** The index of the first record with `id`, or the length. */
  function FindRecord(items: seq<Item>, id: string): (k: nat)
    ensures k <= |items|
    ensures forall i :: 0 <= i < k ==> !HasId(items[i], id)
    ensures k < |items| ==> HasId(items[k], id)
  {
    if items == [] || HasId(items[0], id) then 0 else 1 + FindRecord(items[1..], id)
  }

  /** `register.records()`: nothing when there is no list. */
  function Records(data: Data): seq<Item> {
    if data.Items? then data.items else []
  }

  // ----- The specification of the two write paths -----

  function Created(data: Data, record: Fields): (r: (Data, Outcome))
    ensures r.1 != Done ==> r.0 == data
  {
    if !("id" in record && record["id"].Text? && record["id"].s != "") then (data, Raised(BlankId))
    else if FindRecord(Records(data), record["id"].s) < |Records(data)| then (data, Raised(DuplicateId))
    else
      match data
      case Items(items) => (Items(items + [Rec(record)]), Done)
      case NotAList => (data, Raised(NotAppendable))
      case _ => (data, Raised(NoRecordsList))
  }

  function GetOr(rec: Fields, key: string): Value {
    if key in rec then rec[key] else Null
  }

  function ChangesFrom(rec: Fields, fields: seq<(string, Value)>): seq<Change> {
    if fields == [] then []
    else
      var (name, value) := fields[0];
      [Change(name, if name in rec then Some(rec[name]) else None, value)] + ChangesFrom(rec, fields[1..])
  }

  function EntryFor(rec: Fields, t: Transition): LogEntry {
    Entry(t.at, t.actor, t.action,
      if t.toStatus.Some? then Some(Move(GetOr(rec, "status"), t.toStatus.value)) else None,
      ChangesFrom(rec, t.fields),
      if t.note != "" then Some(t.note) else None,
      t.approval)
  }

  function SetAll(rec: Fields, fields: seq<(string, Value)>): Fields
    decreases |fields|
  {
    if fields == [] then rec else SetAll(rec[fields[0].0 := fields[0].1], fields[1..])
  }

  /** Whether an entry can be appended: a missing log is created empty. */
  predicate Appendable(rec: Fields) {
    "transitions" in rec ==> rec["transitions"].Log?
  }

  function LogOf(rec: Fields): seq<LogEntry> {
    if "transitions" in rec && rec["transitions"].Log? then rec["transitions"].entries else []
  }

  function WithStatus(rec: Fields, toStatus: Option<string>): Fields {
    if toStatus.Some? then rec["status" := Text(toStatus.value)] else rec
  }

  function Moved(rec: Fields, t: Transition): Fields {
    SetAll(WithStatus(rec["transitions" := Log(LogOf(rec) + [EntryFor(rec, t)])], t.toStatus), t.fields)
  }

  function Transitioned(data: Data, id: string, t: Transition): (r: (Data, Outcome))
    ensures r.1 != Done ==> r.0 == data
  {
    var items := Records(data);
    var k := FindRecord(items, id);
    if k == |items| then (data, Raised(NoSuchRecord))
    else if NeedsApproval(t.action) && !ValidApproval(t.approval) then (data, Raised(BadApproval))
    else if !Appendable(items[k].fields) then (data, Raised(NotAppendable))
    else (Items(items[k := Rec(Moved(items[k].fields, t))]), Done)
  }

  // ----- Which transitions need an approval, and of what kind -----

  /** A text that is not blank, under `key`. */
  predicate Says(a: map<string, Value>, key: string) {
    key in a && a[key].Text? && !AllSpace(a[key].s)
  }

  /** An approval as the audit wants it: who, when and against what, by one of three ways, and the hat
      named if one is given at all. */
  predicate Authorizes(a: Option<map<string, Value>>) {
    && a.Some?
    && Says(a.value, "by") && Says(a.value, "at") && Says(a.value, "spec")
    && "via" in a.value && a.value["via"].Text? && a.value["via"].s in ["hitl", "roster-role", "hat"]
    && ("hat" !in a.value || a.value["hat"].Null? || Says(a.value, "hat"))
  }

  lemma FilledSays(a: map<string, Value>, key: string)
    ensures Filled(a, key) <==> Says(a, key)
  {
    if key in a && a[key].Text? {
      StripBlank(a[key].s);
    }
  }

  lemma ApprovalMeans(a: Option<map<string, Value>>)
    ensures ValidApproval(a) <==> Authorizes(a)
  {
    if a.Some? {
      FilledSays(a.value, "by");
      FilledSays(a.value, "at");
      FilledSays(a.value, "spec");
      FilledSays(a.value, "hat");
    }
  }

  /** Some record of the file has this id. */
  ghost predicate Bears(data: Data, id: string) {
    data.Items? && exists f :: Rec(f) in data.items && "id" in f && f["id"] == Text(id)
  }

  lemma BearsFound(data: Data, id: string)
    ensures Bears(data, id) <==> FindRecord(Records(data), id) < |Records(data)|
  {
    var items := Records(data);
    if data.Items? {
      assert forall f :: Rec(f) in items ==> exists i :: 0 <= i < |items| && items[i] == Rec(f);
      assert forall i :: 0 <= i < |items| && items[i].Rec? ==> Rec(items[i].fields) in items;
    }
  }

  /** A record is refused for its id exactly when it has no non-empty one or the file has it already;
      otherwise it is appended, if the file has a list to append to. */
  lemma CreateMeans(data: Data, record: Fields, id: string)
    requires "id" in record && record["id"] == Text(id)
    ensures Created(data, record).1 ==
            if id == "" then Raised(BlankId)
            else if Bears(data, id) then Raised(DuplicateId)
            else if data.Items? then Done
            else Raised(if data.NotAList? then NotAppendable else NoRecordsList)
    ensures Created(data, record).1 == Done ==>
              Created(data, record).0.Items? && Created(data, record).0.items == data.items + [Rec(record)]
  {
    BearsFound(data, id);
  }

  /** The id has to be a text that is not empty. */
  lemma CreateNeedsId(data: Data, record: Fields)
    ensures Created(data, record).1 == Raised(BlankId) <==>
            !exists id :: id != "" && "id" in record && record["id"] == Text(id)
  {
    if "id" in record && record["id"].Text? {
      CreateMeans(data, record, record["id"].s);
    }
  }

  /** The first record with this id is at `k`. */
  predicate OneOf(data: Data, id: string, k: nat) {
    && data.Items? && k < |data.items| && HasId(data.items[k], id)
    && forall i :: 0 <= i < k ==> !HasId(data.items[i], id)
  }

  /** Every outcome of a transition: an unknown id first, then the approval that an acceptance or
      rejection of a cost or a choice needs, then a log that is no list. */
  lemma TransitionMeans(data: Data, id: string, t: Transition)
    ensures Transitioned(data, id, t).1 == Raised(NoSuchRecord) <==> !Bears(data, id)
    ensures Transitioned(data, id, t).1 == Raised(BadApproval) <==>
            && Bears(data, id)
            && t.action in ["accept-cost", "choose", "reject-cost"] && !Authorizes(t.approval)
    ensures Transitioned(data, id, t).1 == Raised(NotAppendable) <==>
            && (exists k: nat :: OneOf(data, id, k) && "transitions" in data.items[k].fields &&
                            !data.items[k].fields["transitions"].Log?)
            && (t.action in ["accept-cost", "choose", "reject-cost"] ==> Authorizes(t.approval))
    ensures Transitioned(data, id, t).1 in
            [Done, Raised(NoSuchRecord), Raised(BadApproval), Raised(NotAppendable)]
  {
    ApprovalMeans(t.approval);
    BearsFound(data, id);
    if Bears(data, id) {
      assert OneOf(data, id, FindRecord(data.items, id));
    }
  }

  // ----- The register object -----

  class Register {
    var data: Data

    constructor (data: Data)
      ensures this.data == data
    {
      this.data := data;
    }

    method Get(id: string) returns (k: nat)
      ensures k == FindRecord(Records(data), id)
    {
      var items := Records(data);
      k := 0;
      while k < |items| && !HasId(items[k], id)
        invariant 0 <= k <= |items|
        invariant FindRecord(items, id) == k + FindRecord(items[k..], id)
      {
        assert items[k..][1..] == items[k + 1..];
        k := k + 1;
      }
    }

    method CreateRecord(record: Fields) returns (r: Outcome)
      modifies this
      ensures (data, r) == Created(old(data), record)
    {
      if !("id" in record && record["id"].Text? && record["id"].s != "") {
        return Raised(BlankId);
      }
      var k := Get(record["id"].s);
      if k < |Records(data)| {
        return Raised(DuplicateId);
      }
      match data {
        case Items(items) =>
          data := Items(items + [Rec(record)]);
          return Done;
        case NotAList =>
          return Raised(NotAppendable);
        case _ =>
          return Raised(NoRecordsList);
      }
    }

    /** The loop that lists the changed fields with their previous values. */
    static method ChangeEntries(record: Fields, fields: seq<(string, Value)>) returns (changes: seq<Change>)
      ensures changes == ChangesFrom(record, fields)
    {
      changes := [];
      for i := 0 to |fields|
        invariant changes == ChangesFrom(record, fields[..i])
      {
        var (name, value) := fields[i];
        ChangesSnoc(record, fields[..i], fields[i]);
        assert fields[..i + 1] == fields[..i] + [fields[i]];
        changes := changes + [Change(name, if name in record then Some(record[name]) else None, value)];
      }
      assert fields[..|fields|] == fields;
    }

    /** The loop that writes the fields. */
    static method WriteFields(record: Fields, fields: seq<(string, Value)>) returns (out: Fields)
      ensures out == SetAll(record, fields)
    {
      out := record;
      for i := 0 to |fields|
        invariant SetAll(out, fields[i..]) == SetAll(record, fields)
      {
        assert fields[i..][1..] == fields[i + 1..];
        out := out[fields[i].0 := fields[i].1];
      }
    }

    /** `_validate_approval`: its checks, one after the other. */
    static method ValidateApproval(approval: Option<map<string, Value>>) returns (ok: bool)
      ensures ok <==> ValidApproval(approval)
    {
      if approval.None? {
        return false;
      }
      var a := approval.value;
      if !("by" in a && a["by"].Text? && Strip(a["by"].s) != "") {
        return false;
      }
      if !("via" in a && (a["via"] == Text("hitl") || a["via"] == Text("roster-role") || a["via"] == Text("hat"))) {
        return false;
      }
      var fields := ["at", "spec"];
      for i := 0 to 2
        invariant forall j :: 0 <= j < i ==> Filled(a, fields[j])
      {
        if !(fields[i] in a && a[fields[i]].Text? && Strip(a[fields[i]].s) != "") {
          assert !Filled(a, fields[i]);
          return false;
        }
      }
      assert Filled(a, fields[0]) && Filled(a, fields[1]);
      if "hat" in a && a["hat"] != Null && !(a["hat"].Text? && Strip(a["hat"].s) != "") {
        return false;
      }
      return true;
    }

    method ApplyTransition(id: string, t: Transition) returns (r: Outcome)
      requires DistinctKeys(t.fields)
      modifies this
      ensures (data, r) == Transitioned(old(data), id, t)
    {
      var k := Get(id);
      var items := Records(data);
      if k == |items| {
        return Raised(NoSuchRecord);
      }
      if NeedsApproval(t.action) {
        var ok := ValidateApproval(t.approval);
        if !ok {
          return Raised(BadApproval);
        }
      }
      var record := items[k].fields;
      ghost var before := record;
      var move := None;
      if t.toStatus.Some? {
        move := Some(Move(GetOr(record, "status"), t.toStatus.value));
      }
      var changes := ChangeEntries(record, t.fields);
      var note := if t.note != "" then Some(t.note) else None;
      var entry := Entry(t.at, t.actor, t.action, move, changes, note, t.approval);
      assert entry == EntryFor(before, t);
      if "transitions" !in record {
        record := record["transitions" := Log([])];
      }
      if !record["transitions"].Log? {
        return Raised(NotAppendable);
      }
      record := record["transitions" := Log(record["transitions"].entries + [entry])];
      assert record == before["transitions" := Log(LogOf(before) + [entry])];
      if t.toStatus.Some? {
        record := record["status" := Text(t.toStatus.value)];
      }
      record := WriteFields(record, t.fields);
      data := Items(items[k := Rec(record)]);
      return Done;
    }
  }

  // ----- Replaying and undoing an audit log -----

  /** A record without its log. */
  function StateOf(rec: Fields): Fields {
    rec - {"transitions"}
  }

  function RedoChanges(st: Fields, changes: seq<Change>): Fields
    decreases |changes|
  {
    if changes == [] then st else RedoChanges(st[changes[0].field := changes[0].new_], changes[1..])
  }

  /** What an audit entry says was done. */
  function Redo(st: Fields, e: LogEntry): Fields {
    match e
    case Legacy(_) => st
    case Entry(_, _, _, move, changes, _, _) =>
      RedoChanges(if move.Some? then st["status" := Text(move.value.to)] else st, changes)
  }

  function UndoChanges(st: Fields, changes: seq<Change>): Fields
    decreases |changes|
  {
    if changes == [] then st
    else
      var c := changes[|changes| - 1];
      UndoChanges(if c.old_.Some? then st[c.field := c.old_.value] else st - {c.field}, changes[..|changes| - 1])
  }

  /** Walking an audit entry back. */
  function Undo(st: Fields, e: LogEntry): Fields {
    match e
    case Legacy(_) => st
    case Entry(_, _, _, move, changes, _, _) =>
      var u := UndoChanges(st, changes);
      if move.Some? then u["status" := move.value.from] else u
  }

  function Replay(st: Fields, log: seq<LogEntry>): Fields
    decreases |log|
  {
    if log == [] then st else Replay(Redo(st, log[0]), log[1..])
  }

  function WalkBack(st: Fields, log: seq<LogEntry>): Fields
    decreases |log|
  {
    if log == [] then st else WalkBack(Undo(st, log[|log| - 1]), log[..|log| - 1])
  }

  /** Field updates that keep away from the log. */
  predicate LeavesLog(fields: seq<(string, Value)>) {
    DistinctKeys(fields) && !KeyIn(fields, "transitions")
  }

  lemma {:induction false} SetAllGrows(rec: Fields, fields: seq<(string, Value)>, key: string)
    requires key in rec
    ensures key in SetAll(rec, fields)
    decreases |fields|
  {
    if fields != [] {
      SetAllGrows(rec[fields[0].0 := fields[0].1], fields[1..], key);
    }
  }

  lemma {:induction false} SetAllKeeps(rec: Fields, fields: seq<(string, Value)>, key: string)
    requires !KeyIn(fields, key)
    ensures key in SetAll(rec, fields) <==> key in rec
    ensures key in rec ==> SetAll(rec, fields)[key] == rec[key]
    decreases |fields|
  {
    if fields != [] {
      TailKeys(fields, key);
      SetAllKeeps(rec[fields[0].0 := fields[0].1], fields[1..], key);
    }
  }

  lemma TailKeys(fields: seq<(string, Value)>, key: string)
    requires fields != [] && !KeyIn(fields, key)
    ensures !KeyIn(fields[1..], key) && fields[0].0 != key
  {
    assert forall i :: 0 <= i < |fields[1..]| ==> fields[1..][i] == fields[i + 1];
  }

  lemma TailDistinct(fields: seq<(string, Value)>)
    requires fields != [] && DistinctKeys(fields)
    ensures DistinctKeys(fields[1..]) && !KeyIn(fields[1..], fields[0].0)
  {
    assert forall i :: 0 <= i < |fields[1..]| ==> fields[1..][i] == fields[i + 1];
  }

  /** Writing the fields is replaying the changes, whatever record the old values came from. */
  lemma {:induction false} SetAllRedo(rec: Fields, st: Fields, fields: seq<(string, Value)>)
    ensures SetAll(st, fields) == RedoChanges(st, ChangesFrom(rec, fields))
    decreases |fields|
  {
    if fields != [] {
      var cs := ChangesFrom(rec, fields);
      assert cs[1..] == ChangesFrom(rec, fields[1..]);
      SetAllRedo(rec, st[fields[0].0 := fields[0].1], fields[1..]);
    }
  }

  lemma {:induction false} SetAllSnoc(st: Fields, fields: seq<(string, Value)>, f: (string, Value))
    ensures SetAll(st, fields + [f]) == SetAll(st, fields)[f.0 := f.1]
    decreases |fields|
  {
    if fields == [] {
      assert fields + [f] == [f] && [f][1..] == [];
    } else {
      assert (fields + [f])[1..] == fields[1..] + [f];
      SetAllSnoc(st[fields[0].0 := fields[0].1], fields[1..], f);
    }
  }

  lemma {:induction false} ChangesSnoc(rec: Fields, fields: seq<(string, Value)>, f: (string, Value))
    ensures ChangesFrom(rec, fields + [f]) ==
            ChangesFrom(rec, fields) + [Change(f.0, if f.0 in rec then Some(rec[f.0]) else None, f.1)]
  {
    if fields == [] {
      assert fields + [f] == [f] && [f][1..] == [];
    } else {
      assert (fields + [f])[1..] == fields[1..] + [f];
      ChangesSnoc(rec, fields[1..], f);
    }
  }

  lemma {:induction false} SetAllApart(st: Fields, fields: seq<(string, Value)>, key: string, v: Value)
    requires !KeyIn(fields, key)
    ensures SetAll(st[key := v], fields) == SetAll(st, fields)[key := v]
    ensures SetAll(st - {key}, fields) == SetAll(st, fields) - {key}
    decreases |fields|
  {
    if fields != [] {
      TailKeys(fields, key);
      var f := fields[0];
      assert st[key := v][f.0 := f.1] == st[f.0 := f.1][key := v];
      assert (st - {key})[f.0 := f.1] == st[f.0 := f.1] - {key};
      SetAllApart(st[f.0 := f.1], fields[1..], key, v);
    }
  }

  /** `st` with `key` as `rec` has it. */
  function Restored(st: Fields, rec: Fields, key: string): Fields {
    if key in rec then st[key := rec[key]] else st - {key}
  }

  lemma UndoLast(rec: Fields, st: Fields, init: seq<(string, Value)>, f: (string, Value))
    requires !KeyIn(init, f.0)
    ensures UndoChanges(SetAll(st, init + [f]), ChangesFrom(rec, init + [f])) ==
            UndoChanges(SetAll(Restored(st, rec, f.0), init), ChangesFrom(rec, init))
  {
    SetAllSnoc(st, init, f);
    ChangesSnoc(rec, init, f);
    var cs, mid := ChangesFrom(rec, init + [f]), SetAll(st, init);
    assert cs[..|cs| - 1] == ChangesFrom(rec, init);
    SetAllApart(st, init, f.0, if f.0 in rec then rec[f.0] else f.1);
    assert mid[f.0 := f.1] - {f.0} == mid - {f.0};
    assert f.0 in rec ==> mid[f.0 := f.1][f.0 := rec[f.0]] == mid[f.0 := rec[f.0]];
  }

  /** Walking the changes back restores what the fields had, wherever the record written to agreed
      with the one the old values were read from. */
  lemma {:induction false} SetAllUndo(rec: Fields, st: Fields, fields: seq<(string, Value)>, off: set<string>)
    requires DistinctKeys(fields) && st - off == rec - off
    ensures UndoChanges(SetAll(st, fields), ChangesFrom(rec, fields)) - off == rec - off
    decreases |fields|
  {
    if fields != [] {
      var init, f := fields[..|fields| - 1], fields[|fields| - 1];
      assert fields == init + [f];
      assert !KeyIn(init, f.0);
      UndoLast(rec, st, init, f);
      RestoredAgrees(rec, st, f.0, off);
      SetAllUndo(rec, Restored(st, rec, f.0), init, off);
    }
  }

  lemma RestoredAgrees(rec: Fields, st: Fields, key: string, off: set<string>)
    requires st - off == rec - off
    ensures Restored(st, rec, key) - off == rec - off
  {
    var r := Restored(st, rec, key);
    forall k | k !in off && k != key
      ensures (k in r <==> k in rec) && (k in rec ==> r[k] == rec[k])
    {
      assert k in st - off <==> k in st;
      assert k in rec - off <==> k in rec;
      assert k in rec ==> (st - off)[k] == (rec - off)[k];
    }
  }

  lemma {:induction false} SetAllState(rec: Fields, fields: seq<(string, Value)>)
    requires !KeyIn(fields, "transitions")
    ensures StateOf(SetAll(rec, fields)) == SetAll(StateOf(rec), fields)
    decreases |fields|
  {
    if fields != [] {
      TailKeys(fields, "transitions");
      var f := fields[0];
      assert StateOf(rec[f.0 := f.1]) == StateOf(rec)[f.0 := f.1];
      SetAllState(rec[f.0 := f.1], fields[1..]);
    }
  }

  lemma {:induction false} ChangesOfState(rec: Fields, fields: seq<(string, Value)>)
    requires !KeyIn(fields, "transitions")
    ensures ChangesFrom(rec, fields) == ChangesFrom(StateOf(rec), fields)
  {
    if fields != [] {
      TailKeys(fields, "transitions");
      ChangesOfState(rec, fields[1..]);
    }
  }

  /** One transition: the log gains its entry, and the entry replays it. */
  lemma MovedReplays(rec: Fields, t: Transition)
    requires Appendable(rec) && LeavesLog(t.fields)
    ensures LogOf(Moved(rec, t)) == LogOf(rec) + [EntryFor(rec, t)] && Appendable(Moved(rec, t))
    ensures StateOf(Moved(rec, t)) == Redo(StateOf(rec), EntryFor(rec, t))
    ensures "status" in rec ==> "status" in Moved(rec, t)
  {
    var logged := rec["transitions" := Log(LogOf(rec) + [EntryFor(rec, t)])];
    var base := WithStatus(logged, t.toStatus);
    SetAllKeeps(base, t.fields, "transitions");
    SetAllState(base, t.fields);
    assert StateOf(base) == WithStatus(StateOf(rec), t.toStatus);
    SetAllRedo(rec, StateOf(base), t.fields);
    if "status" in rec {
      SetAllGrows(base, t.fields, "status");
    }
  }

  lemma MovedKeepsId(rec: Fields, t: Transition)
    requires !KeyIn(t.fields, "id")
    ensures GetOr(Moved(rec, t), "id") == GetOr(rec, "id") && ("id" in Moved(rec, t) <==> "id" in rec)
  {
    var logged := rec["transitions" := Log(LogOf(rec) + [EntryFor(rec, t)])];
    SetAllKeeps(WithStatus(logged, t.toStatus), t.fields, "id");
  }

  /** One transition walked back: exact unless a status was given to a record without one. */
  lemma MovedUndoes(rec: Fields, t: Transition)
    requires Appendable(rec) && LeavesLog(t.fields)
    ensures Undo(StateOf(Moved(rec, t)), EntryFor(rec, t)) == StateOf(rec)
            <==> t.toStatus == None || "status" in rec
  {
    var st, cs := StateOf(rec), ChangesFrom(rec, t.fields);
    var logged := rec["transitions" := Log(LogOf(rec) + [EntryFor(rec, t)])];
    var base := WithStatus(logged, t.toStatus);
    SetAllState(base, t.fields);
    assert StateOf(base) == WithStatus(st, t.toStatus);
    ChangesOfState(rec, t.fields);
    UndoneStatus(st, t);
    assert "status" in st <==> "status" in rec;
    assert GetOr(st, "status") == GetOr(rec, "status");
  }

  lemma UndoneStatus(st: Fields, t: Transition)
    requires DistinctKeys(t.fields)
    ensures var u := UndoChanges(SetAll(WithStatus(st, t.toStatus), t.fields), ChangesFrom(st, t.fields));
            (if t.toStatus.Some? then u["status" := GetOr(st, "status")] else u) == st
            <==> t.toStatus == None || "status" in st
  {
    var after := WithStatus(st, t.toStatus);
    var u := UndoChanges(SetAll(after, t.fields), ChangesFrom(st, t.fields));
    if t.toStatus.Some? {
      assert after - {"status"} == st - {"status"};
      SetAllUndo(st, after, t.fields, {"status"});
      StatusBack(u, st);
    } else {
      SetAllUndo(st, after, t.fields, {});
      assert u - {} == u && st - {} == st;
    }
  }

  lemma StatusBack(u: Fields, st: Fields)
    requires u - {"status"} == st - {"status"}
    ensures u["status" := GetOr(st, "status")] == st <==> "status" in st
  {
    var r := u["status" := GetOr(st, "status")];
    forall k | k != "status"
      ensures (k in r <==> k in st) && (k in st ==> r[k] == st[k])
    {
      assert k in u - {"status"} <==> k in u;
      assert k in st - {"status"} <==> k in st;
      assert k in st ==> (u - {"status"})[k] == (st - {"status"})[k];
    }
    assert "status" in r;
  }
}
