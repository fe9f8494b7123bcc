/** Filed task-completes, their retraction, and what a release cut makes of them
    (src/otaman_core/task_complete.py, src/otaman_core/release_gate.py). Times are integers;
    the un-tick scan of the git history is an input. */
module Filings {
  import opened Wrappers

  /** Task id to the newest filing time, `None` for a filing of unknown age. */
  type Filed = map<string, Option<int>>

  /** What is known of a task: not filed, filed at an unknown time, or filed at a time. */
  datatype Claim = Absent | Undated | Dated(at: int)

  function ClaimOf(when: Option<int>): Claim {
    if when.Some? then Dated(when.value) else Undated
  }

  function Known(filed: Filed, tid: string): Claim {
    if tid in filed then ClaimOf(filed[tid]) else Absent
  }

  predicate AtMost(a: Claim, b: Claim) {
    match a
    case Absent => true
    case Undated => !b.Absent?
    case Dated(t) => b.Dated? && t <= b.at
  }

  function Join(a: Claim, b: Claim): Claim {
    if AtMost(a, b) then b else a
  }

  // ----- Merging -----

  /** `_merge_newest`. */
  method MergeNewest(dst: Filed, tid: string, when: Option<int>) returns (out: Filed)
    ensures forall x :: Known(out, x) == if x == tid then Join(Known(dst, x), ClaimOf(when)) else Known(dst, x)
  {
    out := dst;
    if tid !in dst {
      out := dst[tid := when];
    } else if when.Some? {
      var prev := dst[tid];
      if prev.None? || when.value > prev.value {
        out := dst[tid := when];
      }
    }
  }

  /** `Join` is the least upper bound of the order absent, undated, dated by age. */
  lemma JoinIsLub(a: Claim, b: Claim, c: Claim)
    ensures AtMost(Join(a, b), c) <==> AtMost(a, c) && AtMost(b, c)
    ensures AtMost(a, b) && AtMost(b, a) <==> a == b
    ensures Join(a, b) == Join(b, a) && Join(Join(a, b), c) == Join(a, Join(b, c)) && Join(a, a) == a
  {
  }

  /** A filings map is its claims. */
  lemma FiledIsClaims(a: Filed, b: Filed)
    requires forall x :: Known(a, x) == Known(b, x)
    ensures a == b
  {
    forall x
      ensures x in a <==> x in b
      ensures x in a ==> a[x] == b[x]
    {
      assert Known(a, x) == Known(b, x);
    }
  }

  // ----- One pass over the bus -----

  /** A bus message: whether it is a task-complete, its change, its time, and the ids each of its
      `Completed` lines names. */
  datatype Message = Message(complete: bool, change: Option<string>, when: Option<int>, lines: seq<set<string>>)

  predicate FilesFor(m: Message, change: string) {
    m.complete && m.change == Some(change)
  }

  predicate NamesTask(lines: seq<set<string>>, tid: string) {
    exists i :: 0 <= i < |lines| && tid in lines[i]
  }

  function ClaimIn(m: Message, change: string, tid: string): Claim {
    if FilesFor(m, change) && NamesTask(m.lines, tid) then ClaimOf(m.when) else Absent
  }

  /** The newest claim any message makes for a task. */
  function Newest(ms: seq<Message>, change: string, tid: string): Claim {
    if ms == [] then Absent else Join(Newest(ms[..|ms| - 1], change, tid), ClaimIn(ms[|ms| - 1], change, tid))
  }

  function Bucket(out: map<string, Filed>, change: string): Filed {
    if change in out then out[change] else map[]
  }

  /** `out` holds, for each change with a task-complete, the newest claim for every task. */
  ghost predicate IsFilings(out: map<string, Filed>, ms: seq<Message>) {
    && (forall change :: change in out <==> exists i :: 0 <= i < |ms| && FilesFor(ms[i], change))
    && (forall change, tid :: Known(Bucket(out, change), tid) == Newest(ms, change, tid))
  }

  method FiledCompleteByChange(ms: seq<Message>) returns (out: map<string, Filed>)
    ensures IsFilings(out, ms)
  {
    out := map[];
    for i := 0 to |ms|
      invariant IsFilings(out, ms[..i])
    {
      var m := ms[i];
      ghost var before := out;
      if m.complete && m.change.Some? {
        var bucket := FileMessage(Bucket(out, m.change.value), m);
        out := out[m.change.value := bucket];
      }
      FiledOne(before, out, ms[..i], m);
      assert ms[..i + 1] == ms[..i] + [m];
    }
    assert ms[..|ms|] == ms;
  }

  /** Both loops over the lines of one message. */
  method FileMessage(bucket: Filed, m: Message) returns (out: Filed)
    ensures forall x :: Known(out, x) ==
                        if NamesTask(m.lines, x) then Join(Known(bucket, x), ClaimOf(m.when)) else Known(bucket, x)
  {
    out := bucket;
    for i := 0 to |m.lines|
      invariant forall x :: Known(out, x) ==
                            if NamesTask(m.lines[..i], x) then Join(Known(bucket, x), ClaimOf(m.when)) else Known(bucket, x)
    {
      ghost var before := out;
      out := FileLine(out, m.lines[i], m.when);
      assert m.lines[..i + 1] == m.lines[..i] + [m.lines[i]];
      forall x
        ensures NamesTask(m.lines[..i + 1], x) <==> NamesTask(m.lines[..i], x) || x in m.lines[i]
      {
        NamesSnoc(m.lines[..i], m.lines[i], x);
      }
    }
    assert m.lines[..|m.lines|] == m.lines;
  }

  method FileLine(bucket: Filed, ids: set<string>, when: Option<int>) returns (out: Filed)
    ensures forall x :: Known(out, x) == if x in ids then Join(Known(bucket, x), ClaimOf(when)) else Known(bucket, x)
  {
    out := bucket;
    var rest := ids;
    while rest != {}
      invariant rest <= ids
      invariant forall x :: Known(out, x) ==
                            if x in ids - rest then Join(Known(bucket, x), ClaimOf(when)) else Known(bucket, x)
    {
      var tid :| tid in rest;
      out := MergeNewest(out, tid, when);
      rest := rest - {tid};
    }
  }

  lemma NamesSnoc(lines: seq<set<string>>, l: set<string>, x: string)
    ensures NamesTask(lines + [l], x) <==> NamesTask(lines, x) || x in l
  {
    if NamesTask(lines, x) {
      var i :| 0 <= i < |lines| && x in lines[i];
      assert x in (lines + [l])[i];
    }
    if x in l {
      assert x in (lines + [l])[|lines|];
    }
  }

  lemma FiledOne(before: map<string, Filed>, after: map<string, Filed>, ms: seq<Message>, m: Message)
    requires IsFilings(before, ms)
    requires forall change :: change in after <==> change in before || FilesFor(m, change)
    requires forall change, x :: Known(Bucket(after, change), x) ==
                                 Join(Known(Bucket(before, change), x), ClaimIn(m, change, x))
    ensures IsFilings(after, ms + [m])
  {
    var all := ms + [m];
    forall change
      ensures change in after <==> exists i :: 0 <= i < |all| && FilesFor(all[i], change)
    {
      if change in before {
        var i :| 0 <= i < |ms| && FilesFor(ms[i], change);
        assert FilesFor(all[i], change);
      }
      assert all[|ms|] == m;
      assert forall i :: 0 <= i < |ms| ==> all[i] == ms[i];
    }
    assert all[..|ms|] == ms;
  }

  // ----- What the filings say -----

  /** A task-complete of the change, with a line that names this task. */
  ghost predicate Completes(m: Message, change: string, tid: string) {
    m.complete && m.change.Some? && m.change.value == change && exists j :: 0 <= j < |m.lines| && tid in m.lines[j]
  }

  lemma {:induction false} NewestMeans(ms: seq<Message>, change: string, tid: string)
    ensures Newest(ms, change, tid).Absent? <==> forall m :: m in ms ==> !Completes(m, change, tid)
    ensures Newest(ms, change, tid).Undated? ==> forall m :: m in ms && Completes(m, change, tid) ==> m.when.None?
    ensures Newest(ms, change, tid).Dated? ==>
              var t := Newest(ms, change, tid).at;
              && (exists m :: m in ms && Completes(m, change, tid) && m.when == Some(t))
              && (forall m :: m in ms && Completes(m, change, tid) && m.when.Some? ==> m.when.value <= t)
  {
    if ms != [] {
      var front, last := ms[..|ms| - 1], ms[|ms| - 1];
      NewestMeans(front, change, tid);
      assert ms == front + [last];
      assert last in ms && forall m :: m in front ==> m in ms;
      assert Completes(last, change, tid) <==> ClaimIn(last, change, tid) != Absent;
    }
  }

  /** The filings, message by message: a change is there exactly when it has a task-complete; a task is
      filed exactly when a line of one names it, at the time of the newest dated one, and undated when none
      is dated. */
  lemma FilingsMean(out: map<string, Filed>, ms: seq<Message>, change: string, tid: string)
    requires IsFilings(out, ms)
    ensures change in out <==> exists m :: m in ms && m.complete && m.change == Some(change)
    ensures var known := Known(Bucket(out, change), tid);
            && (known.Absent? <==> forall m :: m in ms ==> !Completes(m, change, tid))
            && (known.Undated? ==> forall m :: m in ms && Completes(m, change, tid) ==> m.when.None?)
            && (known.Dated? ==>
                  && (exists m :: m in ms && Completes(m, change, tid) && m.when == Some(known.at))
                  && forall m :: m in ms && Completes(m, change, tid) && m.when.Some? ==> m.when.value <= known.at)
  {
    NewestMeans(ms, change, tid);
    Somewhere(ms, change);
    assert forall m :: FilesFor(m, change) <==> m.complete && m.change == Some(change);
  }

  // ----- The order of the scan -----

  lemma {:induction false} NewestIsLub(ms: seq<Message>, change: string, tid: string, c: Claim)
    ensures AtMost(Newest(ms, change, tid), c) <==> forall m :: m in ms ==> AtMost(ClaimIn(m, change, tid), c)
  {
    if ms != [] {
      var front, last := ms[..|ms| - 1], ms[|ms| - 1];
      NewestIsLub(front, change, tid, c);
      JoinIsLub(Newest(front, change, tid), ClaimIn(last, change, tid), c);
      assert ms == front + [last];
    }
  }

  /** The filings do not depend on the order of the scan, nor on a message being read twice. */
  lemma ScanOrderIrrelevant(
      ms: seq<Message>, ms': seq<Message>, out: map<string, Filed>, out': map<string, Filed>)
    requires IsFilings(out, ms) && IsFilings(out', ms')
    requires forall m :: m in ms <==> m in ms'
    ensures out == out'
  {
    forall change
      ensures change in out <==> change in out'
      ensures change in out ==> out[change] == out'[change]
    {
      SameChanges(ms, ms', change);
      forall tid
        ensures Known(Bucket(out, change), tid) == Known(Bucket(out', change), tid)
      {
        SameNewest(ms, ms', change, tid);
      }
      FiledIsClaims(Bucket(out, change), Bucket(out', change));
    }
  }

  lemma SameNewest(ms: seq<Message>, ms': seq<Message>, change: string, tid: string)
    requires forall m :: m in ms <==> m in ms'
    ensures Newest(ms, change, tid) == Newest(ms', change, tid)
  {
    var a, b := Newest(ms, change, tid), Newest(ms', change, tid);
    JoinIsLub(a, b, a);
    NewestIsLub(ms, change, tid, a);
    NewestIsLub(ms, change, tid, b);
    NewestIsLub(ms', change, tid, a);
    NewestIsLub(ms', change, tid, b);
    JoinIsLub(b, b, b);
    JoinIsLub(a, a, a);
  }

  lemma SameChanges(ms: seq<Message>, ms': seq<Message>, change: string)
    requires forall m :: m in ms <==> m in ms'
    ensures (exists i :: 0 <= i < |ms| && FilesFor(ms[i], change)) <==>
            (exists i :: 0 <= i < |ms'| && FilesFor(ms'[i], change))
  {
    Somewhere(ms, change);
    Somewhere(ms', change);
  }

  lemma Somewhere(ms: seq<Message>, change: string)
    ensures (exists i :: 0 <= i < |ms| && FilesFor(ms[i], change)) <==> exists m :: m in ms && FilesFor(m, change)
  {
    if exists m :: m in ms && FilesFor(m, change) {
      var m :| m in ms && FilesFor(m, change);
      var i :| 0 <= i < |ms| && ms[i] == m;
    }
  }

  // ----- Complete or not -----

  const COMPLETED_ALL := "*"

  /** A claim stands against the last un-tick: an undated one loses to any. */
  predicate Stands(c: Claim, untick: Option<int>) {
    match c
    case Absent => false
    case Undated => untick.None?
    case Dated(t) => untick.None? || t >= untick.value
  }

  /** `is_effectively_complete`. */
  predicate EffectivelyComplete(tid: string, filed: Filed, untick: Option<int>, honorAll: bool) {
    var key :=
      if tid in filed then Some(tid) else if honorAll && COMPLETED_ALL in filed then Some(COMPLETED_ALL) else None;
    if key.None? then false
    else
      var filedAt := filed[key.value];
      !(untick.Some? && (filedAt.None? || filedAt.value < untick.value))
  }

  /** A task is complete exactly when its own claim, or else the blanket one if that is honored,
      stands against its last un-tick. */
  lemma CompleteMeans(tid: string, filed: Filed, untick: Option<int>, honorAll: bool)
    ensures EffectivelyComplete(tid, filed, untick, honorAll) <==>
            Stands(Known(filed, tid), untick) ||
            (honorAll && Known(filed, tid).Absent? && Stands(Known(filed, "*"), untick))
  {
  }

  // ----- The cut -----

  datatype Status = Eligible | TasksOutstanding | GateUnpassed

  datatype Verdict = Verdict(status: Status, total: nat, complete: int, outstanding: seq<string>, gatePassed: bool)

  /** The last un-tick of each task. */
  type Unticks = string -> Option<int>

  function Outstanding(ids: seq<string>, filed: Filed, unticks: Unticks): seq<string> {
    if ids == [] then []
    else
      (if EffectivelyComplete(ids[0], filed, unticks(ids[0]), false) then [] else [ids[0]])
      + Outstanding(ids[1..], filed, unticks)
  }

  function CutEligibility(ids: seq<string>, filed: Filed, unticks: Unticks, gatePassed: bool): Verdict {
    var outstanding := Outstanding(ids, filed, unticks);
    Verdict(
      if outstanding != [] then TasksOutstanding else if !gatePassed then GateUnpassed else Eligible,
      |ids|, |ids| - |outstanding|, outstanding, gatePassed)
  }

  lemma {:induction false} OutstandingMembers(ids: seq<string>, filed: Filed, unticks: Unticks)
    ensures forall t :: t in Outstanding(ids, filed, unticks) <==> t in ids && !Stands(Known(filed, t), unticks(t))
    ensures |Outstanding(ids, filed, unticks)| <= |ids|
  {
    if ids != [] {
      OutstandingMembers(ids[1..], filed, unticks);
      CompleteMeans(ids[0], filed, unticks(ids[0]), false);
      assert ids == [ids[0]] + ids[1..];
    }
  }

  /** Eligible means: the gate passed, and every task has a filing of its own that stands. The
      status names the nearest blocker, and the counts add up. */
  lemma CutMeans(ids: seq<string>, filed: Filed, unticks: Unticks, gatePassed: bool)
    ensures var v := CutEligibility(ids, filed, unticks, gatePassed);
            && (v.status == Eligible <==> gatePassed && forall t :: t in ids ==> Stands(Known(filed, t), unticks(t)))
            && (v.status == TasksOutstanding <==> exists t :: t in ids && !Stands(Known(filed, t), unticks(t)))
            && (forall t :: t in v.outstanding <==> t in ids && !Stands(Known(filed, t), unticks(t)))
            && 0 <= v.complete && v.complete + |v.outstanding| == v.total
  {
    var out := Outstanding(ids, filed, unticks);
    OutstandingMembers(ids, filed, unticks);
    if out != [] {
      assert out[0] in out;
    }
  }

  lemma {:induction false} OutstandingSame(ids: seq<string>, a: Filed, b: Filed, unticks: Unticks)
    requires forall t :: t in ids ==> Known(a, t) == Known(b, t)
    ensures Outstanding(ids, a, unticks) == Outstanding(ids, b, unticks)
  {
    if ids != [] {
      assert ids[0] in ids && forall t :: t in ids[1..] ==> t in ids;
      OutstandingSame(ids[1..], a, b, unticks);
      CompleteMeans(ids[0], a, unticks(ids[0]), false);
      CompleteMeans(ids[0], b, unticks(ids[0]), false);
    }
  }

  lemma SentinelMatters(ids: seq<string>) returns (filed: Filed, unticks: Unticks)
    requires COMPLETED_ALL in ids
    ensures CutEligibility(ids, filed, unticks, true) != CutEligibility(ids, filed - {COMPLETED_ALL}, unticks, true)
  {
    filed := map t | t in ids :: None;
    unticks := (t: string) => None;
    CutMeans(ids, filed, unticks, true);
    CutMeans(ids, filed - {COMPLETED_ALL}, unticks, true);
    assert forall t :: t in ids ==> Stands(Known(filed, t), unticks(t));
    assert !Stands(Known(filed - {COMPLETED_ALL}, COMPLETED_ALL), unticks(COMPLETED_ALL));
  }

  lemma SentinelIgnored(ids: seq<string>, filed: Filed, unticks: Unticks, gatePassed: bool)
    requires COMPLETED_ALL !in ids
    ensures CutEligibility(ids, filed, unticks, gatePassed) ==
            CutEligibility(ids, filed - {COMPLETED_ALL}, unticks, gatePassed)
  {
    OutstandingSame(ids, filed, filed - {COMPLETED_ALL}, unticks);
  }

  /** A blanket filing never matters to a cut, exactly because no task is named like one. */
  lemma AllNeverMatters(ids: seq<string>)
    ensures COMPLETED_ALL !in ids <==>
            forall filed: Filed, unticks: Unticks, gatePassed: bool ::
              CutEligibility(ids, filed, unticks, gatePassed) ==
              CutEligibility(ids, filed - {COMPLETED_ALL}, unticks, gatePassed)
  {
    if COMPLETED_ALL in ids {
      var filed, unticks := SentinelMatters(ids);
    } else {
      forall filed: Filed, unticks: Unticks, gatePassed: bool
        ensures CutEligibility(ids, filed, unticks, gatePassed) ==
                CutEligibility(ids, filed - {COMPLETED_ALL}, unticks, gatePassed)
      {
        SentinelIgnored(ids, filed, unticks, gatePassed);
      }
    }
  }

  /** Claims only ever gain: what stood before still stands. */
  lemma StandsMonotone(a: Claim, b: Claim, untick: Option<int>)
    requires AtMost(a, b) && Stands(a, untick)
    ensures Stands(b, untick)
  {
  }

  /** One more message on the bus never makes an eligible change ineligible. */
  lemma FilingKeepsEligible(
      ms: seq<Message>, m: Message, before: map<string, Filed>, after: map<string, Filed>,
      change: string, ids: seq<string>, unticks: Unticks, gatePassed: bool)
    requires IsFilings(before, ms) && IsFilings(after, ms + [m])
    requires CutEligibility(ids, Bucket(before, change), unticks, gatePassed).status == Eligible
    ensures CutEligibility(ids, Bucket(after, change), unticks, gatePassed).status == Eligible
  {
    CutMeans(ids, Bucket(before, change), unticks, gatePassed);
    CutMeans(ids, Bucket(after, change), unticks, gatePassed);
    forall t | t in ids
      ensures Stands(Known(Bucket(after, change), t), unticks(t))
    {
      assert (ms + [m])[..|ms|] == ms;
      JoinIsLub(Newest(ms, change, t), ClaimIn(m, change, t), Newest(ms + [m], change, t));
      StandsMonotone(Newest(ms, change, t), Newest(ms + [m], change, t), unticks(t));
    }
  }
}
