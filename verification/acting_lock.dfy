/** The acting-session lock: every interleaving of the atomic steps that acquirers,
    releasers, probes and crashes take on the files of one lock key
    (src/otaman_core/acting_lock.py). */
module ActingLocks {
  import opened Wrappers

  /** One call of `acquire` or `probe`, made by a process; it has its own descriptor. */
  datatype Call = Call(pid: nat, number: nat)

  /** What reading the sidecar tells: nothing (`None`), the record of a session before this run,
      or the record of a call of it. */
  datatype Report = Nobody | Earlier | Named(writer: Call)

  /** How far a call has come. */
  datatype Phase =
    // acquire
    | Opened     // the lock file is open, flock not tried yet
    | Contended  // flock failed
    | Turned     // ... and the descriptor is closed
    | Refused(holder: Report) // the sidecar is read and ActingLockHeld raised with it
    | Locked     // flock succeeded
    | Staging    // the sidecar's temporary file is being written
    | Staged     // ... and is complete
    | Held       // os.replace done, an ActingLock returned
    | Leaked     // writing the sidecar raised: descriptor open, no ActingLock
    // release
    | Closed     // descriptor closed, sidecars still there
    | InfoTried  // .info unlinked, or its unlinking failed
    | Released   // the same for .preempt
    // probe
    | ProbeSeen   // the lock file is there
    | ProbeOpened
    | ProbeTaken  // flock succeeded
    | ProbeBusy   // flock failed
    | ProbeTold(told: Report) // flock undone, or the sidecar read: the answer is known
    | Probed(answer: Report)  // descriptor closed, answer given
    // the process died
    | Dead

  /** The content of a sidecar file; `Old` is a record from before this run. */
  datatype Content = Absent | Torn | Old | Of(writer: Call)

  /** `_read_json` of a sidecar. */
  function Reading(info: Content): Report {
    match info
    case Old => Earlier
    case Of(writer) => Named(writer)
    case _ => Nobody
  }

  /** The kernel lock on the lock file. */
  datatype Lock = Free | By(holder: Call)

  /** The files of one key, the kernel's lock on them, and the calls so far. */
  datatype State = State(
    lockFile: bool,
    flock: Lock,
    info: Content,
    tmp: Content,                // `.info.tmp`
    preempt: bool,
    phases: map<Call, Phase>)

  /** The atomic steps of a call. */
  datatype Kind =
    | Open | TryLock | CloseRefused | ReadHolder
    | BeginStage | EndStage | Install | WriteFails
    | Close
    | UnlinkInfo | KeepInfo         // unlinking .info raised OSError
    | UnlinkPreempt | KeepPreempt
    | ProbeLook | ProbeOpen | ProbeLock | ProbeUnlock | ProbeRead | ProbeClose

  datatype Action =
    | Move(c: Call, kind: Kind)
    | WritePreempt(pid: nat)
    | ClearPreempt(pid: nat)
    | Crash(pid: nat)

  function ActorOf(a: Action): nat {
    if a.Move? then a.c.pid else a.pid
  }

  predicate At(s: State, c: Call, p: Phase) {
    c in s.phases && s.phases[c] == p
  }

  /** The first step of a call. */
  predicate Begins(k: Kind) {
    k == Open || k == ProbeLook
  }

  /** Whether a call that has come to `p` can take a step of this kind. */
  predicate May(p: Phase, k: Kind) {
    match k
    case TryLock => p == Opened
    case CloseRefused => p == Contended
    case ReadHolder => p == Turned
    case BeginStage => p == Locked
    case EndStage => p == Staging
    case Install => p == Staged
    case WriteFails => p == Locked || p == Staging || p == Staged
    case Close => p == Held
    case UnlinkInfo => p == Closed
    case KeepInfo => p == Closed
    case UnlinkPreempt => p == InfoTried
    case KeepPreempt => p == InfoTried
    case ProbeOpen => p == ProbeSeen
    case ProbeLock => p == ProbeOpened
    case ProbeUnlock => p == ProbeTaken
    case ProbeRead => p == ProbeBusy
    case ProbeClose => p.ProbeTold?
    case _ => false
  }

  /** When a step can be taken. */
  predicate Enabled(s: State, a: Action) {
    a.Move? ==> if Begins(a.kind) then a.c !in s.phases else a.c in s.phases && May(s.phases[a.c], a.kind)
  }

  /** How far the step brings its call. */
  function NextPhase(s: State, c: Call, k: Kind): Phase {
    match k
    case Open => Opened
    case TryLock => if s.flock == Free then Locked else Contended
    case CloseRefused => Turned
    case ReadHolder => Refused(Reading(s.info))
    case BeginStage => Staging
    case EndStage => Staged
    case Install => Held
    case WriteFails => Leaked
    case Close => Closed
    case UnlinkInfo => InfoTried
    case KeepInfo => InfoTried
    case UnlinkPreempt => Released
    case KeepPreempt => Released
    case ProbeLook => if s.lockFile then ProbeSeen else Probed(Nobody)
    case ProbeOpen => ProbeOpened
    case ProbeLock => if s.flock == Free then ProbeTaken else ProbeBusy
    case ProbeUnlock => ProbeTold(Nobody)
    case ProbeRead => ProbeTold(Reading(s.info))
    case ProbeClose => Probed(if c in s.phases && s.phases[c].ProbeTold? then s.phases[c].told else Nobody)
  }

  /** What the step does to the kernel lock. */
  function NextLock(s: State, c: Call, k: Kind): Lock {
    if k == TryLock || k == ProbeLock then if s.flock == Free then By(c) else s.flock
    else if k == Close || k == ProbeUnlock then if s.flock == By(c) then Free else s.flock
    else s.flock
  }

  /** What the step does to the sidecar. */
  function NextInfo(s: State, k: Kind): Content {
    if k == Install then s.tmp else if k == UnlinkInfo then Absent else s.info
  }

  function NextTmp(s: State, c: Call, k: Kind): Content {
    if k == BeginStage then Torn else if k == EndStage then Of(c) else if k == Install then Absent else s.tmp
  }

  function Moved(s: State, c: Call, k: Kind): State {
    State(s.lockFile || k == Open, NextLock(s, c, k), NextInfo(s, k), NextTmp(s, c, k),
          s.preempt && k != UnlinkPreempt, s.phases[c := NextPhase(s, c, k)])
  }

  /** The process dies: the kernel takes its locks, its files stay. */
  function Crashed(s: State, pid: nat): State {
    s.(flock := if s.flock.By? && s.flock.holder.pid == pid then Free else s.flock,
       phases := map c | c in s.phases :: if c.pid == pid then Dead else s.phases[c])
  }

  function Step(s: State, a: Action): State
    requires Enabled(s, a)
  {
    match a
    case Move(c, k) => Moved(s, c, k)
    case WritePreempt(_) => s.(preempt := true)
    case ClearPreempt(_) => s.(preempt := false)
    case Crash(pid) => Crashed(s, pid)
  }

  /** Files left over from earlier sessions are allowed: nobody runs yet. */
  predicate Init(s: State) {
    s.flock == Free && s.phases == map[] && !s.info.Of?
  }

  /** The preempt marker is set by those who ask for the lock alone, and goes with the marker's own removal
      or with a release alone. */
  lemma PreemptChanges(s: State, a: Action)
    requires Enabled(s, a)
    ensures a.WritePreempt? ==> Step(s, a).preempt
    ensures a.ClearPreempt? ==> !Step(s, a).preempt
    ensures !s.preempt && Step(s, a).preempt ==> a.WritePreempt?
    ensures s.preempt && !Step(s, a).preempt ==> a.ClearPreempt? || (a.Move? && a.kind == UnlinkPreempt)
  {
  }

  predicate Runs(s: State, acts: seq<Action>)
    decreases |acts|
  {
    acts == [] || (Enabled(s, acts[0]) && Runs(Step(s, acts[0]), acts[1..]))
  }

  function After(s: State, acts: seq<Action>): State
    requires Runs(s, acts)
    decreases |acts|
  {
    if acts == [] then s else After(Step(s, acts[0]), acts[1..])
  }

  lemma RunCons(s: State, a: Action, acts: seq<Action>)
    requires Enabled(s, a) && Runs(Step(s, a), acts)
    ensures Runs(s, [a] + acts) && After(s, [a] + acts) == After(Step(s, a), acts)
  {
    assert ([a] + acts)[1..] == acts;
  }

  // ----- What every step keeps -----

  /** Phases in which a call's descriptor has the kernel lock. */
  predicate Locking(p: Phase) {
    p == Locked || p == Staging || p == Staged || p == Held || p == Leaked || p == ProbeTaken
  }

  /** Phases in which a call has put its own sidecar in place. */
  predicate Installed(p: Phase) {
    p == Held || p == Closed || p == InfoTried || p == Released || p == Dead
  }

  /** The kernel lock is with the one call in a locking phase. */
  ghost predicate LockInv(s: State) {
    && (forall c :: c in s.phases ==> (Locking(s.phases[c]) <==> s.flock == By(c)))
    && (s.flock.By? ==> s.flock.holder in s.phases)
  }

  /** A staged record is its writer's, and a holder's sidecar is its own or missing. */
  ghost predicate SidecarInv(s: State) {
    && (forall c :: At(s, c, Staged) ==> s.tmp == Of(c))
    && (forall c :: At(s, c, Held) ==> s.info == Absent || s.info == Of(c))
  }

  /** A sidecar of this run was put in place by its writer. */
  predicate WriterInv(s: State) {
    s.info.Of? ==> s.info.writer in s.phases && Installed(s.phases[s.info.writer])
  }

  /** Without a lock file there have only been probes that found none. */
  predicate FileInv(s: State) {
    !s.lockFile ==> s.flock == Free && forall c :: c in s.phases ==> s.phases[c].Probed? || s.phases[c].Dead?
  }

  ghost predicate Inv(s: State) {
    LockInv(s) && SidecarInv(s) && WriterInv(s) && FileInv(s)
  }

  /** A step of `c` gives and takes the lock with its phase, and leaves other owners alone. */
  lemma MovedOwner(s: State, c: Call, k: Kind)
    requires LockInv(s) && Enabled(s, Move(c, k))
    ensures Locking(NextPhase(s, c, k)) <==> NextLock(s, c, k) == By(c)
    ensures forall d :: d != c ==> (NextLock(s, c, k) == By(d) <==> s.flock == By(d))
  {
  }

  lemma StepLock(s: State, a: Action)
    requires LockInv(s) && Enabled(s, a)
    ensures LockInv(Step(s, a))
  {
    if a.Move? {
      MovedOwner(s, a.c, a.kind);
    }
  }

  lemma StepSidecar(s: State, a: Action)
    requires LockInv(s) && SidecarInv(s) && Enabled(s, a)
    ensures SidecarInv(Step(s, a))
  {
    StepLock(s, a);
    var t := Step(s, a);
    forall c | At(t, c, Staged)
      ensures t.tmp == Of(c)
    {
      assert Locking(t.phases[c]);
    }
    forall c | At(t, c, Held)
      ensures t.info == Absent || t.info == Of(c)
    {
      assert Locking(t.phases[c]);
    }
  }

  lemma InstalledStays(s: State, a: Action, c: Call)
    requires Enabled(s, a) && c in s.phases && Installed(s.phases[c])
    ensures c in Step(s, a).phases && Installed(Step(s, a).phases[c])
  {
  }

  lemma StepWriter(s: State, a: Action)
    requires SidecarInv(s) && WriterInv(s) && Enabled(s, a)
    ensures WriterInv(Step(s, a))
  {
    if a.Move? && a.kind == Install {
      assert s.tmp == Of(a.c);
    } else if s.info.Of? {
      InstalledStays(s, a, s.info.writer);
    }
  }

  lemma StepFile(s: State, a: Action)
    requires FileInv(s) && Enabled(s, a)
    ensures FileInv(Step(s, a))
  {
  }

  lemma StepKeeps(s: State, a: Action)
    requires Inv(s) && Enabled(s, a)
    ensures Inv(Step(s, a))
  {
    StepLock(s, a);
    StepSidecar(s, a);
    StepWriter(s, a);
    StepFile(s, a);
  }

  lemma {:induction false} RunKeeps(s: State, acts: seq<Action>)
    requires Inv(s) && Runs(s, acts)
    ensures Inv(After(s, acts))
    decreases |acts|
  {
    if acts != [] {
      StepKeeps(s, acts[0]);
      RunKeeps(Step(s, acts[0]), acts[1..]);
    }
  }

  /** In every interleaving at most one un-released `ActingLock` exists, and its sidecar
      is its own record or is missing: never another's, never half written. */
  lemma LockSafety(s: State, acts: seq<Action>)
    requires Init(s) && Runs(s, acts)
    ensures var t := After(s, acts);
            && (forall c, d :: At(t, c, Held) && At(t, d, Held) ==> c == d)
            && (forall c :: At(t, c, Held) ==> t.flock == By(c) && (t.info == Absent || t.info == Of(c)))
  {
    RunKeeps(s, acts);
  }

  // ----- Losing the sidecar -----

  /** Some release has closed its descriptor and not yet unlinked the sidecar. */
  ghost predicate ReleaseInFlight(s: State) {
    exists d :: At(s, d, Closed)
  }

  /** Only the late unlink of an earlier release can take a holder's sidecar away. */
  lemma SidecarLostOnlyByRelease(s: State, a: Action, c: Call)
    requires Inv(s) && Enabled(s, a)
    requires At(s, c, Held) && s.info == Of(c)
    requires At(Step(s, a), c, Held) && Step(s, a).info != Of(c)
    ensures a.Move? && a.kind == UnlinkInfo && a.c != c && At(s, a.c, Closed) && Step(s, a).info == Absent
  {
  }

  /** `c` has the lock, no release is in flight, and its sidecar is in place once written. */
  ghost predicate CleanHold(s: State, c: Call) {
    && s.flock == By(c)
    && !ReleaseInFlight(s)
    && (At(s, c, Held) ==> s.info == Of(c))
  }

  predicate StillHolding(s: State, c: Call) {
    At(s, c, Locked) || At(s, c, Staging) || At(s, c, Staged) || At(s, c, Held)
  }

  lemma OnlyCloseCloses(s: State, a: Action, d: Call)
    requires Enabled(s, a) && At(Step(s, a), d, Closed)
    ensures At(s, d, Closed) || a == Move(d, Close)
  {
    if a.Move? && a.c == d {
      assert NextPhase(s, a.c, a.kind) == Closed;
    }
  }

  lemma CloseByHolder(s: State, a: Action)
    requires Inv(s) && Enabled(s, a)
    ensures a.Move? && a.kind == Close ==> s.flock == By(a.c)
  {
    if a.Move? && a.kind == Close {
      assert Locking(s.phases[a.c]);
    }
  }

  lemma CleanHoldKept(s: State, a: Action, c: Call)
    requires Inv(s) && Enabled(s, a) && CleanHold(s, c) && StillHolding(s, c)
    requires StillHolding(Step(s, a), c)
    ensures CleanHold(Step(s, a), c)
  {
    var t := Step(s, a);
    CloseByHolder(s, a);
    forall d | At(t, d, Closed)
      ensures At(s, d, Closed)
    {
      OnlyCloseCloses(s, a, d);
    }
    InfoKept(s, a, c);
  }

  /** The sidecar of a holder stays, or is its own, unless a release in flight unlinks it. */
  lemma InfoKept(s: State, a: Action, c: Call)
    requires Inv(s) && Enabled(s, a) && CleanHold(s, c) && StillHolding(s, c)
    ensures At(Step(s, a), c, Held) ==> Step(s, a).info == Of(c)
  {
    InfoSource(s, a);
    if At(Step(s, a), c, Held) {
      HeldBefore(s, a, c);
    }
  }

  /** The sidecar changes when its owner installs it or a release unlinks it. */
  lemma InfoSource(s: State, a: Action)
    requires Inv(s) && Enabled(s, a)
    ensures a.Move? && a.kind == Install ==> s.flock == By(a.c) && Step(s, a).info == Of(a.c)
    ensures a.Move? && a.kind == UnlinkInfo ==> ReleaseInFlight(s)
    ensures (a.Move? && (a.kind == Install || a.kind == UnlinkInfo)) || Step(s, a).info == s.info
  {
    if a.Move? && a.kind == Install {
      assert Locking(s.phases[a.c]) && s.tmp == Of(a.c);
    } else if a.Move? && a.kind == UnlinkInfo {
      assert At(s, a.c, Closed);
    }
  }

  lemma HeldBefore(s: State, a: Action, c: Call)
    requires Enabled(s, a) && At(Step(s, a), c, Held)
    ensures At(s, c, Held) || a == Move(c, Install)
  {
    if a.Move? && a.c == c {
      assert NextPhase(s, a.c, a.kind) == Held;
    }
  }

  lemma HeldNoMore(s: State, a: Action, c: Call)
    requires Enabled(s, a) && c in s.phases && !StillHolding(s, c) && s.phases[c] != Opened
    ensures c in Step(s, a).phases && !StillHolding(Step(s, a), c) && Step(s, a).phases[c] != Opened
  {
  }

  /** Once a call has left the locking phases of `acquire` it never comes back to them. */
  lemma {:induction false} HoldingWasHolding(s: State, acts: seq<Action>, c: Call)
    requires Runs(s, acts) && c in s.phases && !StillHolding(s, c) && s.phases[c] != Opened
    ensures !StillHolding(After(s, acts), c)
    decreases |acts|
  {
    if acts != [] {
      HeldNoMore(s, acts[0], c);
      HoldingWasHolding(Step(s, acts[0]), acts[1..], c);
    }
  }

  lemma {:induction false} CleanRun(s: State, acts: seq<Action>, c: Call)
    requires Inv(s) && Runs(s, acts) && CleanHold(s, c) && StillHolding(s, c)
    ensures At(After(s, acts), c, Held) ==> After(s, acts).info == Of(c)
    decreases |acts|
  {
    if acts != [] {
      var t := Step(s, acts[0]);
      StepKeeps(s, acts[0]);
      if StillHolding(t, c) {
        CleanHoldKept(s, acts[0], c);
        CleanRun(t, acts[1..], c);
      } else {
        HoldingWasHolding(t, acts[1..], c);
      }
    }
  }

  /** The run that loses the sidecar: a release in flight unlinks it after it was installed. */
  lemma LosingRun(s: State, c: Call, d: Call)
    requires At(s, c, Locked) && At(s, d, Closed)
    ensures var acts := [Move(c, BeginStage), Move(c, EndStage), Move(c, Install), Move(d, UnlinkInfo)];
            Runs(s, acts) && At(After(s, acts), c, Held) && After(s, acts).info == Absent
  {
    var s1 := Step(s, Move(c, BeginStage));
    var s2 := Step(s1, Move(c, EndStage));
    var s3 := Step(s2, Move(c, Install));
    RunCons(s3, Move(d, UnlinkInfo), []);
    RunCons(s2, Move(c, Install), [Move(d, UnlinkInfo)]);
    RunCons(s1, Move(c, EndStage), [Move(c, Install), Move(d, UnlinkInfo)]);
    RunCons(s, Move(c, BeginStage), [Move(c, EndStage), Move(c, Install), Move(d, UnlinkInfo)]);
    assert [Move(d, UnlinkInfo)] + [] == [Move(d, UnlinkInfo)];
    assert [Move(c, Install)] + [Move(d, UnlinkInfo)] == [Move(c, Install), Move(d, UnlinkInfo)];
    assert [Move(c, EndStage)] + [Move(c, Install), Move(d, UnlinkInfo)] ==
           [Move(c, EndStage), Move(c, Install), Move(d, UnlinkInfo)];
    assert [Move(c, BeginStage)] + [Move(c, EndStage), Move(c, Install), Move(d, UnlinkInfo)] ==
           [Move(c, BeginStage), Move(c, EndStage), Move(c, Install), Move(d, UnlinkInfo)];
  }

  /** A holder is sure to keep its sidecar, whatever happens, exactly when no release was
      in flight as it took the lock. */
  lemma SidecarKeptIff(s: State, c: Call)
    requires Inv(s) && At(s, c, Locked)
    ensures (forall acts :: Runs(s, acts) && At(After(s, acts), c, Held) ==> After(s, acts).info == Of(c))
            <==> !ReleaseInFlight(s)
  {
    if !ReleaseInFlight(s) {
      forall acts | Runs(s, acts) && At(After(s, acts), c, Held) ensures After(s, acts).info == Of(c) {
        CleanRun(s, acts, c);
      }
    } else {
      var d :| At(s, d, Closed);
      LosingRun(s, c, d);
    }
  }

  // ----- Acquiring again -----

  /** Whoever has the lock, the death of its process frees it, and the next call gets it. */
  lemma CrashFrees(s: State, acts: seq<Action>, pid: nat, c: Call)
    requires Init(s) && Runs(s, acts)
    requires c !in After(s, acts).phases && c.pid != pid
    ensures var t := After(s, acts);
            t.flock == Free || t.flock.holder.pid == pid ==>
              Runs(t, [Crash(pid), Move(c, Open), Move(c, TryLock)]) &&
              At(After(t, [Crash(pid), Move(c, Open), Move(c, TryLock)]), c, Locked)
  {
    var t := After(s, acts);
    var t1 := Step(t, Crash(pid));
    var t2 := Step(t1, Move(c, Open));
    RunCons(t2, Move(c, TryLock), []);
    RunCons(t1, Move(c, Open), [Move(c, TryLock)]);
    RunCons(t, Crash(pid), [Move(c, Open), Move(c, TryLock)]);
    assert [Move(c, TryLock)] + [] == [Move(c, TryLock)];
    assert [Move(c, Open)] + [Move(c, TryLock)] == [Move(c, Open), Move(c, TryLock)];
    assert [Crash(pid)] + [Move(c, Open), Move(c, TryLock)] == [Crash(pid), Move(c, Open), Move(c, TryLock)];
  }

  /** Acquiring fails only while another call has the lock: an acquirer, a holder, a call
      whose sidecar write failed, or a probe in passing. */
  lemma RefusedOnlyWhenTaken(s: State, c: Call)
    requires Inv(s) && At(s, c, Opened)
    ensures At(Step(s, Move(c, TryLock)), c, Contended) <==>
            exists d :: d != c && d in s.phases && Locking(s.phases[d])
  {
    if At(Step(s, Move(c, TryLock)), c, Contended) {
      assert Locking(s.phases[s.flock.holder]);
    }
  }

  // ----- What a refusal and a probe report -----

  /** The state in which `c` tried the lock; for a probe that found no lock file, the state in
      which it looked. */
  function AskedIn(s: State, acts: seq<Action>, c: Call): Option<State>
    requires Runs(s, acts)
    decreases |acts|
  {
    if acts == [] then None
    else if acts[0] == Move(c, TryLock) || acts[0] == Move(c, ProbeLock) then Some(s)
    else if acts[0] == Move(c, ProbeLook) && !s.lockFile then Some(s)
    else AskedIn(Step(s, acts[0]), acts[1..], c)
  }

  /** The state in which `c` read the sidecar. */
  function ReadIn(s: State, acts: seq<Action>, c: Call): Option<State>
    requires Runs(s, acts)
    decreases |acts|
  {
    if acts == [] then None
    else if acts[0] == Move(c, ReadHolder) || acts[0] == Move(c, ProbeRead) then Some(s)
    else ReadIn(Step(s, acts[0]), acts[1..], c)
  }

  /** `r` is what the sidecar told when `c` read it. */
  ghost predicate Told(s: State, acts: seq<Action>, c: Call, r: Report)
    requires Runs(s, acts)
  {
    var read := ReadIn(s, acts, c);
    read.Some? && Inv(read.value) && r == Reading(read.value.info)
  }

  /** A free lock is answered with nobody, a taken one with what the sidecar told. */
  ghost predicate Answered(s: State, acts: seq<Action>, c: Call, r: Report)
    requires Runs(s, acts)
  {
    var asked := AskedIn(s, acts, c);
    asked.Some? && if asked.value.flock == Free then r == Nobody else Told(s, acts, c, r)
  }

  /** What is known of the answer `r` of probe `p` while it is under way. */
  ghost predicate ProbeStory(s: State, acts: seq<Action>, p: Call, r: Report)
    requires Runs(s, acts)
  {
    if p !in s.phases then Answered(s, acts, p, r)
    else
      match s.phases[p]
      case ProbeSeen => Answered(s, acts, p, r)
      case ProbeOpened => Answered(s, acts, p, r)
      case ProbeBusy => Told(s, acts, p, r)
      case ProbeTaken => r == Nobody
      case ProbeTold(told) => r == told
      case Probed(answer) => r == answer
      case _ => false
  }

  /** Nobody else's step moves a call, except that its process dies. */
  lemma OthersPhase(s: State, a: Action, c: Call)
    requires Enabled(s, a) && (!a.Move? || a.c != c)
    ensures c in s.phases <==> c in Step(s, a).phases
    ensures c in s.phases ==> Step(s, a).phases[c] == s.phases[c] || Step(s, a).phases[c] == Dead
  {
  }

  lemma OthersStory(s: State, acts: seq<Action>, p: Call, r: Report)
    requires Runs(s, acts) && acts != [] && (!acts[0].Move? || acts[0].c != p)
    requires ProbeStory(Step(s, acts[0]), acts[1..], p, r)
    ensures ProbeStory(s, acts, p, r)
  {
    var a, t := acts[0], Step(s, acts[0]);
    assert AskedIn(s, acts, p) == AskedIn(t, acts[1..], p) && ReadIn(s, acts, p) == ReadIn(t, acts[1..], p);
    OthersPhase(s, a, p);
  }

  lemma OwnStory(s: State, acts: seq<Action>, p: Call, r: Report)
    requires Inv(s) && Runs(s, acts) && acts != [] && acts[0].Move? && acts[0].c == p
    requires ProbeStory(Step(s, acts[0]), acts[1..], p, r)
    ensures ProbeStory(s, acts, p, r)
  {
    var a, t := acts[0], Step(s, acts[0]);
    assert t.phases[p] == NextPhase(s, a.c, a.kind);
  }

  lemma {:induction false} ProbeComes(s: State, acts: seq<Action>, p: Call, r: Report)
    requires Inv(s) && Runs(s, acts) && At(After(s, acts), p, Probed(r))
    ensures ProbeStory(s, acts, p, r)
    decreases |acts|
  {
    if acts != [] {
      StepKeeps(s, acts[0]);
      ProbeComes(Step(s, acts[0]), acts[1..], p, r);
      if !acts[0].Move? || acts[0].c != p {
        OthersStory(s, acts, p, r);
      } else {
        OwnStory(s, acts, p, r);
      }
    }
  }

  predicate Probing(p: Phase) {
    p == ProbeSeen || p == ProbeOpened || p == ProbeTaken || p == ProbeBusy || p.ProbeTold? || p.Probed?
  }

  /** In every run a probe answers that nobody has the lock exactly when the lock was free as it
      asked, or the sidecar was missing or torn as it read; otherwise it names whoever wrote it. */
  lemma ProbeAnswers(s: State, acts: seq<Action>, p: Call, r: Report)
    requires Init(s) && Runs(s, acts) && At(After(s, acts), p, Probed(r))
    ensures Answered(s, acts, p, r)
    ensures r == Nobody <==>
            AskedIn(s, acts, p).value.flock == Free || Reading(ReadIn(s, acts, p).value.info) == Nobody
  {
    ProbeComes(s, acts, p, r);
  }

  /** What is known of the report `r` of a refused acquirer while it is under way. */
  ghost predicate RefusalStory(s: State, acts: seq<Action>, c: Call, r: Report)
    requires Runs(s, acts)
  {
    if c !in s.phases || s.phases[c] == Opened then
      AskedIn(s, acts, c).Some? && AskedIn(s, acts, c).value.flock != Free && Told(s, acts, c, r)
    else if s.phases[c] == Contended || s.phases[c] == Turned then Told(s, acts, c, r)
    else s.phases[c] == Refused(r)
  }

  lemma OthersRefusal(s: State, acts: seq<Action>, c: Call, r: Report)
    requires Runs(s, acts) && acts != [] && (!acts[0].Move? || acts[0].c != c)
    requires RefusalStory(Step(s, acts[0]), acts[1..], c, r)
    ensures RefusalStory(s, acts, c, r)
  {
    var t := Step(s, acts[0]);
    assert AskedIn(s, acts, c) == AskedIn(t, acts[1..], c) && ReadIn(s, acts, c) == ReadIn(t, acts[1..], c);
    OthersPhase(s, acts[0], c);
  }

  lemma OwnRefusal(s: State, acts: seq<Action>, c: Call, r: Report)
    requires Inv(s) && Runs(s, acts) && acts != [] && acts[0].Move? && acts[0].c == c
    requires RefusalStory(Step(s, acts[0]), acts[1..], c, r)
    ensures RefusalStory(s, acts, c, r)
  {
    assert Step(s, acts[0]).phases[c] == NextPhase(s, c, acts[0].kind);
  }

  lemma {:induction false} RefusalComes(s: State, acts: seq<Action>, c: Call, r: Report)
    requires Inv(s) && Runs(s, acts) && At(After(s, acts), c, Refused(r))
    ensures RefusalStory(s, acts, c, r)
    decreases |acts|
  {
    if acts != [] {
      StepKeeps(s, acts[0]);
      RefusalComes(Step(s, acts[0]), acts[1..], c, r);
      if !acts[0].Move? || acts[0].c != c {
        OthersRefusal(s, acts, c, r);
      } else {
        OwnRefusal(s, acts, c, r);
      }
    }
  }

  /** In every run a refused acquirer found the lock taken, and reports what the sidecar told later. */
  lemma RefusalReports(s: State, acts: seq<Action>, c: Call, r: Report)
    requires Init(s) && Runs(s, acts) && At(After(s, acts), c, Refused(r))
    ensures AskedIn(s, acts, c).Some? && AskedIn(s, acts, c).value.flock != Free && Told(s, acts, c, r)
  {
    RefusalComes(s, acts, c, r);
  }

  /** The call that the sidecar names has the kernel lock exactly when some acquire that has
      returned has it: not one that still writes its sidecar or failed to, and not a probe. */
  lemma NamedIsHolder(s: State, w: Call)
    requires Inv(s) && Reading(s.info) == Named(w)
    ensures s.flock == By(w) <==> exists h :: At(s, h, Held)
  {
    if s.flock == By(w) {
      assert At(s, w, Held);
    }
  }

  /** So whoever a probe or a refusal names had the lock as the sidecar was read, exactly when an
      acquire that had returned had it. */
  lemma ReportedIsHolder(s: State, acts: seq<Action>, c: Call, w: Call)
    requires Init(s) && Runs(s, acts)
    requires At(After(s, acts), c, Refused(Named(w))) || At(After(s, acts), c, Probed(Named(w)))
    ensures ReadIn(s, acts, c).Some?
    ensures ReadIn(s, acts, c).value.flock == By(w) <==> exists h :: At(ReadIn(s, acts, c).value, h, Held)
  {
    if At(After(s, acts), c, Refused(Named(w))) {
      RefusalReports(s, acts, c, Named(w));
    } else {
      ProbeAnswers(s, acts, c, Named(w));
    }
    NamedIsHolder(ReadIn(s, acts, c).value, w);
  }

  // ----- Runs in which the answers mislead -----

  ghost predicate Reachable(t: State) {
    exists s :: Init(s) && Reaches(s, t)
  }

  lemma ReachableInv(t: State)
    requires Reachable(t)
    ensures Inv(t)
  {
    var s :| Init(s) && Reaches(s, t);
    var acts :| RunTo(s, acts, t);
    RunToIs(s, acts, t);
    RunKeeps(s, acts);
  }

  lemma OwnerIs(t: State, c: Call)
    requires Reachable(t) && c in t.phases
    ensures t.flock == By(c) <==> Locking(t.phases[c])
  {
    ReachableInv(t);
  }

  lemma UnseenFree(t: State)
    requires Reachable(t) && !t.lockFile
    ensures t.flock == Free
  {
    ReachableInv(t);
  }

  lemma Later(t: State, u: State)
    requires Reachable(t) && Reaches(t, u)
    ensures Reachable(u)
  {
    var s :| Init(s) && Reaches(s, t);
    ReachesTrans(s, t, u);
  }

  lemma Start()
    ensures Reachable(State(true, Free, Absent, Absent, false, map[]))
  {
    ReachesSelf(State(true, Free, Absent, Absent, false, map[]));
  }

  lemma Goes(t: State, c: Call, k: Kind) returns (u: State)
    requires Reachable(t) && Enabled(t, Move(c, k))
    ensures Reachable(u) && u == Moved(t, c, k)
  {
    var s :| Init(s) && Reaches(s, t);
    u := Step(t, Move(c, k));
    ReachesStep(t, Move(c, k));
    ReachesTrans(s, t, u);
  }

  lemma LastPhase(m: map<Call, Phase>, c: Call, p: Phase, q: Phase)
    ensures m[c := p][c := q] == m[c := q]
  {
  }

  /** `t` after `c` has taken a free lock. */
  lemma Takes(t: State, c: Call) returns (u: State)
    requires Reachable(t) && c !in t.phases && t.flock == Free
    ensures Reachable(u) && u == t.(lockFile := true, flock := By(c), phases := t.phases[c := Locked])
  {
    LastPhase(t.phases, c, Opened, Locked);
    u := Goes(t, c, Open);
    u := Goes(u, c, TryLock);
  }

  /** `t` after `c` has put its sidecar in place. */
  lemma Writes(t: State, c: Call) returns (u: State)
    requires Reachable(t) && At(t, c, Locked)
    ensures Reachable(u) && u == t.(info := Of(c), tmp := Absent, phases := t.phases[c := Held])
  {
    LastPhase(t.phases, c, Staged, Held);
    u := Stages(t, c);
    u := Goes(u, c, Install);
  }

  lemma Stages(t: State, c: Call) returns (u: State)
    requires Reachable(t) && At(t, c, Locked)
    ensures Reachable(u) && u == t.(tmp := Of(c), phases := t.phases[c := Staged])
  {
    LastPhase(t.phases, c, Staging, Staged);
    u := Goes(t, c, BeginStage);
    u := Goes(u, c, EndStage);
  }

  /** `t` after `p` has looked for the lock file and opened it. */
  lemma Looks(t: State, p: Call) returns (u: State)
    requires Reachable(t) && p !in t.phases && t.lockFile
    ensures Reachable(u) && u == t.(phases := t.phases[p := ProbeOpened])
  {
    LastPhase(t.phases, p, ProbeSeen, ProbeOpened);
    u := Goes(t, p, ProbeLook);
    u := Goes(u, p, ProbeOpen);
  }

  /** `t` after `p` has probed a lock that is taken. */
  lemma Probes(t: State, p: Call) returns (u: State)
    requires Reachable(t) && p !in t.phases && t.lockFile && t.flock.By?
    ensures Reachable(u) && u == t.(phases := t.phases[p := Probed(Reading(t.info))])
  {
    var r := Reading(t.info);
    LastPhase(t.phases, p, ProbeOpened, ProbeTold(r));
    LastPhase(t.phases, p, ProbeTold(r), Probed(r));
    u := Looks(t, p);
    u := Hears(u, p);
    u := Tells(u, p, r);
  }

  lemma Tells(t: State, p: Call, r: Report) returns (u: State)
    requires Reachable(t) && At(t, p, ProbeTold(r))
    ensures Reachable(u) && u == t.(phases := t.phases[p := Probed(r)])
  {
    u := Goes(t, p, ProbeClose);
  }

  lemma Hears(t: State, p: Call) returns (u: State)
    requires Reachable(t) && At(t, p, ProbeOpened) && t.flock.By?
    ensures Reachable(u) && u == t.(phases := t.phases[p := ProbeTold(Reading(t.info))])
  {
    LastPhase(t.phases, p, ProbeBusy, ProbeTold(Reading(t.info)));
    u := Goes(t, p, ProbeLock);
    u := Goes(u, p, ProbeRead);
  }

  /** `t` after `c` has found the lock taken. */
  lemma Meets(t: State, c: Call) returns (u: State)
    requires Reachable(t) && c !in t.phases && t.flock.By? && t.lockFile
    ensures Reachable(u) && u == t.(phases := t.phases[c := Contended])
  {
    LastPhase(t.phases, c, Opened, Contended);
    u := Goes(t, c, Open);
    u := Goes(u, c, TryLock);
  }

  /** A call can take the lock while a release is between its close and its unlink. */
  lemma ReleaseOverlaps(d: Call, h: Call)
    requires d != h
    ensures exists t :: Reachable(t) && At(t, d, Closed) && At(t, h, Locked) && t.info == Of(d)
  {
    var t := Overlapping(d, h);
  }

  lemma Overlapping(d: Call, h: Call) returns (t: State)
    requires d != h
    ensures Reachable(t) && t.phases == map[d := Closed, h := Locked]
    ensures t.lockFile && t.flock == By(h) && t.info == Of(d)
  {
    Start();
    t := Takes(State(true, Free, Absent, Absent, false, map[]), d);
    t := Writes(t, d);
    t := Goes(t, d, Close);
    t := Takes(t, h);
  }

  /** A probe can answer that nobody has the lock while an `ActingLock` is held: the holder has
      lost its sidecar to an earlier release. */
  lemma ProbeBlind(d: Call, h: Call, p: Call)
    requires d != h && h != p && d != p
    ensures exists t :: Reachable(t) && At(t, h, Held) && t.flock == By(h) && At(t, p, Probed(Nobody))
  {
    var t := Overlapping(d, h);
    t := Writes(t, h);
    t := Goes(t, d, UnlinkInfo);
    t := Probes(t, p);
    assert At(t, h, Held) && At(t, p, Probed(Nobody));
  }

  /** A probe can name a session that has crashed while another call has the lock. */
  lemma ProbeNamesDead(d: Call, h: Call, p: Call)
    requires h != p && d.pid != h.pid && d.pid != p.pid
    ensures exists t :: Reachable(t) && At(t, d, Dead) && t.flock == By(h) && At(t, p, Probed(Named(d)))
  {
    Start();
    var t := Takes(State(true, Free, Absent, Absent, false, map[]), d);
    t := Writes(t, d);
    t := Dies(t, d);
    t := Takes(t, h);
    t := Probes(t, p);
    assert At(t, d, Dead) && At(t, p, Probed(Named(d)));
  }

  lemma Dies(t: State, d: Call) returns (u: State)
    requires Reachable(t) && t.phases == map[d := Held] && t.flock == By(d)
    ensures Reachable(u) && u == t.(flock := Free, phases := map[d := Dead])
  {
    var s :| Init(s) && Reaches(s, t);
    u := Step(t, Crash(d.pid));
    ReachesStep(t, Crash(d.pid));
    ReachesTrans(s, t, u);
    assert u.phases == map[d := Dead];
  }

  /** A probe can make an acquirer fail although nobody holds an `ActingLock`. */
  lemma ProbeCanRefuse(c: Call, p: Call)
    requires c != p
    ensures exists t :: Reachable(t) && At(t, c, Contended) && forall d :: !At(t, d, Held) && !At(t, d, Leaked)
  {
    Start();
    var t := Looks(State(true, Free, Absent, Absent, false, map[]), p);
    t := Goes(t, p, ProbeLock);
    assert t.phases == map[p := ProbeTaken];
    t := Meets(t, c);
  }

  /** A probe that is done, or was told the lock is busy, has no lock. */
  lemma ProbeLeavesNoLock(s: State, acts: seq<Action>, p: Call)
    requires Init(s) && Runs(s, acts)
    requires p in After(s, acts).phases && Probing(After(s, acts).phases[p]) && !At(After(s, acts), p, ProbeTaken)
    ensures After(s, acts).flock != By(p)
  {
    RunKeeps(s, acts);
  }

  // ----- The code, with other processes running between any two of its steps -----

  predicate ByOthers(acts: seq<Action>, pid: nat) {
    forall i :: 0 <= i < |acts| ==> ActorOf(acts[i]) != pid
  }

  lemma OthersOne(s: State, a: Action, c: Call)
    requires LockInv(s) && Enabled(s, a) && ActorOf(a) != c.pid && c in s.phases
    ensures At(Step(s, a), c, s.phases[c])
    ensures Step(s, a).flock == By(c) <==> s.flock == By(c)
  {
    if a.Move? {
      MovedOwner(s, a.c, a.kind);
    }
  }

  /** Other processes change neither how far a call has come nor whether it has the lock. */
  lemma {:induction false} OthersLeave(s: State, acts: seq<Action>, c: Call)
    requires Inv(s) && Runs(s, acts) && ByOthers(acts, c.pid) && c in s.phases
    ensures At(After(s, acts), c, s.phases[c]) && (After(s, acts).flock == By(c) <==> s.flock == By(c))
    decreases |acts|
  {
    if acts != [] {
      StepKeeps(s, acts[0]);
      OthersOne(s, acts[0], c);
      assert forall i :: 0 <= i < |acts[1..]| ==> acts[1..][i] == acts[i + 1];
      OthersLeave(Step(s, acts[0]), acts[1..], c);
    }
  }

  lemma {:induction false} OthersStartNothing(s: State, acts: seq<Action>, c: Call)
    requires Runs(s, acts) && ByOthers(acts, c.pid) && c !in s.phases
    ensures c !in After(s, acts).phases
    decreases |acts|
  {
    if acts != [] {
      assert ActorOf(acts[0]) != c.pid;
      assert forall i :: 0 <= i < |acts[1..]| ==> acts[1..][i] == acts[i + 1];
      OthersStartNothing(Step(s, acts[0]), acts[1..], c);
    }
  }

  /** The run `acts` leads from `s` to `t`. */
  ghost predicate RunTo(s: State, acts: seq<Action>, t: State)
    decreases |acts|, 1
  {
    if acts == [] then s == t else RunOn(s, acts, t)
  }

  ghost predicate RunOn(s: State, acts: seq<Action>, t: State)
    requires acts != []
    decreases |acts|, 0
  {
    Enabled(s, acts[0]) && RunTo(Step(s, acts[0]), acts[1..], t)
  }

  lemma {:induction false} RunToIs(s: State, acts: seq<Action>, t: State)
    ensures RunTo(s, acts, t) <==> Runs(s, acts) && After(s, acts) == t
    decreases |acts|
  {
    if acts != [] {
      assert RunTo(s, acts, t) <==> RunOn(s, acts, t);
      if Enabled(s, acts[0]) {
        RunToIs(Step(s, acts[0]), acts[1..], t);
      }
    }
  }

  /** `t` comes after `s` in some run. */
  ghost predicate Reaches(s: State, t: State) {
    exists acts :: RunTo(s, acts, t)
  }

  lemma {:induction false} RunToConcat(s: State, a: seq<Action>, t: State, b: seq<Action>, u: State)
    requires RunTo(s, a, t) && RunTo(t, b, u)
    ensures RunTo(s, a + b, u)
    decreases |a|
  {
    if a == [] {
      assert a + b == b;
    } else {
      assert RunOn(s, a, t);
      assert (a + b)[0] == a[0] && (a + b)[1..] == a[1..] + b;
      RunToConcat(Step(s, a[0]), a[1..], t, b, u);
      assert RunOn(s, a + b, u);
    }
  }

  lemma ReachesTrans(s: State, t: State, u: State)
    requires Reaches(s, t) && Reaches(t, u)
    ensures Reaches(s, u)
  {
    var a :| RunTo(s, a, t);
    var b :| RunTo(t, b, u);
    RunToConcat(s, a, t, b, u);
  }

  lemma ReachesRun(s: State, acts: seq<Action>)
    requires Runs(s, acts)
    ensures Reaches(s, After(s, acts))
  {
    RunToIs(s, acts, After(s, acts));
  }

  lemma ReachesStep(s: State, a: Action)
    requires Enabled(s, a)
    ensures Reaches(s, Step(s, a))
  {
    RunCons(s, a, []);
    ReachesRun(s, [a] + []);
  }

  lemma ReachesSelf(s: State)
    ensures Reaches(s, s)
  {
    ReachesRun(s, []);
  }

  // ----- The steps a call makes, in order -----

  ghost predicate OthersTo(s: State, pid: nat, t: State) {
    exists acts :: ByOthers(acts, pid) && RunTo(s, acts, t)
  }

  /** The steps a call has made, the last one outermost. */
  datatype Trail = NoStep | Then(earlier: Trail, kind: Kind)

  /** A run from `s` to `t`, other processes included, in which the process of `c` makes just the steps
      `trail` of `c`, the last of them at the end. */
  ghost predicate Makes(s: State, c: Call, trail: Trail, t: State)
    decreases trail, 2
  {
    MakesLast(s, c, trail, t)
  }

  ghost predicate MakesLast(s: State, c: Call, trail: Trail, t: State)
    decreases trail, 1
  {
    match trail
    case NoStep => s == t
    case Then(earlier, k) => MakesThen(s, c, earlier, k, t)
  }

  ghost predicate MakesThen(s: State, c: Call, earlier: Trail, k: Kind, t: State)
    decreases earlier, 3
  {
    exists r, u :: Makes(s, c, earlier, r) && Made(r, c, k, u, t)
  }

  /** `c` makes one step in `u`, which others lead to from `r`. */
  ghost predicate Made(r: State, c: Call, k: Kind, u: State, t: State) {
    OthersTo(r, c.pid, u) && Enabled(u, Move(c, k)) && t == Moved(u, c, k)
  }

  lemma MakesNothing(s: State, c: Call)
    ensures Makes(s, c, NoStep, s)
  {
    assert MakesLast(s, c, NoStep, s);
  }

  lemma MakesMore(s: State, c: Call, trail: Trail, r: State, k: Kind, u: State, t: State)
    requires Makes(s, c, trail, r) && Made(r, c, k, u, t)
    ensures Makes(s, c, Then(trail, k), t)
  {
    assert MakesThen(s, c, trail, k, t);
    assert MakesLast(s, c, Then(trail, k), t);
  }

  /** The last step, and the states before and after it. */
  lemma LastMade(s: State, c: Call, trail: Trail, k: Kind, t: State) returns (r: State, u: State)
    requires Makes(s, c, Then(trail, k), t)
    ensures Makes(s, c, trail, r) && Reaches(r, u) && Reaches(u, t)
    ensures Enabled(u, Move(c, k)) && t == Moved(u, c, k)
  {
    assert MakesLast(s, c, Then(trail, k), t);
    assert MakesThen(s, c, trail, k, t);
    r, u :| Makes(s, c, trail, r) && Made(r, c, k, u, t);
    ReachesStep(u, Move(c, k));
  }

  /** What a call makes is a run. */
  lemma {:induction false} MakesReaches(s: State, c: Call, trail: Trail, t: State)
    requires Makes(s, c, trail, t)
    ensures Reaches(s, t)
    decreases trail
  {
    match trail
    case NoStep =>
      assert MakesLast(s, c, NoStep, t);
      ReachesSelf(s);
    case Then(earlier, k) =>
      var r, u := LastMade(s, c, earlier, k, t);
      MakesReaches(s, c, earlier, r);
      ReachesTrans(s, r, u);
      ReachesTrans(s, u, t);
  }

  /** The steps of a release: its close, and a try at each sidecar. */
  function ReleaseTrail(infoStays: bool, preemptStays: bool): Trail {
    SweepTrail(Then(NoStep, Close), infoStays, preemptStays)
  }

  function SweepTrail(trail: Trail, infoStays: bool, preemptStays: bool): Trail {
    Then(Then(trail, if infoStays then KeepInfo else UnlinkInfo), if preemptStays then KeepPreempt else UnlinkPreempt)
  }

  /** The steps of writing the sidecar: the temporary file, and its renaming. */
  function WriteTrail(trail: Trail, fails: bool): Trail {
    if fails then Then(Then(trail, BeginStage), WriteFails) else Then(Then(Then(trail, BeginStage), EndStage), Install)
  }

  const LOCK_TRAIL := Then(Then(NoStep, Open), TryLock)

  /** The steps of a probe that has seen the lock file. */
  function ProbeTrail(trail: Trail, free: bool): Trail {
    Then(Then(Then(Then(trail, ProbeOpen), ProbeLock), if free then ProbeUnlock else ProbeRead), ProbeClose)
  }

  /** What a release does to the sidecars: between `tried` and `unlinked` to one, and between `swept` and
      its end to the other. */
  ghost predicate Sweeps(
      tried: State, unlinked: State, swept: State, t: State, infoStays: bool, preemptStays: bool) {
    && Reaches(tried, unlinked) && Reaches(unlinked, swept) && Reaches(swept, t)
    && unlinked.info == (if infoStays then tried.info else Absent) && unlinked.preempt == tried.preempt
    && t.preempt == (preemptStays && swept.preempt) && t.info == swept.info
  }

  lemma InfoSwept(s: State, c: Call, trail: Trail, stays: bool, t: State) returns (u: State, tried: State)
    requires Makes(s, c, Then(trail, if stays then KeepInfo else UnlinkInfo), t)
    ensures Makes(s, c, trail, u) && Reaches(u, tried) && Reaches(tried, t)
    ensures t.info == (if stays then tried.info else Absent) && t.preempt == tried.preempt
  {
    u, tried := LastMade(s, c, trail, if stays then KeepInfo else UnlinkInfo, t);
  }

  lemma MarkerSwept(s: State, c: Call, trail: Trail, stays: bool, t: State) returns (u: State, swept: State)
    requires Makes(s, c, Then(trail, if stays then KeepPreempt else UnlinkPreempt), t)
    ensures Makes(s, c, trail, u) && Reaches(u, swept) && Reaches(swept, t)
    ensures t.preempt == (stays && swept.preempt) && t.info == swept.info
  {
    u, swept := LastMade(s, c, trail, if stays then KeepPreempt else UnlinkPreempt, t);
  }

  lemma ReleaseSweeps(s: State, c: Call, t: State, infoStays: bool, preemptStays: bool)
    returns (tried: State, unlinked: State, swept: State)
    requires Makes(s, c, ReleaseTrail(infoStays, preemptStays), t)
    ensures Reaches(s, tried) && Sweeps(tried, unlinked, swept, t, infoStays, preemptStays)
  {
    var first := Then(NoStep, Close);
    unlinked, swept := MarkerSwept(s, c, Then(first, if infoStays then KeepInfo else UnlinkInfo), preemptStays, t);
    var closed;
    closed, tried := InfoSwept(s, c, first, infoStays, unlinked);
    MakesReaches(s, c, first, closed);
    ReachesTrans(s, closed, tried);
  }

  /** A release with nobody in between: the lock is free and both sidecars are gone. */
  lemma ReleaseAlone(s: State, c: Call)
    requires Inv(s) && At(s, c, Held)
    ensures var acts := [Move(c, Close)] + ([Move(c, UnlinkInfo)] + ([Move(c, UnlinkPreempt)] + []));
            && Runs(s, acts)
            && After(s, acts) ==
               s.(flock := Free, info := Absent, preempt := false, phases := s.phases[c := Released])
  {
    ClosedAlone(s, c);
    SweptAfter(s, c);
  }

  lemma SweptAfter(s: State, c: Call)
    requires At(s, c, Held) && Step(s, Move(c, Close)) == s.(flock := Free, phases := s.phases[c := Closed])
    ensures var acts := [Move(c, Close)] + ([Move(c, UnlinkInfo)] + ([Move(c, UnlinkPreempt)] + []));
            && Runs(s, acts)
            && After(s, acts) ==
               s.(flock := Free, info := Absent, preempt := false, phases := s.phases[c := Released])
  {
    var s1 := s.(flock := Free, phases := s.phases[c := Closed]);
    BothSwept(s1, c);
    assert s1.phases[c := Released] == s.phases[c := Released];
    RunCons(s, Move(c, Close), [Move(c, UnlinkInfo)] + ([Move(c, UnlinkPreempt)] + []));
  }

  lemma BothSwept(s: State, c: Call)
    requires At(s, c, Closed)
    ensures var acts := [Move(c, UnlinkInfo)] + ([Move(c, UnlinkPreempt)] + []);
            && Runs(s, acts)
            && After(s, acts) == s.(info := Absent, preempt := false, phases := s.phases[c := Released])
  {
    var s2 := s.(info := Absent, phases := s.phases[c := InfoTried]);
    SweptAlone(s, c);
    assert s2.phases[c := Released] == s.phases[c := Released];
    RunCons(s2, Move(c, UnlinkPreempt), []);
    RunCons(s, Move(c, UnlinkInfo), [Move(c, UnlinkPreempt)] + []);
  }

  lemma ClosedAlone(s: State, c: Call)
    requires Inv(s) && At(s, c, Held)
    ensures Step(s, Move(c, Close)) == s.(flock := Free, phases := s.phases[c := Closed])
  {
  }

  lemma SweptAlone(s: State, c: Call)
    requires At(s, c, Closed)
    ensures var s2 := s.(info := Absent, phases := s.phases[c := InfoTried]);
            && Step(s, Move(c, UnlinkInfo)) == s2
            && Step(s2, Move(c, UnlinkPreempt)) == s2.(preempt := false, phases := s2.phases[c := Released])
  {
  }

  /** The files and the kernel lock of one key, shared by all processes. */
  class Machine {
    var s: State

    constructor (lockFile: bool, leftInfo: Content, leftTmp: Content, leftPreempt: bool)
      requires !leftInfo.Of?
      ensures Init(s) && Reachable(s)
    {
      s := State(lockFile, Free, leftInfo, leftTmp, leftPreempt, map[]);
      new;
      ReachesSelf(s);
    }

    /** Whatever other processes choose to do meanwhile. */
    method Others(pid: nat)
      requires Reachable(s)
      modifies this
      ensures exists acts :: ByOthers(acts, pid) && Runs(old(s), acts) && s == After(old(s), acts)
    {
      ghost var nothing: seq<Action> := [];
      assert ByOthers(nothing, pid) && Runs(s, nothing) && After(s, nothing) == s;
    }

    /** One atomic step of call `c`, after whatever other processes chose to do; `seen` is
        the state the step was made in. */
    method Do(c: Call, k: Kind, ghost from: State, ghost trail: Trail) returns (ghost seen: State)
      requires Reachable(s) && Enabled(s, Move(c, k)) && Makes(from, c, trail, s)
      modifies this
      ensures Reachable(s) && Reaches(old(s), seen) && Reaches(seen, s)
      ensures c in old(s).phases ==> At(seen, c, old(s).phases[c])
      ensures At(s, c, NextPhase(seen, c, k)) && Makes(from, c, Then(trail, k), s)
    {
      ghost var before := s;
      Others(c.pid);
      seen := s;
      ghost var acts :| ByOthers(acts, c.pid) && Runs(before, acts) && s == After(before, acts);
      ReachableInv(before);
      ReachesRun(before, acts);
      if c in before.phases {
        OthersLeave(before, acts, c);
      } else {
        OthersStartNothing(before, acts, c);
      }
      ReachesStep(s, Move(c, k));
      RunToIs(before, acts, s);
      MakesMore(from, c, trail, before, k, s, Moved(s, c, k));
      s := Moved(s, c, k);
      Later(before, seen);
      Later(seen, s);
    }
  }

  datatype Acquired = Lock(lock: ActingLock) | HeldElsewhere(holder: Report) | BadMode | WriteError

  /** Opening the lock file and trying the lock, which happens in `asked`. */
  method TryToLock(m: Machine, c: Call) returns (locked: bool, ghost asked: State)
    requires Reachable(m.s) && c !in m.s.phases
    modifies m
    ensures Reachable(m.s) && Reaches(old(m.s), asked) && Reaches(asked, m.s)
    ensures At(m.s, c, if locked then Locked else Contended)
    ensures !locked ==> asked.flock.By? && asked.flock.holder != c
    ensures Makes(old(m.s), c, LOCK_TRAIL, m.s)
  {
    ghost var s0 := m.s;
    MakesNothing(s0, c);
    ghost var s1 := m.Do(c, Open, s0, NoStep);
    ReachesTrans(s0, s1, m.s);
    ghost var s2 := m.s;
    asked := m.Do(c, TryLock, s0, Then(NoStep, Open));
    ReachesTrans(s0, s2, asked);
    locked := m.s.phases[c] == Locked;
    Later(s0, asked);
    OwnerIs(asked, c);
  }

  /** A step that leads from `p` to `q` whatever state it is made in. */
  predicate Leads(p: Phase, k: Kind, q: Phase) {
    match k
    case CloseRefused => p == Contended && q == Turned
    case BeginStage => p == Locked && q == Staging
    case EndStage => p == Staging && q == Staged
    case Install => p == Staged && q == Held
    case WriteFails => (p == Locked || p == Staging || p == Staged) && q == Leaked
    case Close => p == Held && q == Closed
    case UnlinkInfo => p == Closed && q == InfoTried
    case KeepInfo => p == Closed && q == InfoTried
    case UnlinkPreempt => p == InfoTried && q == Released
    case KeepPreempt => p == InfoTried && q == Released
    case ProbeOpen => p == ProbeSeen && q == ProbeOpened
    case ProbeUnlock => p == ProbeTaken && q == ProbeTold(Nobody)
    case ProbeClose => p.ProbeTold? && q == Probed(p.told)
    case _ => false
  }

  lemma LeadsThere(s: State, c: Call, p: Phase, k: Kind, q: Phase)
    requires At(s, c, p) && Leads(p, k, q)
    ensures Enabled(s, Move(c, k)) && NextPhase(s, c, k) == q
  {
  }

  method Advance(m: Machine, c: Call, k: Kind, ghost p: Phase, ghost q: Phase, ghost from: State, ghost trail: Trail)
    requires Reachable(m.s) && At(m.s, c, p) && Leads(p, k, q) && Makes(from, c, trail, m.s)
    modifies m
    ensures Reachable(m.s) && Reaches(old(m.s), m.s) && At(m.s, c, q) && Makes(from, c, Then(trail, k), m.s)
  {
    ghost var s0 := m.s;
    LeadsThere(s0, c, p, k, q);
    ghost var seen := m.Do(c, k, from, trail);
    LeadsThere(seen, c, p, k, q);
    ReachesTrans(s0, seen, m.s);
  }

  /** The way out on contention: the descriptor is closed, then the sidecar is read in `read`. */
  method Refuse(m: Machine, c: Call, ghost from: State, ghost trail: Trail) returns (r: Report, ghost read: State)
    requires Reachable(m.s) && At(m.s, c, Contended) && Makes(from, c, trail, m.s)
    modifies m
    ensures Reachable(m.s) && Reaches(old(m.s), read) && Reaches(read, m.s)
    ensures At(m.s, c, Refused(r)) && r == Reading(read.info)
    ensures Makes(from, c, Then(Then(trail, CloseRefused), ReadHolder), m.s)
  {
    ghost var s0 := m.s;
    Advance(m, c, CloseRefused, Contended, Turned, from, trail);
    ghost var s1 := m.s;
    read := m.Do(c, ReadHolder, from, Then(trail, CloseRefused));
    ReachesTrans(s0, s1, read);
    r := m.s.phases[c].holder;
  }

  /** Writing the sidecar, which may raise. */
  method WriteSidecar(m: Machine, c: Call, fails: bool, ghost from: State, ghost trail: Trail)
    requires Reachable(m.s) && At(m.s, c, Locked) && Makes(from, c, trail, m.s)
    modifies m
    ensures Reachable(m.s) && At(m.s, c, if fails then Leaked else Held)
    ensures Makes(from, c, WriteTrail(trail, fails), m.s)
  {
    Advance(m, c, BeginStage, Locked, Staging, from, trail);
    if fails {
      Advance(m, c, WriteFails, Staging, Leaked, from, Then(trail, BeginStage));
      return;
    }
    Advance(m, c, EndStage, Staging, Staged, from, Then(trail, BeginStage));
    Advance(m, c, Install, Staged, Held, from, Then(Then(trail, BeginStage), EndStage));
  }

  /** `acquire`: the sidecar write may raise, which `writeFails` says. On contention the lock is
      found taken in `asked` and the sidecar is read in `read`. */
  method Acquire(m: Machine, c: Call, mode: string, writeFails: bool)
    returns (r: Acquired, ghost asked: State, ghost read: State)
    requires Reachable(m.s) && c !in m.s.phases
    modifies m
    ensures Reachable(m.s) && Reaches(old(m.s), m.s)
    ensures r == BadMode <==> mode != "interactive" && mode != "background"
    ensures r == BadMode ==> m.s == old(m.s)
    ensures r.Lock? ==> fresh(r.lock) && r.lock.c == c && !r.lock.released && r.lock.Valid(m)
    ensures r.HeldElsewhere? ==>
              && At(m.s, c, Refused(r.holder)) && r.holder == Reading(read.info)
              && Reaches(old(m.s), asked) && asked.flock.By? && asked.flock.holder != c
              && Reaches(asked, read) && Reaches(read, m.s)
    ensures r == WriteError ==> writeFails && At(m.s, c, Leaked) && m.s.flock == By(c)
    ensures r.Lock? ==> Makes(old(m.s), c, WriteTrail(LOCK_TRAIL, false), m.s)
    ensures r == WriteError ==> Makes(old(m.s), c, WriteTrail(LOCK_TRAIL, true), m.s)
    ensures r.HeldElsewhere? ==> Makes(old(m.s), c, Then(Then(LOCK_TRAIL, CloseRefused), ReadHolder), m.s)
  {
    ghost var s0 := m.s;
    asked, read := s0, s0;
    if mode != "interactive" && mode != "background" {
      ReachesSelf(s0);
      return BadMode, asked, read;
    }
    var locked: bool;
    locked, asked := TryToLock(m, c);
    ghost var s1 := m.s;
    if !locked {
      var holder: Report;
      holder, read := Refuse(m, c, s0, LOCK_TRAIL);
      ReachesTrans(asked, s1, read);
      MakesReaches(s0, c, Then(Then(LOCK_TRAIL, CloseRefused), ReadHolder), m.s);
      return HeldElsewhere(holder), asked, read;
    }
    WriteSidecar(m, c, writeFails, s0, LOCK_TRAIL);
    MakesReaches(s0, c, WriteTrail(LOCK_TRAIL, writeFails), m.s);
    if writeFails {
      OwnerIs(m.s, c);
      return WriteError, asked, read;
    }
    var lock := new ActingLock(c);
    r := Lock(lock);
  }

  /** A probe that found the lock taken reads the sidecar in `read`. */
  method ProbeHeld(m: Machine, p: Call, ghost from: State, ghost trail: Trail) returns (r: Report, ghost read: State)
    requires Reachable(m.s) && At(m.s, p, ProbeBusy) && Makes(from, p, trail, m.s)
    modifies m
    ensures Reachable(m.s) && Reaches(old(m.s), read) && Reaches(read, m.s)
    ensures At(m.s, p, Probed(r)) && r == Reading(read.info)
    ensures Makes(from, p, Then(Then(trail, ProbeRead), ProbeClose), m.s)
  {
    read := m.Do(p, ProbeRead, from, trail);
    r := m.s.phases[p].told;
    ghost var s1 := m.s;
    Advance(m, p, ProbeClose, ProbeTold(r), Probed(r), from, Then(trail, ProbeRead));
    ReachesTrans(read, s1, m.s);
  }

  /** A probe that took the lock gives it back. */
  method ProbeFree(m: Machine, p: Call, ghost from: State, ghost trail: Trail)
    requires Reachable(m.s) && At(m.s, p, ProbeTaken) && Makes(from, p, trail, m.s)
    modifies m
    ensures Reachable(m.s) && Reaches(old(m.s), m.s) && At(m.s, p, Probed(Nobody))
    ensures Makes(from, p, Then(Then(trail, ProbeUnlock), ProbeClose), m.s)
  {
    ghost var s0 := m.s;
    Advance(m, p, ProbeUnlock, ProbeTaken, ProbeTold(Nobody), from, trail);
    ghost var s1 := m.s;
    Advance(m, p, ProbeClose, ProbeTold(Nobody), Probed(Nobody), from, Then(trail, ProbeUnlock));
    ReachesTrans(s0, s1, m.s);
  }

  lemma TriedPhase(s: State, p: Call)
    ensures NextPhase(s, p, ProbeLock) == if s.flock == Free then ProbeTaken else ProbeBusy
  {
  }

  /** The descriptor of a probe, and its try at the lock, which happens in `asked`. */
  method ProbeTry(m: Machine, p: Call, ghost from: State, ghost trail: Trail) returns (busy: bool, ghost asked: State)
    requires Reachable(m.s) && At(m.s, p, ProbeSeen) && Makes(from, p, trail, m.s)
    modifies m
    ensures Reachable(m.s) && Reaches(old(m.s), asked) && Reaches(asked, m.s)
    ensures At(m.s, p, if busy then ProbeBusy else ProbeTaken) && (busy <==> asked.flock != Free)
    ensures Makes(from, p, Then(Then(trail, ProbeOpen), ProbeLock), m.s)
  {
    ghost var s0 := m.s;
    Advance(m, p, ProbeOpen, ProbeSeen, ProbeOpened, from, trail);
    ghost var s1 := m.s;
    asked := m.Do(p, ProbeLock, from, Then(trail, ProbeOpen));
    ReachesTrans(s0, s1, asked);
    TriedPhase(asked, p);
    busy := m.s.phases[p] == ProbeBusy;
  }

  /** What a probe does once it has seen the lock file. */
  method ProbeOn(m: Machine, p: Call, ghost from: State, ghost trail: Trail)
    returns (r: Report, ghost asked: State, ghost read: State)
    requires Reachable(m.s) && At(m.s, p, ProbeSeen) && Makes(from, p, trail, m.s)
    modifies m
    ensures Reachable(m.s) && At(m.s, p, Probed(r)) && Through(old(m.s), asked, read, m.s)
    ensures r == if asked.flock == Free then Nobody else Reading(read.info)
    ensures Makes(from, p, ProbeTrail(trail, asked.flock == Free), m.s)
  {
    var busy;
    busy, asked := ProbeTry(m, p, from, trail);
    ghost var s2 := m.s;
    if busy {
      r, read := ProbeHeld(m, p, from, Then(Then(trail, ProbeOpen), ProbeLock));
      ReachesTrans(asked, s2, read);
    } else {
      ProbeFree(m, p, from, Then(Then(trail, ProbeOpen), ProbeLock));
      r, read := Nobody, s2;
    }
  }

  /** Looking for the lock file, in `looked`; without one the probe is done. */
  method ProbeFile(m: Machine, p: Call) returns (there: bool, ghost looked: State)
    requires Reachable(m.s) && p !in m.s.phases
    modifies m
    ensures Reachable(m.s) && Reaches(old(m.s), looked) && Reaches(looked, m.s)
    ensures At(m.s, p, if there then ProbeSeen else Probed(Nobody)) && (!there ==> looked.flock == Free)
    ensures Makes(old(m.s), p, Then(NoStep, ProbeLook), m.s)
  {
    ghost var s0 := m.s;
    MakesNothing(s0, p);
    looked := m.Do(p, ProbeLook, s0, NoStep);
    there := m.s.phases[p] == ProbeSeen;
    if !there {
      Later(s0, looked);
      UnseenFree(looked);
    }
  }

  /** Three stretches of one run. */
  ghost predicate Through(s: State, asked: State, read: State, t: State) {
    Reaches(s, asked) && Reaches(asked, read) && Reaches(read, t)
  }

  lemma ThroughReaches(s: State, asked: State, read: State, t: State)
    requires Through(s, asked, read, t)
    ensures Reaches(s, t)
  {
    ReachesTrans(s, asked, read);
    ReachesTrans(s, read, t);
  }

  lemma ThroughEarlier(r: State, s: State, asked: State, read: State, t: State)
    requires Reaches(r, s) && Through(s, asked, read, t)
    ensures Through(r, asked, read, t)
  {
    ReachesTrans(r, s, asked);
  }

  lemma ProbedFree(t: State, p: Call, r: Report)
    requires Reachable(t) && At(t, p, Probed(r))
    ensures t.flock != By(p)
  {
    OwnerIs(t, p);
  }

  /** The two ways a probe goes. */
  ghost predicate ProbeMakes(s: State, p: Call, free: bool, t: State) {
    Makes(s, p, Then(NoStep, ProbeLook), t) || Makes(s, p, ProbeTrail(Then(NoStep, ProbeLook), free), t)
  }

  /** `probe`: what the sidecar tells when the lock is taken, asked without keeping it. The lock is
      tried in `asked` and the sidecar read in `read`. */
  method Probe(m: Machine, p: Call) returns (r: Report, ghost asked: State, ghost read: State)
    requires Reachable(m.s) && p !in m.s.phases
    modifies m
    ensures Reachable(m.s) && Reaches(old(m.s), m.s) && At(m.s, p, Probed(r)) && m.s.flock != By(p)
    ensures Through(old(m.s), asked, read, m.s)
    ensures r == if asked.flock == Free then Nobody else Reading(read.info)
    ensures ProbeMakes(old(m.s), p, asked.flock == Free, m.s)
  {
    ghost var s0 := m.s;
    var there;
    there, asked := ProbeFile(m, p);
    ghost var s1 := m.s;
    if there {
      ReachesTrans(s0, asked, s1);
      r, asked, read := ProbeOn(m, p, s0, Then(NoStep, ProbeLook));
      ThroughEarlier(s0, s1, asked, read, m.s);
    } else {
      r, read := Nobody, asked;
      ReachesSelf(asked);
    }
    ThroughReaches(s0, asked, read, m.s);
    ProbedFree(m.s, p, r);
  }

  /** Clearing the sidecars; either file stays when its unlinking raises. */
  method ClearSidecars(
      m: Machine, c: Call, infoStays: bool, preemptStays: bool, ghost from: State, ghost trail: Trail)
    requires Reachable(m.s) && At(m.s, c, Closed) && Makes(from, c, trail, m.s)
    modifies m
    ensures Reachable(m.s) && At(m.s, c, Released)
    ensures Makes(from, c, SweepTrail(trail, infoStays, preemptStays), m.s)
  {
    ghost var k1 := if infoStays then KeepInfo else UnlinkInfo;
    if infoStays {
      Advance(m, c, KeepInfo, Closed, InfoTried, from, trail);
    } else {
      Advance(m, c, UnlinkInfo, Closed, InfoTried, from, trail);
    }
    if preemptStays {
      Advance(m, c, KeepPreempt, InfoTried, Released, from, Then(trail, k1));
    } else {
      Advance(m, c, UnlinkPreempt, InfoTried, Released, from, Then(trail, k1));
    }
  }

  class ActingLock {
    const c: Call
    var released: bool

    constructor (c: Call)
      ensures this.c == c && !released
    {
      this.c := c;
      released := false;
    }

    ghost predicate Valid(m: Machine)
      reads this, m
    {
      if released then At(m.s, c, Closed) || At(m.s, c, InfoTried) || At(m.s, c, Released) || At(m.s, c, Dead)
      else At(m.s, c, Held)
    }

    /** `release`: frees the kernel lock first, then unlinks the sidecars, as far as the file system
        lets it; a second call does nothing. */
    method Release(m: Machine, infoStays: bool, preemptStays: bool)
      returns (ghost tried: State, ghost unlinked: State, ghost swept: State)
      requires Reachable(m.s) && Valid(m)
      modifies this, m
      ensures Reachable(m.s) && released && Valid(m) && m.s.flock != By(c) && Reaches(old(m.s), m.s)
      ensures old(released) ==> m.s == old(m.s)
      ensures !old(released) ==>
                && At(m.s, c, Released) && Makes(old(m.s), c, ReleaseTrail(infoStays, preemptStays), m.s)
                && Reaches(old(m.s), tried) && Sweeps(tried, unlinked, swept, m.s, infoStays, preemptStays)
    {
      ghost var s0 := m.s;
      tried, unlinked, swept := s0, s0, s0;
      if released {
        ReachesSelf(s0);
      } else {
        MakesNothing(s0, c);
        Advance(m, c, Close, Held, Closed, s0, NoStep);
        released := true;
        ClearSidecars(m, c, infoStays, preemptStays, s0, Then(NoStep, Close));
        MakesReaches(s0, c, ReleaseTrail(infoStays, preemptStays), m.s);
        tried, unlinked, swept := ReleaseSweeps(s0, c, m.s, infoStays, preemptStays);
      }
      OwnerIs(m.s, c);
    }
  }
}
