/** The stages of a spec change, the three local gates, and the verbs that move a change
    (src/otaman_core/spec_lifecycle.py). */
module SpecLifecycle {
  import opened Text
  import opened Wrappers

  // ----- Changes -----

  /** `Unlisted` is a value outside the stage table, `Missing` no value at all. */
  datatype Stage =
    | PreProposal | Proposed | Approved | Authored | SpecApproved | Dispatched | Implemented | Verified | Archived
    | Unlisted(text: string) | Missing

  /** The position in the stage table, -1 outside it. */
  function Index(s: Stage): int {
    match s
    case PreProposal => 0
    case Proposed => 1
    case Approved => 2
    case Authored => 3
    case SpecApproved => 4
    case Dispatched => 5
    case Implemented => 6
    case Verified => 7
    case Archived => 8
    case _ => -1
  }

  datatype Delivery = Hitl | Auto

  /** The keys of `.openspec.yaml` the lifecycle reads and writes. */
  datatype Change = Change(
    stage: Stage,
    approvedBy: Option<string>,
    scrApprovedBy: Option<string>,
    skipSpecs: bool,
    research: bool,
    ratified: bool,
    ratifiedBy: Option<string>,
    ratifiedAt: Option<string>,
    specApprovedBy: Option<string>,
    archivedBy: Option<string>,
    delivery: Option<Delivery>,
    outcome: Option<string>)

  datatype Mode = Block | Warn | SelfWaive

  datatype Policy = Policy(enforcement: Mode, deliveryDefault: Delivery)

  predicate Filled(s: Option<string>) {
    s.Some? && Strip(s.value) != ""
  }

  predicate IsResearch(c: Change) {
    c.stage.PreProposal? || c.skipSpecs || c.research
  }

  /** At or past `spec-approved`. */
  predicate Reached(c: Change) {
    Index(c.stage) >= Index(SpecApproved)
  }

  predicate HasApproval(c: Change) {
    Filled(c.approvedBy)
  }

  predicate HasScrApproval(c: Change) {
    Filled(c.scrApprovedBy)
  }

  // ----- Gates -----

  datatype Violation =
    | ApprovalMissing | ApprovalTooEarly | NotAuthorized | NoOutcome | OutcomeNotApproved
    | NotSpecApproved | RatifiedOnly | ArchivingUnapproved | Unreadable

  datatype Decision = Decision(allowed: bool, mode: Mode, waived: bool, violations: seq<Violation>)

  function Pass(policy: Policy): Decision {
    Decision(true, policy.enforcement, false, [])
  }

  function HardRefuse(policy: Policy, v: Violation): Decision {
    Decision(false, policy.enforcement, false, [v])
  }

  /** `_decide`. */
  function Decide(policy: Policy, violations: seq<Violation>): Decision {
    if violations == [] then Pass(policy)
    else if policy.enforcement.Block? then Decision(false, Block, false, violations)
    else Decision(true, policy.enforcement, true, violations)
  }

  function OutcomeViolation(c: Change, jtbd: bool, outcomeOk: Option<bool>): seq<Violation> {
    if !jtbd then []
    else if !Filled(c.outcome) then [NoOutcome]
    else if outcomeOk == Some(false) then [OutcomeNotApproved]
    else []
  }

  function MergeGate(c: Change, policy: Policy, delta: bool, jtbd: bool, outcomeOk: Option<bool>): Decision {
    if IsResearch(c) || !delta then Pass(policy)
    else if Reached(c) && !HasApproval(c) then HardRefuse(policy, ApprovalMissing)
    else if !Reached(c) && HasApproval(c) then HardRefuse(policy, ApprovalTooEarly)
    else
      var authoring := if !Reached(c) && !HasScrApproval(c) then [NotAuthorized] else [];
      Decide(policy, authoring + OutcomeViolation(c, jtbd, outcomeOk))
  }

  function DispatchGate(c: Change, policy: Policy): Decision {
    if IsResearch(c) then Pass(policy)
    else if Reached(c) then Decide(policy, [])
    else Decide(policy, [if c.ratified then RatifiedOnly else NotSpecApproved])
  }

  /** What the path of a change holds. */
  datatype File = NoFile | Unparseable | Parsed(change: Change)

  function DispatchGateAt(f: File, policy: Policy): Decision {
    match f
    case NoFile => Pass(policy)
    case Unparseable => HardRefuse(policy, Unreadable)
    case Parsed(c) => DispatchGate(c, policy)
  }

  function ArchiveGate(c: Change, policy: Policy, delta: bool): Decision {
    if IsResearch(c) || !delta then Pass(policy)
    else Decide(policy, if HasApproval(c) then [] else [ArchivingUnapproved])
  }

  /** Allowed without a waiver. */
  predicate Clean(d: Decision) {
    d.allowed && !d.waived
  }

  // ----- Verbs -----

  datatype Ratification = Ratification(who: string, reason: string, at: string)

  datatype Ratified = Minted(ratification: Ratification) | NoIdentity | NoReason

  function Ratify(who: string, reason: string, at: string): Ratified {
    if Strip(who) == "" then NoIdentity
    else if Strip(reason) == "" then NoReason
    else Minted(Ratification(Strip(who), Strip(reason), at))
  }

  function RatifiedMarker(r: Ratification): string {
    "ratified: " + (r.who + (" \U{2014} " + r.reason))
  }

  function ApplyRatification(c: Change, r: Ratification): Change {
    c.(stage := if Index(c.stage) >= Index(Approved) then c.stage else Approved,
       ratified := true,
       ratifiedBy := Some(r.who),
       ratifiedAt := Some(r.at),
       approvedBy := Some(RatifiedMarker(r)))
  }

  datatype Reason = ResearchNeverEnters | NotAuthored | NoApprover

  /** The failures of `validate_spec_approved_transition`; none means valid. */
  function Objections(c: Change, approver: Option<string>): seq<Reason> {
    (if IsResearch(c) then [ResearchNeverEnters] else [])
    + (if c.stage != Authored then [NotAuthored] else [])
    + (if approver.None? then [NoApprover] else [])
  }

  function ApprovalMarker(name: string, at: Option<string>): string {
    name + (" (spec-approved" + ((if at.Some? && at.value != "" then " " + at.value else "") + ", via otaman -i)"))
  }

  function ApplySpecApproved(c: Change, name: string, at: Option<string>): Change {
    c.(stage := SpecApproved, specApprovedBy := Some(name), approvedBy := Some(ApprovalMarker(name, at)))
  }

  function ResolveDelivery(c: Change, policy: Policy): Delivery {
    if c.delivery.Some? then c.delivery.value else policy.deliveryDefault
  }

  /** The decision of `auto_archive_decision`. */
  predicate AutoArchives(c: Change, policy: Policy, gate: Decision) {
    ResolveDelivery(c, policy) == Auto && c.stage == Verified && Clean(gate)
  }

  function ApplyAutoArchive(c: Change): Change {
    c.(stage := Archived, archivedBy := Some("auto (delivery: auto, gate-passing)"))
  }

  // ----- The gates, read together -----

  /** The merge gate refuses in every mode exactly when the approval and the stage disagree. */
  lemma MergeRefusesDisagreement(c: Change, policy: Policy, jtbd: bool, outcomeOk: Option<bool>)
    requires !IsResearch(c)
    ensures HasApproval(c) != Reached(c) <==>
            forall mode :: !MergeGate(c, policy.(enforcement := mode), true, jtbd, outcomeOk).allowed
  {
    if HasApproval(c) == Reached(c) {
      assert MergeGate(c, policy.(enforcement := Warn), true, jtbd, outcomeOk).allowed;
    }
  }

  /** Where the two agree, the merge gate passes cleanly exactly when the field of the phase and
      the outcome link are there. */
  lemma MergeCleanMeans(c: Change, policy: Policy, jtbd: bool, outcomeOk: Option<bool>)
    requires !IsResearch(c)
    ensures Clean(MergeGate(c, policy, true, jtbd, outcomeOk)) <==>
            && (if Reached(c) then HasApproval(c) else HasScrApproval(c) && !HasApproval(c))
            && (jtbd ==> Filled(c.outcome) && outcomeOk != Some(false))
  {
  }

  /** Past spec-approved one field opens all three gates cleanly, in every mode. */
  lemma ApprovalOpensGates(c: Change)
    requires Reached(c) && !IsResearch(c)
    ensures HasApproval(c) <==>
            forall policy ::
              && Clean(MergeGate(c, policy, true, false, None))
              && Clean(DispatchGate(c, policy))
              && Clean(ArchiveGate(c, policy, true))
  {
    if !HasApproval(c) {
      assert !Clean(ArchiveGate(c, Policy(Block, Hitl), true));
    }
  }

  /** A file that cannot be read is never dispatched, whatever the mode. */
  lemma UnreadableNeverDispatched(f: File)
    ensures (forall policy :: !DispatchGateAt(f, policy).allowed) <==> f == Unparseable
  {
    assert f != Unparseable ==> DispatchGateAt(f, Policy(Warn, Hitl)).allowed;
  }

  // ----- Markers -----

  lemma MarkedFilled(s: string, i: nat)
    requires i < |s| && !IsSpace(s[i])
    ensures Filled(Some(s))
  {
    RStripKeeps(s, i);
    RStripParts(s);
    LStripKeeps(RStrip(s), i);
  }

  lemma RatificationFills(c: Change, r: Ratification)
    ensures HasApproval(ApplyRatification(c, r))
  {
    assert RatifiedMarker(r)[0] == 'r';
    MarkedFilled(RatifiedMarker(r), 0);
  }

  lemma SpecApprovalFills(c: Change, name: string, at: Option<string>)
    ensures HasApproval(ApplySpecApproved(c, name, at))
  {
    var s := ApprovalMarker(name, at);
    var rest := " (spec-approved" + ((if at.Some? && at.value != "" then " " + at.value else "") + ", via otaman -i)");
    assert s[|name| + 1] == rest[1] == '(';
    MarkedFilled(s, |name| + 1);
  }

  // ----- Runs -----

  /** One act on a change. `SetStage` is the raw stage writer. */
  datatype Act =
    | RatifyAct(who: string, reason: string, at: string)
    | SpecApproveAct(approver: Option<string>, attestedAt: Option<string>)
    | AutoArchiveAct(policy: Policy, delta: bool)
    | SetStage(stage: Stage)

  /** The change after an act; an act its guard refuses changes nothing. */
  function After(c: Change, a: Act): Change {
    match a
    case RatifyAct(who, reason, at) =>
      (match Ratify(who, reason, at)
       case Minted(r) => ApplyRatification(c, r)
       case _ => c)
    case SpecApproveAct(approver, attestedAt) =>
      if Objections(c, approver) == [] && approver.Some? then ApplySpecApproved(c, approver.value, attestedAt) else c
    case AutoArchiveAct(policy, delta) =>
      if AutoArchives(c, policy, ArchiveGate(c, policy, delta)) then ApplyAutoArchive(c) else c
    case SetStage(stage) =>
      if Index(stage) >= 0 then c.(stage := stage) else c
  }

  /** The guarded acts never lower the stage. */
  lemma StageMonotone(c: Change, a: Act)
    requires !a.SetStage?
    ensures Index(After(c, a).stage) >= Index(c.stage)
  {
  }

  /** Only the validated writer takes a change from below spec-approved to it; no guarded act
      jumps past it. */
  lemma OnlyWriterEnters(c: Change, a: Act)
    requires !a.SetStage? && !Reached(c)
    ensures Reached(After(c, a)) <==>
            a.SpecApproveAct? && a.approver.Some? && c.stage == Authored && !IsResearch(c)
    ensures Reached(After(c, a)) ==> After(c, a).stage == SpecApproved
  {
  }

  /** A change past spec-approved carries its attestation. */
  predicate Attested(c: Change) {
    Reached(c) ==> HasApproval(c)
  }

  /** The raw writer puts an unapproved change past spec-approved. */
  predicate Skips(c: Change, a: Act) {
    a.SetStage? && Index(a.stage) >= Index(SpecApproved) && !HasApproval(c)
  }

  lemma ActKeepsApproval(c: Change, a: Act)
    requires HasApproval(c)
    ensures HasApproval(After(c, a))
  {
    match a
    case RatifyAct(who, reason, at) =>
      if Ratify(who, reason, at).Minted? {
        RatificationFills(c, Ratify(who, reason, at).ratification);
      }
    case SpecApproveAct(approver, attestedAt) =>
      if approver.Some? {
        SpecApprovalFills(c, approver.value, attestedAt);
      }
    case _ =>
  }

  lemma ActAttested(c: Change, a: Act)
    requires Attested(c)
    ensures Attested(After(c, a)) <==> !Skips(c, a)
  {
    if HasApproval(c) {
      ActKeepsApproval(c, a);
    } else if a.RatifyAct? && Ratify(a.who, a.reason, a.at).Minted? {
      RatificationFills(c, Ratify(a.who, a.reason, a.at).ratification);
    } else if a.SpecApproveAct? && a.approver.Some? {
      SpecApprovalFills(c, a.approver.value, a.attestedAt);
    }
  }

  /** The change after a run of acts. */
  function Final(c: Change, run: seq<Act>): Change
    decreases |run|
  {
    if run == [] then c else Final(After(c, run[0]), run[1..])
  }

  /** One more act is done to what the acts before it left. */
  lemma {:induction false} FinalOneMore(c: Change, run: seq<Act>, a: Act)
    ensures Final(c, run + [a]) == After(Final(c, run), a)
    ensures Final(c, []) == c
    decreases |run|
  {
    if run == [] {
      assert run + [a] == [a] && [a][1..] == [];
    } else {
      assert (run + [a])[1..] == run[1..] + [a];
      FinalOneMore(After(c, run[0]), run[1..], a);
    }
  }

  predicate NeverSkips(c: Change, run: seq<Act>)
    decreases |run|
  {
    run == [] || (!Skips(c, run[0]) && NeverSkips(After(c, run[0]), run[1..]))
  }

  /** Attested now and after every act. */
  predicate AttestedThroughout(c: Change, run: seq<Act>)
    decreases |run|
  {
    Attested(c) && (run == [] || AttestedThroughout(After(c, run[0]), run[1..]))
  }

  /** Over any run, every state is attested exactly when no act skips the attestation. */
  lemma {:induction false} RunAttested(c: Change, run: seq<Act>)
    requires Attested(c)
    ensures AttestedThroughout(c, run) <==> NeverSkips(c, run)
    ensures NeverSkips(c, run) ==> Attested(Final(c, run))
    decreases |run|
  {
    if run != [] {
      ActAttested(c, run[0]);
      if !Skips(c, run[0]) {
        RunAttested(After(c, run[0]), run[1..]);
      }
    }
  }

  /** An attested change past spec-approved opens all three gates cleanly in every mode, and
      auto-archive leaves an approved change behind, with or without a delta. */
  lemma AttestedOpens(c: Change, archiving: Policy, delta: bool)
    requires Attested(c)
    ensures Reached(c) && !IsResearch(c) ==>
              forall policy ::
                && Clean(MergeGate(c, policy, true, false, None))
                && Clean(DispatchGate(c, policy))
                && Clean(ArchiveGate(c, policy, true))
    ensures AutoArchives(c, archiving, ArchiveGate(c, archiving, delta)) ==> HasApproval(ApplyAutoArchive(c))
  {
    if Reached(c) && !IsResearch(c) {
      ApprovalOpensGates(c);
    }
  }

  /** So a run that never skips the attestation passes merge, dispatch and archive un-waived from
      spec-approved on, in every mode, and archives nothing unapproved by itself. */
  lemma RunGatesOpen(c: Change, run: seq<Act>, archiving: Policy, delta: bool)
    requires Attested(c) && NeverSkips(c, run)
    ensures var now := Final(c, run);
            && (Reached(now) && !IsResearch(now) ==>
                  forall policy ::
                    && Clean(MergeGate(now, policy, true, false, None))
                    && Clean(DispatchGate(now, policy))
                    && Clean(ArchiveGate(now, policy, true)))
            && (AutoArchives(now, archiving, ArchiveGate(now, archiving, delta)) ==>
                  HasApproval(ApplyAutoArchive(now)))
  {
    RunAttested(c, run);
    AttestedOpens(Final(c, run), archiving, delta);
  }

  /** Ratifying a change below spec-approved makes the merge gate refuse it in every mode, until
      the stage reaches spec-approved. */
  lemma RatifyBlocksMerge(c: Change, r: Ratification, policy: Policy, jtbd: bool, outcomeOk: Option<bool>)
    requires !Reached(c) && !c.skipSpecs && !c.research
    ensures !MergeGate(ApplyRatification(c, r), policy, true, jtbd, outcomeOk).allowed
    ensures forall stage :: Index(stage) >= Index(SpecApproved) ==>
              Clean(MergeGate(ApplyRatification(c, r).(stage := stage), policy, true, false, None))
  {
    RatificationFills(c, r);
  }
}
