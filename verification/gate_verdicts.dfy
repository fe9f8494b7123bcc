/** The verdicts of the three local gates, in the fields of the change alone, and whom a refused
    dispatch names (src/otaman_core/spec_lifecycle.py). */
module GateVerdicts {
  import opened Text
  import opened Wrappers
  import opened SpecLifecycle

  lemma FilledMeans(s: Option<string>)
    ensures Filled(s) <==> s.Some? && !AllSpace(s.value)
  {
    if s.Some? {
      StripBlank(s.value);
    }
  }

  // ----- The stage table and the acts -----

  const STAGES: seq<Stage> :=
    [PreProposal, Proposed, Approved, Authored, SpecApproved, Dispatched, Implemented, Verified, Archived]

  /** A stage counts for its place in the table, and a value outside it for none; the raw writer takes
      just the listed ones. */
  lemma StageOrder(c: Change, s: Stage)
    ensures s in STAGES <==> 0 <= Index(s)
    ensures s in STAGES ==> Index(s) < |STAGES| && STAGES[Index(s)] == s
    ensures s !in STAGES ==> Index(s) == -1
    ensures After(c, SetStage(s)) == if s in STAGES then c.(stage := s) else c
  {
    assert forall i :: 0 <= i < |STAGES| ==> Index(STAGES[i]) == i;
    if s !in STAGES {
      assert STAGES[0] == PreProposal && STAGES[1] == Proposed && STAGES[2] == Approved && STAGES[3] == Authored
             && STAGES[4] == SpecApproved && STAGES[5] == Dispatched && STAGES[6] == Implemented
             && STAGES[7] == Verified && STAGES[8] == Archived;
    }
  }

  /** What stands against minting spec-approved, and what minting it writes. */
  lemma SpecApprovalMeans(c: Change, approver: Option<string>, at: Option<string>)
    ensures var o, after := Objections(c, approver), After(c, SpecApproveAct(approver, at));
            var research := c.stage == PreProposal || c.skipSpecs || c.research;
            && (ResearchNeverEnters in o <==> research)
            && (NotAuthored in o <==> c.stage != Authored)
            && (NoApprover in o <==> approver == None)
            && (research || c.stage != Authored || approver == None ==> after == c)
            && (!research && c.stage == Authored && approver != None ==>
                  && after.stage == SpecApproved && after.specApprovedBy == approver
                  && after.approvedBy == Some(approver.value + (" (spec-approved"
                       + ((if at in [None, Some("")] then "" else " " + at.value) + ", via otaman -i)")))
                  && after == c.(stage := SpecApproved, specApprovedBy := approver, approvedBy := after.approvedBy))
  {
  }

  /** A change archives itself exactly when it is verified, asks for automatic delivery, or leaves that
      to a policy that does, and needs no approval or has one; only its stage and its archiver change. */
  lemma AutoArchiveMeans(c: Change, policy: Policy, delta: bool)
    ensures var after := After(c, AutoArchiveAct(policy, delta));
            && (after != c <==>
                && c.stage == Verified
                && (c.delivery == Some(Auto) || (c.delivery == None && policy.deliveryDefault == Auto))
                && (c.skipSpecs || c.research || !delta || (c.approvedBy.Some? && !AllSpace(c.approvedBy.value))))
            && (after != c ==>
                && after.stage == Archived && after.archivedBy.Some?
                && after == c.(stage := Archived, archivedBy := after.archivedBy))
  {
    FilledMeans(c.approvedBy);
  }

  // ----- Verdicts -----

  /** Dispatch is clean exactly for research and from spec-approved on, and otherwise refused in block
      mode and waived in the others. A file that parses is judged by the change in it. */
  lemma DispatchVerdict(c: Change, policy: Policy)
    ensures var d := DispatchGate(c, policy);
            var open := c.stage == PreProposal || c.skipSpecs || c.research
                        || c.stage in [SpecApproved, Dispatched, Implemented, Verified, Archived];
            && DispatchGateAt(Parsed(c), policy) == d && d.mode == policy.enforcement
            && (Clean(d) <==> open)
            && (d.allowed <==> open || policy.enforcement != Block)
            && (d.waived <==> !open && policy.enforcement != Block)
            && (RatifiedOnly in d.violations <==> !open && c.ratified)
            && (NotSpecApproved in d.violations <==> !open && !c.ratified)
  {
  }

  /** Merge: research and delta-free changes pass; an approval on the wrong side of spec-approved is
      refused in every mode; what is otherwise missing is refused in block mode and waived in the others. */
  lemma MergeVerdict(c: Change, policy: Policy, delta: bool, jtbd: bool, outcomeOk: Option<bool>)
    ensures var d := MergeGate(c, policy, delta, jtbd, outcomeOk);
            var exempt := c.stage == PreProposal || c.skipSpecs || c.research || !delta;
            var late := c.stage in [SpecApproved, Dispatched, Implemented, Verified, Archived];
            var approved := c.approvedBy.Some? && !AllSpace(c.approvedBy.value);
            var authorized := late || (c.scrApprovedBy.Some? && !AllSpace(c.scrApprovedBy.value));
            var linked := !jtbd || (c.outcome.Some? && !AllSpace(c.outcome.value) && outcomeOk != Some(false));
            && d.mode == policy.enforcement
            && (Clean(d) <==> exempt || (late == approved && authorized && linked))
            && (d.allowed <==> exempt || (late == approved && (policy.enforcement != Block || (authorized && linked))))
            && (d.waived <==> d.allowed && !Clean(d))
            && (ApprovalMissing in d.violations <==> !exempt && late && !approved)
            && (ApprovalTooEarly in d.violations <==> !exempt && !late && approved)
            && (NotAuthorized in d.violations <==> !exempt && late == approved && !authorized)
            && (NoOutcome in d.violations || OutcomeNotApproved in d.violations <==>
                !exempt && late == approved && !linked)
  {
    FilledMeans(c.approvedBy);
    FilledMeans(c.scrApprovedBy);
    FilledMeans(c.outcome);
  }

  /** Archive: the same for an approval alone. */
  lemma ArchiveVerdict(c: Change, policy: Policy, delta: bool)
    ensures var d := ArchiveGate(c, policy, delta);
            var open := c.stage == PreProposal || c.skipSpecs || c.research || !delta
                        || (c.approvedBy.Some? && !AllSpace(c.approvedBy.value));
            && d.mode == policy.enforcement
            && (Clean(d) <==> open)
            && (d.allowed <==> open || policy.enforcement != Block)
            && (d.waived <==> !open && policy.enforcement != Block)
            && (ArchivingUnapproved in d.violations <==> !open)
  {
    FilledMeans(c.approvedBy);
  }

  // ----- Whom a refused dispatch names -----

  /** ` - ` or a spaced em dash, with any white space. */
  predicate DashAt(s: string, i: nat) {
    i + 2 < |s| && IsSpace(s[i]) && (s[i + 1] == '-' || s[i + 1] == '\U{2014}') && IsSpace(s[i + 2])
  }

  /** The text before the first such dash. */
  function BeforeDash(s: string): (r: string)
    ensures r <= s
  {
    if s == "" || DashAt(s, 0) then "" else [s[0]] + BeforeDash(s[1..])
  }

  /** `s.split(":", 1)[1]` of a text with a colon in it. */
  function AfterColon(s: string): string {
    if Find(s, ':') < |s| then s[Find(s, ':') + 1..] else ""
  }

  /** `_ratifier_from_marker`. */
  function RatifierFrom(approvedBy: Option<string>): Option<string> {
    if approvedBy.None? || !("ratified:" <= Lower(Strip(approvedBy.value))) then None
    else
      var who := Strip(BeforeDash(AfterColon(Strip(approvedBy.value))));
      if who != "" then Some(who) else None
  }

  /** The name in the refusal of a ratified change. */
  function RatifierNamed(c: Change): string {
    if c.ratifiedBy.Some? && c.ratifiedBy.value != "" then c.ratifiedBy.value
    else NameOr(RatifierFrom(c.approvedBy))
  }

  function NameOr(found: Option<string>): string {
    if found.Some? then found.value else "the ratifier"
  }

  predicate NoDash(s: string) {
    forall i: nat :: i + 2 < |s| ==> !DashAt(s, i)
  }

  /** No hyphen and no em dash with white space on both sides. */
  lemma NoDashMeans(s: string)
    ensures NoDash(s) <==>
            forall i: nat :: i + 2 < |s| && IsSpace(s[i]) && IsSpace(s[i + 2]) ==> s[i + 1] !in "-\U{2014}"
  {
    forall i: nat | i + 2 < |s|
      ensures DashAt(s, i) <==> IsSpace(s[i]) && IsSpace(s[i + 2]) && s[i + 1] in "-\U{2014}"
    {
      DashChars(s[i + 1]);
    }
  }

  lemma DashChars(c: char)
    ensures c in "-\U{2014}" <==> c == '-' || c == '\U{2014}'
  {
    var dashes := "-\U{2014}";
    assert dashes[0] == '-' && dashes[1] == '\U{2014}';
  }

  /** A refusal never names nobody. */
  lemma SomebodyNamed(c: Change)
    ensures RatifierNamed(c) != ""
  {
  }

  lemma DashShift(s: string, i: nat)
    requires s != ""
    ensures DashAt(s[1..], i) <==> DashAt(s, i + 1)
  {
  }

  lemma {:induction false} BeforeDashIs(s: string, k: nat)
    requires DashAt(s, k) && forall i: nat :: i < k ==> !DashAt(s, i)
    ensures BeforeDash(s) == s[..k]
  {
    if k > 0 {
      DashShift(s, k - 1);
      forall i: nat | i < k - 1
        ensures !DashAt(s[1..], i)
      {
        DashShift(s, i);
      }
      BeforeDashIs(s[1..], k - 1);
      assert s[..k] == [s[0]] + s[1..][..k - 1];
    }
  }

  lemma {:induction false} BeforeDashShort(s: string, k: nat)
    requires DashAt(s, k)
    ensures |BeforeDash(s)| <= k
  {
    if k > 0 && !DashAt(s, 0) {
      DashShift(s, k - 1);
      BeforeDashShort(s[1..], k - 1);
    }
  }

  /** A name in a marker, between spaces and before the dash that follows it. */
  lemma NameBefore(who: string, rest: string)
    requires Trimmed(who) && who != "" && rest != "" && IsSpace(rest[0])
    ensures Strip(BeforeDash(" " + (who + (" \U{2014}" + rest)))) == who <==> NoDash(" " + (who + " "))
  {
    var s, w := " " + (who + (" \U{2014}" + rest)), " " + (who + " ");
    assert s[..|w|] == w;
    assert s[|who| + 1] == ' ' && s[|who| + 2] == '\U{2014}' && s[|who| + 3] == rest[0];
    assert DashAt(s, |who| + 1);
    assert s[|who|] == who[|who| - 1];
    forall i: nat | i < |who| + 1
      ensures DashAt(s, i) <==> i + 2 < |w| && DashAt(w, i)
    {
      assert s[i] == w[i] && (i + 2 < |w| ==> s[i + 1] == w[i + 1] && s[i + 2] == w[i + 2]);
    }
    if NoDash(w) {
      BeforeDashIs(s, |who| + 1);
      assert s[..|who| + 1] == " " + who + "";
      StripOf(" ", who, "");
    } else {
      var i: nat :| i + 2 < |w| && DashAt(w, i);
      BeforeDashShort(s, i);
      LedBySpace(s, who, i);
    }
  }

  lemma LedBySpace(s: string, who: string, i: nat)
    requires |BeforeDash(s)| <= i <= |who| && s != "" && s[0] == ' ' && who != ""
    ensures |Strip(BeforeDash(s))| < |who|
  {
    var b := BeforeDash(s);
    if b != "" {
      assert b[0] == s[0];
      assert b == " " + b[1..];
      SpaceAhead(b[1..]);
    }
  }

  lemma SpaceAhead(x: string)
    ensures |Strip(" " + x)| <= |x|
  {
    var s := " " + x;
    RStripParts(s);
    assert RStrip(s) != "" ==> RStrip(s)[0] == s[0];
  }

  lemma ColonAfter(front: string, rest: string)
    requires ':' !in front
    ensures AfterColon(front + (":" + rest)) == rest
  {
    FindBefore(front, ":" + rest, ':');
    assert (front + (":" + rest))[|front| + 1..] == rest;
  }

  lemma LowerFront(front: string, rest: string)
    ensures Lower(front) <= Lower(front + rest)
  {
    assert Lower(front + rest)[..|front|] == Lower(front);
  }

  predicate Signed(r: Ratification) {
    Trimmed(r.who) && r.who != "" && Trimmed(r.reason) && r.reason != ""
  }

  lemma MarkerText(r: Ratification)
    requires Signed(r)
    ensures var m := RatifiedMarker(r);
            m == "ratified" + (":" + (" " + (r.who + (" \U{2014}" + (" " + r.reason))))) && Trimmed(m)
  {
    var m := RatifiedMarker(r);
    assert m[|m| - 1] == r.reason[|r.reason| - 1] && m[0] == 'r';
    assert "ratified: " == "ratified" + (":" + " ") && " \U{2014} " == " \U{2014}" + " ";
  }

  /** The marker of a ratification gives the name back exactly when that holds no spaced dash. */
  lemma MarkerRead(r: Ratification)
    requires Signed(r)
    ensures RatifierFrom(Some(RatifiedMarker(r))) == Some(r.who) <==> NoDash(" " + (r.who + " "))
  {
    var m := RatifiedMarker(r);
    var rest := " " + (r.who + (" \U{2014}" + (" " + r.reason)));
    MarkerText(r);
    StripTrimmed(m);
    LowerFront("ratified:", rest);
    assert Lower("ratified:") == "ratified:";
    assert "ratified:" + rest == "ratified" + (":" + rest);
    ColonAfter("ratified", rest);
    NameBefore(r.who, " " + r.reason);
  }

  lemma NamedOtherwise(found: Option<string>, who: string)
    ensures NameOr(found) == who <==> found == Some(who) || (found == None && who == "the ratifier")
    ensures who == "the ratifier" ==> NoDash(" " + (who + " "))
  {
  }

  lemma MarkerNamed(c: Change, r: Ratification)
    requires Signed(r) && c.ratifiedBy == None && c.approvedBy == Some(RatifiedMarker(r))
    ensures RatifierNamed(c) == r.who <==> NoDash(" " + (r.who + " "))
  {
    MarkerRead(r);
    NamedOtherwise(RatifierFrom(c.approvedBy), r.who);
  }

  /** A ratified change names its ratifier: from the field, and without the field from the marker,
      exactly when the name holds no spaced dash. */
  lemma RatifierRecovered(c: Change, r: Ratification)
    requires Signed(r)
    ensures RatifierNamed(ApplyRatification(c, r)) == r.who
    ensures RatifierNamed(ApplyRatification(c, r).(ratifiedBy := None)) == r.who <==> NoDash(" " + (r.who + " "))
  {
    MarkerNamed(ApplyRatification(c, r).(ratifiedBy := None), r);
  }

  /** A ratification is minted for anybody and any reason that is not blank, and shows in the gates: the
      change is at least approved, and below spec-approved its dispatch is refused as ratified only. */
  lemma RatificationShows(c: Change, who: string, reason: string, at: string, policy: Policy)
    ensures Ratify(who, reason, at).Minted? <==> !AllSpace(who) && !AllSpace(reason)
    ensures Ratify(who, reason, at).Minted? ==>
              Ratify(who, reason, at).ratification == Ratification(Strip(who), Strip(reason), at) &&
              Signed(Ratify(who, reason, at).ratification)
    ensures Ratify(who, reason, at).Minted? ==>
              var after := ApplyRatification(c, Ratify(who, reason, at).ratification);
              && after.stage == (if c.stage in STAGES[2..] then c.stage else Approved)
              && after.ratified && after.ratifiedAt == Some(at)
              && HasApproval(after)
              && (!Reached(after) && !IsResearch(after) ==> DispatchGate(after, policy).violations == [RatifiedOnly])
  {
    StripBlank(who);
    StripBlank(reason);
    if Ratify(who, reason, at).Minted? {
      RatificationFills(c, Ratify(who, reason, at).ratification);
    }
  }
}
