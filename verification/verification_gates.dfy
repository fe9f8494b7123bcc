/** Critic selection: the four policies and the choice of critics
    (src/otaman_core/verification_gates.py). */
module VerificationGates {
  import opened Text
  import opened Wrappers

  datatype Policy = SensitivityScoped | StakeholderAffected | ConsumerChain | RoleBased

  /** An agent and the classes or roles declared for it. */
  datatype Row = Row(agent: string, values: seq<string>)

  datatype HookPolicy = HookPolicy(
    primary: Policy, fallback: Option<Policy>, overrides: map<string, Policy>, targetRole: Option<string>)

  datatype Config = Config(clearances: seq<Row>, hooks: map<string, HookPolicy>, roles: seq<Row>)

  // ----- Selecting -----

  datatype Context = Context(
    candidates: seq<string>, sensitivity: Option<string>, affectedRepos: seq<string>, repoOwners: map<string, string>,
    consumers: seq<string>, agentRoles: seq<Row>, targetRole: Option<string>, proposer: Option<string>)

  datatype Input = Roles | TargetRole

  datatype Selection = Selection(
    policy: Policy, critics: seq<string>, fellBack: bool, overridden: bool, dropped: seq<string>,
    excludedProposer: bool, couldNotEvaluate: seq<Input>)

  /** The agents of the rows that declare `value`, in table order. */
  function Holders(rows: seq<Row>, value: string): seq<string> {
    if rows == [] then []
    else (if value in rows[0].values then [rows[0].agent] else []) + Holders(rows[1..], value)
  }

  function Keep(xs: seq<string>, ys: seq<string>): seq<string> {
    if xs == [] then [] else (if xs[0] in ys then [xs[0]] else []) + Keep(xs[1..], ys)
  }

  function Owners(repos: seq<string>, owners: map<string, string>): seq<string> {
    if repos == [] then []
    else (if repos[0] in owners then [owners[repos[0]]] else []) + Owners(repos[1..], owners)
  }

  function EffectiveRoles(config: Config, ctx: Context): seq<Row> {
    if ctx.agentRoles != [] then ctx.agentRoles else config.roles
  }

  function EffectiveTarget(hp: HookPolicy, ctx: Context): Option<string> {
    if ctx.targetRole.Some? && ctx.targetRole.value != "" then ctx.targetRole else hp.targetRole
  }

  /** What a role-based selection lacks. */
  function Absent(config: Config, ctx: Context, target: Option<string>): seq<Input> {
    (if EffectiveRoles(config, ctx) == [] then [Roles] else []) + (if target.None? then [TargetRole] else [])
  }

  /** The agents a policy names, with repetitions. */
  function Picked(p: Policy, config: Config, ctx: Context, target: Option<string>): seq<string> {
    match p
    case SensitivityScoped =>
      if ctx.sensitivity.None? then []
      else Keep(ctx.candidates, Holders(config.clearances, ctx.sensitivity.value))
    case StakeholderAffected => Owners(ctx.affectedRepos, ctx.repoOwners)
    case ConsumerChain => ctx.consumers
    case RoleBased =>
      if Absent(config, ctx, target) != [] || target.None? then []
      else Holders(EffectiveRoles(config, ctx), target.value)
  }

  function Missing(p: Policy, config: Config, ctx: Context, target: Option<string>): seq<Input> {
    if p.RoleBased? then Absent(config, ctx, target) else []
  }

  /** First occurrences, in order. */
  function Dedup(xs: seq<string>): seq<string> {
    if xs == [] then []
    else
      var front := Dedup(xs[..|xs| - 1]);
      if xs[|xs| - 1] in front then front else front + [xs[|xs| - 1]]
  }

  function Without(xs: seq<string>, agent: Option<string>): seq<string> {
    if xs == [] then []
    else (if agent == Some(xs[0]) then [] else [xs[0]]) + Without(xs[1..], agent)
  }

  lemma {:induction false} HoldersConcat(a: seq<Row>, b: seq<Row>, value: string)
    ensures Holders(a + b, value) == Holders(a, value) + Holders(b, value)
  {
    if a == [] {
      assert a + b == b;
    } else {
      assert (a + b)[1..] == a[1..] + b;
      HoldersConcat(a[1..], b, value);
    }
  }

  /** `[a for a, values in table.items() if value in values]`. */
  method AgentsWith(rows: seq<Row>, value: string) returns (out: seq<string>)
    ensures out == Holders(rows, value)
  {
    out := [];
    for i := 0 to |rows|
      invariant out == Holders(rows[..i], value)
    {
      HoldersConcat(rows[..i], [rows[i]], value);
      assert rows[..i + 1] == rows[..i] + [rows[i]];
      if value in rows[i].values {
        out := out + [rows[i].agent];
      }
    }
    assert rows[..|rows|] == rows;
  }

  lemma {:induction false} KeepSnoc(xs: seq<string>, x: string, ys: seq<string>)
    ensures Keep(xs + [x], ys) == Keep(xs, ys) + if x in ys then [x] else []
  {
    if xs == [] {
      assert xs + [x] == [x] && [x][1..] == [];
    } else {
      assert (xs + [x])[1..] == xs[1..] + [x];
      KeepSnoc(xs[1..], x, ys);
    }
  }

  lemma {:induction false} DropSnoc(xs: seq<string>, x: string, ys: seq<string>)
    ensures Drop(xs + [x], ys) == Drop(xs, ys) + if x in ys then [] else [x]
  {
    if xs == [] {
      assert xs + [x] == [x] && [x][1..] == [];
    } else {
      assert (xs + [x])[1..] == xs[1..] + [x];
      DropSnoc(xs[1..], x, ys);
    }
  }

  /** The agents that are in a set, and the others. */
  method Divide(xs: seq<string>, ys: seq<string>) returns (kept: seq<string>, dropped: seq<string>)
    ensures kept == Keep(xs, ys) && dropped == Drop(xs, ys)
  {
    kept, dropped := [], [];
    for i := 0 to |xs|
      invariant kept == Keep(xs[..i], ys) && dropped == Drop(xs[..i], ys)
    {
      KeepSnoc(xs[..i], xs[i], ys);
      DropSnoc(xs[..i], xs[i], ys);
      assert xs[..i + 1] == xs[..i] + [xs[i]];
      if xs[i] in ys {
        kept := kept + [xs[i]];
      } else {
        dropped := dropped + [xs[i]];
      }
    }
    assert xs[..|xs|] == xs;
  }

  lemma {:induction false} OwnersConcat(a: seq<string>, b: seq<string>, owners: map<string, string>)
    ensures Owners(a + b, owners) == Owners(a, owners) + Owners(b, owners)
  {
    if a == [] {
      assert a + b == b;
    } else {
      assert (a + b)[1..] == a[1..] + b;
      OwnersConcat(a[1..], b, owners);
    }
  }

  method OwnersOf(repos: seq<string>, owners: map<string, string>) returns (out: seq<string>)
    ensures out == Owners(repos, owners)
  {
    out := [];
    for i := 0 to |repos|
      invariant out == Owners(repos[..i], owners)
    {
      OwnersConcat(repos[..i], [repos[i]], owners);
      assert repos[..i + 1] == repos[..i] + [repos[i]];
      if repos[i] in owners {
        out := out + [owners[repos[i]]];
      }
    }
    assert repos[..|repos|] == repos;
  }

  /** The agents a policy names before repetitions are dropped, or the inputs it lacks. */
  method PickAgents(p: Policy, config: Config, ctx: Context, target: Option<string>)
    returns (picked: seq<string>, missing: seq<Input>)
    ensures picked == Picked(p, config, ctx, target)
    ensures missing == Missing(p, config, ctx, target)
  {
    picked, missing := [], [];
    match p {
      case SensitivityScoped =>
        if ctx.sensitivity.None? {
          return;
        }
        var cleared := AgentsWith(config.clearances, ctx.sensitivity.value);
        var others;
        picked, others := Divide(ctx.candidates, cleared);
      case StakeholderAffected =>
        picked := OwnersOf(ctx.affectedRepos, ctx.repoOwners);
      case ConsumerChain =>
        picked := ctx.consumers;
      case RoleBased =>
        var roles := ctx.agentRoles;
        if roles == [] {
          roles := config.roles;
        }
        if roles == [] {
          missing := [Roles];
        }
        if target.None? {
          missing := missing + [TargetRole];
        }
        if missing == [] {
          picked := AgentsWith(roles, target.value);
        }
    }
  }

  method RunPolicy(p: Policy, config: Config, ctx: Context, target: Option<string>)
    returns (critics: seq<string>, missing: seq<Input>)
    ensures critics == Dedup(Picked(p, config, ctx, target))
    ensures missing == Missing(p, config, ctx, target)
  {
    var picked;
    picked, missing := PickAgents(p, config, ctx, target);
    critics := [];
    for i := 0 to |picked|
      invariant critics == Dedup(picked[..i])
    {
      assert picked[..i + 1][..i] == picked[..i];
      if picked[i] !in critics {
        critics := critics + [picked[i]];
      }
    }
    assert picked[..|picked|] == picked;
  }

  /** A policy's critics, the proposer left out. */
  function Named(p: Policy, config: Config, hp: HookPolicy, ctx: Context): seq<string> {
    Without(Dedup(Picked(p, config, ctx, EffectiveTarget(hp, ctx))), ctx.proposer)
  }

  /** The proposer was among the policy's critics. */
  predicate NamesProposer(p: Policy, config: Config, hp: HookPolicy, ctx: Context) {
    ctx.proposer.Some? && ctx.proposer.value in Dedup(Picked(p, config, ctx, EffectiveTarget(hp, ctx)))
  }

  predicate Overridden(hp: HookPolicy, ctx: Context) {
    ctx.sensitivity.Some? && ctx.sensitivity.value in hp.overrides
  }

  function FirstPolicy(hp: HookPolicy, ctx: Context): Policy {
    if Overridden(hp, ctx) then hp.overrides[ctx.sensitivity.value] else hp.primary
  }

  predicate FallsBack(config: Config, hp: HookPolicy, ctx: Context) {
    hp.fallback.Some? && Named(FirstPolicy(hp, ctx), config, hp, ctx) == []
  }

  function FinalPolicy(config: Config, hp: HookPolicy, ctx: Context): Policy {
    if FallsBack(config, hp, ctx) then hp.fallback.value else FirstPolicy(hp, ctx)
  }

  /** The selection before the clearance gate. */
  function Chosen(config: Config, hp: HookPolicy, ctx: Context): seq<string> {
    Named(FinalPolicy(config, hp, ctx), config, hp, ctx)
  }

  function Drop(xs: seq<string>, ys: seq<string>): seq<string> {
    if xs == [] then [] else (if xs[0] in ys then [] else [xs[0]]) + Drop(xs[1..], ys)
  }

  function Critics(config: Config, hp: HookPolicy, ctx: Context): seq<string> {
    if ctx.sensitivity.None? then Chosen(config, hp, ctx)
    else Keep(Chosen(config, hp, ctx), Holders(config.clearances, ctx.sensitivity.value))
  }

  function Dropped(config: Config, hp: HookPolicy, ctx: Context): seq<string> {
    if ctx.sensitivity.None? then []
    else Drop(Chosen(config, hp, ctx), Holders(config.clearances, ctx.sensitivity.value))
  }

  datatype Outcome = Selected(selection: Selection) | UnknownHook

  method SelectCritics(config: Config, hook: string, ctx: Context) returns (r: Outcome)
    ensures r == UnknownHook <==> hook !in config.hooks
    ensures r.Selected? ==>
              var hp, s := config.hooks[hook], r.selection;
              && s.policy == FinalPolicy(config, hp, ctx)
              && s.critics == Critics(config, hp, ctx)
              && s.fellBack == FallsBack(config, hp, ctx)
              && s.overridden == Overridden(hp, ctx)
              && s.dropped == Dropped(config, hp, ctx)
              && s.excludedProposer == (NamesProposer(FirstPolicy(hp, ctx), config, hp, ctx)
                                        || (s.fellBack && NamesProposer(s.policy, config, hp, ctx)))
              && s.couldNotEvaluate ==
                 (if s.critics == [] then Missing(s.policy, config, ctx, EffectiveTarget(hp, ctx)) else [])
  {
    if hook !in config.hooks {
      return UnknownHook;
    }
    var hp := config.hooks[hook];
    var policy := hp.primary;
    var overridden := false;
    if ctx.sensitivity.Some? && ctx.sensitivity.value in hp.overrides {
      policy := hp.overrides[ctx.sensitivity.value];
      overridden := true;
    }
    var critics, missing, excluded := Run(policy, config, hp, ctx);
    var fellBack := false;
    if critics == [] && hp.fallback.Some? {
      policy := hp.fallback.value;
      var again;
      critics, missing, again := Run(policy, config, hp, ctx);
      excluded := excluded || again;
      fellBack := true;
    }
    var dropped: seq<string> := [];
    if ctx.sensitivity.Some? {
      var cleared := AgentsWith(config.clearances, ctx.sensitivity.value);
      critics, dropped := Divide(critics, cleared);
    }
    r := Selected(Selection(policy, critics, fellBack, overridden, dropped, excluded,
                            if critics == [] then missing else []));
  }

  /** The nested `_run`: one policy, then the proposer taken out. */
  method Run(p: Policy, config: Config, hp: HookPolicy, ctx: Context)
    returns (picked: seq<string>, missing: seq<Input>, excluded: bool)
    ensures picked == Named(p, config, hp, ctx)
    ensures missing == Missing(p, config, ctx, EffectiveTarget(hp, ctx))
    ensures excluded <==> NamesProposer(p, config, hp, ctx)
  {
    picked, missing := RunPolicy(p, config, ctx, EffectiveTarget(hp, ctx));
    excluded := ctx.proposer.Some? && ctx.proposer.value in picked;
    if excluded {
      picked := Without(picked, ctx.proposer);
    } else {
      NothingToTake(picked, ctx.proposer);
    }
  }

  lemma {:induction false} NothingToTake(xs: seq<string>, agent: Option<string>)
    requires agent.Some? ==> agent.value !in xs
    ensures Without(xs, agent) == xs
  {
    if xs != [] {
      NothingToTake(xs[1..], agent);
      assert xs == [xs[0]] + xs[1..];
    }
  }

  // ----- What the selection guarantees -----

  /** Some row of `agent` declares `value`. */
  ghost predicate Declared(rows: seq<Row>, agent: string, value: string) {
    exists i :: 0 <= i < |rows| && rows[i].agent == agent && value in rows[i].values
  }

  lemma {:induction false} HoldersMeans(rows: seq<Row>, value: string, agent: string)
    ensures agent in Holders(rows, value) <==>
            exists i :: 0 <= i < |rows| && rows[i].agent == agent && value in rows[i].values
  {
    if rows != [] {
      var rest := rows[1..];
      HoldersMeans(rest, value, agent);
      if i :| 0 <= i < |rest| && rest[i].agent == agent && value in rest[i].values {
        assert rows[i + 1] == rest[i];
      }
      if i :| 0 < i < |rows| && rows[i].agent == agent && value in rows[i].values {
        assert rest[i - 1] == rows[i];
      }
    }
  }

  lemma {:induction false} OwnersMeans(repos: seq<string>, owners: map<string, string>, agent: string)
    ensures agent in Owners(repos, owners) <==> exists r :: r in repos && r in owners && owners[r] == agent
  {
    if repos != [] {
      OwnersMeans(repos[1..], owners, agent);
      assert repos == [repos[0]] + repos[1..];
    }
  }

  /** A policy names `agent`, in the caller's and the configuration's own terms. */
  ghost predicate Names(p: Policy, config: Config, ctx: Context, target: Option<string>, agent: string) {
    match p
    case SensitivityScoped =>
      ctx.sensitivity.Some? && agent in ctx.candidates && Declared(config.clearances, agent, ctx.sensitivity.value)
    case StakeholderAffected =>
      exists r :: r in ctx.affectedRepos && r in ctx.repoOwners && ctx.repoOwners[r] == agent
    case ConsumerChain => agent in ctx.consumers
    case RoleBased =>
      target.Some? && Declared(if |ctx.agentRoles| > 0 then ctx.agentRoles else config.roles, agent, target.value)
  }

  lemma PickedMeans(p: Policy, config: Config, ctx: Context, target: Option<string>, agent: string)
    ensures agent in Picked(p, config, ctx, target) <==> Names(p, config, ctx, target, agent)
  {
    match p
    case SensitivityScoped =>
      if ctx.sensitivity.Some? {
        HoldersMeans(config.clearances, ctx.sensitivity.value, agent);
        KeepDrop(ctx.candidates, Holders(config.clearances, ctx.sensitivity.value));
      }
    case StakeholderAffected => OwnersMeans(ctx.affectedRepos, ctx.repoOwners, agent);
    case ConsumerChain =>
    case RoleBased =>
      if target.Some? {
        HoldersMeans(EffectiveRoles(config, ctx), target.value, agent);
      }
  }

  lemma NamedMeans(p: Policy, config: Config, hp: HookPolicy, ctx: Context, agent: string)
    ensures agent in Named(p, config, hp, ctx) <==>
            Names(p, config, ctx, EffectiveTarget(hp, ctx), agent) && ctx.proposer != Some(agent)
  {
    PickedMeans(p, config, ctx, EffectiveTarget(hp, ctx), agent);
    DedupMembers(Picked(p, config, ctx, EffectiveTarget(hp, ctx)));
    WithoutMembers(Dedup(Picked(p, config, ctx, EffectiveTarget(hp, ctx))), ctx.proposer);
  }

  lemma NobodyNamed(p: Policy, config: Config, hp: HookPolicy, ctx: Context)
    ensures Named(p, config, hp, ctx) == [] <==>
            forall x :: Names(p, config, ctx, EffectiveTarget(hp, ctx), x) ==> ctx.proposer == Some(x)
  {
    forall x
      ensures x in Named(p, config, hp, ctx) <==>
              Names(p, config, ctx, EffectiveTarget(hp, ctx), x) && ctx.proposer != Some(x)
    {
      NamedMeans(p, config, hp, ctx, x);
    }
    if Named(p, config, hp, ctx) != [] {
      assert Named(p, config, hp, ctx)[0] in Named(p, config, hp, ctx);
    }
  }

  /** Who is a critic, and who was dropped: everybody but the proposer whom the final policy names, on
      the side that the clearance table puts them. The final policy is the override of the class, or
      the primary one; and the fallback where that names nobody but the proposer. */
  lemma SelectionMeans(config: Config, hp: HookPolicy, ctx: Context, agent: string)
    ensures var target := if ctx.targetRole.Some? && |ctx.targetRole.value| > 0 then ctx.targetRole else hp.targetRole;
            var first := if ctx.sensitivity.Some? && ctx.sensitivity.value in hp.overrides
                         then hp.overrides[ctx.sensitivity.value] else hp.primary;
            var alone := forall x :: Names(first, config, ctx, target, x) ==> ctx.proposer == Some(x);
            var policy := if hp.fallback.Some? && alone then hp.fallback.value else first;
            var chosen := Names(policy, config, ctx, target, agent) && ctx.proposer != Some(agent);
            var cleared := ctx.sensitivity.None? || Declared(config.clearances, agent, ctx.sensitivity.value);
            && policy == FinalPolicy(config, hp, ctx)
            && (FallsBack(config, hp, ctx) <==> hp.fallback.Some? && alone)
            && (agent in Critics(config, hp, ctx) <==> chosen && cleared)
            && (agent in Dropped(config, hp, ctx) <==> chosen && !cleared)
  {
    NobodyNamed(FirstPolicy(hp, ctx), config, hp, ctx);
    NamedMeans(FinalPolicy(config, hp, ctx), config, hp, ctx, agent);
    if ctx.sensitivity.Some? {
      KeepDrop(Chosen(config, hp, ctx), Holders(config.clearances, ctx.sensitivity.value));
      HoldersMeans(config.clearances, ctx.sensitivity.value, agent);
    }
  }

  // ----- Order -----

  /** The first place of `x`, or the length. */
  function FirstAt(xs: seq<string>, x: string): (k: nat)
    ensures k <= |xs|
    ensures k < |xs| ==> xs[k] == x
    ensures x !in xs[..k]
    ensures k == |xs| ==> x !in xs
  {
    if xs == [] || xs[0] == x then 0
    else
      assert xs == [xs[0]] + xs[1..];
      var k := FirstAt(xs[1..], x) + 1;
      assert xs[..k] == [xs[0]] + xs[1..][..k - 1];
      k
  }

  /** `ys` lists agents as `xs` first names them, each once. */
  predicate InOrderOf(ys: seq<string>, xs: seq<string>) {
    forall i, j :: 0 <= i < j < |ys| ==> FirstAt(xs, ys[i]) < FirstAt(xs, ys[j])
  }

  lemma {:induction false} FirstAtIs(xs: seq<string>, x: string, k: nat)
    requires k < |xs| && xs[k] == x && x !in xs[..k]
    ensures FirstAt(xs, x) == k
  {
    if k > 0 {
      assert xs[..k] == [xs[0]] + xs[1..][..k - 1];
      FirstAtIs(xs[1..], x, k - 1);
    }
  }

  lemma FirstAtSnoc(xs: seq<string>, y: string, x: string)
    ensures x in xs ==> FirstAt(xs + [y], x) == FirstAt(xs, x) < |xs|
    ensures x !in xs && x == y ==> FirstAt(xs + [y], x) == |xs|
  {
    var m := FirstAt(xs, x);
    assert (xs + [y])[..m] == xs[..m];
    assert m == |xs| ==> xs[..m] == xs;
    if x in xs || x == y {
      FirstAtIs(xs + [y], x, m);
    }
  }

  lemma {:induction false} DedupOrder(xs: seq<string>)
    ensures InOrderOf(Dedup(xs), xs)
  {
    if xs != [] {
      var front, y := xs[..|xs| - 1], xs[|xs| - 1];
      assert xs == front + [y];
      DedupOrder(front);
      DedupMembers(front);
      var ds := Dedup(xs);
      forall i, j | 0 <= i < j < |ds|
        ensures FirstAt(xs, ds[i]) < FirstAt(xs, ds[j])
      {
        FirstAtSnoc(front, y, ds[i]);
        FirstAtSnoc(front, y, ds[j]);
        assert i < |Dedup(front)| && Dedup(front)[i] in Dedup(front);
        assert j < |Dedup(front)| ==> Dedup(front)[j] in Dedup(front);
      }
    }
  }

  /** `ys` is `xs` with some members left out. */
  predicate PartOf(ys: seq<string>, xs: seq<string>) {
    ys == [] || (xs != [] && ((ys[0] == xs[0] && PartOf(ys[1..], xs[1..])) || PartOf(ys, xs[1..])))
  }

  lemma PartCons(x: string, ys: seq<string>, xs: seq<string>)
    requires PartOf(ys, xs)
    ensures PartOf([x] + ys, [x] + xs) && PartOf(ys, [x] + xs) && [] + ys == ys
  {
    assert ([x] + ys)[1..] == ys && ([x] + xs)[1..] == xs;
  }

  lemma {:induction false} FilteredPart(xs: seq<string>, ys: seq<string>, agent: Option<string>)
    ensures PartOf(Keep(xs, ys), xs) && PartOf(Drop(xs, ys), xs) && PartOf(Without(xs, agent), xs)
  {
    if xs != [] {
      FilteredPart(xs[1..], ys, agent);
      PartCons(xs[0], Keep(xs[1..], ys), xs[1..]);
      PartCons(xs[0], Drop(xs[1..], ys), xs[1..]);
      PartCons(xs[0], Without(xs[1..], agent), xs[1..]);
      assert xs == [xs[0]] + xs[1..];
    }
  }

  lemma {:induction false} PartMembers(ys: seq<string>, xs: seq<string>, j: nat) returns (i: nat)
    requires PartOf(ys, xs) && j < |ys|
    ensures i < |xs| && xs[i] == ys[j] && i >= j
  {
    if ys[0] == xs[0] && PartOf(ys[1..], xs[1..]) {
      if j == 0 {
        i := 0;
      } else {
        i := PartMembers(ys[1..], xs[1..], j - 1);
        i := i + 1;
      }
    } else {
      i := PartMembers(ys, xs[1..], j);
      i := i + 1;
    }
  }

  lemma {:induction false} PartOrder(ys: seq<string>, xs: seq<string>, base: seq<string>)
    requires PartOf(ys, xs) && InOrderOf(xs, base)
    ensures InOrderOf(ys, base)
    decreases |xs|
  {
    if ys != [] {
      var rest := xs[1..];
      assert forall i :: 0 <= i < |rest| ==> rest[i] == xs[i + 1];
      if ys[0] == xs[0] && PartOf(ys[1..], rest) {
        PartOrder(ys[1..], rest, base);
        forall j | 0 < j < |ys|
          ensures FirstAt(base, ys[0]) < FirstAt(base, ys[j])
        {
          var i := PartMembers(ys[1..], rest, j - 1);
          assert xs[i + 1] == ys[j];
        }
        assert forall j :: 0 < j < |ys| ==> ys[j] == ys[1..][j - 1];
      } else {
        PartOrder(ys, rest, base);
      }
    }
  }

  /** Critics and dropped agents come in the order in which the final policy first names them, each once. */
  lemma SelectionOrder(config: Config, hp: HookPolicy, ctx: Context)
    ensures var picked := Picked(FinalPolicy(config, hp, ctx), config, ctx, EffectiveTarget(hp, ctx));
            InOrderOf(Critics(config, hp, ctx), picked) && InOrderOf(Dropped(config, hp, ctx), picked)
  {
    var picked := Picked(FinalPolicy(config, hp, ctx), config, ctx, EffectiveTarget(hp, ctx));
    var chosen := Chosen(config, hp, ctx);
    DedupOrder(picked);
    FilteredPart(Dedup(picked), [], ctx.proposer);
    PartOrder(chosen, Dedup(picked), picked);
    if ctx.sensitivity.Some? {
      FilteredPart(chosen, Holders(config.clearances, ctx.sensitivity.value), None);
      PartOrder(Critics(config, hp, ctx), chosen, picked);
      PartOrder(Dropped(config, hp, ctx), chosen, picked);
    }
  }

  lemma {:induction false} DedupMembers(xs: seq<string>)
    ensures forall x :: x in Dedup(xs) <==> x in xs
    ensures forall i, j :: 0 <= i < j < |Dedup(xs)| ==> Dedup(xs)[i] != Dedup(xs)[j]
  {
    if xs != [] {
      DedupMembers(xs[..|xs| - 1]);
      assert xs == xs[..|xs| - 1] + [xs[|xs| - 1]];
    }
  }

  lemma {:induction false} WithoutMembers(xs: seq<string>, agent: Option<string>)
    ensures forall x :: x in Without(xs, agent) <==> x in xs && agent != Some(x)
  {
    if xs != [] {
      WithoutMembers(xs[1..], agent);
      assert xs == [xs[0]] + xs[1..];
    }
  }

  lemma {:induction false} KeepDrop(xs: seq<string>, ys: seq<string>)
    ensures forall x :: x in Keep(xs, ys) <==> x in xs && x in ys
    ensures forall x :: x in Drop(xs, ys) <==> x in xs && x !in ys
    ensures multiset(Keep(xs, ys)) + multiset(Drop(xs, ys)) == multiset(xs)
  {
    if xs != [] {
      KeepDrop(xs[1..], ys);
      assert xs == [xs[0]] + xs[1..];
    }
  }

  /** Whatever the configuration, no critic is the proposer. */
  lemma ProposerExcluded(config: Config, hp: HookPolicy, ctx: Context)
    ensures ctx.proposer.Some? ==> ctx.proposer.value !in Critics(config, hp, ctx)
    ensures ctx.proposer.Some? ==> ctx.proposer.value !in Chosen(config, hp, ctx)
  {
    WithoutMembers(
      Dedup(Picked(FinalPolicy(config, hp, ctx), config, ctx, EffectiveTarget(hp, ctx))), ctx.proposer);
    if ctx.sensitivity.Some? {
      KeepDrop(Chosen(config, hp, ctx), Holders(config.clearances, ctx.sensitivity.value));
    }
  }

  /** Content of a class reaches only critics that some clearance row declares for it, and nobody
      disappears: critics and dropped are the selection, each agent on the side its rows put it. */
  lemma ClearanceGate(config: Config, hp: HookPolicy, ctx: Context)
    requires ctx.sensitivity.Some?
    ensures forall a :: a in Critics(config, hp, ctx) <==>
              a in Chosen(config, hp, ctx) &&
              exists i :: 0 <= i < |config.clearances| && config.clearances[i].agent == a
                          && ctx.sensitivity.value in config.clearances[i].values
    ensures forall a :: a in Dropped(config, hp, ctx) <==>
              a in Chosen(config, hp, ctx) &&
              forall i :: 0 <= i < |config.clearances| && config.clearances[i].agent == a ==>
                            ctx.sensitivity.value !in config.clearances[i].values
    ensures multiset(Critics(config, hp, ctx)) + multiset(Dropped(config, hp, ctx)) == multiset(Chosen(config, hp, ctx))
  {
    var cleared := Holders(config.clearances, ctx.sensitivity.value);
    KeepDrop(Chosen(config, hp, ctx), cleared);
    forall a
      ensures a in cleared <==>
              exists i :: 0 <= i < |config.clearances| && config.clearances[i].agent == a
                          && ctx.sensitivity.value in config.clearances[i].values
    {
      HoldersMeans(config.clearances, ctx.sensitivity.value, a);
    }
  }

  // ----- Complete configurations -----

  /** Role-based is in the pairing and both of its inputs are declared. */
  predicate CompleteHook(hp: HookPolicy, roles: seq<Row>) {
    && (hp.primary == RoleBased || hp.fallback == Some(RoleBased))
    && roles != []
    && hp.targetRole.Some? && Strip(hp.targetRole.value) != ""
  }

  predicate Complete(config: Config) {
    forall hook :: hook in config.hooks ==> CompleteHook(config.hooks[hook], config.roles)
  }

  /** A complete hook can always be evaluated, in every context. */
  lemma AlwaysEvaluated(config: Config, hook: string, ctx: Context)
    requires Complete(config) && hook in config.hooks
    ensures var hp := config.hooks[hook];
            Missing(FinalPolicy(config, hp, ctx), config, ctx, EffectiveTarget(hp, ctx)) == []
  {
  }

  /** Some row gives an agent other than the proposer the role the hook asks for. The caller's rows
      and role come before the configuration's. */
  ghost predicate OtherHolder(config: Config, hp: HookPolicy, ctx: Context) {
    var role := if ctx.targetRole.Some? && |ctx.targetRole.value| > 0 then ctx.targetRole else hp.targetRole;
    var rows := if |ctx.agentRoles| > 0 then ctx.agentRoles else config.roles;
    role.Some? && HeldByOther(rows, role.value, ctx.proposer)
  }

  ghost predicate HeldByOther(rows: seq<Row>, role: string, proposer: Option<string>) {
    exists i :: 0 <= i < |rows| && role in rows[i].values && proposer != Some(rows[i].agent)
  }

  lemma RoleBasedNames(config: Config, hook: string, ctx: Context)
    requires Complete(config) && hook in config.hooks
    ensures Named(RoleBased, config, config.hooks[hook], ctx) != [] <==> OtherHolder(config, config.hooks[hook], ctx)
  {
    var hp := config.hooks[hook];
    NobodyNamed(RoleBased, config, hp, ctx);
    HolderNamed(config, hp, ctx);
  }

  lemma HolderNamed(config: Config, hp: HookPolicy, ctx: Context)
    ensures OtherHolder(config, hp, ctx) <==>
            exists x :: Names(RoleBased, config, ctx, EffectiveTarget(hp, ctx), x) && ctx.proposer != Some(x)
  {
    var role, rows := EffectiveTarget(hp, ctx), EffectiveRoles(config, ctx);
    if role.Some? {
      HeldDeclared(rows, role.value, ctx.proposer);
      forall x
        ensures Declared(rows, x, role.value) <==> Names(RoleBased, config, ctx, role, x)
      {
      }
    }
  }

  lemma HeldDeclared(rows: seq<Row>, role: string, proposer: Option<string>)
    ensures HeldByOther(rows, role, proposer) <==> exists x :: Declared(rows, x, role) && proposer != Some(x)
  {
    if i :| 0 <= i < |rows| && role in rows[i].values && proposer != Some(rows[i].agent) {
      assert Declared(rows, rows[i].agent, role);
    }
    if x :| Declared(rows, x, role) && proposer != Some(x) {
      var i :| 0 <= i < |rows| && rows[i].agent == x && role in rows[i].values;
      assert proposer != Some(rows[i].agent);
    }
  }

  /** The selection of a complete hook names somebody whenever another agent holds the role, unless
      an override took role-based out of the pairing. */
  lemma SomebodyChosen(config: Config, hook: string, ctx: Context)
    requires Complete(config) && hook in config.hooks && OtherHolder(config, config.hooks[hook], ctx)
    requires !Overridden(config.hooks[hook], ctx) || config.hooks[hook].fallback == Some(RoleBased)
    ensures Chosen(config, config.hooks[hook], ctx) != []
    ensures ctx.sensitivity.None? ==> Critics(config, config.hooks[hook], ctx) != []
  {
    RoleBasedNames(config, hook, ctx);
  }

  /** The shape the completeness rule exists for: a change to one repository, proposed by its own
      owner, with nothing else to go on. It gets a critic exactly when the configuration gives
      the role to somebody else. */
  lemma SelfOwnedChange(config: Config, hook: string, repo: string, owner: string)
    requires Complete(config) && hook in config.hooks
    ensures var ctx := Context([], None, [repo], map[repo := owner], [], [], None, Some(owner));
            Critics(config, config.hooks[hook], ctx) != [] <==> OtherHolder(config, config.hooks[hook], ctx)
  {
    var hp := config.hooks[hook];
    var ctx := Context([], None, [repo], map[repo := owner], [], [], None, Some(owner));
    RoleBasedNames(config, hook, ctx);
    OwnerEmptied(config, hp, repo, owner);
  }

  lemma OwnerEmptied(config: Config, hp: HookPolicy, repo: string, owner: string)
    ensures var ctx := Context([], None, [repo], map[repo := owner], [], [], None, Some(owner));
            forall p :: p != RoleBased ==> Named(p, config, hp, ctx) == []
  {
    var ctx := Context([], None, [repo], map[repo := owner], [], [], None, Some(owner));
    var owners := map[repo := owner];
    assert Owners([repo], owners) == [owner] + Owners([repo][1..], owners) && [repo][1..] == [];
    assert [owner][..0] == [] && [owner][1..] == [];
    assert Dedup([]) == [] && Dedup([owner]) == [owner];
    assert Without([owner], Some(owner)) == [];
  }
}
