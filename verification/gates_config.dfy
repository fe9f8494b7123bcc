/** Reading `verification-gates.yaml`: shapes, names and the completeness of every hook
    (src/otaman_core/verification_gates.py). The input is the loaded YAML value. */
module GatesConfig {
  import opened Text
  import G = VerificationGates
  import opened Wrappers

  /** A YAML value; mapping keys are distinct and in file order. */
  datatype Value = Null | Scalar | Str(s: string) | List(xs: seq<Value>) | Mapping(items: seq<(string, Value)>)

  datatype Error =
    | NotAMapping | StrayKey | BadClearances | BadRoles | BadHooks | PrimaryRequired | UnknownPolicy
    | BadOverrides | BadTargetRole | CannotSelect | NoRoles | NoTargetRole

  /** `data.get(key, default)`. */
  function Get(items: seq<(string, Value)>, key: string, default_: Value): Value {
    if items == [] then default_ else if items[0].0 == key then items[0].1 else Get(items[1..], key, default_)
  }

  predicate HasKey(items: seq<(string, Value)>, key: string) {
    exists i :: 0 <= i < |items| && items[i].0 == key
  }

  predicate OnlyKeys(items: seq<(string, Value)>, allowed: set<string>) {
    forall i :: 0 <= i < |items| ==> items[i].0 in allowed
  }

  /** `_check_policy`. */
  function PolicyNamed(v: Value): Option<G.Policy> {
    if v == Str("sensitivity-scoped") then Some(G.SensitivityScoped)
    else if v == Str("stakeholder-affected") then Some(G.StakeholderAffected)
    else if v == Str("consumer-chain") then Some(G.ConsumerChain)
    else if v == Str("role-based") then Some(G.RoleBased)
    else None
  }

  predicate AllStrings(xs: seq<Value>) {
    forall i :: 0 <= i < |xs| ==> xs[i].Str?
  }

  function Strings(xs: seq<Value>): seq<string>
    requires AllStrings(xs)
  {
    seq(|xs|, i requires 0 <= i < |xs| => xs[i].s)
  }

  // ----- The tables: clearances and roles -----

  /** A mapping from agents to lists of strings. */
  predicate TableShaped(v: Value) {
    v.Mapping? && forall i :: 0 <= i < |v.items| ==> v.items[i].1.List? && AllStrings(v.items[i].1.xs)
  }

  function TableOf(v: Value): seq<G.Row>
    requires TableShaped(v)
  {
    seq(|v.items|, i requires 0 <= i < |v.items| => G.Row(v.items[i].0, Strings(v.items[i].1.xs)))
  }

  method ParseTable(v: Value, error: Error) returns (r: Result<seq<G.Row>, Error>)
    ensures r == if TableShaped(v) then Ok(TableOf(v)) else Err(error)
  {
    if !v.Mapping? {
      return Err(error);
    }
    var rows := [];
    for i := 0 to |v.items|
      invariant forall j :: 0 <= j < i ==> v.items[j].1.List? && AllStrings(v.items[j].1.xs)
      invariant |rows| == i
      invariant forall j :: 0 <= j < i ==> rows[j] == G.Row(v.items[j].0, Strings(v.items[j].1.xs))
    {
      if !v.items[i].1.List? || !AllStrings(v.items[i].1.xs) {
        return Err(error);
      }
      rows := rows + [G.Row(v.items[i].0, Strings(v.items[i].1.xs))];
    }
    assert rows == TableOf(v);
    r := Ok(rows);
  }

  // ----- Hooks -----

  predicate OverridesShaped(v: Value) {
    v.Mapping? && forall i :: 0 <= i < |v.items| ==> PolicyNamed(v.items[i].1).Some?
  }

  /** The overrides, the last of equal keys winning. */
  function OverridesOf(items: seq<(string, Value)>): map<string, G.Policy>
    requires forall i :: 0 <= i < |items| ==> PolicyNamed(items[i].1).Some?
  {
    if items == [] then map[]
    else
      var last := items[|items| - 1];
      OverridesOf(items[..|items| - 1])[last.0 := PolicyNamed(last.1).value]
  }

  method ParseOverrides(v: Value) returns (r: Result<map<string, G.Policy>, Error>)
    ensures r.Ok? ==> OverridesShaped(v) && r.value == OverridesOf(v.items)
    ensures r.Err? ==> !OverridesShaped(v)
  {
    if !v.Mapping? {
      return Err(BadOverrides);
    }
    var overrides: map<string, G.Policy> := map[];
    for i := 0 to |v.items|
      invariant forall j :: 0 <= j < i ==> PolicyNamed(v.items[j].1).Some?
      invariant overrides == OverridesOf(v.items[..i])
    {
      var p := PolicyNamed(v.items[i].1);
      if p.None? {
        return Err(UnknownPolicy);
      }
      assert v.items[..i + 1][..i] == v.items[..i];
      overrides := overrides[v.items[i].0 := p.value];
    }
    assert v.items[..|v.items|] == v.items;
    r := Ok(overrides);
  }

  predicate TargetShaped(v: Value) {
    v.Null? || (v.Str? && Strip(v.s) != "")
  }

  const HOOK_KEYS := {"primary", "fallback", "sensitivity-overrides", "target-role"}

  predicate HookShaped(v: Value) {
    && v.Mapping?
    && OnlyKeys(v.items, HOOK_KEYS)
    && HasKey(v.items, "primary") && PolicyNamed(Get(v.items, "primary", Null)).Some?
    && (Get(v.items, "fallback", Null).Null? || PolicyNamed(Get(v.items, "fallback", Null)).Some?)
    && OverridesShaped(Get(v.items, "sensitivity-overrides", Mapping([])))
    && TargetShaped(Get(v.items, "target-role", Null))
  }

  function HookOf(v: Value): G.HookPolicy
    requires HookShaped(v)
  {
    var target := Get(v.items, "target-role", Null);
    G.HookPolicy(
      PolicyNamed(Get(v.items, "primary", Null)).value,
      PolicyNamed(Get(v.items, "fallback", Null)),
      OverridesOf(Get(v.items, "sensitivity-overrides", Mapping([])).items),
      if target.Str? then Some(target.s) else None)
  }

  method ParseHook(v: Value) returns (r: Result<G.HookPolicy, Error>)
    ensures r.Ok? ==> HookShaped(v) && r.value == HookOf(v)
    ensures r.Err? ==> !HookShaped(v)
  {
    if !v.Mapping? {
      return Err(BadHooks);
    }
    if !OnlyKeys(v.items, HOOK_KEYS) {
      return Err(StrayKey);
    }
    if !HasKey(v.items, "primary") {
      return Err(PrimaryRequired);
    }
    var primary := PolicyNamed(Get(v.items, "primary", Null));
    if primary.None? {
      return Err(UnknownPolicy);
    }
    var fallback: Option<G.Policy> := None;
    if !Get(v.items, "fallback", Null).Null? {
      fallback := PolicyNamed(Get(v.items, "fallback", Null));
      if fallback.None? {
        return Err(UnknownPolicy);
      }
    }
    var overrides := ParseOverrides(Get(v.items, "sensitivity-overrides", Mapping([])));
    if overrides.Err? {
      return Err(overrides.error);
    }
    var target := Get(v.items, "target-role", Null);
    if !TargetShaped(target) {
      return Err(BadTargetRole);
    }
    r := Ok(G.HookPolicy(primary.value, fallback, overrides.value, if target.Str? then Some(target.s) else None));
  }

  predicate HooksShaped(v: Value) {
    v.Mapping? && AllHooks(v.items)
  }

  predicate AllHooks(items: seq<(string, Value)>) {
    items == [] || (AllHooks(items[..|items| - 1]) && HookShaped(items[|items| - 1].1))
  }

  lemma {:induction false} HookIn(items: seq<(string, Value)>, i: nat)
    requires i < |items| && AllHooks(items)
    ensures HookShaped(items[i].1)
  {
    if i < |items| - 1 {
      HookIn(items[..|items| - 1], i);
    }
  }

  function HooksOf(items: seq<(string, Value)>): map<string, G.HookPolicy>
    requires AllHooks(items)
  {
    if items == [] then map[]
    else
      var last := items[|items| - 1];
      HooksOf(items[..|items| - 1])[last.0 := HookOf(last.1)]
  }

  method ParseHooks(v: Value) returns (r: Result<map<string, G.HookPolicy>, Error>)
    ensures r.Ok? ==> HooksShaped(v) && r.value == HooksOf(v.items)
    ensures r.Err? ==> !HooksShaped(v)
  {
    if !v.Mapping? {
      return Err(BadHooks);
    }
    var hooks: map<string, G.HookPolicy> := map[];
    for i := 0 to |v.items|
      invariant AllHooks(v.items[..i]) && hooks == HooksOf(v.items[..i])
    {
      var hook := ParseHook(v.items[i].1);
      if hook.Err? {
        if AllHooks(v.items) {
          HookIn(v.items, i);
        }
        return Err(hook.error);
      }
      assert v.items[..i + 1][..i] == v.items[..i];
      hooks := hooks[v.items[i].0 := hook.value];
    }
    assert v.items[..|v.items|] == v.items;
    r := Ok(hooks);
  }

  // ----- The file -----

  const EMPTY := G.Config([], map[], [])

  const TOP_KEYS := {"clearances", "hooks", "roles"}

  predicate FileShaped(data: Value) {
    && data.Mapping?
    && OnlyKeys(data.items, TOP_KEYS)
    && TableShaped(Get(data.items, "clearances", Mapping([])))
    && TableShaped(Get(data.items, "roles", Mapping([])))
    && HooksShaped(Get(data.items, "hooks", Mapping([])))
  }

  function ConfigOf(data: Value): G.Config
    requires FileShaped(data)
  {
    G.Config(
      TableOf(Get(data.items, "clearances", Mapping([]))),
      HooksOf(Get(data.items, "hooks", Mapping([])).items),
      TableOf(Get(data.items, "roles", Mapping([]))))
  }

  /** The first rule a hook breaks. */
  function Incomplete(hp: G.HookPolicy, roles: seq<G.Row>): Option<Error> {
    if hp.primary != G.RoleBased && hp.fallback != Some(G.RoleBased) then Some(CannotSelect)
    else if roles == [] then Some(NoRoles)
    else if hp.targetRole.None? then Some(NoTargetRole)
    else None
  }

  /** A configuration is accepted exactly when it is absent, or it has the right shape and every
      hook of it is complete; it is then read as it stands. */
  method ParseVerificationGates(data: Value) returns (r: Result<G.Config, Error>)
    ensures r.Ok? <==> data.Null? || (FileShaped(data) && G.Complete(ConfigOf(data)))
    ensures r.Ok? ==> r.value == if data.Null? then EMPTY else ConfigOf(data)
    ensures r.Ok? ==> G.Complete(r.value)
  {
    if data.Null? {
      return Ok(EMPTY);
    }
    if !data.Mapping? {
      return Err(NotAMapping);
    }
    if !OnlyKeys(data.items, TOP_KEYS) {
      return Err(StrayKey);
    }
    var clearances := ParseTable(Get(data.items, "clearances", Mapping([])), BadClearances);
    if clearances.Err? {
      return Err(clearances.error);
    }
    var roles := ParseTable(Get(data.items, "roles", Mapping([])), BadRoles);
    if roles.Err? {
      return Err(roles.error);
    }
    var hooks := ParseHooks(Get(data.items, "hooks", Mapping([])));
    if hooks.Err? {
      return Err(hooks.error);
    }
    TargetsFilled(Get(data.items, "hooks", Mapping([])).items);
    var rest := hooks.value.Keys;
    while rest != {}
      invariant rest <= hooks.value.Keys
      invariant forall hook :: hook in hooks.value.Keys - rest ==> G.CompleteHook(hooks.value[hook], roles.value)
    {
      var hook :| hook in rest;
      var broken := Incomplete(hooks.value[hook], roles.value);
      if broken.Some? {
        return Err(broken.value);
      }
      rest := rest - {hook};
    }
    r := Ok(G.Config(clearances.value, hooks.value, roles.value));
  }

  /** A declared target role is never blank. */
  lemma {:induction false} TargetsFilled(items: seq<(string, Value)>)
    requires AllHooks(items)
    ensures forall hook :: hook in HooksOf(items) && HooksOf(items)[hook].targetRole.Some? ==>
              Strip(HooksOf(items)[hook].targetRole.value) != ""
  {
    if items != [] {
      TargetsFilled(items[..|items| - 1]);
    }
  }
}
