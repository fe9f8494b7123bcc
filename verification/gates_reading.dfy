/** What a configuration that is accepted says, key by key: the reader is the inverse of writing it down
    (src/otaman_core/verification_gates.py). */
module GatesReading {
  import opened Text
  import G = VerificationGates
  import opened GatesConfig
  import opened Wrappers

  // ----- Keys -----

  /** Every mapping in a value has distinct keys, as the loader sees to. */
  predicate Keyed(v: Value) {
    match v
    case List(xs) => forall i :: 0 <= i < |xs| ==> Keyed(xs[i])
    case Mapping(items) => DistinctKeys(items) && forall i :: 0 <= i < |items| ==> Keyed(items[i].1)
    case _ => true
  }

  predicate DistinctKeys(items: seq<(string, Value)>) {
    forall i, j :: 0 <= i < j < |items| ==> items[i].0 != items[j].0
  }

  /** In a mapping every key is found with its own value, and any other with the default. */
  lemma {:induction false} GetMeans(items: seq<(string, Value)>, key: string, default_: Value, x: Value)
    requires DistinctKeys(items)
    ensures (key, x) in items ==> HasKey(items, key) && Get(items, key, default_) == x
    ensures HasKey(items, key) ==> (key, Get(items, key, default_)) in items
    ensures !HasKey(items, key) ==> Get(items, key, default_) == default_
  {
    if items != [] {
      assert items == [items[0]] + items[1..];
      assert forall i :: 0 <= i < |items[1..]| ==> items[1..][i] == items[i + 1];
      GetMeans(items[1..], key, default_, x);
      assert HasKey(items, key) <==> items[0].0 == key || HasKey(items[1..], key);
      if i :| 0 <= i < |items[1..]| && items[1..][i] == (key, x) {
        assert items[0].0 != items[i + 1].0;
      }
    }
  }

  lemma HasKeyMeans(items: seq<(string, Value)>, key: string)
    ensures HasKey(items, key) <==> exists x :: (key, x) in items
  {
    if HasKey(items, key) {
      var i :| 0 <= i < |items| && items[i].0 == key;
      assert (key, items[i].1) in items;
    }
  }

  /** The value under a key, if there is one, and the default otherwise. */
  lemma LookedUp(items: seq<(string, Value)>, key: string, default_: Value)
    requires DistinctKeys(items)
    ensures forall y :: (key, y) in items ==> Get(items, key, default_) == y
    ensures (key, Get(items, key, default_)) in items
            || ((forall y :: (key, y) !in items) && Get(items, key, default_) == default_)
  {
    HasKeyMeans(items, key);
    forall y | (key, y) in items
      ensures Get(items, key, default_) == y
    {
      GetMeans(items, key, default_, y);
    }
    GetMeans(items, key, default_, default_);
  }

  lemma KeyedUnder(items: seq<(string, Value)>, key: string)
    requires DistinctKeys(items) && forall i :: 0 <= i < |items| ==> Keyed(items[i].1)
    ensures Keyed(Get(items, key, Mapping([])))
  {
    var x := Get(items, key, Mapping([]));
    LookedUp(items, key, Mapping([]));
    if i :| 0 <= i < |items| && items[i] == (key, x) {
      assert Keyed(items[i].1);
    }
  }

  /** The name a policy is written with. */
  function NameOf(p: G.Policy): string {
    match p
    case SensitivityScoped => "sensitivity-scoped"
    case StakeholderAffected => "stakeholder-affected"
    case ConsumerChain => "consumer-chain"
    case RoleBased => "role-based"
  }

  lemma PolicyMeans(v: Value, p: G.Policy)
    ensures PolicyNamed(v) == Some(p) <==> v == Str(NameOf(p))
  {
  }

  // ----- Tables -----

  /** A table as it is written: each agent with the list of its values. */
  function Table(rows: seq<G.Row>): Value {
    Mapping(seq(|rows|, i requires 0 <= i < |rows| => (rows[i].agent, Texts(rows[i].values))))
  }

  function Texts(xs: seq<string>): Value {
    List(seq(|xs|, i requires 0 <= i < |xs| => Str(xs[i])))
  }

  lemma TextsMean(v: Value, xs: seq<string>)
    ensures v.List? && AllStrings(v.xs) && Strings(v.xs) == xs <==> v == Texts(xs)
  {
    if v.List? && AllStrings(v.xs) && Strings(v.xs) == xs {
      assert forall i :: 0 <= i < |v.xs| ==> v.xs[i] == Str(Strings(v.xs)[i]);
      assert v.xs == Texts(xs).xs;
    }
    if v == Texts(xs) {
      assert Strings(v.xs) == xs;
    }
  }

  /** A table is read exactly as the rows it is written for. */
  lemma TableMeans(v: Value, rows: seq<G.Row>)
    ensures TableShaped(v) && TableOf(v) == rows <==> v == Table(rows)
  {
    if TableShaped(v) && TableOf(v) == rows {
      forall i | 0 <= i < |rows|
        ensures v.items[i] == Table(rows).items[i]
      {
        assert TableOf(v)[i] == rows[i];
        TextsMean(v.items[i].1, rows[i].values);
      }
      assert v.items == Table(rows).items;
    }
    if v == Table(rows) {
      forall i | 0 <= i < |rows|
        ensures v.items[i].1.List? && AllStrings(v.items[i].1.xs) && Strings(v.items[i].1.xs) == rows[i].values
      {
        TextsMean(v.items[i].1, rows[i].values);
      }
      assert TableOf(v) == rows;
    }
  }

  // ----- Hooks -----

  /** The overrides say just what the map does. */
  ghost predicate Overrides(v: Value, m: map<string, G.Policy>) {
    && v.Mapping?
    && (forall k, x :: (k, x) in v.items ==> k in m && x == Str(NameOf(m[k])))
    && (forall k :: k in m ==> (k, Str(NameOf(m[k]))) in v.items)
  }

  predicate AllPolicies(items: seq<(string, Value)>) {
    forall i :: 0 <= i < |items| ==> PolicyNamed(items[i].1).Some?
  }

  lemma {:induction false} OverridesAt(items: seq<(string, Value)>, i: nat)
    requires DistinctKeys(items) && AllPolicies(items) && i < |items|
    ensures items[i].0 in OverridesOf(items) && PolicyNamed(items[i].1) == Some(OverridesOf(items)[items[i].0])
  {
    if i < |items| - 1 {
      OverridesAt(items[..|items| - 1], i);
    }
  }

  lemma {:induction false} OverridesFrom(items: seq<(string, Value)>, k: string) returns (i: nat)
    requires AllPolicies(items) && k in OverridesOf(items)
    ensures i < |items| && items[i].0 == k
  {
    i := |items| - 1;
    if items[i].0 != k {
      i := OverridesFrom(items[..i], k);
    }
  }

  lemma OverridesMean(v: Value, m: map<string, G.Policy>)
    requires v.Mapping? ==> DistinctKeys(v.items)
    ensures OverridesShaped(v) && OverridesOf(v.items) == m <==> Overrides(v, m)
  {
    if OverridesShaped(v) {
      OverridesRead(v.items);
      if Overrides(v, m) {
        OverridesSame(v, m, OverridesOf(v.items));
      }
    } else if v.Mapping? {
      var i :| 0 <= i < |v.items| && PolicyNamed(v.items[i].1).None?;
      assert (v.items[i].0, v.items[i].1) in v.items;
      NoPolicy(v.items[i].1);
    }
  }

  lemma NoPolicy(v: Value)
    requires PolicyNamed(v).None?
    ensures forall p :: v != Str(NameOf(p))
  {
  }

  lemma OverridesRead(items: seq<(string, Value)>)
    requires DistinctKeys(items) && AllPolicies(items)
    ensures Overrides(Mapping(items), OverridesOf(items))
  {
    var m := OverridesOf(items);
    forall k, x | (k, x) in items
      ensures k in m && x == Str(NameOf(m[k]))
    {
      var i :| 0 <= i < |items| && items[i] == (k, x);
      OverridesAt(items, i);
      PolicyMeans(x, m[k]);
    }
    forall k | k in m
      ensures (k, Str(NameOf(m[k]))) in items
    {
      var i := OverridesFrom(items, k);
      OverridesAt(items, i);
      PolicyMeans(items[i].1, m[k]);
      assert items[i] == (k, items[i].1);
    }
  }

  lemma SameName(p: G.Policy, q: G.Policy)
    ensures NameOf(p) == NameOf(q) ==> p == q
  {
  }

  lemma OverridesSame(v: Value, m: map<string, G.Policy>, n: map<string, G.Policy>)
    requires Overrides(v, m) && Overrides(v, n)
    ensures m == n
  {
    forall k | k in m || k in n
      ensures k in m && k in n && m[k] == n[k]
    {
      assert k in m ==> (k, Str(NameOf(m[k]))) in v.items;
      assert k in n ==> (k, Str(NameOf(n[k]))) in v.items;
      SameName(m[k], n[k]);
    }
  }

  // ----- A hook -----

  ghost predicate FallbackSays(items: seq<(string, Value)>, fallback: Option<G.Policy>) {
    match fallback
    case Some(p) => ("fallback", Str(NameOf(p))) in items
    case None => forall x :: ("fallback", x) in items ==> x == Null
  }

  ghost predicate TargetSays(items: seq<(string, Value)>, target: Option<string>) {
    match target
    case Some(t) => ("target-role", Str(t)) in items && !AllSpace(t)
    case None => forall x :: ("target-role", x) in items ==> x == Null
  }

  ghost predicate OverridesSay(items: seq<(string, Value)>, m: map<string, G.Policy>) {
    && (forall x :: ("sensitivity-overrides", x) in items ==> Overrides(x, m))
    && ((forall x :: ("sensitivity-overrides", x) !in items) ==> m == map[])
  }

  /** The hook says just this policy, and has no other key. */
  ghost predicate HookSays(v: Value, hp: G.HookPolicy) {
    && v.Mapping?
    && (forall k, x :: (k, x) in v.items ==> k in ["primary", "fallback", "sensitivity-overrides", "target-role"])
    && ("primary", Str(NameOf(hp.primary))) in v.items
    && FallbackSays(v.items, hp.fallback)
    && OverridesSay(v.items, hp.overrides)
    && TargetSays(v.items, hp.targetRole)
  }

  lemma KeysMean(items: seq<(string, Value)>, allowed: set<string>)
    ensures OnlyKeys(items, allowed) <==> forall k, x :: (k, x) in items ==> k in allowed
  {
    assert forall i :: 0 <= i < |items| ==> (items[i].0, items[i].1) in items;
  }

  lemma PrimaryMeans(items: seq<(string, Value)>, p: G.Policy)
    requires DistinctKeys(items)
    ensures HasKey(items, "primary") && PolicyNamed(Get(items, "primary", Null)) == Some(p) <==>
            ("primary", Str(NameOf(p))) in items
  {
    GetMeans(items, "primary", Null, Str(NameOf(p)));
    PolicyMeans(Get(items, "primary", Null), p);
  }

  lemma FallbackMeans(items: seq<(string, Value)>, fallback: Option<G.Policy>)
    requires DistinctKeys(items)
    ensures (var x := Get(items, "fallback", Null);
             (x.Null? || PolicyNamed(x).Some?) && PolicyNamed(x) == fallback) <==> FallbackSays(items, fallback)
  {
    var x := Get(items, "fallback", Null);
    LookedUp(items, "fallback", Null);
    if fallback.Some? {
      PolicyMeans(x, fallback.value);
    }
  }

  lemma TargetMeans(items: seq<(string, Value)>, target: Option<string>)
    requires DistinctKeys(items)
    ensures (var x := Get(items, "target-role", Null);
             TargetShaped(x) && (if x.Str? then Some(x.s) else None) == target) <==> TargetSays(items, target)
  {
    var x := Get(items, "target-role", Null);
    LookedUp(items, "target-role", Null);
    if x.Str? {
      StripBlank(x.s);
    }
  }

  lemma OverridesKeyMeans(items: seq<(string, Value)>, m: map<string, G.Policy>)
    requires DistinctKeys(items) && forall i :: 0 <= i < |items| ==> Keyed(items[i].1)
    ensures (var x := Get(items, "sensitivity-overrides", Mapping([]));
             OverridesShaped(x) && OverridesOf(x.items) == m) <==> OverridesSay(items, m)
  {
    var x := Get(items, "sensitivity-overrides", Mapping([]));
    LookedUp(items, "sensitivity-overrides", Mapping([]));
    KeyedUnder(items, "sensitivity-overrides");
    OverridesMean(x, m);
    assert Overrides(Mapping([]), map[]);
    assert Get(items, "sensitivity-overrides", Mapping([])) == Mapping([]) ==> (Overrides(x, m) <==> m == map[]);
  }

  /** A hook is accepted and read as this policy exactly when it says it. */
  lemma HookMeans(v: Value, hp: G.HookPolicy)
    requires Keyed(v)
    ensures HookShaped(v) && HookOf(v) == hp <==> HookSays(v, hp)
  {
    if v.Mapping? {
      KeysMean(v.items, HOOK_KEYS);
      PrimaryMeans(v.items, hp.primary);
      FallbackMeans(v.items, hp.fallback);
      OverridesKeyMeans(v.items, hp.overrides);
      TargetMeans(v.items, hp.targetRole);
    }
  }

  // ----- All hooks -----

  /** The hooks say just what the map does. */
  ghost predicate HooksSay(v: Value, m: map<string, G.HookPolicy>) {
    && v.Mapping?
    && (forall k, x :: (k, x) in v.items ==> k in m && HookSays(x, m[k]))
    && (forall k :: k in m ==> exists x :: (k, x) in v.items)
  }

  lemma {:induction false} AllHooksIf(items: seq<(string, Value)>)
    requires forall i :: 0 <= i < |items| ==> HookShaped(items[i].1)
    ensures AllHooks(items)
  {
    if items != [] {
      AllHooksIf(items[..|items| - 1]);
    }
  }

  lemma {:induction false} HooksAt(items: seq<(string, Value)>, i: nat)
    requires DistinctKeys(items) && AllHooks(items) && i < |items|
    ensures HookShaped(items[i].1)
    ensures items[i].0 in HooksOf(items) && HookOf(items[i].1) == HooksOf(items)[items[i].0]
  {
    if i < |items| - 1 {
      HooksAt(items[..|items| - 1], i);
    }
  }

  lemma {:induction false} HooksFrom(items: seq<(string, Value)>, k: string) returns (i: nat)
    requires AllHooks(items) && k in HooksOf(items)
    ensures i < |items| && items[i].0 == k
  {
    i := |items| - 1;
    if items[i].0 != k {
      i := HooksFrom(items[..i], k);
    }
  }

  lemma HooksRead(v: Value)
    requires Keyed(v) && HooksShaped(v)
    ensures HooksSay(v, HooksOf(v.items))
  {
    var items, m := v.items, HooksOf(v.items);
    forall k, x | (k, x) in items
      ensures k in m && HookSays(x, m[k])
    {
      var i :| 0 <= i < |items| && items[i] == (k, x);
      HooksAt(items, i);
      HookMeans(x, m[k]);
    }
    forall k | k in m
      ensures exists x :: (k, x) in items
    {
      var i := HooksFrom(items, k);
      assert (k, items[i].1) in items;
    }
  }

  lemma HooksShapedIf(v: Value, m: map<string, G.HookPolicy>)
    requires Keyed(v) && HooksSay(v, m)
    ensures HooksShaped(v)
  {
    forall i | 0 <= i < |v.items|
      ensures HookShaped(v.items[i].1)
    {
      assert (v.items[i].0, v.items[i].1) in v.items;
      HookMeans(v.items[i].1, m[v.items[i].0]);
    }
    AllHooksIf(v.items);
  }

  lemma HookSame(v: Value, hp: G.HookPolicy, hq: G.HookPolicy)
    requires Keyed(v) && HookSays(v, hp) && HookSays(v, hq)
    ensures hp == hq
  {
    HookMeans(v, hp);
    HookMeans(v, hq);
  }

  lemma KeyedIn(v: Value, k: string, x: Value)
    requires v.Mapping? && Keyed(v) && (k, x) in v.items
    ensures Keyed(x)
  {
    var i :| 0 <= i < |v.items| && v.items[i] == (k, x);
  }

  lemma HooksAgree(v: Value, m: map<string, G.HookPolicy>, n: map<string, G.HookPolicy>, k: string)
    requires Keyed(v) && HooksSay(v, m) && HooksSay(v, n) && k in m
    ensures k in n && m[k] == n[k]
  {
    var x :| (k, x) in v.items;
    KeyedIn(v, k, x);
    HookSame(x, m[k], n[k]);
  }

  lemma HooksSame(v: Value, m: map<string, G.HookPolicy>, n: map<string, G.HookPolicy>)
    requires Keyed(v) && HooksSay(v, m) && HooksSay(v, n)
    ensures m == n
  {
    forall k | k in m
      ensures k in n && m[k] == n[k]
    {
      HooksAgree(v, m, n, k);
    }
    forall k | k in n
      ensures k in m
    {
      HooksAgree(v, n, m, k);
    }
  }

  lemma HooksMean(v: Value, m: map<string, G.HookPolicy>)
    requires Keyed(v)
    ensures HooksShaped(v) && HooksOf(v.items) == m <==> HooksSay(v, m)
  {
    if HooksShaped(v) {
      HooksRead(v);
    }
    if HooksSay(v, m) {
      HooksShapedIf(v, m);
      HooksSame(v, m, HooksOf(v.items));
    }
  }

  // ----- The file -----

  /** Under `key` stands this table; without the key there is none. */
  ghost predicate TableSays(items: seq<(string, Value)>, key: string, rows: seq<G.Row>) {
    && (forall x :: (key, x) in items ==> x == Table(rows))
    && ((forall x :: (key, x) !in items) ==> rows == [])
  }

  ghost predicate HooksKeySays(items: seq<(string, Value)>, m: map<string, G.HookPolicy>) {
    && (forall x :: ("hooks", x) in items ==> HooksSay(x, m))
    && ((forall x :: ("hooks", x) !in items) ==> m == map[])
  }

  /** The file says just this configuration, and has no other key. */
  ghost predicate FileSays(v: Value, config: G.Config) {
    && v.Mapping?
    && (forall k, x :: (k, x) in v.items ==> k in ["clearances", "hooks", "roles"])
    && TableSays(v.items, "clearances", config.clearances)
    && HooksKeySays(v.items, config.hooks)
    && TableSays(v.items, "roles", config.roles)
  }

  lemma TableKeyMeans(items: seq<(string, Value)>, key: string, rows: seq<G.Row>)
    requires DistinctKeys(items)
    ensures (var x := Get(items, key, Mapping([])); TableShaped(x) && TableOf(x) == rows) <==>
            TableSays(items, key, rows)
  {
    var x := Get(items, key, Mapping([]));
    LookedUp(items, key, Mapping([]));
    TableMeans(x, rows);
    assert Table([]) == Mapping([]);
    assert |rows| > 0 ==> |Table(rows).items| > 0;
  }

  lemma HooksKeyMeans(items: seq<(string, Value)>, m: map<string, G.HookPolicy>)
    requires DistinctKeys(items) && forall i :: 0 <= i < |items| ==> Keyed(items[i].1)
    ensures (var x := Get(items, "hooks", Mapping([])); HooksShaped(x) && HooksOf(x.items) == m) <==>
            HooksKeySays(items, m)
  {
    var x := Get(items, "hooks", Mapping([]));
    LookedUp(items, "hooks", Mapping([]));
    KeyedUnder(items, "hooks");
    HooksMean(x, m);
    assert HooksSay(Mapping([]), map[]);
    assert Get(items, "hooks", Mapping([])) == Mapping([]) ==> (HooksSay(x, m) <==> m == map[]);
  }

  /** A file is accepted and read as this configuration exactly when it says it, and every hook of it can
      select a critic from the configuration alone. */
  lemma ConfigMeans(data: Value, config: G.Config)
    requires Keyed(data)
    ensures FileShaped(data) && ConfigOf(data) == config <==> FileSays(data, config)
    ensures G.Complete(config) <==>
            forall hook :: hook in config.hooks ==>
              var hp := config.hooks[hook];
              && (hp.primary == G.RoleBased || hp.fallback == Some(G.RoleBased))
              && |config.roles| > 0 && hp.targetRole.Some? && !AllSpace(hp.targetRole.value)
  {
    if data.Mapping? {
      KeysMean(data.items, TOP_KEYS);
      TableKeyMeans(data.items, "clearances", config.clearances);
      HooksKeyMeans(data.items, config.hooks);
      TableKeyMeans(data.items, "roles", config.roles);
    }
    forall hook | hook in config.hooks && config.hooks[hook].targetRole.Some?
      ensures Strip(config.hooks[hook].targetRole.value) == "" <==> AllSpace(config.hooks[hook].targetRole.value)
    {
      StripBlank(config.hooks[hook].targetRole.value);
    }
  }
}
