/** Planning the configuration a target tenant should hold, from a source's and its own. */
module SyncPlan {
  import opened Text
  import opened Json

  // ---- mounts ----------------------------------------------------------------

  function TrimStart(s: string): (r: string)
  {
    if s != [] && s[0] == '/' then TrimStart(s[1..]) else s
  }

  function TrimEnd(s: string): (r: string)
  {
    if s != [] && s[|s| - 1] == '/' then TrimEnd(s[..|s| - 1]) else s
  }

  function Norm(path: string): (r: string) { TrimEnd(TrimStart(path)) }

  /** `/x`, `/x/` and `x` name the same mount. */
  predicate SameMount(a: string, b: string) { Norm(a) == Norm(b) }

  function StringField(m: Value, k: string): (s: string)
  {
    if m.Obj? && k in m.fields && m.fields[k].Str? then m.fields[k].s else ""
  }

  function PathOf(m: Value): string { StringField(m, "path") }

  predicate IsControl(m: Value) { StringField(m, "service") == "services" }

  predicate At(m: Value, path: string) { SameMount(PathOf(m), path) }

  function MountsOf(config: Value): (ms: seq<Value>)
  {
    if config.Obj? && "mounts" in config.fields && config.fields["mounts"].Arr? then config.fields["mounts"].items else []
  }

  /** The first mount at a path, or the length when there is none. */
  function FindMount(ms: seq<Value>, path: string): (i: nat)
    ensures i <= |ms| && (i < |ms| ==> At(ms[i], path)) && forall j :: 0 <= j < i ==> !At(ms[j], path)
  {
    if ms == [] || At(ms[0], path) then 0 else 1 + FindMount(ms[1..], path)
  }

  function FirstControl(ms: seq<Value>): (i: nat)
    ensures i <= |ms| && (i < |ms| ==> IsControl(ms[i])) && forall j :: 0 <= j < i ==> !IsControl(ms[j])
  {
    if ms == [] || IsControl(ms[0]) then 0 else 1 + FirstControl(ms[1..])
  }

  // ---- whole-config mode -----------------------------------------------------

  function NonControl(ms: seq<Value>): (r: seq<Value>)
  {
    if ms == [] then []
    else NonControl(ms[..|ms| - 1]) + if IsControl(ms[|ms| - 1]) then [] else [ms[|ms| - 1]]
  }

  /** The target's control mount stays where, and how, it is. */
  function WithControl(out: seq<Value>, target: seq<Value>): (r: seq<Value>)
  {
    var i := FirstControl(target);
    if i == |target| then out
    else
      var at := if i < |out| then i else |out|;
      out[..at] + [target[i]] + out[at..]
  }

  predicate IsTargetOnly(source: seq<Value>, m: Value) {
    !IsControl(m) && FindMount(source, PathOf(m)) == |source|
  }

  function TargetOnly(source: seq<Value>, target: seq<Value>): (r: seq<Value>)
  {
    if target == [] then []
    else
      var m := target[|target| - 1];
      TargetOnly(source, target[..|target| - 1]) + if IsTargetOnly(source, m) then [m] else []
  }

  function WholeMounts(source: seq<Value>, target: seq<Value>, prune: bool): (r: seq<Value>)
  {
    WithControl(NonControl(source), target) + if prune then [] else TargetOnly(source, target)
  }

  // ---- scoped mode -----------------------------------------------------------

  /** One wanted mount: replaced in place or appended; nothing when it may not be transferred. */
  function PlaceOne(source: seq<Value>, out: seq<Value>, w: string): (r: Option<seq<Value>>)
  {
    var i, j := FindMount(source, w), FindMount(out, w);
    if i == |source| || IsControl(source[i]) then None
    else if j == |out| then Some(out + [source[i]])
    else if IsControl(out[j]) then None
    else Some(out[j := source[i]])
  }

  function PlaceAll(source: seq<Value>, out: seq<Value>, wanted: seq<string>): (r: Option<seq<Value>>)
    decreases |wanted|
  {
    if wanted == [] then Some(out)
    else
      var next := PlaceOne(source, out, wanted[0]);
      if next.None? then None else PlaceAll(source, next.value, wanted[1..])
  }

  // ---- the plan --------------------------------------------------------------

  datatype Scope = Scope(mounts: Option<seq<string>>, prune: bool)

  datatype Plan = Plan(config: Value, changed: seq<string>, pruned: seq<string>, kept: seq<string>)

  function PathsOf(ms: seq<Value>): (r: seq<string>)
  {
    if ms == [] then [] else PathsOf(ms[..|ms| - 1]) + [PathOf(ms[|ms| - 1])]
  }

  /** The entries that differ from what the target holds at their path. */
  predicate Differs(target: seq<Value>, m: Value) {
    var i := FindMount(target, PathOf(m));
    i == |target| || target[i] != m
  }

  function Changed(target: seq<Value>, ms: seq<Value>): (r: seq<string>)
  {
    if ms == [] then []
    else Changed(target, ms[..|ms| - 1]) + if Differs(target, ms[|ms| - 1]) then [PathOf(ms[|ms| - 1])] else []
  }

  function PlannedMounts(source: seq<Value>, target: seq<Value>, scope: Scope): (r: Option<seq<Value>>)
  {
    if scope.mounts.None? then Some(WholeMounts(source, target, scope.prune))
    else PlaceAll(source, target, scope.mounts.value)
  }

  function PlanOf(source: Value, target: Value, scope: Scope): (r: Option<Plan>)
  {
    var s, t := MountsOf(source), MountsOf(target);
    var base := if scope.mounts.None? then source else target;
    var ms := PlannedMounts(s, t, scope);
    if ms.None? || !base.Obj? then None
    else
      var dropped := if scope.mounts.None? then PathsOf(TargetOnly(s, t)) else [];
      Some(Plan(Obj(base.fields["mounts" := Arr(ms.value)]), Changed(t, ms.value),
        if scope.prune then dropped else [], if scope.prune then [] else dropped))
  }

  /** `plan_config`: whole mode. */
  method PlanWhole(source: seq<Value>, target: seq<Value>, prune: bool)
    returns (out: seq<Value>, pruned: seq<string>, kept: seq<string>)
    ensures out == WholeMounts(source, target, prune)
    ensures pruned == if prune then PathsOf(TargetOnly(source, target)) else []
    ensures kept == if prune then [] else PathsOf(TargetOnly(source, target))
  {
    hide IsControl, IsTargetOnly, PathOf, PathsOf, TargetOnly;
    out := [];
    var i := 0;
    while i < |source|
      invariant 0 <= i <= |source| && out == NonControl(source[..i])
    {
      assert source[..i + 1][..i] == source[..i];
      if !IsControl(source[i]) {
        out := out + [source[i]];
      }
      i := i + 1;
    }
    assert source[..i] == source;
    var c := FirstControl(target);
    if c < |target| {
      var at := if c < |out| then c else |out|;
      out := out[..at] + [target[c]] + out[at..];
    }
    var extra, paths := ScanTarget(source, target);
    if prune {
      pruned, kept := paths, [];
    } else {
      pruned, kept := [], paths;
      out := out + extra;
    }
  }

  /** The loop over the target's own mounts. */
  method ScanTarget(source: seq<Value>, target: seq<Value>) returns (extra: seq<Value>, paths: seq<string>)
    ensures extra == TargetOnly(source, target) && paths == PathsOf(TargetOnly(source, target))
  {
    hide IsTargetOnly, PathOf;
    extra, paths := [], [];
    var i := 0;
    while i < |target|
      invariant 0 <= i <= |target|
      invariant extra == TargetOnly(source, target[..i]) && paths == PathsOf(extra)
    {
      TargetOnlyStep(source, target, i);
      if IsTargetOnly(source, target[i]) {
        extra, paths := extra + [target[i]], paths + [PathOf(target[i])];
      }
      i := i + 1;
    }
    assert target[..i] == target;
  }

  lemma TargetOnlyStep(source: seq<Value>, target: seq<Value>, i: nat)
    requires i < |target|
    ensures var before, m := TargetOnly(source, target[..i]), target[i];
      && TargetOnly(source, target[..i + 1]) == before + (if IsTargetOnly(source, m) then [m] else [])
      && PathsOf(before + [m]) == PathsOf(before) + [PathOf(m)]
  {
    assert target[..i + 1][..i] == target[..i];
    var before := TargetOnly(source, target[..i]);
    assert (before + [target[i]])[..|before|] == before;
  }

  /** `plan_config`: scoped mode. */
  method PlanScoped(source: seq<Value>, target: seq<Value>, wanted: seq<string>) returns (out: Option<seq<Value>>)
    ensures out == PlaceAll(source, target, wanted)
  {
    hide IsControl, FindMount, PlaceOne;
    var placed := target;
    var i := 0;
    while i < |wanted|
      invariant 0 <= i <= |wanted|
      invariant PlaceAll(source, target, wanted) == PlaceAll(source, placed, wanted[i..])
    {
      var next := PlaceOne(source, placed, wanted[i]);
      if next.None? {
        return None;
      }
      placed := next.value;
      i := i + 1;
    }
    out := Some(placed);
  }

  /** `plan_config`. */
  method PlanConfig(source: Value, target: Value, scope: Scope) returns (plan: Option<Plan>)
    ensures plan == PlanOf(source, target, scope)
  {
    hide MountsOf, WholeMounts, PlaceAll, TargetOnly, PathsOf, Differs, PathOf;
    var s, t := MountsOf(source), MountsOf(target);
    var mounts, pruned, kept := [], [], [];
    if scope.mounts.None? {
      mounts, pruned, kept := PlanWhole(s, t, scope.prune);
    } else {
      var placed := PlanScoped(s, t, scope.mounts.value);
      if placed.None? {
        return None;
      }
      mounts := placed.value;
    }
    var changed := [];
    var i := 0;
    while i < |mounts|
      invariant 0 <= i <= |mounts| && changed == Changed(t, mounts[..i])
    {
      assert mounts[..i + 1][..i] == mounts[..i];
      if Differs(t, mounts[i]) {
        changed := changed + [PathOf(mounts[i])];
      }
      i := i + 1;
    }
    assert mounts[..i] == mounts;
    var config := if scope.mounts.None? then source else target;
    if !config.Obj? {
      return None;
    }
    plan := Some(Plan(Obj(config.fields["mounts" := Arr(mounts)]), changed, pruned, kept));
  }
}
