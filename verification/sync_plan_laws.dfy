/** Planning again from a plan's own output changes nothing, and what each mode protects. */
module SyncPlanLaws {
  import opened Text
  import opened Json
  import opened SyncPlan

  // ---- whole-config mode -----------------------------------------------------

  lemma {:induction false} NonControlMembers(ms: seq<Value>, m: Value)
    ensures m in NonControl(ms) <==> m in ms && !IsControl(m)
  {
    if ms != [] {
      NonControlMembers(ms[..|ms| - 1], m);
      assert ms == ms[..|ms| - 1] + [ms[|ms| - 1]];
    }
  }

  lemma {:induction false} TargetOnlyMembers(source: seq<Value>, ms: seq<Value>, m: Value)
    ensures m in TargetOnly(source, ms) <==> m in ms && IsTargetOnly(source, m)
  {
    hide IsTargetOnly;
    if ms != [] {
      TargetOnlyMembers(source, ms[..|ms| - 1], m);
      assert ms == ms[..|ms| - 1] + [ms[|ms| - 1]];
    }
  }

  lemma {:induction false} TargetOnlyAppend(source: seq<Value>, a: seq<Value>, b: seq<Value>)
    ensures TargetOnly(source, a + b) == TargetOnly(source, a) + TargetOnly(source, b)
  {
    hide IsTargetOnly;
    if b == [] {
      assert a + b == a;
    } else {
      TargetOnlyAppend(source, a, b[..|b| - 1]);
      assert (a + b)[..|a + b| - 1] == a + b[..|b| - 1];
    }
  }

  lemma {:induction false} NoneTargetOnly(source: seq<Value>, ms: seq<Value>)
    requires forall m :: m in ms ==> !IsTargetOnly(source, m)
    ensures TargetOnly(source, ms) == []
  {
    hide IsTargetOnly;
    if ms != [] { NoneTargetOnly(source, ms[..|ms| - 1]); }
  }

  lemma {:induction false} AllTargetOnly(source: seq<Value>, ms: seq<Value>)
    requires forall m :: m in ms ==> IsTargetOnly(source, m)
    ensures TargetOnly(source, ms) == ms
  {
    hide IsTargetOnly;
    if ms != [] {
      AllTargetOnly(source, ms[..|ms| - 1]);
      assert ms == ms[..|ms| - 1] + [ms[|ms| - 1]];
    }
  }

  lemma SourceIsNotTargetOnly(source: seq<Value>, m: Value)
    requires m in source || IsControl(m)
    ensures !IsTargetOnly(source, m)
  {
    if m in source {
      var i :| 0 <= i < |source| && source[i] == m;
      assert At(source[i], PathOf(m));
    }
  }

  lemma FirstControlIs(ms: seq<Value>, i: nat)
    requires i <= |ms| && (i < |ms| ==> IsControl(ms[i])) && forall j :: 0 <= j < i ==> !IsControl(ms[j])
    ensures FirstControl(ms) == i
  {
  }

  lemma ControlStays(source: seq<Value>, target: seq<Value>, prune: bool)
    ensures var n, r := NonControl(source), WholeMounts(source, target, prune);
      WithControl(n, r) == WithControl(n, target)
  {
    var n, r, c := NonControl(source), WholeMounts(source, target, prune), FirstControl(target);
    forall m | m in n ensures !IsControl(m) { NonControlMembers(source, m); }
    forall m | m in TargetOnly(source, target) ensures !IsControl(m) { TargetOnlyMembers(source, target, m); }
    hide IsControl, NonControl, TargetOnly, IsTargetOnly;
    if c == |target| {
      FirstControlIs(r, |r|);
    } else {
      var at := if c < |n| then c else |n|;
      assert r[at] == target[c];
      forall j | 0 <= j < at ensures !IsControl(r[j]) { assert r[j] == n[j] && n[j] in n; }
      FirstControlIs(r, at);
    }
  }

  lemma TargetOnlyStays(source: seq<Value>, target: seq<Value>, prune: bool)
    ensures TargetOnly(source, WholeMounts(source, target, prune)) == if prune then [] else TargetOnly(source, target)
  {
    var front := WithControl(NonControl(source), target);
    var extra := if prune then [] else TargetOnly(source, target);
    forall m | m in front ensures !IsTargetOnly(source, m) {
      NonControlMembers(source, m);
      SourceIsNotTargetOnly(source, m);
    }
    forall m | m in extra ensures IsTargetOnly(source, m) { TargetOnlyMembers(source, target, m); }
    hide IsTargetOnly, WithControl, TargetOnly;
    NoneTargetOnly(source, front);
    AllTargetOnly(source, extra);
    TargetOnlyAppend(source, front, extra);
  }

  lemma WholeIsFixed(source: seq<Value>, target: seq<Value>, prune: bool)
    ensures var r := WholeMounts(source, target, prune); WholeMounts(source, r, prune) == r
  {
    ControlStays(source, target, prune);
    TargetOnlyStays(source, target, prune);
    hide WithControl, TargetOnly, NonControl;
  }

  /** Whole mode keeps the target's first control mount, unchanged, as the only one, at its place. */
  lemma ControlMountIsProtected(source: seq<Value>, target: seq<Value>, prune: bool)
    ensures var r, c, n := WholeMounts(source, target, prune), FirstControl(target), |NonControl(source)|;
      && (c == |target| ==> forall j :: 0 <= j < |r| ==> !IsControl(r[j]))
      && (c < |target| ==>
        var at := if c < n then c else n;
        r[at] == target[c] && forall j :: 0 <= j < |r| && j != at ==> !IsControl(r[j]))
  {
    var n, r, c := NonControl(source), WholeMounts(source, target, prune), FirstControl(target);
    forall m | m in n ensures !IsControl(m) { NonControlMembers(source, m); }
    forall m | m in TargetOnly(source, target) ensures !IsControl(m) { TargetOnlyMembers(source, target, m); }
    hide IsControl, NonControl, TargetOnly, IsTargetOnly, FirstControl;
    var k := if prune then [] else TargetOnly(source, target);
    if c < |target| {
      OthersAreNot(n, target[c], k, if c < |n| then c else |n|);
    } else {
      assert forall m :: m in n + k ==> m in n || m in k;
    }
  }

  lemma OthersAreNot(n: seq<Value>, x: Value, k: seq<Value>, at: nat)
    requires at <= |n| && forall m :: m in n || m in k ==> !IsControl(m)
    ensures var r := n[..at] + [x] + n[at..] + k;
      r[at] == x && forall j :: 0 <= j < |r| && j != at ==> !IsControl(r[j])
  {
    hide IsControl;
    var r := n[..at] + [x] + n[at..] + k;
    forall j | 0 <= j < |r| && j != at ensures !IsControl(r[j]) {
      if j < at {
        assert r[j] == n[j];
      } else if j <= |n| {
        assert r[j] == n[j - 1];
      } else {
        assert r[j] == k[j - |n| - 1];
      }
    }
  }

  /** The planned mounts hold an entry at the path. */
  ghost predicate Served(ms: seq<Value>, path: string) { exists m :: m in ms && At(m, path) }

  lemma WholeMembers(source: seq<Value>, target: seq<Value>, m: Value)
    ensures m in WholeMounts(source, target, false) <==>
      || (m in source && !IsControl(m))
      || (FirstControl(target) < |target| && m == target[FirstControl(target)])
      || (m in target && IsTargetOnly(source, m))
  {
    NonControlMembers(source, m);
    TargetOnlyMembers(source, target, m);
    var n, c := NonControl(source), FirstControl(target);
    hide IsControl, IsTargetOnly, NonControl, TargetOnly, FirstControl;
    var at := if c < |n| then c else |n|;
    assert n == n[..at] + n[at..];
  }

  /**
    Without pruning, a mount of the target whose path only the source's control
    mount shares is lost: neither kept, nor replaced, nor reported. Nothing else
    is, unless the target's own control mount stands at that path.
   */
  lemma LostIff(source: seq<Value>, target: seq<Value>, m: Value)
    requires m in target && !IsControl(m)
    ensures var path := PathOf(m);
      !Served(WholeMounts(source, target, false), path) <==>
        && (exists s :: s in source && At(s, path))
        && (forall s :: s in source && At(s, path) ==> IsControl(s))
        && (FirstControl(target) < |target| ==> !At(target[FirstControl(target)], path))
  {
    var path, r := PathOf(m), WholeMounts(source, target, false);
    forall x ensures x in r <==>
      || (x in source && !IsControl(x))
      || (FirstControl(target) < |target| && x == target[FirstControl(target)])
      || (x in target && IsTargetOnly(source, x))
    {
      WholeMembers(source, target, x);
    }
    hide WholeMounts, FirstControl, IsControl;
    assert At(m, path);
    FindMeans(source, path);
    if FindMount(source, path) == |source| {
      assert m in r;
    }
    if x :| x in r && At(x, path) && x in target && IsTargetOnly(source, x) {
      FindSame(source, PathOf(x), path);
    }
  }

  lemma FindMeans(ms: seq<Value>, path: string)
    ensures FindMount(ms, path) < |ms| <==> exists s :: s in ms && At(s, path)
  {
    hide At;
    if FindMount(ms, path) < |ms| {
      assert ms[FindMount(ms, path)] in ms;
    }
  }

  lemma {:induction false} FindSame(ms: seq<Value>, a: string, b: string)
    requires SameMount(a, b)
    ensures FindMount(ms, a) == FindMount(ms, b)
  {
    if ms != [] { FindSame(ms[1..], a, b); }
  }

  // ---- scoped mode -----------------------------------------------------------

  /** The wanted mount stands in the list as the source has it. */
  predicate Placed(source: seq<Value>, out: seq<Value>, w: string) {
    var i, j := FindMount(source, w), FindMount(out, w);
    i < |source| && j < |out| && !IsControl(source[i]) && out[j] == source[i]
  }

  lemma FindIs(ms: seq<Value>, path: string, i: nat)
    requires i < |ms| && At(ms[i], path) && forall j :: 0 <= j < i ==> !At(ms[j], path)
    ensures FindMount(ms, path) == i
  {
  }

  /** Placing one mount changes no path that was there. */
  lemma PlaceKeepsPaths(source: seq<Value>, out: seq<Value>, w: string)
    requires PlaceOne(source, out, w).Some?
    ensures var r := PlaceOne(source, out, w).value;
      && |out| <= |r| && Placed(source, r, w)
      && (forall k :: 0 <= k < |out| ==> SameMount(PathOf(r[k]), PathOf(out[k])))
      && (forall k :: 0 <= k < |out| && !At(out[k], w) ==> r[k] == out[k])
      && (forall k :: |out| <= k < |r| ==> At(r[k], w))
  {
    hide IsControl, Norm, PathOf;
    var r := PlaceOne(source, out, w).value;
    FindIs(r, w, FindMount(out, w));
  }

  lemma PlaceKeepsPlaced(source: seq<Value>, out: seq<Value>, w: string, v: string)
    requires PlaceOne(source, out, w).Some? && Placed(source, out, v)
    ensures Placed(source, PlaceOne(source, out, w).value, v)
  {
    var r := PlaceOne(source, out, w).value;
    PlaceKeepsPaths(source, out, w);
    if SameMount(w, v) {
      FindSame(source, w, v);
      FindSame(r, w, v);
    } else {
      hide IsControl, Norm, PathOf, PlaceOne;
      FindIs(r, v, FindMount(out, v));
    }
  }

  lemma {:induction false} AllPlaced(source: seq<Value>, out: seq<Value>, wanted: seq<string>, v: string)
    requires PlaceAll(source, out, wanted).Some? && (v in wanted || Placed(source, out, v))
    ensures Placed(source, PlaceAll(source, out, wanted).value, v)
    decreases |wanted|
  {
    hide Placed, PlaceOne;
    if wanted != [] {
      var next := PlaceOne(source, out, wanted[0]).value;
      PlaceKeepsPaths(source, out, wanted[0]);
      if v != wanted[0] && v !in wanted[1..] { PlaceKeepsPlaced(source, out, wanted[0], v); }
      AllPlaced(source, next, wanted[1..], v);
    }
  }

  lemma PlacedIsSettled(source: seq<Value>, out: seq<Value>, w: string)
    requires Placed(source, out, w)
    ensures PlaceOne(source, out, w) == Some(out)
  {
    var j := FindMount(out, w);
    assert out[j := out[j]] == out;
  }

  lemma {:induction false} SettledStays(source: seq<Value>, out: seq<Value>, wanted: seq<string>)
    requires forall w :: w in wanted ==> Placed(source, out, w)
    ensures PlaceAll(source, out, wanted) == Some(out)
    decreases |wanted|
  {
    hide Placed, PlaceOne;
    if wanted != [] {
      PlacedIsSettled(source, out, wanted[0]);
      SettledStays(source, out, wanted[1..]);
    }
  }

  lemma ScopedIsFixed(source: seq<Value>, target: seq<Value>, wanted: seq<string>)
    requires PlaceAll(source, target, wanted).Some?
    ensures var r := PlaceAll(source, target, wanted).value; PlaceAll(source, r, wanted) == Some(r)
  {
    var r := PlaceAll(source, target, wanted).value;
    forall w | w in wanted ensures Placed(source, r, w) {
      AllPlaced(source, target, wanted, w);
    }
    SettledStays(source, r, wanted);
  }

  predicate InScope(m: Value, wanted: seq<string>) { exists i :: 0 <= i < |wanted| && At(m, wanted[i]) }

  lemma ScopeSplits(m: Value, wanted: seq<string>)
    requires wanted != []
    ensures InScope(m, wanted) <==> At(m, wanted[0]) || InScope(m, wanted[1..])
  {
    hide At;
    if InScope(m, wanted[1..]) {
      var i :| 0 <= i < |wanted[1..]| && At(m, wanted[1..][i]);
      assert At(m, wanted[i + 1]);
    }
    if InScope(m, wanted) {
      var i :| 0 <= i < |wanted| && At(m, wanted[i]);
      assert i > 0 ==> At(m, wanted[1..][i - 1]);
    }
  }

  lemma {:induction false} PathStays(source: seq<Value>, out: seq<Value>, wanted: seq<string>, k: nat)
    requires PlaceAll(source, out, wanted).Some? && k < |out|
    ensures var r := PlaceAll(source, out, wanted).value; k < |r| && SameMount(PathOf(r[k]), PathOf(out[k]))
    decreases |wanted|
  {
    hide PlaceOne, Norm, PathOf;
    if wanted != [] {
      PlaceKeepsPaths(source, out, wanted[0]);
      PathStays(source, PlaceOne(source, out, wanted[0]).value, wanted[1..], k);
    }
  }

  /** Scoped mode leaves every out-of-scope mount of the target at its index, and appends only wanted ones. */
  lemma {:induction false} OutOfScopeStays(source: seq<Value>, target: seq<Value>, wanted: seq<string>, k: nat)
    requires PlaceAll(source, target, wanted).Some?
    ensures var r := PlaceAll(source, target, wanted).value;
      && |target| <= |r|
      && (k < |target| && !InScope(target[k], wanted) ==> r[k] == target[k])
      && (|target| <= k < |r| ==> InScope(r[k], wanted))
    decreases |wanted|
  {
    hide PlaceOne, Norm, InScope;
    if wanted != [] {
      var next := PlaceOne(source, target, wanted[0]).value;
      PlaceKeepsPaths(source, target, wanted[0]);
      OutOfScopeStays(source, next, wanted[1..], k);
      var r := PlaceAll(source, next, wanted[1..]).value;
      if k < |target| {
        ScopeSplits(target[k], wanted);
      } else if k < |r| {
        ScopeSplits(r[k], wanted);
        if k < |next| { PathStays(source, next, wanted[1..], k); }
      }
    }
  }

  /** A mount that may not be transferred: absent from the source, or a control mount on either side. */
  predicate Refused(source: seq<Value>, target: seq<Value>, w: string) {
    var i, j := FindMount(source, w), FindMount(target, w);
    i == |source| || IsControl(source[i]) || (j < |target| && IsControl(target[j]))
  }

  lemma RefusedStays(source: seq<Value>, out: seq<Value>, w: string, v: string)
    requires PlaceOne(source, out, w).Some?
    ensures Refused(source, PlaceOne(source, out, w).value, v) <==> Refused(source, out, v)
  {
    var r := PlaceOne(source, out, w).value;
    PlaceKeepsPaths(source, out, w);
    if SameMount(w, v) {
      FindSame(source, w, v);
      FindSame(out, w, v);
      FindSame(r, w, v);
    } else {
      OtherFind(source, out, w, v);
    }
  }

  lemma OtherFind(source: seq<Value>, out: seq<Value>, w: string, v: string)
    requires PlaceOne(source, out, w).Some? && !SameMount(w, v)
    ensures var r, j := PlaceOne(source, out, w).value, FindMount(out, v);
      if j < |out| then FindMount(r, v) == j && r[j] == out[j] else FindMount(r, v) == |r|
  {
    PlaceKeepsPaths(source, out, w);
    var r, j := PlaceOne(source, out, w).value, FindMount(out, v);
    hide PlaceOne, Norm, PathOf, IsControl;
    if j < |out| { FindIs(r, v, j); }
  }

  /** Scoped planning fails exactly when some wanted mount is refused. */
  lemma {:induction false} ScopedFailsIff(source: seq<Value>, target: seq<Value>, wanted: seq<string>)
    ensures PlaceAll(source, target, wanted).None? <==> exists w :: w in wanted && Refused(source, target, w)
    decreases |wanted|
  {
    if wanted == [] { return; }
    var next := PlaceOne(source, target, wanted[0]);
    assert next.None? <==> Refused(source, target, wanted[0]);
    assert wanted == [wanted[0]] + wanted[1..];
    if next.Some? {
      ScopedFailsIff(source, next.value, wanted[1..]);
      forall w ensures Refused(source, next.value, w) <==> Refused(source, target, w) {
        RefusedStays(source, target, wanted[0], w);
      }
    }
    hide Refused, PlaceOne;
  }

  // ---- the plan is a fixed point ---------------------------------------------

  lemma MountsAreFixed(source: seq<Value>, target: seq<Value>, scope: Scope)
    requires PlannedMounts(source, target, scope).Some?
    ensures var r := PlannedMounts(source, target, scope).value; PlannedMounts(source, r, scope) == Some(r)
  {
    hide WholeMounts, PlaceAll;
    if scope.mounts.None? {
      WholeIsFixed(source, target, scope.prune);
    } else {
      ScopedIsFixed(source, target, scope.mounts.value);
    }
  }

  /** In every mode, planning from a plan's own output succeeds with the same configuration. */
  lemma PlanIsFixed(source: Value, target: Value, scope: Scope)
    requires PlanOf(source, target, scope).Some?
    ensures var p := PlanOf(source, target, scope).value;
      PlanOf(source, p.config, scope).Some? && PlanOf(source, p.config, scope).value.config == p.config
  {
    MountsAreFixed(MountsOf(source), MountsOf(target), scope);
    hide PlannedMounts, TargetOnly, Changed, PathsOf;
    var p := PlanOf(source, target, scope).value;
    var again := PlanOf(source, p.config, scope).value;
    assert again.config.fields == p.config.fields;
  }

  // ---- what a plan says ------------------------------------------------------

  /** Apart from the mounts, the whole document is the source's, and in scoped mode the target's. */
  lemma RestOfConfig(source: Value, target: Value, scope: Scope, k: string)
    requires PlanOf(source, target, scope).Some? && k != "mounts"
    ensures var config, from := PlanOf(source, target, scope).value.config, if scope.mounts.None? then source else target;
      config.Obj? && from.Obj? && (k in config.fields <==> k in from.fields) &&
      (k in config.fields ==> config.fields[k] == from.fields[k])
  {
    hide PlannedMounts, TargetOnly, PathsOf, Changed;
  }

  /** The entry is not what the target has first at its path. */
  ghost predicate IsNews(target: seq<Value>, m: Value) {
    !exists i :: 0 <= i < |target| && target[i] == m && forall j :: 0 <= j < i ==> !At(target[j], PathOf(m))
  }

  lemma DiffersIff(target: seq<Value>, m: Value)
    ensures Differs(target, m) <==> IsNews(target, m)
  {
    var path := PathOf(m);
    assert At(m, path);
    hide At;
    if i :| 0 <= i < |target| && target[i] == m && forall j :: 0 <= j < i ==> !At(target[j], path) {
      FindIs(target, path, i);
    }
  }

  lemma {:induction false} ChangedMembers(target: seq<Value>, ms: seq<Value>, p: string)
    ensures p in Changed(target, ms) <==> exists m :: m in ms && PathOf(m) == p && IsNews(target, m)
  {
    hide Differs, PathOf, IsNews;
    if ms != [] {
      var last := ms[|ms| - 1];
      ChangedMembers(target, ms[..|ms| - 1], p);
      DiffersIff(target, last);
      assert ms == ms[..|ms| - 1] + [last];
    }
  }

  lemma {:induction false} PathsMembers(ms: seq<Value>, p: string)
    ensures p in PathsOf(ms) <==> exists m :: m in ms && PathOf(m) == p
  {
    hide PathOf;
    if ms != [] {
      PathsMembers(ms[..|ms| - 1], p);
      assert ms == ms[..|ms| - 1] + [ms[|ms| - 1]];
    }
  }

  /** The target alone has a mount with this path, and not a control mount. */
  ghost predicate OnlyTargets(source: seq<Value>, target: seq<Value>, p: string) {
    && !(exists s :: s in source && At(s, p))
    && exists m :: m in target && PathOf(m) == p && StringField(m, "service") != "services"
  }

  lemma TargetOnlyPaths(source: seq<Value>, target: seq<Value>, p: string)
    ensures p in PathsOf(TargetOnly(source, target)) <==> OnlyTargets(source, target, p)
  {
    PathsMembers(TargetOnly(source, target), p);
    FindMeans(source, p);
    forall m ensures m in TargetOnly(source, target) <==> m in target && IsTargetOnly(source, m) {
      TargetOnlyMembers(source, target, m);
    }
    hide TargetOnly, PathsOf, FindMount, StringField, At;
  }

  /** What a plan reports: changed is what is new at its path, pruned or kept what only the target has. */
  lemma PlanReports(source: Value, target: Value, scope: Scope, p: string)
    requires PlanOf(source, target, scope).Some?
    ensures var plan, s, t := PlanOf(source, target, scope).value, MountsOf(source), MountsOf(target);
      && (p in plan.changed <==> exists m :: m in MountsOf(plan.config) && PathOf(m) == p && IsNews(t, m))
      && (p in plan.pruned <==> scope.mounts.None? && scope.prune && OnlyTargets(s, t, p))
      && (p in plan.kept <==> scope.mounts.None? && !scope.prune && OnlyTargets(s, t, p))
  {
    PlanIs(source, target, scope);
    ChangedMembers(MountsOf(target), MountsOf(PlanOf(source, target, scope).value.config), p);
    TargetOnlyPaths(MountsOf(source), MountsOf(target), p);
    hide PlannedMounts, TargetOnly, PathsOf, Changed, OnlyTargets, IsNews;
  }

  // ---- when a second plan reports changes ------------------------------------

  /** The entry is the one its own path finds. */
  predicate IsFound(ms: seq<Value>, k: nat)
    requires k < |ms|
  {
    ms[FindMount(ms, PathOf(ms[k]))] == ms[k]
  }

  lemma SelfFound(ms: seq<Value>, k: nat)
    requires k < |ms|
    ensures FindMount(ms, PathOf(ms[k])) <= k
  {
    assert At(ms[k], PathOf(ms[k]));
  }

  lemma {:induction false} NothingDiffersIff(all: seq<Value>, n: nat)
    requires n <= |all|
    ensures Changed(all, all[..n]) == [] <==> forall k :: 0 <= k < n ==> IsFound(all, k)
    decreases n
  {
    hide *;
    if n > 0 {
      NothingDiffersIff(all, n - 1);
      ChangedStep(all, n);
    } else {
      NothingChanged(all);
    }
  }

  lemma NothingChanged(all: seq<Value>)
    ensures Changed(all, all[..0]) == []
  {
  }

  lemma ChangedStep(all: seq<Value>, n: nat)
    requires 0 < n <= |all|
    ensures Changed(all, all[..n]) ==
      Changed(all, all[..n - 1]) + if IsFound(all, n - 1) then [] else [PathOf(all[n - 1])]
  {
    assert all[..n][..n - 1] == all[..n - 1];
    SelfFound(all, n - 1);
    hide FindMount, PathOf;
  }

  /** No two different mounts of the list stand at one path. */
  ghost predicate Agree(ms: seq<Value>) {
    forall a, b :: a in ms && b in ms && SameMount(PathOf(a), PathOf(b)) ==> a == b
  }

  lemma AgreeIff(ms: seq<Value>)
    ensures Agree(ms) <==> forall k :: 0 <= k < |ms| ==> IsFound(ms, k)
  {
    hide Norm, PathOf;
    forall k | 0 <= k < |ms| ensures FindMount(ms, PathOf(ms[k])) <= k { SelfFound(ms, k); }
    if forall k :: 0 <= k < |ms| ==> IsFound(ms, k) {
      forall a, b | a in ms && b in ms && SameMount(PathOf(a), PathOf(b)) ensures a == b {
        var i :| 0 <= i < |ms| && ms[i] == a;
        var j :| 0 <= j < |ms| && ms[j] == b;
        FindSame(ms, PathOf(a), PathOf(b));
        assert IsFound(ms, i) && IsFound(ms, j);
      }
    }
  }

  /** Whole mode: what the planned mounts are made of agrees with itself, and nothing stands where the control mount does. */
  ghost predicate WholeClear(source: seq<Value>, target: seq<Value>, prune: bool) {
    var c := FirstControl(target);
    var extra := if prune then [] else TargetOnly(source, target);
    && Agree(NonControl(source)) && Agree(extra)
    && (c < |target| ==> forall m :: m in NonControl(source) || m in extra ==> !At(m, PathOf(target[c])))
  }

  lemma WholeConsists(source: seq<Value>, target: seq<Value>, prune: bool, m: Value)
    ensures var c := FirstControl(target);
      m in WholeMounts(source, target, prune) <==>
        || m in NonControl(source)
        || (c < |target| && m == target[c])
        || (!prune && m in TargetOnly(source, target))
  {
    var n, c := NonControl(source), FirstControl(target);
    hide IsControl, NonControl, TargetOnly, FirstControl;
    var at := if c < |n| then c else |n|;
    assert n == n[..at] + n[at..];
  }

  lemma WholeAgreesIff(source: seq<Value>, target: seq<Value>, prune: bool)
    ensures Agree(WholeMounts(source, target, prune)) <==> WholeClear(source, target, prune)
  {
    var r, n, c := WholeMounts(source, target, prune), NonControl(source), FirstControl(target);
    var extra := if prune then [] else TargetOnly(source, target);
    forall m ensures m in r <==> m in n || m in extra || (c < |target| && m == target[c]) {
      WholeConsists(source, target, prune, m);
    }
    forall m | m in n ensures !IsControl(m) { NonControlMembers(source, m); }
    forall m | m in extra ensures !IsControl(m) { TargetOnlyMembers(source, target, m); }
    forall a, b | a in n && b in extra ensures !SameMount(PathOf(a), PathOf(b)) {
      NonControlMembers(source, a);
      TargetOnlyMembers(source, target, b);
      var i :| 0 <= i < |source| && source[i] == a;
      assert !At(source[i], PathOf(b));
    }
    hide WholeMounts, NonControl, TargetOnly, Norm, PathOf, StringField;
    if c < |target| {
      assert IsControl(target[c]);
      if Agree(r) {
        forall m | m in n || m in extra ensures !At(m, PathOf(target[c])) {
          assert m in r && target[c] in r && m != target[c];
        }
      }
    }
  }

  /** Scoped mode: a mount after the first at its path is what that first one is planned to be. */
  predicate ScopedClear(source: seq<Value>, target: seq<Value>, wanted: seq<string>) {
    forall k :: 0 <= k < |target| ==> RestClear(source, target, wanted, k)
  }

  predicate RestClear(source: seq<Value>, target: seq<Value>, wanted: seq<string>, k: nat)
    requires k < |target|
  {
    var f, i := FindMount(target, PathOf(target[k])), FindMount(source, PathOf(target[k]));
    f < k ==> target[k] == if InScope(target[k], wanted) && i < |source| then source[i] else target[f]
  }

  /** Only the first mount at a path is ever replaced. */
  lemma {:induction false} RestStays(source: seq<Value>, out: seq<Value>, wanted: seq<string>, k: nat)
    requires PlaceAll(source, out, wanted).Some? && k < |out| && FindMount(out, PathOf(out[k])) < k
    ensures var r := PlaceAll(source, out, wanted).value; k < |r| && r[k] == out[k]
    decreases |wanted|
  {
    if wanted != [] {
      var w := wanted[0];
      var next := PlaceOne(source, out, w).value;
      PlaceKeepsPaths(source, out, w);
      assert next[k] == out[k] by {
        if At(out[k], w) { FindSame(out, PathOf(out[k]), w); }
      }
      SameFind(out, next, PathOf(out[k]));
      hide PlaceOne, FindMount, Norm, PathOf;
      RestStays(source, next, wanted[1..], k);
    }
  }

  lemma SameFind(out: seq<Value>, next: seq<Value>, path: string)
    requires |out| <= |next| && FindMount(out, path) < |out|
    requires forall k :: 0 <= k < |out| ==> SameMount(PathOf(next[k]), PathOf(out[k]))
    ensures FindMount(next, path) == FindMount(out, path)
  {
    hide Norm, PathOf;
    var f := FindMount(out, path);
    assert forall j :: 0 <= j < f ==> !At(next[j], path);
    FindIs(next, path, f);
  }

  /** Where an appended mount stands, no earlier one does. */
  lemma {:induction false} AppendedIsFirst(source: seq<Value>, out: seq<Value>, wanted: seq<string>, k: nat)
    requires PlaceAll(source, out, wanted).Some? && |out| <= k < |PlaceAll(source, out, wanted).value|
    ensures var r := PlaceAll(source, out, wanted).value; FindMount(r, PathOf(r[k])) == k
    decreases |wanted|
  {
    if wanted != [] {
      var w := wanted[0];
      var next := PlaceOne(source, out, w).value;
      PlaceKeepsPaths(source, out, w);
      if k < |next| {
        assert FindMount(out, w) == |out| == k;
        FindIs(next, w, k);
        FindSame(next, PathOf(next[k]), w);
        AllPathsStay(source, next, wanted[1..]);
        var r := PlaceAll(source, next, wanted[1..]).value;
        SameFind(next, r, PathOf(next[k]));
        FindSame(r, PathOf(r[k]), PathOf(next[k]));
      } else {
        AppendedIsFirst(source, next, wanted[1..], k);
      }
    }
  }

  lemma AllPathsStay(source: seq<Value>, out: seq<Value>, wanted: seq<string>)
    requires PlaceAll(source, out, wanted).Some?
    ensures var r := PlaceAll(source, out, wanted).value;
      |out| <= |r| && forall k :: 0 <= k < |out| ==> SameMount(PathOf(r[k]), PathOf(out[k]))
  {
    OutOfScopeStays(source, out, wanted, 0);
    forall k | 0 <= k < |out| ensures SameMount(PathOf(PlaceAll(source, out, wanted).value[k]), PathOf(out[k])) {
      PathStays(source, out, wanted, k);
    }
  }

  /** What the first mount at a path becomes. */
  lemma FirstBecomes(source: seq<Value>, target: seq<Value>, wanted: seq<string>, k: nat)
    requires PlaceAll(source, target, wanted).Some? && k < |target|
    ensures var r, f, i := PlaceAll(source, target, wanted).value, FindMount(target, PathOf(target[k])),
        FindMount(source, PathOf(target[k]));
      && f <= k < |r| && FindMount(r, PathOf(r[k])) == f
      && r[f] == if InScope(target[k], wanted) && i < |source| then source[i] else target[f]
  {
    var r, path := PlaceAll(source, target, wanted).value, PathOf(target[k]);
    var f := FindMount(target, path);
    SelfFound(target, k);
    AllPathsStay(source, target, wanted);
    SameFind(target, r, path);
    FindSame(r, PathOf(r[k]), path);
    OutOfScopeStays(source, target, wanted, f);
    hide PlaceAll, Norm, PathOf;
    if InScope(target[k], wanted) {
      var w :| w in wanted && At(target[k], w);
      AllPlaced(source, target, wanted, w);
      FindSame(source, path, w);
      FindSame(r, path, w);
    } else {
      assert InScope(target[f], wanted) <==> InScope(target[k], wanted);
    }
  }

  lemma ScopedAgreesIff(source: seq<Value>, target: seq<Value>, wanted: seq<string>)
    requires PlaceAll(source, target, wanted).Some?
    ensures Agree(PlaceAll(source, target, wanted).value) <==> ScopedClear(source, target, wanted)
  {
    var r := PlaceAll(source, target, wanted).value;
    AgreeIff(r);
    OutOfScopeStays(source, target, wanted, 0);
    forall k | 0 <= k < |r|
      ensures k >= |target| ==> IsFound(r, k)
      ensures k < |target| ==> (IsFound(r, k) <==> RestClear(source, target, wanted, k))
    {
      if k >= |target| {
        AppendedIsFirst(source, target, wanted, k);
      } else {
        FirstBecomes(source, target, wanted, k);
        if FindMount(target, PathOf(target[k])) < k { RestStays(source, target, wanted, k); }
      }
    }
    hide Agree, IsFound, RestClear, PlaceAll;
  }

  /** The condition, over what is planned from. */
  ghost predicate Clear(source: seq<Value>, target: seq<Value>, scope: Scope) {
    if scope.mounts.None? then WholeClear(source, target, scope.prune)
    else ScopedClear(source, target, scope.mounts.value)
  }

  /**
    Planned again from its own output, a plan reports no change if and only if no
    two different mounts it is made from stand at one path.
   */
  lemma SecondPlanChangesNothingIff(source: Value, target: Value, scope: Scope)
    requires PlanOf(source, target, scope).Some?
    ensures var config := PlanOf(source, target, scope).value.config;
      && PlanOf(source, config, scope).Some?
      && (PlanOf(source, config, scope).value.changed == [] <==> Clear(MountsOf(source), MountsOf(target), scope))
  {
    var s, t := MountsOf(source), MountsOf(target);
    MountsAreFixed(s, t, scope);
    PlanIs(source, target, scope);
    var ms := PlannedMounts(s, t, scope).value;
    ClearIff(s, t, scope);
    PlanIs(source, PlanOf(source, target, scope).value.config, scope);
    hide *;
    NothingDiffersIff(ms, |ms|);
    AgreeIff(ms);
    assert ms[..|ms|] == ms;
  }

  lemma PlanIs(source: Value, target: Value, scope: Scope)
    ensures var ms := PlannedMounts(MountsOf(source), MountsOf(target), scope);
      && (PlanOf(source, target, scope).Some? <==>
        ms.Some? && (if scope.mounts.None? then source.Obj? else target.Obj?))
      && (PlanOf(source, target, scope).Some? ==>
        && MountsOf(PlanOf(source, target, scope).value.config) == ms.value
        && PlanOf(source, target, scope).value.config.Obj?
        && PlanOf(source, target, scope).value.changed == Changed(MountsOf(target), ms.value))
  {
    hide PlannedMounts, TargetOnly, PathsOf, Changed;
  }

  lemma ClearIff(source: seq<Value>, target: seq<Value>, scope: Scope)
    requires PlannedMounts(source, target, scope).Some?
    ensures Agree(PlannedMounts(source, target, scope).value) <==> Clear(source, target, scope)
  {
    hide WholeMounts, PlaceAll, WholeClear, ScopedClear, Agree;
    if scope.mounts.None? {
      WholeAgreesIff(source, target, scope.prune);
    } else {
      ScopedAgreesIff(source, target, scope.mounts.value);
    }
  }

  function MountAt(path: string, service: string): Value {
    Obj(map["path" := Str(path), "service" := Str(service)])
  }

  /** The target's configuration after so many plans, each made from the output of the last. */
  function Replanned(source: Value, target: Value, scope: Scope, n: nat): (r: Option<Value>)
  {
    if n == 0 then Some(target)
    else
      var before := Replanned(source, target, scope, n - 1);
      if before.None? || PlanOf(source, before.value, scope).None? then None
      else Some(PlanOf(source, before.value, scope).value.config)
  }

  /** Every later plan succeeds with the configuration of the first. */
  lemma {:induction false} ReplannedIs(source: Value, target: Value, scope: Scope, n: nat)
    requires PlanOf(source, target, scope).Some?
    ensures Replanned(source, target, scope, n + 1) == Some(PlanOf(source, target, scope).value.config)
  {
    hide PlanOf;
    if n > 0 {
      ReplannedIs(source, target, scope, n - 1);
      PlanIsFixed(source, target, scope);
    } else {
      assert Replanned(source, target, scope, 0) == Some(target);
    }
  }

  /** Whichever later plan is looked at, it reports no change if and only if the inputs are clear. */
  lemma LaterPlansChangeNothingIff(source: Value, target: Value, scope: Scope, n: nat)
    requires PlanOf(source, target, scope).Some?
    ensures Replanned(source, target, scope, n + 1).Some?
    ensures var later := PlanOf(source, Replanned(source, target, scope, n + 1).value, scope);
      later.Some? && (later.value.changed == [] <==> Clear(MountsOf(source), MountsOf(target), scope))
  {
    hide PlanOf, Clear, MountsOf;
    ReplannedIs(source, target, scope, n);
    SecondPlanChangesNothingIff(source, target, scope);
  }

  /** In whole mode a source mount at the path of the target's control mount is reported as changed by every later plan. */
  lemma ControlPathKeepsChanging(source: Value, target: Value, prune: bool, m: Value, n: nat)
    requires PlanOf(source, target, Scope(None, prune)).Some? && m in MountsOf(source) && !IsControl(m)
    requires var t := MountsOf(target); FirstControl(t) < |t| && SameMount(PathOf(m), PathOf(t[FirstControl(t)]))
    ensures Replanned(source, target, Scope(None, prune), n + 1).Some?
    ensures var later := PlanOf(source, Replanned(source, target, Scope(None, prune), n + 1).value, Scope(None, prune));
      later.Some? && later.value.changed != []
  {
    var s, t := MountsOf(source), MountsOf(target);
    LaterPlansChangeNothingIff(source, target, Scope(None, prune), n);
    NonControlMembers(s, m);
    assert !WholeClear(s, t, prune);
    hide PlanOf, WholeClear, MountsOf;
  }

  /** Such a source and target. */
  lemma ControlPathExample(n: nat)
    ensures var source, target := Obj(map["mounts" := Arr([MountAt("/x", "file")])]),
        Obj(map["mounts" := Arr([MountAt("/x", "services")])]);
      var scope := Scope(None, false);
      && Replanned(source, target, scope, n + 1).Some?
      && PlanOf(source, Replanned(source, target, scope, n + 1).value, scope).Some?
      && PlanOf(source, Replanned(source, target, scope, n + 1).value, scope).value.changed != []
  {
    var file, control := MountAt("/x", "file"), MountAt("/x", "services");
    var source, target := Obj(map["mounts" := Arr([file])]), Obj(map["mounts" := Arr([control])]);
    assert MountsOf(source) == [file] && MountsOf(target) == [control];
    assert !IsControl(file) && IsControl(control) && PathOf(file) == PathOf(control);
    FirstControlIs([control], 0);
    PlanIs(source, target, Scope(None, false));
    hide MountAt, MountsOf, PlanOf, IsControl, PathOf;
    assert file in [file];
    ControlPathKeepsChanging(source, target, false, file, n);
  }

  /** A target's mount at the path of the source's control mount is lost by the unpruned plan. */
  lemma ControlPathLosesMount()
    ensures !Served(WholeMounts([MountAt("/x", "services")], [MountAt("/x", "file")], false), PathOf(MountAt("/x", "file")))
  {
    var file, control := MountAt("/x", "file"), MountAt("/x", "services");
    assert !IsControl(file) && IsControl(control) && PathOf(file) == PathOf(control);
    hide MountAt, IsControl, PathOf;
    assert file in [file] && control in [control];
    assert FirstControl([file]) == 1;
    LostIff([control], [file], file);
  }

  lemma {:induction false} TrimStartKeeps(path: string)
    ensures TrimStart(path) == [] ==> TrimEnd(TrimStart(path + "/")) == []
    ensures TrimStart(path) != [] ==> TrimStart(path + "/") == TrimStart(path) + "/"
  {
    if path == [] {
      assert path + "/" == "/" && "/"[1..] == "" && TrimStart("") == "";
    } else if path[0] == '/' {
      assert (path + "/")[1..] == path[1..] + "/";
      TrimStartKeeps(path[1..]);
    }
  }

  /** Leading and trailing slashes do not tell mounts apart. */
  lemma SlashesDoNotMatter(path: string)
    ensures SameMount(path, "/" + path) && SameMount(path, path + "/")
  {
    assert ("/" + path)[1..] == path;
    TrimStartKeeps(path);
    var core := TrimStart(path);
    if core != [] {
      assert (core + "/")[..|core|] == core;
    }
  }
}
