/** Secret markers a target cannot restore, and code pins repointed after a deploy. */
module SyncSecrets {
  import opened Text
  import opened Json
  import opened SyncPlan
  import opened SyncPlanLaws

  // ---- missing secrets -------------------------------------------------------

  const SECRET_MASK: string := "<secret>"

  /** A step into a document. */
  datatype Into = Key(name: string) | Index(i: nat)

  type Pointer = seq<Into>

  /** `Value::get`. */
  function Get(v: Value, at: Into): (r: Option<Value>)
  {
    match at
    case Key(k) => if v.Obj? && k in v.fields then Some(v.fields[k]) else None
    case Index(i) => if v.Arr? && i < |v.items| then Some(v.items[i]) else None
  }

  function GetAt(v: Value, p: Pointer): (r: Option<Value>)
    decreases |p|
  {
    if p == [] then Some(v)
    else if Get(v, p[0]).None? then None
    else GetAt(Get(v, p[0]).value, p[1..])
  }

  function Child(v: Value, at: Into): (r: Value)
  {
    if Get(v, at).Some? then Get(v, at).value else Null
  }

  predicate Restorable(v: Value) { v.Str? && v.s != "" }

  /** `walk_masks`: the places where the plan has a marker and the target no string to restore. */
  ghost function Missing(planned: Value, current: Value): (r: set<Pointer>)
    decreases planned
  {
    match planned
    case Str(s) => if s == SECRET_MASK && !Restorable(current) then {[]} else {}
    case Obj(fields) =>
      set k, p | k in fields && p in Missing(fields[k], Child(current, Key(k))) :: [Key(k)] + p
    case Arr(items) =>
      set i: nat, p | i < |items| && p in Missing(items[i], Child(current, Index(i))) :: [Index(i)] + p
    case _ => {}
  }

  lemma {:induction false} OfNull(p: Pointer)
    ensures p != [] ==> GetAt(Null, p).None?
  {
  }

  /** A place is reported exactly when the plan carries the marker there and the target has no string there. */
  lemma {:induction false} MissingIff(planned: Value, current: Value, p: Pointer)
    ensures p in Missing(planned, current) <==>
      GetAt(planned, p) == Some(Str("<secret>"))
      && !(GetAt(current, p).Some? && Restorable(GetAt(current, p).value))
    decreases |p|
  {
    if p == [] || Get(planned, p[0]).None? { return; }
    var at := p[0];
    MissingIff(Get(planned, at).value, Child(current, at), p[1..]);
    OfNull(p[1..]);
    assert p == [at] + p[1..];
    MissingSteps(planned, current, p);
  }

  lemma MissingSteps(planned: Value, current: Value, p: Pointer)
    requires p != [] && Get(planned, p[0]).Some?
    ensures p in Missing(planned, current) <==> p[1..] in Missing(Get(planned, p[0]).value, Child(current, p[0]))
  {
    assert p == [p[0]] + p[1..];
    if p in Missing(planned, current) {
      match planned
      case Obj(fields) =>
        var k, q :| k in fields && q in Missing(fields[k], Child(current, Key(k))) && [Key(k)] + q == p;
        assert q == p[1..];
      case Arr(items) =>
        var i: nat, q :| i < |items| && q in Missing(items[i], Child(current, Index(i))) && [Index(i)] + q == p;
        assert q == p[1..];
    }
  }

  /** A configuration lacks no secret of its own, so a plan made again from its own output is never refused. */
  lemma NothingMissingFromItself(c: Value)
    ensures Missing(c, c) == {}
  {
    forall p ensures p !in Missing(c, c) {
      MissingIff(c, c, p);
    }
  }

  // ---- code pins -------------------------------------------------------------

  /** A service name and the one it is repointed to. */
  datatype Repoint = Repoint(was: string, now: string)

  predicate HasService(m: Value, s: string) { m.Obj? && "service" in m.fields && m.fields["service"] == Str(s) }

  function RepointOne(m: Value, r: Repoint): (m': Value)
  {
    if HasService(m, r.was) then Obj(m.fields["service" := Str(r.now)])
    else m
  }

  /** The repointings applied to one mount, in order. */
  function RepointMount(m: Value, rs: seq<Repoint>): (m': Value)
  {
    if rs == [] then m else RepointOne(RepointMount(m, rs[..|rs| - 1]), rs[|rs| - 1])
  }

  function RepointMounts(ms: seq<Value>, rs: seq<Repoint>): (r: seq<Value>)
    ensures |r| == |ms| && forall i :: 0 <= i < |ms| ==> r[i] == RepointMount(ms[i], rs)
  {
    seq(|ms|, i requires 0 <= i < |ms| => RepointMount(ms[i], rs))
  }

  function Count(ms: seq<Value>, r: Repoint): (n: nat)
  {
    if ms == [] then 0
    else Count(ms[..|ms| - 1], r) + if StringField(ms[|ms| - 1], "service") == r.was then 1 else 0
  }

  /** `rewrite_pin` on the mounts: every mount pinned to the old name, and how many there were. */
  method RewritePin(ms: seq<Value>, r: Repoint) returns (out: seq<Value>, n: nat)
    requires r.was != ""
    ensures out == RepointMounts(ms, [r])
    ensures n == Count(ms, r)
    ensures forall i :: 0 <= i < |ms| ==>
      out[i] ==
      if ms[i].Obj? && "service" in ms[i].fields && ms[i].fields["service"] == Str(r.was)
      then Obj(ms[i].fields["service" := Str(r.now)]) else ms[i]
  {
    out, n := ms, 0;
    var i := 0;
    while i < |ms|
      invariant 0 <= i <= |ms| == |out| && n == Count(ms[..i], r)
      invariant forall j :: 0 <= j < i ==> out[j] == RepointOne(ms[j], r)
      invariant forall j :: i <= j < |ms| ==> out[j] == ms[j]
    {
      assert ms[..i + 1][..i] == ms[..i];
      if HasService(out[i], r.was) {
        out := out[i := Obj(out[i].fields["service" := Str(r.now)])];
        n := n + 1;
      }
      i := i + 1;
    }
    assert ms[..i] == ms;
    forall j | 0 <= j < |ms| ensures out[j] == RepointMount(ms[j], [r]) {
      assert [r][..0] == [];
    }
  }

  /** Repointings of one deploy: none touches a control mount, and none undoes or extends another. */
  predicate Settled(rs: seq<Repoint>) {
    && (forall i :: 0 <= i < |rs| ==> rs[i].was != "services" && rs[i].now != "services")
    && (forall i, j :: 0 <= i < |rs| && 0 <= j < |rs| && rs[i].now == rs[j].was ==> rs[j].now == rs[i].now)
  }

  lemma RepointKeeps(m: Value, r: Repoint)
    requires r.was != "services" && r.now != "services"
    ensures PathOf(RepointOne(m, r)) == PathOf(m) && IsControl(RepointOne(m, r)) == IsControl(m)
    ensures HasService(RepointOne(m, r), r.now) || (RepointOne(m, r) == m && !HasService(m, r.was))
  {
  }

  /** The repointing whose name a mount ends up with, or -1 when none applies. */
  lemma {:induction false} RepointedBy(m: Value, rs: seq<Repoint>, n: nat) returns (i: int)
    requires Settled(rs) && n <= |rs|
    ensures var m' := RepointMount(m, rs[..n]);
      && PathOf(m') == PathOf(m) && IsControl(m') == IsControl(m)
      && -1 <= i < n
      && (i >= 0 ==> HasService(m', rs[i].now))
      && (i == -1 ==> m' == m && forall j :: 0 <= j < n ==> !HasService(m, rs[j].was))
    decreases n
  {
    i := -1;
    if n > 0 {
      i := RepointedBy(m, rs, n - 1);
      assert rs[..n][..n - 1] == rs[..n - 1];
      var before := RepointMount(m, rs[..n - 1]);
      assert RepointMount(m, rs[..n]) == RepointOne(before, rs[n - 1]);
      hide PathOf, IsControl, RepointOne, HasService, RepointMount;
      RepointKeeps(before, rs[n - 1]);
      if HasService(RepointOne(before, rs[n - 1]), rs[n - 1].now) { i := n - 1; }
    }
  }

  lemma {:induction false} NothingLeft(m: Value, rs: seq<Repoint>, n: nat)
    requires n <= |rs| && forall j :: 0 <= j < n ==> RepointOne(m, rs[j]) == m
    ensures RepointMount(m, rs[..n]) == m
    decreases n
  {
    if n > 0 {
      NothingLeft(m, rs, n - 1);
      assert rs[..n][..n - 1] == rs[..n - 1];
    }
  }

  lemma AlreadyNamed(m: Value, r: Repoint)
    requires HasService(m, r.was) ==> r.was == r.now
    ensures RepointOne(m, r) == m
  {
    if HasService(m, r.was) { assert m.fields["service" := Str(r.now)] == m.fields; }
  }

  /** Repointing keeps a mount's path and leaves control mounts alone, and doing it again changes nothing. */
  lemma RepointIsFinal(m: Value, rs: seq<Repoint>)
    requires Settled(rs)
    ensures var m' := RepointMount(m, rs);
      PathOf(m') == PathOf(m) && IsControl(m') == IsControl(m) && RepointMount(m', rs) == m'
  {
    var i := RepointedBy(m, rs, |rs|);
    assert rs[..|rs|] == rs;
    var m' := RepointMount(m, rs);
    forall j | 0 <= j < |rs| ensures RepointOne(m', rs[j]) == m' {
      AlreadyNamed(m', rs[j]);
    }
    NothingLeft(m', rs, |rs|);
  }

  // ---- planning and repointing together --------------------------------------

  /** Equal once repointed. */
  predicate Like(a: seq<Value>, b: seq<Value>, rs: seq<Repoint>) {
    |a| == |b| && forall k :: 0 <= k < |a| ==> RepointMount(a[k], rs) == RepointMount(b[k], rs)
  }

  lemma LikeMounts(m: Value, m': Value, rs: seq<Repoint>)
    requires Settled(rs) && RepointMount(m, rs) == RepointMount(m', rs)
    ensures PathOf(m) == PathOf(m') && IsControl(m) == IsControl(m')
  {
    RepointIsFinal(m, rs);
    RepointIsFinal(m', rs);
  }

  lemma {:induction false} LikeTargetOnly(source: seq<Value>, a: seq<Value>, b: seq<Value>, rs: seq<Repoint>)
    requires Settled(rs) && Like(a, b, rs)
    ensures Like(TargetOnly(source, a), TargetOnly(source, b), rs)
  {
    hide Settled, RepointMount, IsControl, PathOf, FindMount;
    if a != [] {
      LikeTargetOnly(source, a[..|a| - 1], b[..|b| - 1], rs);
      LikeMounts(a[|a| - 1], b[|b| - 1], rs);
    }
  }

  lemma LikeControl(a: seq<Value>, b: seq<Value>, rs: seq<Repoint>)
    requires Settled(rs) && Like(a, b, rs)
    ensures FirstControl(a) == FirstControl(b)
  {
    hide RepointMount, IsControl;
    forall k | 0 <= k < |a| ensures IsControl(a[k]) == IsControl(b[k]) {
      LikeMounts(a[k], b[k], rs);
    }
    FirstControlIs(a, FirstControl(b));
  }

  lemma LikeWhole(source: seq<Value>, a: seq<Value>, b: seq<Value>, prune: bool, rs: seq<Repoint>)
    requires Settled(rs) && Like(a, b, rs)
    ensures Like(WholeMounts(source, a, prune), WholeMounts(source, b, prune), rs)
  {
    LikeControl(a, b, rs);
    LikeTargetOnly(source, a, b, rs);
    hide RepointMount, TargetOnly, FirstControl, NonControl, Settled, Like;
    var n, c := NonControl(source), FirstControl(a);
    LikeItself(n, rs);
    if c < |a| {
      var at := if c < |n| then c else |n|;
      LikeItself(n[..at], rs);
      LikeItself(n[at..], rs);
      LikeOne(a, b, c, rs);
      LikeAppend(n[..at], n[..at], [a[c]], [b[c]], rs);
      LikeAppend(n[..at] + [a[c]], n[..at] + [b[c]], n[at..], n[at..], rs);
    }
    LikeAppend(WithControl(n, a), WithControl(n, b), TargetOnly(source, a), TargetOnly(source, b), rs);
  }

  lemma LikeItself(a: seq<Value>, rs: seq<Repoint>)
    ensures Like(a, a, rs)
  {
  }

  lemma LikeOne(a: seq<Value>, b: seq<Value>, c: nat, rs: seq<Repoint>)
    requires Like(a, b, rs) && c < |a|
    ensures |a| == |b| && Like([a[c]], [b[c]], rs)
  {
  }

  lemma LikeAppend(a: seq<Value>, a': seq<Value>, b: seq<Value>, b': seq<Value>, rs: seq<Repoint>)
    requires Like(a, a', rs) && Like(b, b', rs)
    ensures Like(a + b, a' + b', rs)
  {
    hide RepointMount;
  }

  lemma LikeFind(a: seq<Value>, b: seq<Value>, w: string, rs: seq<Repoint>)
    requires Settled(rs) && Like(a, b, rs)
    ensures FindMount(a, w) == FindMount(b, w)
  {
    hide RepointMount, PathOf, IsControl, Norm;
    forall k | 0 <= k < |a| ensures At(a[k], w) == At(b[k], w) {
      LikeMounts(a[k], b[k], rs);
    }
    if FindMount(b, w) < |b| { FindIs(a, w, FindMount(b, w)); }
  }

  /** Replacing what is already in place, but for its repointing, leaves it so. */
  lemma {:induction false} LikePlaced(source: seq<Value>, a: seq<Value>, b: seq<Value>, wanted: seq<string>,
    rs: seq<Repoint>)
    requires Settled(rs) && Like(a, b, rs) && forall w :: w in wanted ==> Placed(source, b, w)
    ensures PlaceAll(source, a, wanted).Some? && Like(PlaceAll(source, a, wanted).value, b, rs)
    decreases |wanted|
  {
    hide RepointMount, Settled;
    if wanted != [] {
      var w := wanted[0];
      LikeFind(a, b, w, rs);
      assert Placed(source, b, w);
      var j := FindMount(b, w);
      LikeMounts(a[j], b[j], rs);
      var next := a[j := b[j]];
      assert PlaceOne(source, a, w) == Some(next);
      hide PlaceOne, Placed, FindMount;
      LikePlaced(source, next, b, wanted[1..], rs);
    }
  }

  lemma LikeRepointed(ms: seq<Value>, rs: seq<Repoint>)
    requires Settled(rs)
    ensures Like(RepointMounts(ms, rs), ms, rs)
  {
    forall k | 0 <= k < |ms| ensures RepointMount(RepointMounts(ms, rs)[k], rs) == RepointMount(ms[k], rs) {
      RepointIsFinal(ms[k], rs);
    }
  }

  lemma LikeMeans(a: seq<Value>, b: seq<Value>, rs: seq<Repoint>)
    requires Like(a, b, rs)
    ensures RepointMounts(a, rs) == RepointMounts(b, rs)
  {
    hide RepointMount;
  }

  /** Planning from a repointed plan gives, once repointed, the same mounts. */
  lemma RepointedMountsAreFixed(source: seq<Value>, target: seq<Value>, scope: Scope, rs: seq<Repoint>)
    requires Settled(rs) && PlannedMounts(source, target, scope).Some?
    ensures var r := RepointMounts(PlannedMounts(source, target, scope).value, rs);
      PlannedMounts(source, r, scope).Some? && RepointMounts(PlannedMounts(source, r, scope).value, rs) == r
  {
    var ms := PlannedMounts(source, target, scope).value;
    var r := RepointMounts(ms, rs);
    LikeRepointed(ms, rs);
    hide Settled, Like, RepointMounts, WholeMounts, PlaceAll;
    if scope.mounts.None? {
      WholeIsFixed(source, target, scope.prune);
      LikeWhole(source, r, ms, scope.prune, rs);
      LikeMeans(WholeMounts(source, r, scope.prune), ms, rs);
    } else {
      var wanted := scope.mounts.value;
      forall w | w in wanted ensures Placed(source, ms, w) {
        AllPlaced(source, target, wanted, w);
      }
      LikePlaced(source, r, ms, wanted, rs);
      LikeMeans(PlaceAll(source, r, wanted).value, ms, rs);
    }
  }

  /** What a write attempt computes: the plan against the current configuration, repointed. */
  function Attempt(source: Value, current: Value, scope: Scope, rs: seq<Repoint>): (r: Option<Value>)
  {
    var p := PlanOf(source, current, scope);
    if p.None? then None
    else Some(Obj(p.value.config.fields["mounts" := Arr(RepointMounts(MountsOf(p.value.config), rs))]))
  }

  /** A retry that finds its own earlier write computes the same configuration, and so writes nothing. */
  lemma RetryIsSafe(source: Value, current: Value, scope: Scope, rs: seq<Repoint>)
    requires Settled(rs) && Attempt(source, current, scope, rs).Some?
    ensures var written := Attempt(source, current, scope, rs).value;
      Attempt(source, written, scope, rs) == Some(written)
  {
    hide Settled, PlannedMounts, MountsOf, RepointMounts, Attempt;
    AttemptIs(source, current, scope, rs);
    var ms := PlannedMounts(MountsOf(source), MountsOf(current), scope).value;
    var r := RepointMounts(ms, rs);
    RepointedMountsAreFixed(MountsOf(source), MountsOf(current), scope, rs);
    var base := if scope.mounts.None? then source else current;
    var written := Obj(base.fields["mounts" := Arr(r)]);
    MountsAsWritten(base, r);
    AttemptIs(source, written, scope, rs);
    assert written.fields["mounts" := Arr(r)] == written.fields;
  }

  lemma MountsAsWritten(base: Value, ms: seq<Value>)
    requires base.Obj?
    ensures MountsOf(Obj(base.fields["mounts" := Arr(ms)])) == ms
  {
  }

  lemma AttemptIs(source: Value, current: Value, scope: Scope, rs: seq<Repoint>)
    ensures var base := if scope.mounts.None? then source else current;
      var ms := PlannedMounts(MountsOf(source), MountsOf(current), scope);
      Attempt(source, current, scope, rs) ==
        if ms.None? || !base.Obj? then None else Some(Obj(base.fields["mounts" := Arr(RepointMounts(ms.value, rs))]))
  {
    hide PlannedMounts, TargetOnly, Changed, PathsOf;
    var base := if scope.mounts.None? then source else current;
    var ms := PlannedMounts(MountsOf(source), MountsOf(current), scope);
    if ms.Some? && base.Obj? {
      var config := Obj(base.fields["mounts" := Arr(ms.value)]);
      assert MountsOf(config) == ms.value;
      var fields := base.fields["mounts" := Arr(RepointMounts(ms.value, rs))];
      assert config.fields["mounts" := Arr(RepointMounts(ms.value, rs))] == fields;
    }
  }

  // ---- where the repointings come from ---------------------------------------

  /** The name and version of a `code:<name>@<version>` service. */
  function PinOf(m: Value): (pin: Option<(string, string)>)
  {
    var service := StringField(m, "service");
    if !("code:" <= service) then None
    else
      var at := SplitOnce(service[5..], '@');
      Some(if at.Some? then at.value else (service[5..], ""))
  }

  /** `code_pins`: one version per name, the last mount's; no name holds an at sign. */
  method CodePins(ms: seq<Value>) returns (pins: map<string, string>)
    ensures forall name :: name in pins ==> '@' !in name
    ensures forall name :: name in pins ==> exists i :: 0 <= i < |ms| && PinOf(ms[i]) == Some((name, pins[name]))
    ensures forall i :: 0 <= i < |ms| && PinOf(ms[i]).Some? ==> PinOf(ms[i]).value.0 in pins
  {
    pins := map[];
    var i := 0;
    while i < |ms|
      invariant 0 <= i <= |ms|
      invariant forall name :: name in pins ==> '@' !in name
      invariant forall name :: name in pins ==> exists j :: 0 <= j < i && PinOf(ms[j]) == Some((name, pins[name]))
      invariant forall j :: 0 <= j < i && PinOf(ms[j]).Some? ==> PinOf(ms[j]).value.0 in pins
    {
      var pin := PinOf(ms[i]);
      if pin.Some? {
        NameIsPlain(ms[i]);
        hide PinOf;
        pins := pins[pin.value.0 := pin.value.1];
      }
      i := i + 1;
    }
  }

  lemma NameIsPlain(m: Value)
    requires PinOf(m).Some?
    ensures '@' !in PinOf(m).value.0
  {
    var rest := StringField(m, "service")[5..];
    assert IndexOf(rest, '@') == |rest| ==> rest[..|rest|] == rest;
  }

  /** A pinned bundle that the target deployed under another version. */
  datatype Deploy = Deploy(name: string, from: string, to: string)

  function RepointOf(d: Deploy): Repoint {
    Repoint("code:" + d.name + ['@'] + d.from, "code:" + d.name + ['@'] + d.to)
  }

  function RepointsOf(ds: seq<Deploy>): (rs: seq<Repoint>)
    ensures |rs| == |ds| && forall i :: 0 <= i < |ds| ==> rs[i] == RepointOf(ds[i])
  {
    seq(|ds|, i requires 0 <= i < |ds| => RepointOf(ds[i]))
  }

  /** One deploy per pinned name. */
  predicate OnePerName(ds: seq<Deploy>) {
    && (forall i :: 0 <= i < |ds| ==> '@' !in ds[i].name)
    && (forall i, j :: 0 <= i < j < |ds| ==> ds[i].name != ds[j].name)
  }

  lemma NamesTellApart(d: Deploy, e: Deploy)
    requires '@' !in d.name && '@' !in e.name && RepointOf(d).now == RepointOf(e).was
    ensures d.name == e.name
  {
    var x, y := "code:" + d.name, "code:" + e.name;
    SplitsOnce(x, '@', d.to);
    SplitsOnce(y, '@', e.from);
    assert x[5..] == d.name && y[5..] == e.name;
  }

  /** The repointings of one deploy never touch a control mount, and none undoes or extends another. */
  lemma PinsAreSettled(ds: seq<Deploy>)
    requires OnePerName(ds)
    ensures Settled(RepointsOf(ds))
  {
    var rs := RepointsOf(ds);
    forall i | 0 <= i < |rs| ensures rs[i].was != "services" && rs[i].now != "services" {
      assert rs[i].was[0] == 'c' && rs[i].now[0] == 'c' && "services"[0] == 's';
    }
    forall i, j | 0 <= i < |rs| && 0 <= j < |rs| && rs[i].now == rs[j].was ensures rs[j].now == rs[i].now {
      NamesTellApart(ds[i], ds[j]);
    }
  }

  /** So a retry after any deploy is safe. */
  lemma DeployedRetryIsSafe(source: Value, current: Value, scope: Scope, ds: seq<Deploy>)
    requires OnePerName(ds) && Attempt(source, current, scope, RepointsOf(ds)).Some?
    ensures var written := Attempt(source, current, scope, RepointsOf(ds)).value;
      Attempt(source, written, scope, RepointsOf(ds)) == Some(written)
  {
    PinsAreSettled(ds);
    RetryIsSafe(source, current, scope, RepointsOf(ds));
  }
}
