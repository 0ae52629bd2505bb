/**
  Loading a tenant on first use: any number of concurrent callers for one tenant
  name, over the map of built tenants and the map of load guards, step by step.
 */
module LoadGuard {
  import opened Text

  /** Where a caller stands. A guard is known by the generation it was made in, an instance by its build. */
  datatype Pc =
    | ReadFast
    | GetGuard
    | WaitFor(guard: nat)
    | Recheck(guard: nat)
    | Loading(guard: nat)
    | Built(guard: nat, id: nat)
    | Release(guard: nat, result: Option<nat>)
    | Unlock(guard: nat, result: Option<nat>)
    | Returned(result: Option<nat>)
    | Cancelled

  /**
    The built tenant, the guard entry, how many guards and builds there have been,
    and the guards held. As history: the builds made and neither inserted nor
    lost, and those lost.
   */
  datatype Shared = Shared(tenant: Option<nat>, entry: Option<nat>, guards: nat, builds: nat, locked: set<nat>,
    out: int, lost: nat)

  datatype System = System(shared: Shared, callers: map<nat, Pc>)

  /** A caller can be cancelled wherever it waits; at `Built` its build is lost. */
  datatype Action =
    | Arrive(c: nat)
    | Go(c: nat)
    | LoadFails(c: nat)
    | Cancel(c: nat)
    | CancelBuilt(c: nat)
    | Purge

  const START: Shared := Shared(None, None, 0, 0, {}, 0, 0)

  /** A caller waits while another holds its guard. */
  predicate Ready(s: Shared, pc: Pc) {
    !pc.Returned? && !pc.Cancelled? && (pc.WaitFor? ==> pc.guard !in s.locked)
  }

  function NextPc(s: Shared, pc: Pc): (r: Pc)
  {
    match pc
    case ReadFast => if s.tenant.Some? then Returned(s.tenant) else GetGuard
    case GetGuard => WaitFor(if s.entry.Some? then s.entry.value else s.guards)
    case WaitFor(g) => Recheck(g)
    case Recheck(g) => if s.tenant.Some? then Release(g, s.tenant) else Loading(g)
    case Loading(g) => Built(g, s.builds)
    case Built(g, id) => Release(g, Some(id))
    case Release(g, r) => Unlock(g, r)
    case Unlock(_, r) => Returned(r)
    case _ => pc
  }

  function NextShared(s: Shared, pc: Pc): (r: Shared)
  {
    match pc
    case GetGuard => if s.entry.Some? then s else s.(entry := Some(s.guards), guards := s.guards + 1)
    case WaitFor(g) => s.(locked := s.locked + {g})
    case Loading(_) => s.(builds := s.builds + 1, out := s.out + 1)
    case Built(_, id) => s.(tenant := Some(id), out := s.out - 1)
    case Release(_, _) => s.(entry := None)
    case Unlock(g, _) => s.(locked := s.locked - {g})
    case _ => s
  }

  predicate Holds(pc: Pc) { pc.Recheck? || pc.Loading? || pc.Built? || pc.Release? || pc.Unlock? }

  /** The guard of a cancelled caller is dropped with it; the guard entry stays. */
  function Freed(s: Shared, pc: Pc): (r: Shared)
  {
    if Holds(pc) then s.(locked := s.locked - {pc.guard}) else s
  }

  predicate Step(s: System, a: Action, s': System) {
    match a
    case Arrive(c) => c !in s.callers && s' == s.(callers := s.callers[c := ReadFast])
    case Go(c) =>
      && c in s.callers && Ready(s.shared, s.callers[c])
      && s' == System(NextShared(s.shared, s.callers[c]), s.callers[c := NextPc(s.shared, s.callers[c])])
    case LoadFails(c) =>
      && c in s.callers && s.callers[c].Loading?
      && s' == s.(callers := s.callers[c := Release(s.callers[c].guard, None)])
    case Cancel(c) =>
      && c in s.callers && !s.callers[c].Built? && !s.callers[c].Unlock? && !s.callers[c].Returned?
      && s' == System(Freed(s.shared, s.callers[c]), s.callers[c := Cancelled])
    case CancelBuilt(c) =>
      && c in s.callers && s.callers[c].Built?
      && s' == System(Freed(s.shared, s.callers[c]).(out := s.shared.out - 1, lost := s.shared.lost + 1),
        s.callers[c := Cancelled])
    case Purge => s' == s.(shared := s.shared.(tenant := None))
  }

  predicate Run(states: seq<System>, acts: seq<Action>) {
    && |states| == |acts| + 1 && states[0] == System(START, map[])
    && forall i :: 0 <= i < |acts| ==> Step(states[i], acts[i], states[i + 1])
  }

  /** No load fails and nothing is purged. */
  predicate Clean(acts: seq<Action>) {
    forall i :: 0 <= i < |acts| ==> !acts[i].LoadFails? && !acts[i].Purge?
  }

  // ---- clean runs ------------------------------------------------------------

  /** Until the tenant is built there is one guard, and afterwards nobody loads. */
  predicate Placed(s: Shared, pc: Pc) {
    && (pc.WaitFor? || Holds(pc) ==> pc.guard < s.guards)
    && (Holds(pc) ==> pc.guard in s.locked)
    && (pc.Loading? ==> s.tenant.None? && s.out == 0)
    && (pc.Built? ==> s.tenant.None? && s.out == 1 && pc.id == s.builds - 1)
    && (pc.Release? || pc.Unlock? || pc.Returned? ==> s.tenant.Some? && pc.result == s.tenant)
    && (s.tenant.None? && (pc.WaitFor? || Holds(pc)) ==> s.entry == Some(pc.guard))
  }

  predicate Tidy(s: Shared) {
    && s.builds == s.lost + s.out + (if s.tenant.Some? then 1 else 0)
    && 0 <= s.out && (s.tenant.Some? ==> s.out == 0)
    && (s.entry.Some? ==> s.entry.value < s.guards)
  }

  /** Two holders of one guard are one caller. */
  predicate Apart(p: Pc, q: Pc) { Holds(p) && Holds(q) ==> p.guard != q.guard }

  ghost predicate Inv(s: System) {
    && Tidy(s.shared)
    && (forall c :: c in s.callers ==> Placed(s.shared, s.callers[c]))
    && (forall c, d :: c in s.callers && d in s.callers && c != d ==> Apart(s.callers[c], s.callers[d]))
  }

  /** A build is out only in the hands of a caller. */
  predicate Accounted(s: System) {
    s.shared.out > 0 ==> exists c :: c in s.callers && s.callers[c].Built?
  }

  lemma MoverIsPlaced(s: Shared, pc: Pc)
    requires Tidy(s) && Placed(s, pc) && Ready(s, pc) && (pc.Recheck? && s.tenant.None? ==> s.out == 0)
    ensures Tidy(NextShared(s, pc)) && Placed(NextShared(s, pc), NextPc(s, pc))
  {
  }

  lemma OtherStaysPlaced(s: Shared, pc: Pc, other: Pc)
    requires Tidy(s) && Placed(s, pc) && Ready(s, pc) && Placed(s, other) && Apart(pc, other)
    ensures Placed(NextShared(s, pc), other) && Apart(NextPc(s, pc), other) && Apart(other, NextPc(s, pc))
  {
  }

  /** While one caller holds the only guard, no other has a build out. */
  lemma NoneOut(s: System, c: nat)
    requires Inv(s) && Accounted(s) && c in s.callers && s.callers[c].Recheck? && s.shared.tenant.None?
    ensures s.shared.out == 0
  {
    if d :| d in s.callers && s.callers[d].Built? {
      assert Apart(s.callers[c], s.callers[d]);
      assert Placed(s.shared, s.callers[c]) && Placed(s.shared, s.callers[d]);
    }
  }

  lemma GoKeeps(s: System, c: nat, s': System)
    requires Inv(s) && Accounted(s) && Step(s, Go(c), s')
    ensures Inv(s')
  {
    if s.callers[c].Recheck? && s.shared.tenant.None? { NoneOut(s, c); }
    MoverIsPlaced(s.shared, s.callers[c]);
    forall d | d in s.callers && d != c
      ensures Placed(s'.shared, s'.callers[d]) && Apart(s'.callers[c], s'.callers[d]) && Apart(s'.callers[d], s'.callers[c])
    {
      OtherStaysPlaced(s.shared, s.callers[c], s.callers[d]);
    }
    hide Placed, Apart, Tidy, NextPc, NextShared;
  }

  /** Cancelling a caller takes nothing from the others. */
  lemma OtherOutlives(s: Shared, pc: Pc, other: Pc)
    requires Placed(s, pc) && Placed(s, other) && Apart(pc, other)
    ensures !pc.Built? ==> Placed(Freed(s, pc), other)
    ensures pc.Built? ==> Placed(Freed(s, pc).(out := s.out - 1, lost := s.lost + 1), other)
  {
  }

  lemma CancelKeeps(s: System, a: Action, c: nat, s': System)
    requires Inv(s) && (a == Cancel(c) || a == CancelBuilt(c)) && Step(s, a, s')
    ensures Inv(s')
  {
    assert Placed(s.shared, s.callers[c]);
    forall d | d in s.callers && d != c ensures Placed(s'.shared, s'.callers[d]) {
      OtherOutlives(s.shared, s.callers[c], s.callers[d]);
    }
    assert Tidy(s'.shared);
    hide Placed, Tidy;
  }

  lemma AccountedKeeps(s: System, a: Action, s': System)
    requires Inv(s) && Accounted(s) && Step(s, a, s')
    ensures Accounted(s')
  {
    if s'.shared.out > 0 {
      if s.shared.out > 0 {
        var d :| d in s.callers && s.callers[d].Built?;
        assert Placed(s.shared, s.callers[d]);
        assert d in s'.callers && s'.callers[d].Built?;
      } else {
        assert a.Go? && s'.callers[a.c].Built?;
      }
    }
  }

  lemma {:induction false} EveryStateIsSafe(states: seq<System>, acts: seq<Action>, n: nat)
    requires Run(states, acts) && Clean(acts) && n < |states|
    ensures Inv(states[n]) && Accounted(states[n])
    decreases n
  {
    if n > 0 {
      EveryStateIsSafe(states, acts, n - 1);
      var a := acts[n - 1];
      assert Step(states[n - 1], a, states[n]);
      AccountedKeeps(states[n - 1], a, states[n]);
      if a.Go? {
        hide Inv, Accounted;
        GoKeeps(states[n - 1], a.c, states[n]);
      } else if !a.Arrive? {
        hide Inv, Accounted;
        CancelKeeps(states[n - 1], a, a.c, states[n]);
      }
    }
  }

  lemma BuildsAre(s: System)
    requires Inv(s) && Accounted(s)
    ensures s.shared.builds <= 1 + s.shared.lost
  {
    if d :| d in s.callers && s.callers[d].Built? {
      assert Placed(s.shared, s.callers[d]);
    }
  }

  /**
    However many first requests race, and wherever some are cancelled, all who get
    an instance get the same one, and the tenant is built at most once and once
    more for each build whose caller was cancelled before it was inserted.
   */
  lemma BuiltOnce(states: seq<System>, acts: seq<Action>, n: nat, c: nat, d: nat)
    requires Run(states, acts) && Clean(acts) && n < |states| && c in states[n].callers && d in states[n].callers
    ensures states[n].shared.builds <= 1 + states[n].shared.lost
    ensures states[n].callers[c].Returned? && states[n].callers[d].Returned? ==>
      states[n].callers[c].result.Some? && states[n].callers[c] == states[n].callers[d]
    ensures states[n].callers[c].Loading? && states[n].callers[d].Loading? ==> c == d
  {
    EveryStateIsSafe(states, acts, n);
    BuildsAre(states[n]);
    assert Placed(states[n].shared, states[n].callers[c]) && Placed(states[n].shared, states[n].callers[d]);
  }

  // ---- after a failed load, a purge or a lost build --------------------------

  function Failures(acts: seq<Action>): (n: nat)
  {
    if acts == [] then 0 else Failures(acts[..|acts| - 1]) + if acts[|acts| - 1].LoadFails? then 1 else 0
  }

  function Purges(acts: seq<Action>): (n: nat)
  {
    if acts == [] then 0 else Purges(acts[..|acts| - 1]) + if acts[|acts| - 1].Purge? then 1 else 0
  }

  function Losses(acts: seq<Action>): (n: nat)
  {
    if acts == [] then 0 else Losses(acts[..|acts| - 1]) + if acts[|acts| - 1].CancelBuilt? then 1 else 0
  }

  lemma {:induction false} CleanIff(acts: seq<Action>)
    ensures Clean(acts) <==> Failures(acts) == 0 && Purges(acts) == 0
  {
    if acts != [] {
      CleanIff(acts[..|acts| - 1]);
      assert acts == acts[..|acts| - 1] + [acts[|acts| - 1]];
    }
  }

  lemma {:induction false} LostAreLosses(states: seq<System>, acts: seq<Action>, n: nat)
    requires Run(states, acts) && n < |states|
    ensures states[n].shared.lost == Losses(acts[..n]) <= Losses(acts)
    decreases n, |acts|
  {
    if n < |acts| {
      var front := acts[..|acts| - 1];
      assert states[..|acts|][n] == states[n] && front[..n] == acts[..n];
      LostAreLosses(states[..|acts|], front, n);
    } else if n > 0 {
      LostAreLosses(states[..n], acts[..n - 1], n - 1);
      assert acts[..n] == acts && acts[..n - 1][..n - 1] == acts[..n - 1];
      assert Step(states[n - 1], acts[n - 1], states[n]);
    } else {
      assert acts[..0] == acts;
    }
  }

  /** A run so far. */
  datatype Trace = Trace(states: seq<System>, acts: seq<Action>)

  ghost predicate Ran(t: Trace) { Run(t.states, t.acts) }

  function Last(t: Trace): (s: System)
    requires Ran(t)
  {
    t.states[|t.states| - 1]
  }

  /** What went wrong in a run: failed loads, purges, and builds lost. */
  datatype Mishaps = Mishaps(failures: nat, purges: nat, losses: nat)

  function Counted(t: Trace): (m: Mishaps) { Mishaps(Failures(t.acts), Purges(t.acts), Losses(t.acts)) }

  /** The run goes on, with so many more of each. */
  ghost predicate Continues(t: Trace, t': Trace, failures: nat, purges: nat, losses: nat) {
    && Ran(t')
    && Counted(t') == Mishaps(Counted(t).failures + failures, Counted(t).purges + purges, Counted(t).losses + losses)
  }

  lemma Extend(t: Trace, a: Action, s': System) returns (t': Trace)
    requires Ran(t) && Step(Last(t), a, s')
    ensures Continues(t, t', if a.LoadFails? then 1 else 0, if a.Purge? then 1 else 0, if a.CancelBuilt? then 1 else 0)
    ensures Last(t') == s'
  {
    hide Step;
    t' := Trace(t.states + [s'], t.acts + [a]);
    assert t'.acts[..|t.acts|] == t.acts;
  }

  /** The caller moves on. */
  lemma Advance(t: Trace, c: nat) returns (t': Trace)
    requires Ran(t) && c in Last(t).callers && Ready(Last(t).shared, Last(t).callers[c])
    ensures Continues(t, t', 0, 0, 0)
    ensures var s := Last(t);
      Last(t') == System(NextShared(s.shared, s.callers[c]), s.callers[c := NextPc(s.shared, s.callers[c])])
  {
    var s := Last(t);
    t' := Extend(t, Go(c), System(NextShared(s.shared, s.callers[c]), s.callers[c := NextPc(s.shared, s.callers[c])]));
  }

  /** The guard a newcomer finds, or makes. */
  function NextGuard(s: Shared): (g: nat) { if s.entry.Some? then s.entry.value else s.guards }

  /** A newcomer that finds no tenant waits for a guard. */
  lemma StartsWaiting(t: Trace, c: nat) returns (t': Trace)
    requires Ran(t) && c !in Last(t).callers && Last(t).shared.tenant.None?
    ensures Continues(t, t', 0, 0, 0)
    ensures var s, g := Last(t), NextGuard(Last(t).shared);
      Last(t') == System(NextShared(s.shared, GetGuard), s.callers[c := WaitFor(g)])
  {
    var s := Last(t);
    hide Ran, Counted;
    t' := Extend(t, Arrive(c), s.(callers := s.callers[c := ReadFast]));
    t' := Advance(t', c);
    t' := Advance(t', c);
    assert Last(t').callers == s.callers[c := WaitFor(NextGuard(s.shared))];
  }

  /** When its guard is free, it starts loading. */
  lemma StartsLoading(t: Trace, c: nat) returns (t': Trace)
    requires Ran(t) && c !in Last(t).callers && Last(t).shared.tenant.None?
    requires NextGuard(Last(t).shared) !in Last(t).shared.locked
    ensures Continues(t, t', 0, 0, 0)
    ensures var s, g := Last(t), NextGuard(Last(t).shared);
      var s' := NextShared(s.shared, GetGuard);
      Last(t') == System(s'.(locked := s'.locked + {g}), s.callers[c := Loading(g)])
  {
    var s := Last(t);
    hide Ran, Counted;
    t' := StartsWaiting(t, c);
    t' := Advance(t', c);
    t' := Advance(t', c);
    assert Last(t').callers == s.callers[c := Loading(NextGuard(s.shared))];
  }

  /** A loading caller builds. */
  lemma Builds(t: Trace, c: nat) returns (t': Trace)
    requires Ran(t) && c in Last(t).callers && Last(t).callers[c].Loading?
    ensures Continues(t, t', 0, 0, 0)
    ensures var s, s' := Last(t), Last(t').shared;
      && s' == s.shared.(builds := s.shared.builds + 1, out := s.shared.out + 1)
      && Last(t').callers == s.callers[c := Built(s.callers[c].guard, s.shared.builds)]
  {
    hide Ran, Counted;
    t' := Advance(t, c);
  }

  /** A caller with a build inserts it and is about to let go of its guard. */
  lemma Inserts(t: Trace, c: nat) returns (t': Trace)
    requires Ran(t) && c in Last(t).callers && Last(t).callers[c].Built?
    ensures Continues(t, t', 0, 0, 0)
    ensures var s, s' := Last(t), Last(t').shared;
      && s' == s.shared.(tenant := Some(s.callers[c].id), out := s.shared.out - 1)
      && Last(t').callers == s.callers[c := Release(s.callers[c].guard, Some(s.callers[c].id))]
  {
    hide Ran, Counted;
    t' := Advance(t, c);
  }

  /** A loading caller's load fails, and the guard entry is removed. */
  lemma Fails(t: Trace, c: nat) returns (t': Trace)
    requires Ran(t) && c in Last(t).callers && Last(t).callers[c].Loading?
    ensures Continues(t, t', 1, 0, 0)
    ensures var s := Last(t);
      Last(t') == System(s.shared.(entry := None), s.callers[c := Unlock(s.callers[c].guard, None)])
  {
    var s := Last(t);
    hide Ran, Counted;
    t' := Extend(t, LoadFails(c), s.(callers := s.callers[c := Release(s.callers[c].guard, None)]));
    t' := Advance(t', c);
    assert Last(t').callers == s.callers[c := Unlock(s.callers[c].guard, None)];
  }

  /** A caller done with its guard returns. */
  lemma Returns(t: Trace, c: nat) returns (t': Trace)
    requires Ran(t) && c in Last(t).callers && Last(t).callers[c].Release?
    ensures Continues(t, t', 0, 0, 0)
    ensures var s := Last(t);
      Last(t') == System(s.shared.(entry := None, locked := s.shared.locked - {s.callers[c].guard}),
        s.callers[c := Returned(s.callers[c].result)])
  {
    var s := Last(t);
    hide Ran, Counted;
    t' := Advance(t, c);
    t' := Advance(t', c);
    assert Last(t').callers == s.callers[c := Returned(s.callers[c].result)];
  }

  /** Nothing built that is not lost, nobody at work, and only callers below `c` so far. */
  predicate Idle(s: System, c: nat, n: nat) {
    && s.shared.tenant.None? && s.shared.builds == n && s.shared.locked == {}
    && (s.shared.entry.Some? ==> s.shared.entry.value < s.shared.guards)
    && forall d :: d in s.callers ==> d < c
  }

  /** A lone caller fails and leaves everything idle. */
  lemma FailsAlone(t: Trace, c: nat, n: nat) returns (t': Trace)
    requires Ran(t) && Idle(Last(t), c, n)
    ensures Continues(t, t', 1, 0, 0) && Idle(Last(t'), c + 1, n)
  {
    hide Ran, Counted;
    t' := StartsLoading(t, c);
    t' := Fails(t', c);
    t' := Advance(t', c);
  }

  /** A lone caller is cancelled between its build and the insertion. */
  lemma LosesAlone(t: Trace, c: nat, n: nat) returns (t': Trace)
    requires Ran(t) && Idle(Last(t), c, n)
    ensures Continues(t, t', 0, 0, 1) && Idle(Last(t'), c + 1, n + 1)
  {
    hide Ran, Counted;
    t' := StartsLoading(t, c);
    t' := Builds(t', c);
    var s := Last(t');
    t' := Extend(t', CancelBuilt(c), System(
      Freed(s.shared, s.callers[c]).(out := s.shared.out - 1, lost := s.shared.lost + 1), s.callers[c := Cancelled]));
  }

  /** Runs with any number of failures, purges and losses, and still nothing inserted. */
  lemma {:induction false} Barren(m: Mishaps) returns (t: Trace, c: nat)
    ensures Ran(t) && Counted(t) == m && Idle(Last(t), c, m.losses)
    decreases m.failures + m.purges + m.losses
  {
    if m.failures > 0 {
      t, c := Barren(m.(failures := m.failures - 1));
      t := FailsAlone(t, c, m.losses);
      c := c + 1;
    } else if m.losses > 0 {
      t, c := Barren(m.(losses := m.losses - 1));
      t := LosesAlone(t, c, m.losses - 1);
      c := c + 1;
    } else if m.purges > 0 {
      t, c := Barren(m.(purges := m.purges - 1));
      t := Extend(t, Purge, Last(t));
    } else {
      t, c := Trace([System(START, map[])], []), 0;
    }
  }

  predicate Served(s: System, c: nat) { c in s.callers && s.callers[c].Returned? && s.callers[c].result.Some? }

  /** The state in which callers `a` and `b` have returned different instances. */
  predicate Split(s: System, a: nat, b: nat) {
    Served(s, a) && Served(s, b) && s.callers[a] != s.callers[b] && s.shared.builds >= 2
  }

  /**
    The guard entry goes with a failed load while a waiter holds on to the guard,
    so a newcomer makes a new guard and builds beside the waiter.
   */
  lemma FailedLoadBuildsTwice(t: Trace, c: nat, n: nat) returns (t': Trace)
    requires Ran(t) && Idle(Last(t), c, n)
    ensures Continues(t, t', 1, 0, 0) && Split(Last(t'), c + 1, c + 2)
  {
    hide Ran, Counted;
    t' := StartsLoading(t, c);
    t' := StartsWaiting(t', c + 1);
    t' := Fails(t', c);
    t' := StartsWaiting(t', c + 2);
    t' := Advance(t', c);
    t' := BuildsBeside(t', c + 1, c + 2);
  }

  /** Two callers whose guards are free and different both build. */
  lemma BuildsBeside(t: Trace, a: nat, b: nat) returns (t': Trace)
    requires Ran(t) && Last(t).shared.tenant.None? && a in Last(t).callers && b in Last(t).callers && a != b
    requires Last(t).callers[a].WaitFor? && Last(t).callers[a].guard !in Last(t).shared.locked
    requires Last(t).callers[b].WaitFor? && Last(t).callers[b].guard !in Last(t).shared.locked
    requires Last(t).callers[a].guard != Last(t).callers[b].guard
    ensures Continues(t, t', 0, 0, 0) && Split(Last(t'), a, b)
  {
    hide Ran, Counted;
    t' := Advance(t, a);
    t' := Advance(t', a);
    t' := Advance(t', b);
    t' := Advance(t', b);
    t' := Builds(t', a);
    t' := Builds(t', b);
    t' := Inserts(t', a);
    t' := Inserts(t', b);
    t' := Returns(t', a);
    t' := Returns(t', b);
  }

  /** A lone caller builds and returns. */
  lemma ServesAlone(t: Trace, c: nat, n: nat) returns (t': Trace)
    requires Ran(t) && Idle(Last(t), c, n)
    ensures Continues(t, t', 0, 0, 0)
    ensures var s := Last(t').shared; s.builds == n + 1 && s.tenant == Some(n) && s.locked == {} && s.entry == None
    ensures Last(t').callers == Last(t).callers[c := Returned(Some(n))]
  {
    hide Ran, Counted;
    t' := StartsLoading(t, c);
    t' := Builds(t', c);
    t' := Inserts(t', c);
    t' := Returns(t', c);
  }

  /** After a purge the next caller builds again. */
  lemma PurgeBuildsTwice(t: Trace, c: nat, n: nat) returns (t': Trace)
    requires Ran(t) && Idle(Last(t), c, n)
    ensures Continues(t, t', 0, 1, 0) && Split(Last(t'), c, c + 1)
  {
    hide Ran, Counted;
    t' := ServesAlone(t, c, n);
    t' := Extend(t', Purge, Last(t').(shared := Last(t').shared.(tenant := None)));
    t' := ServesAlone(t', c + 1, n + 1);
  }

  // ---- exactly when ----------------------------------------------------------

  /** One instance for all who return one. */
  ghost predicate OneInstance(s: System) {
    forall c, d :: Served(s, c) && Served(s, d) ==> s.callers[c] == s.callers[d]
  }

  /** Runs with these many failed loads and purges, whoever is cancelled, all serve one instance. */
  ghost predicate AlwaysOneInstance(failures: nat, purges: nat) {
    forall t, n: nat ::
      Ran(t) && Counted(t).failures == failures && Counted(t).purges == purges && n < |t.states| ==> OneInstance(t.states[n])
  }

  /** Runs with these many mishaps all build at most once. */
  ghost predicate AlwaysOnce(m: Mishaps) {
    forall t, n: nat :: Ran(t) && Counted(t) == m && n < |t.states| ==> t.states[n].shared.builds <= 1
  }

  /** A run with a failure or a purge that serves two instances. */
  lemma MishapSplits(m: Mishaps) returns (t: Trace, a: nat, b: nat)
    requires m.failures > 0 || m.purges > 0
    ensures Ran(t) && Counted(t) == m && Split(Last(t), a, b)
  {
    var c;
    if m.failures > 0 {
      t, c := Barren(m.(failures := m.failures - 1));
      t := FailedLoadBuildsTwice(t, c, m.losses);
      a, b := c + 1, c + 2;
    } else {
      t, c := Barren(m.(purges := m.purges - 1));
      t := PurgeBuildsTwice(t, c, m.losses);
      a, b := c, c + 1;
    }
  }

  lemma CleanServesOne(t: Trace, n: nat)
    requires Ran(t) && Counted(t).failures == 0 && Counted(t).purges == 0 && n < |t.states|
    ensures OneInstance(t.states[n]) && t.states[n].shared.builds <= 1 + Counted(t).losses
  {
    CleanIff(t.acts);
    EveryStateIsSafe(t.states, t.acts, n);
    LostAreLosses(t.states, t.acts, n);
    BuildsAre(t.states[n]);
    assert forall c :: c in t.states[n].callers ==> Placed(t.states[n].shared, t.states[n].callers[c]);
  }

  /** All callers are served one instance exactly when no load fails and nothing is purged. */
  lemma OneInstanceIff(failures: nat, purges: nat)
    ensures AlwaysOneInstance(failures, purges) <==> failures == 0 && purges == 0
  {
    if failures == 0 && purges == 0 {
      hide Ran, OneInstance;
      forall t, n: nat | Ran(t) && Counted(t).failures == 0 && Counted(t).purges == 0 && n < |t.states|
        ensures OneInstance(t.states[n])
      {
        CleanServesOne(t, n);
      }
    } else {
      var t, a, b := MishapSplits(Mishaps(failures, purges, 0));
      assert !OneInstance(t.states[|t.states| - 1]);
    }
  }

  /** The tenant is built at most once exactly when, besides, no caller is cancelled before its build is inserted. */
  lemma AlwaysOnceIff(m: Mishaps)
    ensures AlwaysOnce(m) <==> m == Mishaps(0, 0, 0)
  {
    if m == Mishaps(0, 0, 0) {
      hide Ran, Counted;
      forall t, n: nat | Ran(t) && Counted(t) == m && n < |t.states| ensures t.states[n].shared.builds <= 1 {
        CleanServesOne(t, n);
      }
    } else if m.failures > 0 || m.purges > 0 {
      var t, a, b := MishapSplits(m);
      assert t.states[|t.states| - 1].shared.builds >= 2;
    } else {
      var t, c := Barren(m);
      t := ServesAlone(t, c, m.losses);
      assert t.states[|t.states| - 1].shared.builds >= 2;
    }
  }
}
