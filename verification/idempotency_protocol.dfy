/**
  Any number of dispatchers sharing one idempotency store, interleaved at the
  granularity of its critical sections, with a clock that never goes back.
 */
module IdempotencyProtocol {
  import opened Idempotency
  import opened Text
  import Sets

  datatype Config = Config(window: nat, cap: nat)

  /** A dispatcher between its `Fresh` and its own `complete` or `abandon`. */
  datatype Holder = Holder(slot: Slot, hash: Option<string>)

  /** `Dropped` is a dispatcher cancelled while it holds a slot: it never reports back. */
  datatype Event =
    | Began(pid: nat, slot: Slot, hash: Option<string>, answer: Begin, gone: set<Slot>, at: int)
    | Completed(pid: nat, slot: Slot, response: StoredResponse, at: int)
    | Abandoned(pid: nat, slot: Slot, at: int)
    | Dropped(pid: nat, slot: Slot, at: int)

  /** `log` and `peak` (the most slots ever in flight at once) only observe. */
  datatype Sys = Sys(table: Table, now: int, held: map<nat, Holder>, log: seq<Event>, peak: nat)

  const Init: Sys := Sys(map[], 0, map[], [], 0)

  datatype Action =
    | DoBegin(pid: nat, slot: Slot, hash: Option<string>, n: nat, gone: set<Slot>, cleaned: Table)
    | DoComplete(pid: nat, response: StoredResponse)
    | DoAbandon(pid: nat)
    | DoDrop(pid: nat)
    | Tick(now: int)

  function Max(a: nat, b: nat): (m: nat)
  {
    if a < b then b else a
  }

  // The begin counter `n` is arbitrary: it is fetched before the table is locked.
  ghost predicate BeginStep(c: Config, s: Sys, a: Action, s': Sys)
    requires a.DoBegin?
  {
    && a.pid !in s.held
    && Cleaned(s.table, a.cleaned, a.gone, a.n, a.slot, c.window, c.cap, s.now)
    && var answer := Answer(a.cleaned, a.slot, a.hash);
       var table := Register(a.cleaned, a.slot, a.hash);
       s' == Sys(table, s.now,
                 if answer.Fresh? then s.held[a.pid := Holder(a.slot, a.hash)] else s.held,
                 s.log + [Began(a.pid, a.slot, a.hash, answer, a.gone, s.now)],
                 Max(s.peak, |BusyKeys(table)|))
  }

  ghost predicate Step(c: Config, s: Sys, a: Action, s': Sys) {
    match a
    case DoBegin(_, _, _, _, _, _) => BeginStep(c, s, a, s')
    case DoComplete(p, response) =>
      && p in s.held
      && s' == Sys(Complete(s.table, s.held[p].slot, response, s.now), s.now, s.held - {p},
                   s.log + [Completed(p, s.held[p].slot, response, s.now)], s.peak)
    case DoAbandon(p) =>
      && p in s.held
      && s' == Sys(Abandon(s.table, s.held[p].slot), s.now, s.held - {p},
                   s.log + [Abandoned(p, s.held[p].slot, s.now)], s.peak)
    case DoDrop(p) =>
      && p in s.held
      && s' == Sys(s.table, s.now, s.held - {p}, s.log + [Dropped(p, s.held[p].slot, s.now)], s.peak)
    case Tick(now) => now >= s.now && s' == s.(now := now)
  }

  ghost predicate Run(c: Config, states: seq<Sys>, actions: seq<Action>) {
    && |states| == |actions| + 1 && states[0] == Init
    && forall i :: 0 <= i < |actions| ==> Step(c, states[i], actions[i], states[i + 1])
  }

  // ---- one slot, seen through its history alone ------------------------------

  datatype View = Free | Held(hash: Option<string>) | Captured(response: StoredResponse, at: int, hash: Option<string>)

  function Advance(v: View, e: Event, slot: Slot): (v': View)
  {
    match e
    case Began(_, sl, hash, answer, gone, _) =>
      if sl == slot && answer.Fresh? then Held(hash) else if slot in gone then Free else v
    case Completed(_, sl, response, at) => if sl == slot && v.Held? then Captured(response, at, v.hash) else v
    case Abandoned(_, sl, _) => if sl == slot then Free else v
    case Dropped(_, _, _) => v
  }

  function ViewOf(log: seq<Event>, slot: Slot): (v: View)
  {
    if log == [] then Free else Advance(ViewOf(log[..|log| - 1], slot), log[|log| - 1], slot)
  }

  /** What `begin` should answer, from the slot's history, the eviction and the clock. */
  function Due(v: View, evicted: bool, hash: Option<string>, window: nat, now: int): (b: Begin)
  {
    if evicted || v.Free? || (v.Captured? && now - v.at > window) then Fresh
    else if Mismatch(v.hash, hash) then PayloadMismatch
    else if v.Held? then Busy
    else Replay(v.response)
  }

  /** The table is the history: what is not in it was freed, evicted or has expired. */
  predicate Refines(c: Config, s: Sys, slot: Slot) {
    match ViewOf(s.log, slot)
    case Free => slot !in s.table
    case Held(hash) => slot in s.table && s.table[slot] == Entry(hash, InFlight)
    case Captured(response, at, hash) =>
      && at <= s.now
      && (if slot in s.table then s.table[slot] == Entry(hash, Done(response, at)) else s.now - at > c.window)
  }

  /** Each event of the log is one the per-slot histories allow. */
  predicate Lawful(c: Config, log: seq<Event>) {
    forall i :: 0 <= i < |log| ==>
      && (forall j :: 0 <= j < i ==> log[j].at <= log[i].at)
      && LawfulEvent(c, ViewOf(log[..i], log[i].slot), log[i])
  }

  predicate LawfulEvent(c: Config, v: View, e: Event) {
    match e
    case Began(_, slot, hash, answer, gone, at) => answer == Due(v, slot in gone, hash, c.window, at)
    case _ => v.Held?
  }

  predicate HoldersApart(s: Sys) {
    && (forall p :: p in s.held ==> ViewOf(s.log, s.held[p].slot) == Held(s.held[p].hash))
    && (forall p, q :: p in s.held && q in s.held && p != q ==> s.held[p].slot != s.held[q].slot)
  }

  predicate Past(s: Sys) {
    forall i :: 0 <= i < |s.log| ==> s.log[i].at <= s.now
  }

  predicate Bounded(c: Config, s: Sys) {
    |s.table| <= Max(c.cap, s.peak) && |BusyKeys(s.table)| <= s.peak
  }

  ghost predicate Inv(c: Config, s: Sys) {
    && (forall slot :: Refines(c, s, slot))
    && HoldersApart(s) && Past(s) && Lawful(c, s.log) && Bounded(c, s)
  }

  // ---- what cleaning keeps ---------------------------------------------------

  /** Cleaning drops only evicted or expired completed entries; in particular nothing in flight. */
  lemma CleanedKeeps(t: Table, t': Table, gone: set<Slot>, n: nat, slot: Slot, window: nat, cap: nat, now: int, k: Slot)
    requires Cleaned(t, t', gone, n, slot, window, cap, now)
    ensures k in t' ==> k in t && t'[k] == t[k] && k !in gone
    ensures k in t && k !in t' ==> t[k].state.Done? && (k in gone || Expired(t[k], window, now))
    ensures k in gone ==> k in t && t[k].state.Done? && k !in t' && !Expired(t[k], window, now)
    ensures k == slot && k in t' ==> !Expired(t[k], window, now)
  {
  }

  lemma CleanedShrinks(t: Table, t': Table, gone: set<Slot>, n: nat, slot: Slot, window: nat, cap: nat, now: int)
    requires Cleaned(t, t', gone, n, slot, window, cap, now)
    ensures t'.Keys <= t.Keys && |t'| <= |t|
    ensures |t'| < cap || |t'| < |t| || t'.Keys == BusyKeys(t')
  {
    forall k | k in t' ensures k in t {
      CleanedKeeps(t, t', gone, n, slot, window, cap, now, k);
    }
    Sets.SubmapSize(t', t);
    if n % SWEEP_EVERY == 0 || |t| >= cap {
      var live := Unexpired(t, window, now);
      Sets.SubmapSize(live, t);
      var swept: Table :| Swept(t, swept, gone, window, cap, now)
        && t' == (if slot in swept && Expired(swept[slot], window, now) then swept - {slot} else swept);
      Sets.SubmapSize(t', swept);
      SweptShrinks(live, gone, cap);
    }
  }

  lemma SweptShrinks(live: Table, gone: set<Slot>, cap: nat)
    requires if |live| >= cap then OldestBatch(live, gone, cap) else gone == {}
    ensures |live - gone| < cap || |live - gone| < |live| || (live - gone).Keys == BusyKeys(live - gone)
  {
    if |live| >= cap {
      assert (live - gone).Keys == live.Keys - gone;
      assert gone <= live.Keys;
      assert |live.Keys - gone| == |live.Keys| - |gone|;
      if |gone| == 0 {
        assert DoneKeys(live) == {};
        assert gone == {};
        assert forall k :: k in live ==> k in DoneKeys(live) || live[k].state.InFlight?;
      }
    } else {
      assert live - gone == live;
    }
  }

  lemma RegisterGrows(t: Table, slot: Slot, hash: Option<string>)
    requires slot !in t
    ensures
      var table := Register(t, slot, hash);
      |table| == |t| + 1 && (t.Keys == BusyKeys(t) ==> |BusyKeys(table)| == |table|)
  {
    var table := Register(t, slot, hash);
    assert table.Keys == t.Keys + {slot};
    if t.Keys == BusyKeys(t) { assert BusyKeys(table) == table.Keys; }
  }

  /** The size bound survives a `begin`, whatever it evicts. */
  lemma RegisterBound(c: Config, t: Table, t': Table, gone: set<Slot>, n: nat, slot: Slot,
                      hash: Option<string>, now: int, peak: nat)
    requires Cleaned(t, t', gone, n, slot, c.window, c.cap, now) && |t| <= Max(c.cap, peak)
    ensures
      var table := Register(t', slot, hash);
      |table| <= Max(c.cap, Max(peak, |BusyKeys(table)|))
  {
    CleanedShrinks(t, t', gone, n, slot, c.window, c.cap, now);
    hide Cleaned;
    if slot !in t' { RegisterGrows(t', slot, hash); }
  }

  // ---- every step keeps the invariant ----------------------------------------

  lemma ViewSnoc(log: seq<Event>, e: Event, slot: Slot)
    ensures ViewOf(log + [e], slot) == Advance(ViewOf(log, slot), e, slot)
  {
    assert (log + [e])[..|log|] == log;
  }

  lemma LawfulSnoc(c: Config, log: seq<Event>, e: Event)
    requires Lawful(c, log) && LawfulEvent(c, ViewOf(log, e.slot), e)
    requires forall j :: 0 <= j < |log| ==> log[j].at <= e.at
    ensures Lawful(c, log + [e])
  {
    hide LawfulEvent, ViewOf;
    var log' := log + [e];
    forall i | 0 <= i < |log'|
      ensures (forall j :: 0 <= j < i ==> log'[j].at <= log'[i].at) && LawfulEvent(c, ViewOf(log'[..i], log'[i].slot), log'[i])
    {
      assert log'[..i] == if i < |log| then log[..i] else log;
      if i < |log| { assert log'[i] == log[i]; }
    }
  }

  lemma BeginRefines(c: Config, s: Sys, a: Action, s': Sys, k: Slot)
    requires a.DoBegin? && Inv(c, s) && BeginStep(c, s, a, s')
    ensures Refines(c, s', k)
  {
    assert Refines(c, s, k);
    CleanedKeeps(s.table, a.cleaned, a.gone, a.n, a.slot, c.window, c.cap, s.now, k);
    ViewSnoc(s.log, s'.log[|s.log|], k);
    hide Cleaned, ViewOf;
  }

  /** `begin` answers exactly what the slot's history calls for. */
  lemma BeginAnswers(c: Config, s: Sys, a: Action)
    requires a.DoBegin? && Inv(c, s) && Cleaned(s.table, a.cleaned, a.gone, a.n, a.slot, c.window, c.cap, s.now)
    ensures Answer(a.cleaned, a.slot, a.hash) == Due(ViewOf(s.log, a.slot), a.slot in a.gone, a.hash, c.window, s.now)
  {
    assert Refines(c, s, a.slot);
    CleanedKeeps(s.table, a.cleaned, a.gone, a.n, a.slot, c.window, c.cap, s.now, a.slot);
    hide Cleaned, ViewOf;
  }

  /** Who holds a slot keeps it through another's `begin`. */
  lemma HolderStays(c: Config, s: Sys, a: Action, s': Sys, p: nat)
    requires a.DoBegin? && Inv(c, s) && BeginStep(c, s, a, s') && p in s.held
    ensures ViewOf(s'.log, s.held[p].slot) == Held(s.held[p].hash)
    ensures Answer(a.cleaned, a.slot, a.hash).Fresh? ==> s.held[p].slot != a.slot
  {
    var k := s.held[p].slot;
    assert Refines(c, s, k);
    CleanedKeeps(s.table, a.cleaned, a.gone, a.n, a.slot, c.window, c.cap, s.now, k);
    ViewSnoc(s.log, s'.log[|s.log|], k);
    hide Cleaned, ViewOf, Lawful, Past, Bounded;
  }

  lemma BeginHolders(c: Config, s: Sys, a: Action, s': Sys)
    requires a.DoBegin? && Inv(c, s) && BeginStep(c, s, a, s')
    ensures HoldersApart(s')
  {
    var e := s'.log[|s.log|];
    ViewSnoc(s.log, e, a.slot);
    hide Cleaned, ViewOf, Refines, Lawful, Past, Bounded;
    forall p | p in s.held
      ensures ViewOf(s'.log, s.held[p].slot) == Held(s.held[p].hash) && (e.answer.Fresh? ==> s.held[p].slot != a.slot)
    {
      HolderStays(c, s, a, s', p);
    }
  }

  lemma BeginKeeps(c: Config, s: Sys, a: Action, s': Sys)
    requires a.DoBegin? && Inv(c, s) && BeginStep(c, s, a, s')
    ensures Inv(c, s')
  {
    forall k ensures Refines(c, s', k) { BeginRefines(c, s, a, s', k); }
    BeginHolders(c, s, a, s');
    BeginAnswers(c, s, a);
    LawfulSnoc(c, s.log, s'.log[|s.log|]);
    RegisterBound(c, s.table, a.cleaned, a.gone, a.n, a.slot, a.hash, s.now, s.peak);
    hide Cleaned, ViewOf, Refines;
  }

  /** A holder reporting, or dropped, leaves the other holders and the history in order. */
  lemma LeavingKeeps(c: Config, s: Sys, p: nat, e: Event, s': Sys)
    requires Inv(c, s) && p in s.held && !e.Began? && e.slot == s.held[p].slot && e.at == s.now
    requires s'.now == s.now && s'.held == s.held - {p} && s'.log == s.log + [e]
    ensures HoldersApart(s') && Past(s') && Lawful(c, s'.log)
  {
    LawfulSnoc(c, s.log, e);
    forall q | q in s'.held ensures ViewOf(s'.log, s'.held[q].slot) == Held(s'.held[q].hash) {
      ViewSnoc(s.log, e, s.held[q].slot);
    }
    hide ViewOf, Lawful, Refines;
  }

  lemma CompleteKeeps(c: Config, s: Sys, p: nat, response: StoredResponse, s': Sys)
    requires Inv(c, s) && Step(c, s, DoComplete(p, response), s')
    ensures Inv(c, s')
  {
    LeavingKeeps(c, s, p, s'.log[|s.log|], s');
    forall k ensures Refines(c, s', k) {
      assert Refines(c, s, k);
      CompleteRefines(c, s, p, response, s', k);
    }
    CompleteShrinks(s.table, s.held[p].slot, response, s.now);
    hide Lawful, ViewOf, Refines, HoldersApart, BusyKeys, Complete;
  }

  lemma CompleteRefines(c: Config, s: Sys, p: nat, response: StoredResponse, s': Sys, k: Slot)
    requires Refines(c, s, k) && Step(c, s, DoComplete(p, response), s')
    requires ViewOf(s.log, s.held[p].slot) == Held(s.held[p].hash)
    ensures Refines(c, s', k)
  {
    hide ViewOf;
    ViewSnoc(s.log, Completed(p, s.held[p].slot, response, s.now), k);
  }

  lemma CompleteShrinks(t: Table, slot: Slot, response: StoredResponse, now: int)
    ensures |Complete(t, slot, response, now)| <= |t|
    ensures |BusyKeys(Complete(t, slot, response, now))| <= |BusyKeys(t)|
  {
    var t' := Complete(t, slot, response, now);
    Sets.SubmapSize(t', t);
    assert BusyKeys(t') <= BusyKeys(t);
    Sets.SubsetSize(BusyKeys(t'), BusyKeys(t));
  }

  lemma AbandonKeeps(c: Config, s: Sys, p: nat, s': Sys)
    requires Inv(c, s) && Step(c, s, DoAbandon(p), s')
    ensures Inv(c, s')
  {
    LeavingKeeps(c, s, p, s'.log[|s.log|], s');
    forall k ensures Refines(c, s', k) {
      assert Refines(c, s, k);
      AbandonRefines(c, s, p, s', k);
    }
    AbandonShrinks(s.table, s.held[p].slot);
    hide Lawful, ViewOf, Refines, HoldersApart, BusyKeys, Abandon;
  }

  lemma AbandonRefines(c: Config, s: Sys, p: nat, s': Sys, k: Slot)
    requires Refines(c, s, k) && Step(c, s, DoAbandon(p), s')
    ensures Refines(c, s', k)
  {
    hide ViewOf;
    ViewSnoc(s.log, Abandoned(p, s.held[p].slot, s.now), k);
  }

  lemma AbandonShrinks(t: Table, slot: Slot)
    ensures |Abandon(t, slot)| <= |t| && |BusyKeys(Abandon(t, slot))| <= |BusyKeys(t)|
  {
    var t' := Abandon(t, slot);
    Sets.SubmapSize(t', t);
    assert BusyKeys(t') <= BusyKeys(t);
    Sets.SubsetSize(BusyKeys(t'), BusyKeys(t));
  }

  lemma DropKeeps(c: Config, s: Sys, p: nat, s': Sys)
    requires Inv(c, s) && Step(c, s, DoDrop(p), s')
    ensures Inv(c, s')
  {
    LeavingKeeps(c, s, p, s'.log[|s.log|], s');
    forall k ensures Refines(c, s', k) {
      assert Refines(c, s, k);
      DropRefines(c, s, p, s', k);
    }
    hide Lawful, ViewOf, Refines, HoldersApart, BusyKeys;
  }

  lemma DropRefines(c: Config, s: Sys, p: nat, s': Sys, k: Slot)
    requires Refines(c, s, k) && Step(c, s, DoDrop(p), s')
    ensures Refines(c, s', k)
  {
    hide ViewOf;
    ViewSnoc(s.log, Dropped(p, s.held[p].slot, s.now), k);
  }

  lemma TickKeeps(c: Config, s: Sys, now: int, s': Sys)
    requires Inv(c, s) && Step(c, s, Tick(now), s')
    ensures Inv(c, s')
  {
    hide ViewOf, LawfulEvent;
    forall k ensures Refines(c, s', k) { assert Refines(c, s, k); }
  }

  lemma StepKeeps(c: Config, s: Sys, a: Action, s': Sys)
    requires Inv(c, s) && Step(c, s, a, s')
    ensures Inv(c, s')
  {
    hide Inv;
    match a
    case DoBegin(_, _, _, _, _, _) => BeginKeeps(c, s, a, s');
    case DoComplete(p, response) => CompleteKeeps(c, s, p, response, s');
    case DoAbandon(p) => AbandonKeeps(c, s, p, s');
    case DoDrop(p) => DropKeeps(c, s, p, s');
    case Tick(now) => TickKeeps(c, s, now, s');
  }

  lemma {:induction false} EveryStateIsSafe(c: Config, states: seq<Sys>, actions: seq<Action>, i: nat)
    requires Run(c, states, actions) && i < |states|
    ensures Inv(c, states[i])
    decreases i
  {
    if i > 0 {
      EveryStateIsSafe(c, states, actions, i - 1);
      StepKeeps(c, states[i - 1], actions[i - 1], states[i]);
    }
  }
}
