/** What every run of the idempotency protocol guarantees, stated on its states and its log. */
module IdempotencyHistory {
  import opened Idempotency
  import opened IdempotencyProtocol

  /**
    In every state of every run: no two dispatchers hold the same slot, and a held slot is
    in flight in the table under its holder's payload hash; no sweep, expiry or eviction freed it.
   */
  lemma HeldSlotsAreExclusive(c: Config, states: seq<Sys>, actions: seq<Action>, i: nat)
    requires Run(c, states, actions) && i < |states|
    ensures
      var s := states[i];
      && (forall p, q :: p in s.held && q in s.held && s.held[p].slot == s.held[q].slot ==> p == q)
      && (forall p :: p in s.held ==>
            s.held[p].slot in s.table && s.table[s.held[p].slot] == Entry(s.held[p].hash, InFlight))
  {
    EveryStateIsSafe(c, states, actions, i);
    var s := states[i];
    forall p | p in s.held
      ensures s.held[p].slot in s.table && s.table[s.held[p].slot] == Entry(s.held[p].hash, InFlight)
    {
      assert Refines(c, s, s.held[p].slot);
    }
  }

  /** The table never exceeds its cap or the most slots ever in flight at once, whichever is larger. */
  lemma TableIsBounded(c: Config, states: seq<Sys>, actions: seq<Action>, i: nat)
    requires Run(c, states, actions) && i < |states|
    ensures |states[i].table| <= Max(c.cap, states[i].peak)
    ensures forall j :: 0 <= j <= i ==> |BusyKeys(states[j].table)| <= states[i].peak
  {
    EveryStateIsSafe(c, states, actions, i);
    forall j | 0 <= j <= i ensures |BusyKeys(states[j].table)| <= states[i].peak {
      EveryStateIsSafe(c, states, actions, j);
      PeakGrows(c, states, actions, j, i);
    }
  }

  lemma {:induction false} PeakGrows(c: Config, states: seq<Sys>, actions: seq<Action>, j: nat, i: nat)
    requires Run(c, states, actions) && j <= i < |states|
    ensures states[j].peak <= states[i].peak
    decreases i - j
  {
    if j < i {
      assert Step(c, states[j], actions[j], states[j + 1]);
      PeakGrows(c, states, actions, j + 1, i);
    }
  }

  /** The peak is attained: it is the number in flight in some earlier state (or no slot ever was). */
  lemma {:induction false} PeakIsReached(c: Config, states: seq<Sys>, actions: seq<Action>, i: nat)
    requires Run(c, states, actions) && i < |states|
    ensures exists j :: 0 <= j <= i && |BusyKeys(states[j].table)| == states[i].peak
    decreases i
  {
    if i == 0 {
      assert BusyKeys(states[0].table) == {};
    } else {
      PeakIsReached(c, states, actions, i - 1);
      var j :| 0 <= j <= i - 1 && |BusyKeys(states[j].table)| == states[i - 1].peak;
      assert Step(c, states[i - 1], actions[i - 1], states[i]);
      if states[i].peak == states[i - 1].peak {
        assert 0 <= j <= i && |BusyKeys(states[j].table)| == states[i].peak;
      } else {
        assert |BusyKeys(states[i].table)| == states[i].peak;
      }
    }
  }

  /** A batch eviction takes only completed entries, none younger than a completed entry it leaves. */
  lemma EvictionTakesTheOldest(c: Config, s: Sys, a: Action, s': Sys, x: Slot, y: Slot)
    requires a.DoBegin? && BeginStep(c, s, a, s')
    requires x in a.gone && y in s'.table && s'.table[y].state.Done?
    ensures x in s.table && s.table[x].state.Done? && y in s.table && s.table[y] == s'.table[y]
    ensures s.table[x].state.at <= s.table[y].state.at
  {
    CleanedKeeps(s.table, a.cleaned, a.gone, a.n, a.slot, c.window, c.cap, s.now, x);
    CleanedKeeps(s.table, a.cleaned, a.gone, a.n, a.slot, c.window, c.cap, s.now, y);
    var live := Unexpired(s.table, c.window, s.now);
    assert OldestBatch(live, a.gone, c.cap);
    assert y in DoneKeys(live) - a.gone;
  }

  // ---- lawful histories ------------------------------------------------------

  lemma EveryLogIsLawful(c: Config, states: seq<Sys>, actions: seq<Action>, i: nat)
    requires Run(c, states, actions) && i < |states|
    ensures Lawful(c, states[i].log)
  {
    EveryStateIsSafe(c, states, actions, i);
  }

  /** The event changes what is known of `slot`. */
  predicate Touches(e: Event, slot: Slot) {
    match e
    case Began(_, sl, _, answer, gone, _) => (sl == slot && answer.Fresh?) || slot in gone
    case Completed(_, sl, _, _) => sl == slot
    case Abandoned(_, sl, _) => sl == slot
    case Dropped(_, _, _) => false
  }

  predicate Quiet(log: seq<Event>, slot: Slot, from: nat, to: nat)
    requires to <= |log|
  {
    forall k :: from <= k < to ==> !Touches(log[k], slot)
  }

  predicate FreshAt(log: seq<Event>, f: nat, slot: Slot) {
    f < |log| && log[f].Began? && log[f].slot == slot && log[f].answer.Fresh?
  }

  /** A held slot was registered by a `Fresh`, and nothing has touched it since. */
  lemma {:induction false} HeldMeans(log: seq<Event>, slot: Slot) returns (f: nat)
    requires ViewOf(log, slot).Held?
    ensures FreshAt(log, f, slot) && log[f].hash == ViewOf(log, slot).hash && Quiet(log, slot, f + 1, |log|)
    decreases |log|
  {
    var n := |log| - 1;
    var e := log[n];
    if e.Began? && e.slot == slot && e.answer.Fresh? {
      f := n;
    } else {
      f := HeldMeans(log[..n], slot);
      assert log[f] == log[..n][f];
      assert forall k :: f + 1 <= k < n ==> log[k] == log[..n][k];
    }
  }

  lemma LawfulPrefix(c: Config, log: seq<Event>, n: nat)
    requires Lawful(c, log) && n <= |log|
    ensures Lawful(c, log[..n])
  {
    hide LawfulEvent, ViewOf;
    var p := log[..n];
    forall i | 0 <= i < |p|
      ensures (forall j :: 0 <= j < i ==> p[j].at <= p[i].at) && LawfulEvent(c, ViewOf(p[..i], p[i].slot), p[i])
    {
      assert p[..i] == log[..i] && p[i] == log[i];
    }
  }

  lemma LawfulAt(c: Config, log: seq<Event>, i: nat)
    requires Lawful(c, log) && i < |log|
    ensures LawfulEvent(c, ViewOf(log[..i], log[i].slot), log[i])
    ensures forall j :: 0 <= j < i ==> log[j].at <= log[i].at
  {
    hide LawfulEvent, ViewOf;
  }

  /** A captured slot was registered by a `Fresh` and completed once, and nothing has touched it since. */
  lemma {:induction false} CapturedMeans(c: Config, log: seq<Event>, slot: Slot) returns (f: nat, i: nat)
    requires Lawful(c, log) && ViewOf(log, slot).Captured?
    ensures
      var v := ViewOf(log, slot);
      && f < i < |log| && FreshAt(log, f, slot) && log[f].hash == v.hash && Quiet(log, slot, f + 1, i)
      && log[i].Completed? && log[i].slot == slot && log[i].response == v.response && log[i].at == v.at
      && Quiet(log, slot, i + 1, |log|)
    decreases |log|
  {
    hide Lawful, Quiet;
    var n := |log| - 1;
    var e := log[n];
    LawfulAt(c, log, n);
    if e.Completed? && e.slot == slot {
      f := HeldMeans(log[..n], slot);
      i := n;
      QuietPrefix(log, slot, f + 1, n);
    } else {
      LawfulPrefix(c, log, n);
      f, i := CapturedMeans(c, log[..n], slot);
      QuietPrefix(log, slot, f + 1, i);
      QuietPrefix(log, slot, i + 1, n);
    }
  }

  lemma QuietPrefix(log: seq<Event>, slot: Slot, from: nat, to: nat)
    requires log != [] && to < |log| && Quiet(log[..|log| - 1], slot, from, to)
    ensures Quiet(log, slot, from, to)
    ensures to == |log| - 1 && !Touches(log[to], slot) ==> Quiet(log, slot, from, |log|)
    ensures Quiet(log, slot, |log|, |log|)
  {
    assert forall k :: 0 <= k < |log| - 1 ==> log[k] == log[..|log| - 1][k];
  }

  /**
    A replay returns the response of the last completion on the slot, made within the window by
    a dispatcher whose payload hash agrees; since then nothing re-ran, completed or evicted the slot.
   */
  lemma ReplayIsLastCompletion(c: Config, log: seq<Event>, j: nat) returns (f: nat, i: nat)
    requires Lawful(c, log) && j < |log| && log[j].Began? && log[j].answer.Replay?
    ensures
      var slot := log[j].slot;
      && f < i < j && FreshAt(log, f, slot) && !Mismatch(log[f].hash, log[j].hash) && Quiet(log, slot, f + 1, i)
      && log[i].Completed? && log[i].slot == slot && log[i].response == log[j].answer.response
      && log[j].at - log[i].at <= c.window && Quiet(log, slot, i + 1, j)
  {
    var slot := log[j].slot;
    LawfulAt(c, log, j);
    LawfulPrefix(c, log, j);
    f, i := CapturedMeans(c, log[..j], slot);
    assert forall k :: 0 <= k < j ==> log[k] == log[..j][k];
  }

  predicate EvictedWithin(log: seq<Event>, slot: Slot, from: nat, to: nat)
    requires to <= |log|
  {
    exists k :: from <= k < to && log[k].Began? && slot in log[k].gone
  }

  predicate RanLateWithin(log: seq<Event>, slot: Slot, since: int, window: nat, from: nat, to: nat)
    requires to <= |log|
  {
    exists k :: from <= k < to && FreshAt(log, k, slot) && log[k].at - since > window
  }

  /** What a completion makes of the slot: its response, its time, the payload hash it ran under. */
  function CaptureBy(v: View, e: Event): (v': View)
    requires e.Completed? && v.Held?
  {
    Captured(e.response, e.at, v.hash)
  }

  lemma CapturedStep(c: Config, v: View, e: Event, slot: Slot)
    requires v.Captured? && (e.slot == slot ==> LawfulEvent(c, v, e))
    ensures
      || Advance(v, e, slot) == v
      || (e.Began? && slot in e.gone)
      || (e.Began? && e.slot == slot && e.answer.Fresh? && e.at - v.at > c.window)
  {
  }

  /** Until it is evicted or a late request re-runs it, a completed slot stays captured. */
  lemma {:induction false} StaysCaptured(c: Config, log: seq<Event>, i: nat, m: nat)
    requires Lawful(c, log) && i < m <= |log| && log[i].Completed?
    ensures
      var slot := log[i].slot;
      && ViewOf(log[..i], slot).Held?
      && (|| EvictedWithin(log, slot, i + 1, m)
          || RanLateWithin(log, slot, log[i].at, c.window, i + 1, m)
          || ViewOf(log[..m], slot) == CaptureBy(ViewOf(log[..i], slot), log[i]))
    decreases m - i
  {
    hide Lawful, ViewOf, EvictedWithin, RanLateWithin;
    var slot, n := log[i].slot, m - 1;
    LawfulAt(c, log, n);
    LawfulAt(c, log, i);
    assert log[..n] + [log[n]] == log[..m];
    ViewSnoc(log[..n], log[n], slot);
    if n > i {
      StaysCaptured(c, log, i, n);
      WithinGrows(c, log, slot, log[i].at, i + 1, n);
      hide LawfulEvent;
      if ViewOf(log[..n], slot) == CaptureBy(ViewOf(log[..i], slot), log[i]) {
        CapturedStep(c, ViewOf(log[..n], slot), log[n], slot);
      }
    }
  }

  lemma WithinGrows(c: Config, log: seq<Event>, slot: Slot, since: int, from: nat, n: nat)
    requires from <= n < |log|
    ensures EvictedWithin(log, slot, from, n) ==> EvictedWithin(log, slot, from, n + 1)
    ensures log[n].Began? && slot in log[n].gone ==> EvictedWithin(log, slot, from, n + 1)
    ensures RanLateWithin(log, slot, since, c.window, from, n) ==> RanLateWithin(log, slot, since, c.window, from, n + 1)
    ensures FreshAt(log, n, slot) && log[n].at - since > c.window ==> RanLateWithin(log, slot, since, c.window, from, n + 1)
  {
  }

  /**
    Once a response is captured, the service does not run again for the slot unless the window
    has passed or the entry was evicted in between.
   */
  lemma NoRerun(c: Config, log: seq<Event>, i: nat, j: nat)
    requires Lawful(c, log) && i < j < |log| && log[i].Completed? && FreshAt(log, j, log[i].slot)
    ensures log[j].at - log[i].at > c.window || EvictedWithin(log, log[i].slot, i + 1, j + 1)
  {
    var slot := log[i].slot;
    StaysCaptured(c, log, i, j);
    LawfulAt(c, log, j);
    if EvictedWithin(log, slot, i + 1, j) {
      var k :| i + 1 <= k < j && log[k].Began? && slot in log[k].gone;
      assert EvictedWithin(log, slot, i + 1, j + 1);
    } else if RanLateWithin(log, slot, log[i].at, c.window, i + 1, j) {
      var k :| i + 1 <= k < j && FreshAt(log, k, slot) && log[k].at - log[i].at > c.window;
      assert log[k].at <= log[j].at;
    } else if slot in log[j].gone {
      assert EvictedWithin(log, slot, i + 1, j + 1);
    }
  }

  /** A slot that was registered and not touched since is still held under the registered hash. */
  lemma {:induction false} StaysHeld(log: seq<Event>, f: nat, i: nat)
    requires f < i <= |log| && FreshAt(log, f, log[f].slot) && Quiet(log, log[f].slot, f + 1, i)
    ensures ViewOf(log[..i], log[f].slot) == Held(log[f].hash)
    decreases i
  {
    assert log[..i - 1] + [log[i - 1]] == log[..i];
    ViewSnoc(log[..i - 1], log[i - 1], log[f].slot);
    if f < i - 1 { StaysHeld(log, f, i - 1); }
  }

  /**
    Retries under one key: when the attempt at `f` ran the service and was captured at `i`, every
    later attempt `j` inside the window, the slot not evicted, is answered with that response.
   */
  lemma RetriesReplay(c: Config, log: seq<Event>, f: nat, i: nat, j: nat)
    requires Lawful(c, log) && f < i < j < |log|
    requires FreshAt(log, f, log[f].slot) && log[i].Completed? && log[i].slot == log[f].slot
    requires Quiet(log, log[f].slot, f + 1, i)
    requires log[j].Began? && log[j].slot == log[f].slot && log[j].hash == log[f].hash
    requires log[j].at - log[i].at <= c.window && !EvictedWithin(log, log[f].slot, i + 1, j + 1)
    ensures log[j].answer == Replay(log[i].response)
  {
    var slot := log[f].slot;
    StaysHeld(log, f, i);
    StaysCaptured(c, log, i, j);
    LawfulAt(c, log, j);
    WithinGrows(c, log, slot, log[i].at, i + 1, j);
  }

  /** While the slot is in flight, a request with another payload is told so and any other is told to wait. */
  lemma InFlightAnswers(c: Config, log: seq<Event>, f: nat, j: nat)
    requires Lawful(c, log) && f < j < |log| && FreshAt(log, f, log[f].slot) && Quiet(log, log[f].slot, f + 1, j)
    requires log[j].Began? && log[j].slot == log[f].slot && log[f].slot !in log[j].gone
    ensures var stored, incoming := log[f].hash, log[j].hash;
      log[j].answer ==
        if stored.Some? && incoming.Some? && stored.value != incoming.value then PayloadMismatch else Busy
  {
    StaysHeld(log, f, j);
    LawfulAt(c, log, j);
  }

  // ---- a dispatcher that never reports back ----------------------------------

  predicate Orphaned(s: Sys, slot: Slot) {
    slot in s.table && s.table[slot].state.InFlight? && forall p :: p in s.held ==> s.held[p].slot != slot
  }

  /** Dropping a dispatcher while it holds a slot orphans the slot. */
  lemma DropOrphans(c: Config, states: seq<Sys>, actions: seq<Action>, i: nat)
    requires Run(c, states, actions) && i < |actions| && actions[i].DoDrop?
    ensures actions[i].pid in states[i].held && Orphaned(states[i + 1], states[i].held[actions[i].pid].slot)
  {
    EveryStateIsSafe(c, states, actions, i);
    assert Step(c, states[i], actions[i], states[i + 1]);
    assert Refines(c, states[i], states[i].held[actions[i].pid].slot);
  }

  /** An orphaned slot stays in flight for the rest of the run. */
  lemma {:induction false} OrphanIsForever(c: Config, states: seq<Sys>, actions: seq<Action>, i: nat, j: nat, slot: Slot)
    requires Run(c, states, actions) && i <= j < |states| && Orphaned(states[i], slot)
    ensures Orphaned(states[j], slot)
    decreases j - i
  {
    if i < j {
      OrphanIsForever(c, states, actions, i, j - 1, slot);
      assert Step(c, states[j - 1], actions[j - 1], states[j]);
      hide Step, Orphaned;
      OrphanStep(c, states[j - 1], actions[j - 1], states[j], slot);
    }
  }

  /** Every `begin` on an orphaned slot is refused, at any later time. */
  lemma OrphanRefuses(c: Config, s: Sys, a: Action, s': Sys)
    requires a.DoBegin? && BeginStep(c, s, a, s') && Orphaned(s, a.slot)
    ensures var answer := Answer(a.cleaned, a.slot, a.hash); answer.Busy? || answer.PayloadMismatch?
  {
    CleanedKeeps(s.table, a.cleaned, a.gone, a.n, a.slot, c.window, c.cap, s.now, a.slot);
  }

  lemma OrphanStep(c: Config, s: Sys, a: Action, s': Sys, slot: Slot)
    requires Step(c, s, a, s') && Orphaned(s, slot)
    ensures Orphaned(s', slot)
  {
    if a.DoBegin? {
      CleanedKeeps(s.table, a.cleaned, a.gone, a.n, a.slot, c.window, c.cap, s.now, slot);
    }
  }

  /** The dispatcher cancelled at step `j` held the slot. */
  ghost predicate DroppedAt(states: seq<Sys>, actions: seq<Action>, j: nat, slot: Slot)
    requires |states| == |actions| + 1
  {
    j < |actions| && actions[j].DoDrop? && actions[j].pid in states[j].held && states[j].held[actions[j].pid].slot == slot
  }

  /** A step that orphans a slot is the cancellation of its holder. */
  lemma OnlyDropsOrphan(c: Config, s: Sys, a: Action, s': Sys, slot: Slot)
    requires Inv(c, s) && Step(c, s, a, s') && !Orphaned(s, slot) && Orphaned(s', slot)
    ensures a.DoDrop? && a.pid in s.held && s.held[a.pid].slot == slot
  {
    WasInFlight(c, s, a, s', slot);
    var p :| p in s.held && s.held[p].slot == slot;
    assert p !in s'.held;
    assert s.table[slot].state.InFlight? && s'.table[slot].state.InFlight?;
  }

  lemma WasInFlight(c: Config, s: Sys, a: Action, s': Sys, slot: Slot)
    requires Step(c, s, a, s') && Orphaned(s', slot)
    ensures slot in s.table && s.table[slot].state.InFlight?
  {
    if a.DoBegin? {
      CleanedKeeps(s.table, a.cleaned, a.gone, a.n, a.slot, c.window, c.cap, s.now, slot);
      NewcomerHolds(c, s, a, s');
    }
  }

  lemma NewcomerHolds(c: Config, s: Sys, a: Action, s': Sys)
    requires a.DoBegin? && BeginStep(c, s, a, s')
    ensures a.slot !in a.cleaned ==> a.pid in s'.held && s'.held[a.pid].slot == a.slot
  {
  }

  lemma {:induction false} OrphanedBy(c: Config, states: seq<Sys>, actions: seq<Action>, i: nat, slot: Slot) returns (j: nat)
    requires Run(c, states, actions) && i < |states| && Orphaned(states[i], slot)
    ensures j < i && DroppedAt(states, actions, j, slot)
    decreases i
  {
    assert i > 0;
    assert Step(c, states[i - 1], actions[i - 1], states[i]);
    if Orphaned(states[i - 1], slot) {
      j := OrphanedBy(c, states, actions, i - 1, slot);
    } else {
      j := i - 1;
      EveryStateIsSafe(c, states, actions, j);
      OnlyDropsOrphan(c, states[j], actions[j], states[i], slot);
    }
  }

  /** In every run a slot is orphaned if and only if a dispatcher was cancelled while it held it. */
  lemma OrphanedIffDropped(c: Config, states: seq<Sys>, actions: seq<Action>, i: nat, slot: Slot)
    requires Run(c, states, actions) && i < |states|
    ensures Orphaned(states[i], slot) <==> exists j: nat :: j < i && DroppedAt(states, actions, j, slot)
  {
    if Orphaned(states[i], slot) {
      var j := OrphanedBy(c, states, actions, i, slot);
    }
    if j: nat :| j < i && DroppedAt(states, actions, j, slot) {
      DropOrphans(c, states, actions, j);
      OrphanIsForever(c, states, actions, j + 1, i, slot);
    }
  }

  /** Where no dispatcher is cancelled, every slot in flight is held by one that will report back. */
  lemma InFlightIsHeld(c: Config, states: seq<Sys>, actions: seq<Action>, i: nat, slot: Slot) returns (p: nat)
    requires Run(c, states, actions) && i < |states| && forall j :: 0 <= j < i ==> !actions[j].DoDrop?
    requires slot in states[i].table && states[i].table[slot].state.InFlight?
    ensures p in states[i].held && states[i].held[p].slot == slot
  {
    OrphanedIffDropped(c, states, actions, i, slot);
    p :| p in states[i].held && states[i].held[p].slot == slot;
  }
}
