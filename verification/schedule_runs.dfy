/**
  Every run of one node's scheduler loop, over its atomic steps: a clock
  reading, a reconciliation, a due check with its overlap guard, the answer to a
  claim, and the end of a fire.
 */
module ScheduleRuns {
  import opened Text
  import opened CronSearch
  import opened Claims
  import opened ScheduleNode

  /** An occurrence the due check handed out. */
  datatype Produced = Produced(key: Key, plan: Plan, occ: int)

  datatype Node = Node(
    clock: Clock,
    desired: map<Key, Entry>,
    inFlight: set<Key>,
    claiming: Option<Key>,
    running: seq<Key>,
    log: seq<Produced>)

  datatype Action =
    | ReadClock(now: Clock)
    | Reread(tenant: string, mounts: seq<Mount>)
    | Unwatch(watched: set<string>)
    | Check(key: Key)
    | Answer(won: bool)
    | FireEnds(i: nat)

  ghost predicate Init(s: Node) {
    s.clock.wall >= 0 && s.desired == map[] && s.inFlight == {} && s.claiming.None? && s.running == [] && s.log == []
  }

  /** The due check of one entry, then the overlap guard. */
  function Checked(s: Node, key: Key): (r: Node)
    requires key in s.desired
  {
    var e := s.desired[key];
    var occ := DueNow(e, s.clock);
    if occ.None? then s
    else
      var s' := s.(desired := s.desired[key := Advanced(e, s.clock)], log := s.log + [Produced(key, e.plan, occ.value)]);
      if key in s.inFlight then s' else s'.(inFlight := s.inFlight + {key}, claiming := Some(key))
  }

  function Answered(s: Node, won: bool): (r: Node)
    requires s.claiming.Some?
  {
    var key := s.claiming.value;
    if won then s.(claiming := None, running := s.running + [key])
    else s.(claiming := None, inFlight := s.inFlight - {key})
  }

  function Ended(s: Node, i: nat): (r: Node)
    requires i < |s.running|
  {
    s.(running := s.running[..i] + s.running[i + 1..], inFlight := s.inFlight - {s.running[i]})
  }

  /** The loop task does one thing at a time: while a claim is out it does nothing else. */
  ghost predicate Step(s: Node, a: Action, s': Node) {
    match a
    case ReadClock(now) =>
      s.claiming.None? && now.mono >= s.clock.mono && now.wall >= s.clock.wall && s' == s.(clock := now)
    case Reread(tenant, mounts) =>
      s.claiming.None? && Reconciled(s.desired, s'.desired, tenant, mounts, s.clock) && s' == s.(desired := s'.desired)
    case Unwatch(watched) =>
      s.claiming.None? && s' == s.(desired := map k | k in s.desired && k.0 in watched :: s.desired[k])
    case Check(key) => s.claiming.None? && key in s.desired && s' == Checked(s, key)
    case Answer(won) => s.claiming.Some? && s' == Answered(s, won)
    case FireEnds(i) => i < |s.running| && s' == Ended(s, i)
  }

  ghost predicate Run(states: seq<Node>, acts: seq<Action>) {
    && |states| == |acts| + 1 && Init(states[0])
    && forall i :: 0 <= i < |acts| ==> Step(states[i], acts[i], states[i + 1])
  }

  // ---- the invariant ---------------------------------------------------------

  predicate Distinct(s: seq<Key>) {
    forall i, j :: 0 <= i < j < |s| ==> s[i] != s[j]
  }

  /** The markers are exactly the keys being claimed or fired, each once. */
  ghost predicate Guarded(s: Node) {
    && Distinct(s.running)
    && (s.claiming.Some? ==> s.claiming.value !in s.running)
    && forall k :: k in s.inFlight <==> k in s.running || s.claiming == Some(k)
  }

  predicate Strict(p: Produced, q: Produced) {
    p.key == q.key && p.plan.OnCron? && q.plan.OnCron? ==> p.occ < q.occ
  }

  ghost predicate Increasing(log: seq<Produced>) {
    forall i, j :: 0 <= i < j < |log| ==> Strict(log[i], log[j])
  }

  predicate IsPast(p: Produced, wall: int) {
    p.plan.OnCron? ==> 0 <= p.occ * MS <= wall
  }

  predicate Reliable(c: Schedule) { InRanges(c) && Perennial(c) }

  /** The minute an occurrence id names is one the cron matches. */
  predicate OnTime(p: Produced) {
    p.plan.OnCron? && Reliable(p.plan.cron) ==>
      p.occ == p.occ / 60_000 * 60_000 && Matches(p.plan.cron, p.occ / 60_000)
  }

  predicate Sound(e: Entry) {
    e.plan.OnCron? ==>
      && e.cursor.NextDue? && e.cursor.wall >= 0
      && (Reliable(e.plan.cron) ==> OnTime(Produced(("", ""), e.plan, TruncDiv(e.cursor.wall, MS))))
  }

  /** An armed cron entry comes after everything its mount has produced. */
  predicate After(p: Produced, key: Key, e: Entry) {
    p.key == key && p.plan.OnCron? && e.plan.OnCron? && e.cursor.NextDue? ==> p.occ < TruncDiv(e.cursor.wall, MS)
  }

  ghost predicate Inv(s: Node) {
    && s.clock.wall >= 0
    && Guarded(s)
    && Increasing(s.log)
    && (forall i :: 0 <= i < |s.log| ==> IsPast(s.log[i], s.clock.wall) && OnTime(s.log[i]))
    && (forall k :: k in s.desired ==> Sound(s.desired[k]))
    && (forall k, i :: k in s.desired && 0 <= i < |s.log| ==> After(s.log[i], k, s.desired[k]))
  }

  // ---- what arming does ------------------------------------------------------

  /** Later by enough to show in milliseconds. */
  predicate Later(due: int, wall: int) {
    (due % MS == 0 && wall < due) || due >= wall + MS
  }

  lemma Milliseconds(past: int, wall: int, due: int)
    requires 0 <= past * MS <= wall && Later(due, wall)
    ensures past < TruncDiv(due, MS)
  {
  }

  lemma MinuteIsWhole(m: int, due: int)
    requires due == m * MINUTE && due >= 0
    ensures due % MS == 0 && TruncDiv(due, MS) == m * 60_000
  {
    assert due == m * 60_000 * MS;
  }

  /** What a cron is armed with, fresh or after a fire, lies after the clock and matches when it can. */
  lemma ArmsLater(c: Schedule, wall: int, due: int)
    requires wall >= 0 && (NextOf(c, wall) == Some(due) || due == Rearmed(c, wall))
    ensures Sound(Entry(OnCron(c), NextDue(due)))
    ensures Later(due, wall)
  {
    var next := NextOf(c, wall);
    hide NextOf, Matches, Perennial, InRanges;
    SearchSucceeds(c, wall, next);
    if next.Some? {
      MinuteIsWhole(due / MINUTE, due);
    }
  }

  lemma ArmsAfterAll(p: Produced, key: Key, e: Entry, wall: int)
    requires wall >= 0 && IsPast(p, wall)
    requires e.plan.OnCron? && e.cursor.NextDue?
    requires NextOf(e.plan.cron, wall) == Some(e.cursor.wall) || e.cursor.wall == Rearmed(e.plan.cron, wall)
    ensures After(p, key, e)
  {
    ArmsLater(e.plan.cron, wall, e.cursor.wall);
    hide NextOf, Rearmed;
    if p.plan.OnCron? { Milliseconds(p.occ, wall, e.cursor.wall); }
  }

  // ---- every step keeps it ---------------------------------------------------

  lemma ReadKeeps(s: Node, now: Clock)
    requires Inv(s) && now.wall >= s.clock.wall
    ensures Inv(s.(clock := now))
  {
    hide OnTime, Sound, After, Strict;
    var s' := s.(clock := now);
    forall i | 0 <= i < |s.log| ensures IsPast(s'.log[i], now.wall) && OnTime(s'.log[i]) {
      assert IsPast(s.log[i], s.clock.wall);
    }
  }

  /** An entry that reconciliation leaves is an old one or freshly armed. */
  lemma {:induction false} ArmedFresh(mounts: seq<Mount>, base: string, now: Clock)
    requires ArmedAt(mounts, base, now).Some?
    ensures var e := ArmedAt(mounts, base, now).value;
      e.plan.OnCron? ==> e.cursor.NextDue? && NextOf(e.plan.cron, now.wall) == Some(e.cursor.wall)
  {
    hide NextOf;
    var m := mounts[|mounts| - 1];
    if !(m.base == base && m.plan.Some? && Armed(m.plan.value, now).Some?) {
      ArmedFresh(mounts[..|mounts| - 1], base, now);
    }
  }

  lemma RereadEntry(s: Node, d: map<Key, Entry>, tenant: string, mounts: seq<Mount>, k: Key)
    requires Inv(s) && Reconciled(s.desired, d, tenant, mounts, s.clock) && k in d
    ensures Sound(d[k]) && forall i :: 0 <= i < |s.log| ==> After(s.log[i], k, d[k])
  {
    hide NextOf, Rearmed, Sound, After, OnTime, ArmedAt;
    if k.0 == tenant {
      assert k == (tenant, k.1);
      ArmedFresh(mounts, k.1, s.clock);
      var e := d[k];
      if e.plan.OnCron? {
        ArmsLater(e.plan.cron, s.clock.wall, e.cursor.wall);
        forall i | 0 <= i < |s.log| ensures After(s.log[i], k, e) {
          assert IsPast(s.log[i], s.clock.wall);
          ArmsAfterAll(s.log[i], k, e, s.clock.wall);
        }
      } else {
        IntervalIsSound(s.log, k, e);
      }
    }
  }

  lemma IntervalIsSound(log: seq<Produced>, k: Key, e: Entry)
    requires e.plan.Every?
    ensures Sound(e) && forall i :: 0 <= i < |log| ==> After(log[i], k, e)
  {
  }

  lemma RereadKeeps(s: Node, s': Node, tenant: string, mounts: seq<Mount>)
    requires Inv(s) && Reconciled(s.desired, s'.desired, tenant, mounts, s.clock) && s' == s.(desired := s'.desired)
    ensures Inv(s')
  {
    hide Reconciled, Sound, After, OnTime, Strict;
    forall k | k in s'.desired
      ensures Sound(s'.desired[k]) && forall i :: 0 <= i < |s.log| ==> After(s.log[i], k, s'.desired[k])
    {
      RereadEntry(s, s'.desired, tenant, mounts, k);
    }
  }

  /** A due occurrence is new, past, on time, and before the next arm. */
  lemma DueIsNext(s: Node, key: Key)
    requires Inv(s) && key in s.desired && DueNow(s.desired[key], s.clock).Some?
    ensures var e := s.desired[key];
      var p := Produced(key, e.plan, DueNow(e, s.clock).value);
      && IsPast(p, s.clock.wall) && OnTime(p)
      && (forall i :: 0 <= i < |s.log| ==> Strict(s.log[i], p))
      && Sound(Advanced(e, s.clock))
      && After(p, key, Advanced(e, s.clock))
      && forall i :: 0 <= i < |s.log| ==> After(s.log[i], key, Advanced(e, s.clock))
  {
    var e := s.desired[key];
    var p := Produced(key, e.plan, DueNow(e, s.clock).value);
    var e' := Advanced(e, s.clock);
    assert Sound(e);
    hide NextOf, Rearmed, Matches, Perennial, InRanges, IntervalBucket;
    if e.plan.OnCron? {
      assert IsPast(p, s.clock.wall);
      ArmsLater(e.plan.cron, s.clock.wall, e'.cursor.wall);
      ArmsAfterAll(p, key, e', s.clock.wall);
      forall i | 0 <= i < |s.log| ensures Strict(s.log[i], p) && After(s.log[i], key, e') {
        assert After(s.log[i], key, e) && IsPast(s.log[i], s.clock.wall);
        ArmsAfterAll(s.log[i], key, e', s.clock.wall);
      }
    } else {
      IntervalIsSound(s.log, key, e');
    }
  }

  lemma CheckKeeps(s: Node, key: Key)
    requires Inv(s) && s.claiming.None? && key in s.desired
    ensures Inv(Checked(s, key))
  {
    var s' := Checked(s, key);
    if DueNow(s.desired[key], s.clock).Some? {
      DueIsNext(s, key);
      hide DueNow, Advanced, Sound, After, OnTime, Strict, IsPast;
      assert forall i :: 0 <= i < |s.log| ==> s'.log[i] == s.log[i];
      forall i | 0 <= i < |s'.log| ensures IsPast(s'.log[i], s'.clock.wall) && OnTime(s'.log[i]) {
      }
      forall k, i | k in s'.desired && 0 <= i < |s'.log| ensures After(s'.log[i], k, s'.desired[k]) {
        CheckedAfter(s, key, k, i);
      }
    }
  }

  lemma CheckedAfter(s: Node, key: Key, k: Key, i: nat)
    requires Inv(s) && key in s.desired && DueNow(s.desired[key], s.clock).Some?
    requires k in Checked(s, key).desired && i < |Checked(s, key).log|
    ensures After(Checked(s, key).log[i], k, Checked(s, key).desired[k])
  {
    DueIsNext(s, key);
    hide DueNow, Advanced, Sound, OnTime, Strict, IsPast;
  }

  lemma AnswerKeeps(s: Node, won: bool)
    requires Inv(s) && s.claiming.Some?
    ensures Inv(Answered(s, won))
  {
    hide Sound, After, OnTime, Strict, IsPast;
  }

  lemma EndKeeps(s: Node, i: nat)
    requires Inv(s) && i < |s.running|
    ensures Inv(Ended(s, i))
  {
    hide Sound, After, OnTime, Strict, IsPast;
    var rest := s.running[..i] + s.running[i + 1..];
    DropOne(s.running, i);
    assert forall k :: k in rest <==> k in s.running && k != s.running[i];
  }

  lemma DropOne(r: seq<Key>, i: nat)
    requires Distinct(r) && i < |r|
    ensures var rest := r[..i] + r[i + 1..];
      Distinct(rest) && forall k :: k in rest <==> k in r && k != r[i]
  {
    var rest := r[..i] + r[i + 1..];
    forall k ensures k in rest <==> k in r && k != r[i] {
      if k in r && k != r[i] {
        var j :| 0 <= j < |r| && r[j] == k;
        assert k == if j < i then rest[j] else rest[j - 1];
      }
    }
  }

  lemma StepKeeps(s: Node, a: Action, s': Node)
    requires Inv(s) && Step(s, a, s')
    ensures Inv(s')
  {
    match a
    case ReadClock(now) => ReadKeeps(s, now);
    case Reread(tenant, mounts) => RereadKeeps(s, s', tenant, mounts);
    case Unwatch(watched) => hide Sound, After, OnTime, Strict, IsPast;
    case Check(key) => CheckKeeps(s, key);
    case Answer(won) => AnswerKeeps(s, won);
    case FireEnds(i) => EndKeeps(s, i);
  }

  lemma {:induction false} EveryStateIsSafe(states: seq<Node>, acts: seq<Action>, n: nat)
    requires Run(states, acts) && n < |states|
    ensures Inv(states[n])
    decreases n
  {
    if n > 0 {
      EveryStateIsSafe(states, acts, n - 1);
      hide Inv, Step;
      StepKeeps(states[n - 1], acts[n - 1], states[n]);
    }
  }

  // ---- what it means ---------------------------------------------------------

  /** The cron occurrences a node produces for a mount strictly increase, across fires and re-arms. */
  lemma OccurrencesIncrease(states: seq<Node>, acts: seq<Action>, n: nat, i: nat, j: nat)
    requires Run(states, acts) && n < |states| && i < j < |states[n].log|
    requires states[n].log[i].key == states[n].log[j].key
    requires states[n].log[i].plan.OnCron? && states[n].log[j].plan.OnCron?
    ensures states[n].log[i].occ < states[n].log[j].occ
  {
    EveryStateIsSafe(states, acts, n);
    assert Strict(states[n].log[i], states[n].log[j]);
  }

  /** At most one fire of a mount is running at any time. */
  lemma FiresDoNotOverlap(states: seq<Node>, acts: seq<Action>, n: nat, i: nat, j: nat)
    requires Run(states, acts) && n < |states| && i < |states[n].running| && j < |states[n].running|
    requires states[n].running[i] == states[n].running[j]
    ensures i == j
  {
    EveryStateIsSafe(states, acts, n);
  }

  /** A cron whose search never fails is only ever produced on minutes it matches. */
  lemma ReliableCronsFireOnTime(states: seq<Node>, acts: seq<Action>, n: nat, i: nat)
    requires Run(states, acts) && n < |states| && i < |states[n].log|
    requires states[n].log[i].plan.OnCron? && Reliable(states[n].log[i].plan.cron)
    ensures var p := states[n].log[i];
      p.occ % 60_000 == 0 && Matches(p.plan.cron, p.occ / 60_000)
  {
    EveryStateIsSafe(states, acts, n);
    assert OnTime(states[n].log[i]);
  }

  /** A re-armed instant is a match exactly when the search found one; the 366-day fallback never is. */
  lemma RearmMatchesIff(c: Schedule, wall: int)
    ensures Rearmed(c, wall) % MINUTE == 0 && Matches(c, Rearmed(c, wall) / MINUTE) <==> NextOf(c, wall).Some?
  {
    var next, due := NextOf(c, wall), Rearmed(c, wall);
    hide NextOf, Matches;
    assert due % MINUTE == 0 ==> due == due / MINUTE * MINUTE;
    assert next.None? && due % MINUTE == 0 ==> InWindow(wall, due / MINUTE);
  }

  // ---- when every occurrence is on schedule ----------------------------------

  /** The occurrence is a minute its own cron matches. */
  predicate OnSchedule(p: Produced) {
    p.plan.OnCron? ==> p.occ % 60_000 == 0 && Matches(p.plan.cron, p.occ / 60_000)
  }

  /** In no run does the cron produce an occurrence off schedule. */
  ghost predicate AlwaysOnSchedule(c: Schedule) {
    forall states: seq<Node>, acts: seq<Action>, n: nat, i: nat ::
      Run(states, acts) && n < |states| && i < |states[n].log| && states[n].log[i].plan == OnCron(c) ==>
        OnSchedule(states[n].log[i])
  }

  /** The cron is not armed anywhere and has produced nothing. */
  predicate Unarmed(s: Node, c: Schedule) {
    && (forall k :: k in s.desired ==> s.desired[k].plan != OnCron(c))
    && (forall i :: 0 <= i < |s.log| ==> s.log[i].plan != OnCron(c))
  }

  lemma UnarmedStep(s: Node, a: Action, s': Node, c: Schedule)
    requires Unarmed(s, c) && Step(s, a, s') && forall wall :: NextOf(c, wall).None?
    ensures Unarmed(s', c)
  {
    hide NextOf, ArmedAt;
    if a.Reread? {
      forall k | k in s'.desired ensures s'.desired[k].plan != OnCron(c) {
        assert k == (k.0, k.1);
        if k.0 == a.tenant { ArmedFresh(a.mounts, k.1, s.clock); }
      }
    }
  }

  lemma {:induction false} StaysUnarmed(states: seq<Node>, acts: seq<Action>, n: nat, c: Schedule)
    requires Run(states, acts) && n < |states| && !Perennial(c) && !AdmitsLeapDay(c)
    ensures Unarmed(states[n], c)
    decreases n
  {
    if n > 0 {
      StaysUnarmed(states, acts, n - 1, c);
      forall wall ensures NextOf(c, wall).None? {
        if NextOf(c, wall).Some? { NeverMatches(c, NextOf(c, wall).value / MINUTE); }
      }
      hide Unarmed, Step, NextOf, Perennial, AdmitsLeapDay;
      UnarmedStep(states[n - 1], acts[n - 1], states[n], c);
    }
  }

  const MOUNT: Key := ("t", "/m")

  /** One mount of one tenant is armed with the cron. */
  lemma ArmsMount(c: Schedule, now: Clock)
    requires NextOf(c, now.wall).Some?
    ensures Reconciled(map[], map[MOUNT := Entry(OnCron(c), NextDue(NextOf(c, now.wall).value))],
      "t", [Mount("/m", Some(OnCron(c)))], now)
  {
    hide NextOf;
    var ms := [Mount("/m", Some(OnCron(c)))];
    assert ms[..0] == [];
    forall base: string ensures ArmedAt(ms, base, now) ==
      if base == "/m" then Some(Entry(OnCron(c), NextDue(NextOf(c, now.wall).value))) else None
    {
      assert ArmedAt(ms[..0], base, now) == None;
    }
  }

  /**
    A cron whose only date is February 29 fires off schedule: fired on its last
    minute of that day in 2020, on time, it is re-armed 366 days on, and fired again
    on March 1 2021.
   */
  lemma LeapDayFiresOffSchedule(c: Schedule) returns (states: seq<Node>, acts: seq<Action>)
    requires InRanges(c) && !Perennial(c) && AdmitsLeapDay(c)
    ensures Run(states, acts)
    ensures var s := states[|states| - 1];
      && |s.log| == 2 && s.log[0].plan == s.log[1].plan == OnCron(c) && s.running == [MOUNT]
      && s.log[1].occ == s.log[0].occ + 366 * 86_400_000 && !OnSchedule(s.log[1])
  {
    var m := LastOfLeapDay(c);
    var eve, due := (m - 1) * MINUTE, m * MINUTE;
    var late := due + 366 * DAY;
    RearmMatchesIff(c, due);
    assert Rearmed(c, due) == late;
    var s := Node(Clock(0, eve), map[], {}, None, [], []);
    ArmsMount(c, s.clock);
    hide NextOf, Matches, InRanges, Perennial, AdmitsLeapDay, Rearmed;
    states, acts := [s], [];
    s := s.(desired := map[MOUNT := Entry(OnCron(c), NextDue(due))]);
    states, acts := GoesOn(states, acts, Reread("t", [Mount("/m", Some(OnCron(c)))]), s);
    hide Run, Step;
    states, acts, s := FiresOn(states, acts, due, c);
    states, acts, s := Ends(states, acts);
    states, acts, s := FiresOn(states, acts, late, c);
    assert TruncDiv(late, MS) == m * 60_000 + 366 * 86_400_000 && TruncDiv(due, MS) == m * 60_000;
    assert TruncDiv(late, MS) / 60_000 == late / MINUTE;
  }

  lemma GoesOn(states: seq<Node>, acts: seq<Action>, a: Action, s: Node)
    returns (states': seq<Node>, acts': seq<Action>)
    requires Run(states, acts) && Step(states[|states| - 1], a, s)
    ensures Run(states', acts') && states' != [] && states'[|states'| - 1] == s
  {
    hide Step;
    states', acts' := states + [s], acts + [a];
  }

  /** A fire comes to its end. */
  lemma Ends(states: seq<Node>, acts: seq<Action>) returns (states': seq<Node>, acts': seq<Action>, s: Node)
    requires states != [] && Run(states, acts)
    requires var s := states[|states| - 1]; s.running == [MOUNT] && s.inFlight == {MOUNT}
    ensures states' != [] && Run(states', acts') && s == states'[|states'| - 1]
    ensures s == states[|states| - 1].(running := [], inFlight := {})
  {
    s := states[|states| - 1].(running := [], inFlight := {});
    assert {MOUNT} - {MOUNT} == {} && [MOUNT][..0] + [MOUNT][1..] == [];
    states', acts' := GoesOn(states, acts, FireEnds(0), s);
  }

  /** The clock reads the instant a mount is due; its occurrence is claimed, won, and fired. */
  lemma FiresOn(states: seq<Node>, acts: seq<Action>, due: int, c: Schedule)
    returns (states': seq<Node>, acts': seq<Action>, s: Node)
    requires states != [] && Run(states, acts)
    requires var s := states[|states| - 1];
      && s.desired == map[MOUNT := Entry(OnCron(c), NextDue(due))] && s.clock.mono == 0 && s.clock.wall <= due
      && s.claiming.None? && s.inFlight == {} && s.running == []
    ensures states' != [] && Run(states', acts') && s == states'[|states'| - 1]
    ensures s == Node(Clock(0, due), map[MOUNT := Entry(OnCron(c), NextDue(Rearmed(c, due)))], {MOUNT}, None, [MOUNT],
      states[|states| - 1].log + [Produced(MOUNT, OnCron(c), TruncDiv(due, MS))])
  {
    hide Rearmed;
    s := states[|states| - 1].(clock := Clock(0, due));
    states', acts' := GoesOn(states, acts, ReadClock(Clock(0, due)), s);
    var s1 := s.(desired := map[MOUNT := Entry(OnCron(c), NextDue(Rearmed(c, due)))], inFlight := {MOUNT},
      claiming := Some(MOUNT), log := s.log + [Produced(MOUNT, OnCron(c), TruncDiv(due, MS))]);
    FiresAt(s, due, c, s1);
    hide Run;
    states', acts' := GoesOn(states', acts', Check(MOUNT), s1);
    s := s1.(claiming := None, running := [MOUNT]);
    states', acts' := GoesOn(states', acts', Answer(true), s);
  }

  /** A due mount is checked: its occurrence is logged, its cursor moves, and a claim goes out. */
  lemma FiresAt(s: Node, due: int, c: Schedule, s': Node)
    requires s.desired == map[MOUNT := Entry(OnCron(c), NextDue(due))] && s.clock.wall >= due
    requires s.claiming.None? && s.inFlight == {}
    requires s' == s.(
      desired := map[MOUNT := Entry(OnCron(c), NextDue(Rearmed(c, s.clock.wall)))], inFlight := {MOUNT},
      claiming := Some(MOUNT), log := s.log + [Produced(MOUNT, OnCron(c), TruncDiv(due, MS))])
    ensures Step(s, Check(MOUNT), s')
  {
    hide Rearmed;
    var e := Entry(OnCron(c), NextDue(due));
    assert s.desired[MOUNT := Advanced(e, s.clock)] == s'.desired;
    assert Checked(s, MOUNT) == s';
  }

  /**
    Every occurrence a cron produces, in every run, is on schedule if and only if
    some admitted date comes round every year, or not even February 29 is admitted.
   */
  lemma AlwaysOnScheduleIff(c: Schedule)
    requires InRanges(c)
    ensures AlwaysOnSchedule(c) <==> Perennial(c) || !AdmitsLeapDay(c)
  {
    hide Perennial, AdmitsLeapDay, InRanges;
    if !Perennial(c) && AdmitsLeapDay(c) {
      var states, acts := LeapDayFiresOffSchedule(c);
      hide Run, OnSchedule;
      var n := |states| - 1;
      assert states[n].log[1].plan == OnCron(c);
    } else {
      forall states: seq<Node>, acts: seq<Action>, n: nat, i: nat |
        Run(states, acts) && n < |states| && i < |states[n].log| && states[n].log[i].plan == OnCron(c)
        ensures OnSchedule(states[n].log[i])
      {
        if Perennial(c) {
          ReliableCronsFireOnTime(states, acts, n, i);
        } else {
          StaysUnarmed(states, acts, n, c);
        }
      }
    }
  }
}
