/** When an armed mount fires, over every run: never early, and never withheld once due. */
module ScheduleTimes {
  import opened Text
  import opened CronSearch
  import opened Claims
  import opened ScheduleNode
  import opened ScheduleRuns

  /** Step `j` is a due check of `key` that handed out an occurrence. */
  ghost predicate Fires(states: seq<Node>, acts: seq<Action>, key: Key, j: nat)
    requires |states| == |acts| + 1
  {
    j < |acts| && acts[j] == Check(key) && states[j + 1].log != states[j].log
  }

  /** Step `j` reads the configuration of the tenant of `key` again. */
  predicate Rereads(acts: seq<Action>, key: Key, j: nat) {
    j < |acts| && acts[j].Reread? && acts[j].tenant == key.0
  }

  /** Step `j` arms or fires `key`. */
  ghost predicate Touches(states: seq<Node>, acts: seq<Action>, key: Key, j: nat)
    requires |states| == |acts| + 1
  {
    Rereads(acts, key, j) || Fires(states, acts, key, j)
  }

  /** The last step before `n` that armed or fired `key`. */
  ghost predicate LastTouch(states: seq<Node>, acts: seq<Action>, key: Key, j: nat, n: nat)
    requires |states| == |acts| + 1
  {
    j < n && Touches(states, acts, key, j) && forall i :: j < i < n ==> !Touches(states, acts, key, i)
  }

  /** What an entry armed or fired at `now` waits for. */
  predicate ArmedThen(e: Entry, now: Clock) {
    match e.plan
    case Every(_) => e.cursor == LastFired(now.mono)
    case OnCron(c) => e.cursor == NextDue(Rearmed(c, now.wall))
  }

  // ---- one step --------------------------------------------------------------

  lemma {:induction false} FreshlyArmed(mounts: seq<Mount>, base: string, now: Clock)
    requires ArmedAt(mounts, base, now).Some?
    ensures ArmedThen(ArmedAt(mounts, base, now).value, now)
  {
    hide NextOf;
    var m := mounts[|mounts| - 1];
    if !(m.base == base && m.plan.Some? && Armed(m.plan.value, now).Some?) {
      FreshlyArmed(mounts[..|mounts| - 1], base, now);
    }
  }

  /** A step that touches an entry leaves it armed at that instant; any other leaves it alone. */
  lemma OneStep(states: seq<Node>, acts: seq<Action>, key: Key, n: nat)
    requires Run(states, acts) && n < |acts| && key in states[n + 1].desired
    ensures Touches(states, acts, key, n) ==> ArmedThen(states[n + 1].desired[key], states[n].clock)
    ensures Fires(states, acts, key, n) ==>
      key in states[n].desired && states[n].desired[key].plan == states[n + 1].desired[key].plan
    ensures !Touches(states, acts, key, n) ==>
      key in states[n].desired && states[n].desired[key] == states[n + 1].desired[key]
  {
    hide NextOf, Rearmed, IntervalBucket, ArmedAt;
    var s, a, s' := states[n], acts[n], states[n + 1];
    assert Step(s, a, s');
    if a.Check? {
      Checks(s, a.key, key);
    } else if a.Reread? && a.tenant == key.0 {
      assert key == (key.0, key.1);
      FreshlyArmed(a.mounts, key.1, s.clock);
    }
  }

  lemma Checks(s: Node, checked: Key, key: Key)
    requires checked in s.desired && key in Checked(s, checked).desired
    ensures var s' := Checked(s, checked);
      && key in s.desired && s'.desired[key].plan == s.desired[key].plan
      && (checked != key || s'.log == s.log ==> s'.desired[key] == s.desired[key])
      && (checked == key && s'.log != s.log ==> ArmedThen(s'.desired[key], s.clock))
  {
    hide NextOf, Rearmed, IntervalBucket;
    assert DueNow(s.desired[checked], s.clock).Some? ==> |Checked(s, checked).log| == |s.log| + 1;
  }

  // ---- since the last touch --------------------------------------------------

  /** Every entry was armed or fired before, and has waited untouched since. */
  lemma {:induction false} WasArmed(states: seq<Node>, acts: seq<Action>, key: Key, n: nat) returns (j: nat)
    requires Run(states, acts) && n < |states| && key in states[n].desired
    ensures LastTouch(states, acts, key, j, n) && ArmedThen(states[n].desired[key], states[j].clock)
    ensures Fires(states, acts, key, j) ==>
      key in states[j].desired && states[j].desired[key].plan == states[n].desired[key].plan
    decreases n
  {
    hide Step, ArmedThen;
    OneStep(states, acts, key, n - 1);
    if Touches(states, acts, key, n - 1) {
      j := n - 1;
    } else {
      j := WasArmed(states, acts, key, n - 1);
    }
  }

  lemma LastIsOne(states: seq<Node>, acts: seq<Action>, key: Key, i: nat, j: nat, n: nat)
    requires |states| == |acts| + 1
    requires LastTouch(states, acts, key, i, n) && LastTouch(states, acts, key, j, n)
    ensures i == j
  {
    hide Touches;
  }

  lemma {:induction false} ClockGoesOn(states: seq<Node>, acts: seq<Action>, j: nat, n: nat)
    requires Run(states, acts) && j <= n < |states|
    ensures states[j].clock.mono <= states[n].clock.mono
    decreases n
  {
    if j < n {
      ClockGoesOn(states, acts, j, n - 1);
      hide Checked, Reconciled;
      assert Step(states[n - 1], acts[n - 1], states[n]);
      Ticks(states[n - 1], acts[n - 1], states[n]);
    }
  }

  lemma Ticks(s: Node, a: Action, s': Node)
    requires Step(s, a, s')
    ensures s.clock.mono <= s'.clock.mono
  {
    hide Reconciled, DueNow, Advanced;
  }

  // ---- intervals -------------------------------------------------------------

  /** A check of an interval entry hands out the period that holds the instant, when one is due. */
  lemma IntervalCheck(s: Node, key: Key, every: nat, last: int)
    requires key in s.desired && s.desired[key] == Entry(Every(every), LastFired(last))
    requires s.clock.wall >= 0 && s.clock.mono >= last
    ensures Checked(s, key).log != s.log <==> s.clock.mono - last >= every * 1_000_000
    ensures Checked(s, key).log != s.log && every > 0 ==> exists k: nat ::
      && Checked(s, key).log == s.log + [Produced(key, Every(every), k * every)]
      && k * every * 1_000_000 <= s.clock.wall < (k * every + every) * 1_000_000
  {
    var due := DueNow(s.desired[key], s.clock);
    assert due.Some? ==> |Checked(s, key).log| == |s.log| + 1;
    if due.Some? && every > 0 {
      var k := s.clock.wall / MS / every;
      BucketHolds(s.clock.wall, every);
      assert IntervalBucket(s.clock.wall, every) == k * every;
    }
  }

  /**
    A check of an interval mount hands out an occurrence if and only if its interval
    has passed, by the monotonic clock, since it was last armed or fired.
   */
  lemma IntervalFiresIff(states: seq<Node>, acts: seq<Action>, key: Key, j: nat, n: nat, every: nat)
    requires Run(states, acts) && n < |acts| && acts[n] == Check(key)
    requires key in states[n].desired && states[n].desired[key].plan == Every(every)
    requires LastTouch(states, acts, key, j, n)
    ensures Fires(states, acts, key, n) <==> states[n].clock.mono - states[j].clock.mono >= every * 1_000_000
    ensures Fires(states, acts, key, n) && every > 0 ==> exists k: nat ::
      && states[n + 1].log == states[n].log + [Produced(key, Every(every), k * every)]
      && k * every * 1_000_000 <= states[n].clock.wall < (k * every + every) * 1_000_000
  {
    var i := WasArmed(states, acts, key, n);
    LastIsOne(states, acts, key, i, j, n);
    EveryStateIsSafe(states, acts, n);
    ClockGoesOn(states, acts, j, n);
    assert Step(states[n], acts[n], states[n + 1]);
    hide Checked, LastTouch, Touches, Run;
    IntervalCheck(states[n], key, every, states[j].clock.mono);
  }

  /** Two occurrences of an interval mount, with no reconfiguration between, lie at least the interval apart. */
  lemma {:induction false} IntervalsApart(states: seq<Node>, acts: seq<Action>, key: Key, i: nat, n: nat, every: nat)
    requires Run(states, acts) && i < n && Fires(states, acts, key, i) && Fires(states, acts, key, n)
    requires forall k: nat :: i < k < n ==> !Rereads(acts, key, k)
    requires key in states[n].desired && states[n].desired[key].plan == Every(every)
    ensures states[n].clock.mono - states[i].clock.mono >= every * 1_000_000
    decreases n
  {
    var j := WasArmed(states, acts, key, n);
    assert i <= j by {
      assert Touches(states, acts, key, i);
    }
    IntervalFiresIff(states, acts, key, j, n, every);
    hide Run, Step, ArmedThen;
    if i < j {
      IntervalsApart(states, acts, key, i, j, every);
    }
  }

  // ---- crons -----------------------------------------------------------------

  /** A minute the cron matches, after the one instant and not after the other. */
  predicate Passed(c: Schedule, m: int, since: int, now: int) {
    since < m * 60_000_000_000 <= now && Matches(c, m)
  }

  /** A check of a cron entry hands out its first match since it was armed, when that has come. */
  lemma CronCheck(s: Node, key: Key, c: Schedule, since: int)
    requires key in s.desired && s.desired[key] == Entry(OnCron(c), NextDue(Rearmed(c, since)))
    requires since >= 0 && Reliable(c)
    ensures Checked(s, key).log != s.log <==> exists m: int :: Passed(c, m, since, s.clock.wall)
    ensures Checked(s, key).log != s.log ==> exists m: int ::
      && Checked(s, key).log == s.log + [Produced(key, OnCron(c), m * 60_000)] && Passed(c, m, since, s.clock.wall)
      && forall k: int :: k < m ==> !Passed(c, k, since, s.clock.wall)
  {
    var next := NextOf(c, since);
    hide NextOf, Matches, Perennial, InRanges, IntervalBucket;
    SearchSucceeds(c, since, next);
    var m := next.value / MINUTE;
    MinuteIsWhole(m, next.value);
    forall k: int | k < m ensures !Passed(c, k, since, s.clock.wall) {
      assert Passed(c, k, since, s.clock.wall) ==> InWindow(since, k);
    }
    assert DueNow(s.desired[key], s.clock).Some? ==> |Checked(s, key).log| == |s.log| + 1;
    if s.clock.wall >= next.value {
      assert Passed(c, m, since, s.clock.wall);
    } else {
      forall k: int ensures !Passed(c, k, since, s.clock.wall) {
      }
    }
  }

  /**
    A check of a mount whose cron comes round every year hands out an occurrence if
    and only if the cron has matched a minute since it was last armed or fired; the
    occurrence is the first of those minutes.
   */
  lemma CronFiresIff(states: seq<Node>, acts: seq<Action>, key: Key, j: nat, n: nat, c: Schedule)
    requires Run(states, acts) && n < |acts| && acts[n] == Check(key)
    requires key in states[n].desired && states[n].desired[key].plan == OnCron(c) && Reliable(c)
    requires LastTouch(states, acts, key, j, n)
    ensures Fires(states, acts, key, n) <==>
      exists m: int :: Passed(c, m, states[j].clock.wall, states[n].clock.wall)
    ensures Fires(states, acts, key, n) ==> exists m: int ::
      && states[n + 1].log == states[n].log + [Produced(key, OnCron(c), m * 60_000)]
      && Passed(c, m, states[j].clock.wall, states[n].clock.wall)
      && forall k: int :: k < m ==> !Passed(c, k, states[j].clock.wall, states[n].clock.wall)
  {
    var i := WasArmed(states, acts, key, n);
    LastIsOne(states, acts, key, i, j, n);
    EveryStateIsSafe(states, acts, j);
    assert Step(states[n], acts[n], states[n + 1]);
    hide Checked, LastTouch, Touches, Run, Rearmed, Reliable, Passed;
    CronCheck(states[n], key, c, states[j].clock.wall);
  }
}
