/**
  One node's scheduler: the armed entries, the due check, the overlap guard and
  reconciliation, as a state machine over the loop's atomic steps. Instants are
  nanoseconds; no clock runs backwards, and the wall clock is never before 1970.
 */
module ScheduleNode {
  import opened Text
  import opened CronSearch
  import opened Claims

  // ---- entries ---------------------------------------------------------------

  datatype Plan = Every(every: nat) | OnCron(cron: Schedule)

  datatype Cursor = LastFired(mono: int) | NextDue(wall: int)

  datatype Entry = Entry(plan: Plan, cursor: Cursor)

  /** A reading of the monotonic and the wall clock. */
  datatype Clock = Clock(mono: int, wall: int)

  /** Where the cron cursor goes after a fire: the next match, or 366 days on when there is none. */
  function Rearmed(c: Schedule, wall: int): (due: int)
  {
    var next := NextOf(c, wall);
    if next.Some? then next.value else wall + 366 * DAY
  }

  /** `saturating_duration_since`. */
  function Since(last: int, now: int): (d: nat)
  {
    if now < last then 0 else now - last
  }

  /** `due_occurrence`: the occurrence that is due, if any. */
  function DueNow(e: Entry, now: Clock): (occ: Option<int>)
  {
    match (e.plan, e.cursor)
    case (Every(every), LastFired(last)) =>
      if Since(last, now.mono) >= every * MS then Some(IntervalBucket(now.wall, every)) else None
    case (OnCron(c), NextDue(due)) =>
      if now.wall >= due then Some(TruncDiv(due, MS)) else None
    case _ => None
  }

  /** `due_occurrence`: the cursor afterwards. */
  function Advanced(e: Entry, now: Clock): (r: Entry)
  {
    if DueNow(e, now).None? then e
    else if e.plan.Every? then e.(cursor := LastFired(now.mono))
    else e.(cursor := NextDue(Rearmed(e.plan.cron, now.wall)))
  }

  class SchedEntry {
    const plan: Plan
    var cursor: Cursor

    constructor (e: Entry)
      ensures Value() == e
    {
      plan, cursor := e.plan, e.cursor;
    }

    function Value(): Entry reads this { Entry(plan, cursor) }

    method DueOccurrence(now: Clock) returns (occ: Option<int>)
      modifies this
      ensures occ == DueNow(old(Value()), now)
      ensures Value() == Advanced(old(Value()), now)
    {
      occ := None;
      match plan
      case Every(every) =>
        if cursor.LastFired? && Since(cursor.mono, now.mono) >= every * MS {
          cursor := LastFired(now.mono);
          occ := Some(IntervalBucket(now.wall, every));
        }
      case OnCron(c) =>
        if cursor.NextDue? && now.wall >= cursor.wall {
          occ := Some(TruncDiv(cursor.wall, MS));
          var next := NextOccurrence(c, now.wall);
          cursor := NextDue(if next.Some? then next.value else now.wall + 366 * DAY);
        }
    }
  }

  // ---- reconciliation --------------------------------------------------------

  datatype Mount = Mount(base: string, plan: Option<Plan>)

  type Key = (string, string)

  /** A freshly armed entry; a cron with no match within 366 days is not armed. */
  function Armed(p: Plan, now: Clock): (e: Option<Entry>)
  {
    match p
    case Every(_) => Some(Entry(p, LastFired(now.mono)))
    case OnCron(c) =>
      var next := NextOf(c, now.wall);
      if next.Some? then Some(Entry(p, NextDue(next.value))) else None
  }

  /** The entry the mounts arm at a base path: the last one that can be armed. */
  function ArmedAt(mounts: seq<Mount>, base: string, now: Clock): (e: Option<Entry>)
  {
    if mounts == [] then None
    else
      var m := mounts[|mounts| - 1];
      var mine := if m.base == base && m.plan.Some? then Armed(m.plan.value, now) else None;
      if mine.Some? then mine else ArmedAt(mounts[..|mounts| - 1], base, now)
  }

  /** After reconciling a tenant, its keys hold what its mounts arm and other keys are untouched. */
  ghost predicate Reconciled(d: map<Key, Entry>, d': map<Key, Entry>, tenant: string, mounts: seq<Mount>, now: Clock) {
    && (forall k: Key :: k.0 != tenant ==> (k in d' <==> k in d) && (k in d ==> d'[k] == d[k]))
    && (forall base: string ::
      var e := ArmedAt(mounts, base, now);
      ((tenant, base) in d' <==> e.Some?) && (e.Some? ==> d'[(tenant, base)] == e.value))
  }

  /** `reconcile_schedules` for one tenant whose configuration version changed. */
  method Reconcile(d: map<Key, Entry>, tenant: string, mounts: seq<Mount>, now: Clock) returns (d': map<Key, Entry>)
    ensures Reconciled(d, d', tenant, mounts, now)
  {
    d' := map k | k in d && k.0 != tenant :: d[k];
    var i := 0;
    while i < |mounts|
      invariant 0 <= i <= |mounts|
      invariant Reconciled(d, d', tenant, mounts[..i], now)
    {
      ghost var before := d';
      ghost var e: Option<Entry> := None;
      if mounts[i].plan.Some? {
        match mounts[i].plan.value
        case Every(every) =>
          e := Some(Entry(mounts[i].plan.value, LastFired(now.mono)));
          d' := d'[(tenant, mounts[i].base) := Entry(mounts[i].plan.value, LastFired(now.mono))];
        case OnCron(c) =>
          var next := NextOccurrence(c, now.wall);
          if next.Some? {
            e := Some(Entry(mounts[i].plan.value, NextDue(next.value)));
            d' := d'[(tenant, mounts[i].base) := Entry(mounts[i].plan.value, NextDue(next.value))];
          }
      }
      ReconciledStep(d, before, d', tenant, mounts, i, now, e);
      i := i + 1;
    }
    assert mounts[..i] == mounts;
  }

  lemma ReconciledStep(d: map<Key, Entry>, before: map<Key, Entry>, after: map<Key, Entry>,
    tenant: string, mounts: seq<Mount>, i: nat, now: Clock, e: Option<Entry>)
    requires i < |mounts| && Reconciled(d, before, tenant, mounts[..i], now)
    requires e == if mounts[i].plan.Some? then Armed(mounts[i].plan.value, now) else None
    requires after == if e.Some? then before[(tenant, mounts[i].base) := e.value] else before
    ensures Reconciled(d, after, tenant, mounts[..i + 1], now)
  {
    hide Armed, NextOf;
    forall base: string
      ensures var a := ArmedAt(mounts[..i + 1], base, now);
        ((tenant, base) in after <==> a.Some?) && (a.Some? ==> after[(tenant, base)] == a.value)
    {
      ArmedAtStep(mounts, i, base, now);
    }
  }

  lemma ArmedAtStep(mounts: seq<Mount>, i: nat, base: string, now: Clock)
    requires i < |mounts|
    ensures var m := mounts[i];
      var mine := if m.base == base && m.plan.Some? then Armed(m.plan.value, now) else None;
      ArmedAt(mounts[..i + 1], base, now) == if mine.Some? then mine else ArmedAt(mounts[..i], base, now)
  {
    assert mounts[..i + 1][..i] == mounts[..i];
  }
}
