/**
  The in-memory idempotency store: a table of slots, each in flight or done.
  Time is a millisecond count read once per call.
 */
module Idempotency {
  import opened Text
  import opened Bytes
  import Sets

  /** Scope (tenant, mount, method, path) and key. */
  type Slot = (string, string)

  datatype StoredResponse = StoredResponse(status: int, headers: seq<(string, string)>, body: Option<(Bytes, string)>)

  datatype State = InFlight | Done(response: StoredResponse, at: int)

  datatype Entry = Entry(hash: Option<string>, state: State)

  type Table = map<Slot, Entry>

  datatype Begin = Fresh | Busy | Replay(response: StoredResponse) | PayloadMismatch

  const SWEEP_EVERY: nat := 4096

  // ---- what the operations do to the table -----------------------------------

  predicate Expired(e: Entry, window: nat, now: int) {
    e.state.Done? && now - e.state.at > window
  }

  function Unexpired(t: Table, window: nat, now: int): (r: Table)
  {
    map k | k in t && !Expired(t[k], window, now) :: t[k]
  }

  function DoneKeys(t: Table): (r: set<Slot>)
  {
    set k | k in t && t[k].state.Done?
  }

  function BusyKeys(t: Table): (r: set<Slot>)
  {
    set k | k in t && t[k].state.InFlight?
  }

  /** How many entries one batch eviction removes: an eighth of the cap, plus one. */
  function Batch(cap: nat): (n: nat)
  {
    cap / 8 + 1
  }

  /**
    `gone` is a batch of completed entries none of which is younger than any
    completed entry that stays. Ties are broken arbitrarily, as by the hash map.
   */
  ghost predicate OldestBatch(t: Table, gone: set<Slot>, cap: nat) {
    && gone <= DoneKeys(t)
    && |gone| == (if |DoneKeys(t)| < Batch(cap) then |DoneKeys(t)| else Batch(cap))
    && forall a, b :: a in gone && b in DoneKeys(t) - gone ==> t[a].state.at <= t[b].state.at
  }

  /** `sweep(entries, true)`: drop what has expired, then evict `gone` if still at the cap. */
  ghost predicate Swept(t: Table, t': Table, gone: set<Slot>, window: nat, cap: nat, now: int) {
    var live := Unexpired(t, window, now);
    && t' == live - gone
    && (if |live| >= cap then OldestBatch(live, gone, cap) else gone == {})
  }

  /** The part of `begin` before the lookup: an occasional sweep, then expiry of the addressed slot. */
  ghost predicate Cleaned(t: Table, t': Table, gone: set<Slot>, n: nat, slot: Slot, window: nat, cap: nat, now: int) {
    exists swept: Table ::
      && (if n % SWEEP_EVERY == 0 || |t| >= cap then Swept(t, swept, gone, window, cap, now)
          else swept == t && gone == {})
      && t' == (if slot in swept && Expired(swept[slot], window, now) then swept - {slot} else swept)
  }

  /** A `begin` evicts at most an eighth of the cap and one more, and nothing unless the table is full of live entries. */
  lemma EvictionIsSmall(t: Table, t': Table, gone: set<Slot>, n: nat, slot: Slot, window: nat, cap: nat, now: int)
    requires Cleaned(t, t', gone, n, slot, window, cap, now)
    ensures |gone| <= cap / 8 + 1
    ensures gone != {} ==> |Unexpired(t, window, now)| >= cap
    ensures |t| >= cap && |Unexpired(t, window, now)| >= cap ==>
      |gone| == cap / 8 + 1 || gone == DoneKeys(Unexpired(t, window, now))
  {
    var live := Unexpired(t, window, now);
    if |t| >= cap && |live| >= cap && |gone| == |DoneKeys(live)| { Sets.SubsetSize(gone, DoneKeys(live)); }
  }

  predicate Mismatch(stored: Option<string>, incoming: Option<string>) {
    stored.Some? && incoming.Some? && stored.value != incoming.value
  }

  /** The lookup in `begin`. */
  function Answer(t: Table, slot: Slot, hash: Option<string>): (b: Begin)
  {
    if slot !in t then Fresh
    else if Mismatch(t[slot].hash, hash) then PayloadMismatch
    else match t[slot].state
         case InFlight => Busy
         case Done(response, _) => Replay(response)
  }

  function Register(t: Table, slot: Slot, hash: Option<string>): (t': Table)
  {
    if slot in t then t else t[slot := Entry(hash, InFlight)]
  }

  function Complete(t: Table, slot: Slot, response: StoredResponse, now: int): (t': Table)
  {
    if slot in t then t[slot := Entry(t[slot].hash, Done(response, now))] else t
  }

  function Abandon(t: Table, slot: Slot): (t': Table)
  {
    t - {slot}
  }

  // ---- collecting and ordering the completed entries -------------------------

  type Stamp = (Slot, int)

  function StampKeys(s: seq<Stamp>): (r: set<Slot>)
  {
    if s == [] then {} else {s[0].0} + StampKeys(s[1..])
  }

  predicate Distinct(s: seq<Stamp>) {
    s == [] || (s[0].0 !in StampKeys(s[1..]) && Distinct(s[1..]))
  }

  predicate StampOf(t: Table, x: Stamp) {
    x.0 in t && t[x.0].state.Done? && t[x.0].state.at == x.1
  }

  predicate Accurate(t: Table, s: seq<Stamp>) {
    forall x :: x in s ==> StampOf(t, x)
  }

  predicate Oldest(s: seq<Stamp>) {
    forall i, j :: 0 <= i < j < |s| ==> s[i].1 <= s[j].1
  }

  /** The completed entries with their times, in whatever order the map yields them. */
  method CollectDone(t: Table) returns (s: seq<Stamp>)
    ensures Distinct(s) && StampKeys(s) == DoneKeys(t) && Accurate(t, s)
  {
    s := [];
    var left := DoneKeys(t);
    assert Distinct(s) && Accurate(t, s) && StampKeys(s) == {};
    hide Distinct, Accurate, StampKeys;
    while left != {}
      invariant left <= DoneKeys(t) && StampKeys(s) == DoneKeys(t) - left
      invariant Distinct(s) && Accurate(t, s)
      decreases |left|
    {
      var k :| k in left;
      assert k in DoneKeys(t);
      var x := (k, t[k].state.at);
      PushStamp(t, x, s);
      s, left := [x] + s, left - {k};
    }
  }

  lemma PushStamp(t: Table, x: Stamp, s: seq<Stamp>)
    requires Distinct(s) && Accurate(t, s) && StampOf(t, x) && x.0 !in StampKeys(s)
    ensures Distinct([x] + s) && Accurate(t, [x] + s) && StampKeys([x] + s) == StampKeys(s) + {x.0}
  {
    assert ([x] + s)[1..] == s;
  }

  function InsertStamp(x: Stamp, s: seq<Stamp>): (r: seq<Stamp>)
    ensures |r| == |s| + 1
  {
    if s == [] || x.1 <= s[0].1 then [x] + s else [s[0]] + InsertStamp(x, s[1..])
  }

  /** A stable sort by completion time. */
  function SortStamps(s: seq<Stamp>): (r: seq<Stamp>)
    ensures |r| == |s|
  {
    if s == [] then [] else InsertStamp(s[0], SortStamps(s[1..]))
  }

  lemma {:induction false} InsertStampElements(x: Stamp, s: seq<Stamp>)
    ensures forall y :: y in InsertStamp(x, s) ==> y == x || y in s
    ensures StampKeys(InsertStamp(x, s)) == StampKeys(s) + {x.0}
    ensures Distinct(s) && x.0 !in StampKeys(s) ==> Distinct(InsertStamp(x, s))
  {
    if s == [] || x.1 <= s[0].1 {
      assert InsertStamp(x, s)[1..] == s;
    } else {
      InsertStampElements(x, s[1..]);
      assert InsertStamp(x, s)[1..] == InsertStamp(x, s[1..]);
    }
  }

  lemma {:induction false} InsertStampSorts(x: Stamp, s: seq<Stamp>)
    requires Oldest(s)
    ensures Oldest(InsertStamp(x, s))
  {
    if !(s == [] || x.1 <= s[0].1) {
      InsertStampSorts(x, s[1..]);
      InsertStampElements(x, s[1..]);
      var rest := InsertStamp(x, s[1..]);
      forall i | 0 <= i < |rest| ensures s[0].1 <= rest[i].1 {
        assert rest[i] in rest;
      }
    }
  }

  lemma {:induction false} SortStampsSorts(t: Table, s: seq<Stamp>)
    requires Distinct(s) && Accurate(t, s)
    ensures Oldest(SortStamps(s)) && StampKeys(SortStamps(s)) == StampKeys(s)
    ensures Distinct(SortStamps(s)) && Accurate(t, SortStamps(s))
  {
    if s != [] {
      var rest := SortStamps(s[1..]);
      SortStampsSorts(t, s[1..]);
      InsertStampSorts(s[0], rest);
      InsertStampElements(s[0], rest);
    }
  }

  lemma {:induction false} StampCount(s: seq<Stamp>)
    requires Distinct(s)
    ensures |StampKeys(s)| == |s|
  {
    if s != [] { StampCount(s[1..]); }
  }

  lemma {:induction false} StampSplit(s: seq<Stamp>, n: nat)
    requires n <= |s| && Distinct(s)
    ensures StampKeys(s) == StampKeys(s[..n]) + StampKeys(s[n..])
    ensures StampKeys(s[..n]) !! StampKeys(s[n..]) && Distinct(s[..n])
    decreases n
  {
    if n > 0 {
      StampSplit(s[1..], n - 1);
      assert s[1..][..n - 1] == s[..n][1..];
      assert s[1..][n - 1..] == s[n..];
    } else {
      assert s[n..] == s;
    }
  }

  lemma {:induction false} StampWith(s: seq<Stamp>, k: Slot) returns (i: nat)
    requires k in StampKeys(s)
    ensures i < |s| && s[i].0 == k
  {
    if s[0].0 == k {
      i := 0;
    } else {
      i := StampWith(s[1..], k);
      i := i + 1;
    }
  }

  lemma NoStamps(s: seq<Stamp>)
    ensures StampKeys(s[..0]) == {}
  {
  }

  lemma TakesOldestBatch(t: Table, s: seq<Stamp>, cap: nat)
    requires Distinct(s) && Accurate(t, s) && Oldest(s) && StampKeys(s) == DoneKeys(t)
    ensures OldestBatch(t, StampKeys(s[..if |s| < Batch(cap) then |s| else Batch(cap)]), cap)
  {
    hide StampKeys, DoneKeys, Distinct, Accurate, Oldest, Batch;
    OldestFirst(t, s, if |s| < Batch(cap) then |s| else Batch(cap));
  }

  /** The first `n` of the stamps, oldest first, are a batch no younger than the rest. */
  lemma OldestFirst(t: Table, s: seq<Stamp>, n: nat)
    requires n <= |s| && Distinct(s) && Accurate(t, s) && Oldest(s) && StampKeys(s) == DoneKeys(t)
    ensures
      var gone := StampKeys(s[..n]);
      && gone <= DoneKeys(t) && |gone| == n && |DoneKeys(t)| == |s|
      && forall a, b :: a in gone && b in DoneKeys(t) - gone ==> t[a].state.at <= t[b].state.at
  {
    var gone := StampKeys(s[..n]);
    StampSplit(s, n);
    StampCount(s[..n]);
    StampCount(s);
    forall a, b | a in gone && b in DoneKeys(t) - gone ensures t[a].state.at <= t[b].state.at {
      var i := StampWith(s[..n], a);
      var j := StampWith(s[n..], b);
      assert s[i].0 == a && s[n + j].0 == b;
      assert StampOf(t, s[i]) && StampOf(t, s[n + j]);
    }
  }

  // ---- the store -------------------------------------------------------------

  class MemIdempotencyStore {
    const window: nat
    const maxEntries: nat
    var entries: Table
    var begins: nat

    constructor (window: nat, maxEntries: nat)
      ensures this.window == window && this.maxEntries == maxEntries && entries == map[] && begins == 0
    {
      this.window, this.maxEntries, entries, begins := window, maxEntries, map[], 0;
    }

    method Sweep(now: int, force: bool) returns (ghost gone: set<Slot>)
      modifies this`entries
      ensures force ==> Swept(old(entries), entries, gone, window, maxEntries, now)
      ensures !force ==> entries == Unexpired(old(entries), window, now) && gone == {}
    {
      entries := map k | k in entries && !Expired(entries[k], window, now) :: entries[k];
      gone := {};
      if force && |entries| >= maxEntries {
        gone := Evict();
      }
    }

    /** The eviction loop: the oldest completed entries, a batch at a time. */
    method Evict() returns (ghost gone: set<Slot>)
      modifies this`entries
      ensures OldestBatch(old(entries), gone, maxEntries) && entries == old(entries) - gone
    {
      hide *;
      ghost var live := entries;
      var done := CollectDone(entries);
      SortStampsSorts(live, done);
      done := SortStamps(done);
      var take := if |done| < Batch(maxEntries) then |done| else Batch(maxEntries);
      NoStamps(done);
      var i := 0;
      while i < take
        invariant 0 <= i <= take
        invariant entries == live - StampKeys(done[..i])
      {
        TakeNext(done, i);
        entries := entries - {done[i].0};
        i := i + 1;
      }
      gone := StampKeys(done[..take]);
      TakesOldestBatch(live, done, maxEntries);
    }

    method Begin(slot: Slot, hash: Option<string>, now: int)
      returns (b: Begin, ghost gone: set<Slot>, ghost cleaned: Table)
      modifies this
      ensures begins == old(begins) + 1
      ensures Cleaned(old(entries), cleaned, gone, old(begins), slot, window, maxEntries, now)
      ensures b == Answer(cleaned, slot, hash) && entries == Register(cleaned, slot, hash)
      ensures |gone| <= maxEntries / 8 + 1
      ensures old(begins) % 4096 == 0 || |old(entries)| >= maxEntries ==>
        forall k :: k in cleaned ==> !Expired(cleaned[k], window, now)
    {
      var n := begins;
      begins := begins + 1;
      gone := {};
      if n % SWEEP_EVERY == 0 || |entries| >= maxEntries {
        gone := Sweep(now, true);
      }
      ghost var swept := entries;
      if slot in entries && Expired(entries[slot], window, now) {
        entries := entries - {slot};
      }
      cleaned := entries;
      EvictionIsSmall(old(entries), cleaned, gone, n, slot, window, maxEntries, now);
      b := Answer(entries, slot, hash);
      entries := Register(entries, slot, hash);
    }

    /** From now on the slot replays the response to compatible payloads; a slot that is gone stays gone. */
    method CompleteSlot(slot: Slot, response: StoredResponse, now: int)
      modifies this`entries
      ensures entries.Keys == old(entries).Keys && forall k :: k in entries && k != slot ==> entries[k] == old(entries)[k]
      ensures slot in entries ==>
                && entries[slot].state == Done(response, now) && entries[slot].hash == old(entries)[slot].hash
                && forall hash :: Answer(entries, slot, hash) ==
                     if Mismatch(old(entries)[slot].hash, hash) then PayloadMismatch else Replay(response)
      ensures entries == Complete(old(entries), slot, response, now)
    {
      if slot in entries {
        var entry := entries[slot].(state := Done(response, now));
        entries := entries[slot := entry];
      }
    }

    /** The next request on the slot runs, whatever its payload; other slots are untouched. */
    method AbandonSlot(slot: Slot)
      modifies this`entries
      ensures forall hash :: Answer(entries, slot, hash) == Fresh
      ensures forall k :: k != slot ==> (k in entries <==> k in old(entries))
      ensures forall k :: k in entries ==> entries[k] == old(entries)[k]
      ensures entries == Abandon(old(entries), slot)
    {
      entries := map k | k in entries && k != slot :: entries[k];
    }
  }

  lemma {:induction false} TakeNext(s: seq<Stamp>, i: nat)
    requires i < |s|
    ensures StampKeys(s[..i + 1]) == StampKeys(s[..i]) + {s[i].0}
    decreases i
  {
    if i > 0 {
      TakeNext(s[1..], i - 1);
      assert s[..i + 1][1..] == s[1..][..i];
      assert s[..i][1..] == s[1..][..i - 1];
    }
  }
}
