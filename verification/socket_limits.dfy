/**
  A socket's limits: the one-second rate meter, the dispatches in flight, and
  the tenant's ceiling of registered sockets. Instants are nanoseconds.
 */
module SocketLimits {
  import Sets

  const SECOND: int := 1_000_000_000

  // ---- the meter -------------------------------------------------------------

  /** The two clock readings of one metered frame: the window test, then a new window's start. */
  datatype Reading = Reading(seen: int, stamped: int)

  datatype Window = Window(start: int, count: nat)

  function Metered(w: Window, r: Reading): (w': Window)
  {
    if r.seen - w.start >= SECOND then Window(r.stamped, 1) else w.(count := w.count + 1)
  }

  class Meter {
    var windowStart: int
    var windowCount: nat

    constructor (now: int)
      ensures Value() == Window(now, 0)
    {
      windowStart, windowCount := now, 0;
    }

    function Value(): Window reads this { Window(windowStart, windowCount) }

    method Count(r: Reading) returns (count: nat)
      modifies this
      ensures Value() == Metered(old(Value()), r)
      ensures count == Value().count
    {
      if r.seen - windowStart >= SECOND {
        windowStart := r.stamped;
        windowCount := 0;
      }
      windowCount := windowCount + 1;
      count := windowCount;
    }
  }

  /** Readings under the meter's lock never go back. */
  predicate InOrder(w: Window, rs: seq<Reading>) {
    && (rs != [] ==> w.start <= rs[0].seen)
    && (forall i :: 0 <= i < |rs| ==> rs[i].seen <= rs[i].stamped)
    && (forall i :: 0 <= i < |rs| - 1 ==> rs[i].stamped <= rs[i + 1].seen)
  }

  function After(w: Window, rs: seq<Reading>): (w': Window)
  {
    if rs == [] then w else Metered(After(w, rs[..|rs| - 1]), rs[|rs| - 1])
  }

  predicate Within(r: Reading, from: int) { from <= r.seen < from + 1_000_000_000 }

  /** How many frames seen in the second from `from` the meter let through. */
  function Passed(w: Window, rs: seq<Reading>, rate: nat, from: int): (n: nat)
  {
    if rs == [] then 0
    else
      var last := rs[|rs| - 1];
      Passed(w, rs[..|rs| - 1], rate, from) + if Within(last, from) && After(w, rs).count <= rate then 1 else 0
  }

  function Min(a: nat, b: nat): nat { if a < b then a else b }

  /** The current window began before the second, or in it, or the second is over. */
  predicate Spent(w: Window, passed: nat, last: int, rate: nat, from: int) {
    if w.start < from then passed <= Min(w.count, rate)
    else passed <= rate + Min(w.count, rate) || (passed <= 2 * rate && last >= from + SECOND)
  }

  lemma {:induction false} SpentAlways(w: Window, rs: seq<Reading>, rate: nat, from: int)
    requires InOrder(w, rs) && w.count == 0 && rs != []
    ensures Spent(After(w, rs), Passed(w, rs, rate, from), rs[|rs| - 1].seen, rate, from)
    ensures After(w, rs).start <= rs[|rs| - 1].stamped
    ensures rs[|rs| - 1].seen < from ==> Passed(w, rs, rate, from) == 0
  {
    var before := rs[..|rs| - 1];
    if before != [] {
      assert InOrder(w, before);
      SpentAlways(w, before, rate, from);
      assert rs[|rs| - 2].stamped <= rs[|rs| - 1].seen;
    }
  }

  /** In every half-open second at most twice the rate passes the meter. */
  lemma AtMostTwiceTheRate(now: int, rs: seq<Reading>, rate: nat, from: int)
    requires InOrder(Window(now, 0), rs)
    ensures Passed(Window(now, 0), rs, rate, from) <= 2 * rate
  {
    if rs != [] { SpentAlways(Window(now, 0), rs, rate, from); }
  }

  function Burst(at: int, n: nat): (rs: seq<Reading>)
    ensures |rs| == n && forall i :: 0 <= i < n ==> rs[i] == Reading(at, at)
  {
    seq(n, i => Reading(at, at))
  }

  lemma {:induction false} FirstBurst(n: nat, rate: nat)
    requires n <= rate
    ensures After(Window(0, 0), Burst(SECOND - 1, n)) == Window(0, n)
    ensures Passed(Window(0, 0), Burst(SECOND - 1, n), rate, SECOND - 1) == n
  {
    if n > 0 {
      assert Burst(SECOND - 1, n)[..n - 1] == Burst(SECOND - 1, n - 1);
      FirstBurst(n - 1, rate);
    }
  }

  lemma {:induction false} SecondBurst(n: nat, rate: nat)
    requires 0 < n <= rate
    ensures var rs := Burst(SECOND - 1, rate) + Burst(SECOND, n);
      After(Window(0, 0), rs) == Window(SECOND, n) && Passed(Window(0, 0), rs, rate, SECOND - 1) == rate + n
  {
    var rs := Burst(SECOND - 1, rate) + Burst(SECOND, n);
    FirstBurst(rate, rate);
    assert rs[..|rs| - 1] == Burst(SECOND - 1, rate) + Burst(SECOND, n - 1);
    if n > 1 {
      SecondBurst(n - 1, rate);
    } else {
      assert rs[..|rs| - 1] == Burst(SECOND - 1, rate);
    }
  }

  /** And twice the rate is reached, at every rate: a burst on each side of a window's end. */
  lemma TwiceTheRateIsReached(rate: nat)
    requires rate > 0
    ensures var rs := Burst(SECOND - 1, rate) + Burst(SECOND, rate);
      InOrder(Window(0, 0), rs) && Passed(Window(0, 0), rs, rate, SECOND - 1) == 2 * rate
  {
    SecondBurst(rate, rate);
  }

  /** The frames of the current window came after its start, and the last of them within a second of it. */
  lemma {:induction false} SinceStart(now: int, rs: seq<Reading>)
    requires InOrder(Window(now, 0), rs) && rs != []
    ensures var w, last := After(Window(now, 0), rs), |rs| - 1;
      && 0 < w.count <= |rs| && w.start <= rs[last].stamped
      && (w.count > 1 ==> rs[last].seen < w.start + SECOND)
      && forall i :: |rs| - w.count <= i < |rs| ==> rs[i].stamped >= w.start
  {
    var before := rs[..|rs| - 1];
    if before != [] {
      assert InOrder(Window(now, 0), before);
      SinceStart(now, before);
      assert rs[|rs| - 2].stamped <= rs[|rs| - 1].seen;
    }
  }

  /** A frame is refused only when the one `rate` frames before it came less than a second earlier. */
  lemma OnlyBurstsAreRefused(now: int, rs: seq<Reading>, rate: nat)
    requires InOrder(Window(now, 0), rs) && rs != [] && After(Window(now, 0), rs).count > rate
    ensures rate < |rs| && rs[|rs| - 1].seen - rs[|rs| - 1 - rate].stamped < 1_000_000_000
  {
    SinceStart(now, rs);
  }

  // ---- dispatches in flight --------------------------------------------------

  /** Dispatches running, and the readers between their load and their increment. */
  datatype Flight = Flight(inFlight: nat, pending: set<nat>)

  datatype Move = Load(reader: nat) | Dispatch(reader: nat) | Drop(reader: nat) | Finish

  /** One atomic step of a reader's `frame`, or the end of a dispatched task. */
  predicate Moves(f: Flight, readers: nat, cap: nat, m: Move, f': Flight) {
    match m
    case Load(r) =>
      && r < readers && r !in f.pending
      && f' == if f.inFlight >= cap then f else f.(pending := f.pending + {r})
    case Dispatch(r) => r in f.pending && f' == Flight(f.inFlight + 1, f.pending - {r})
    case Drop(r) => r in f.pending && f' == f.(pending := f.pending - {r})
    case Finish => f.inFlight > 0 && f' == f.(inFlight := f.inFlight - 1)
  }

  predicate Flights(states: seq<Flight>, moves: seq<Move>, readers: nat, cap: nat) {
    && |states| == |moves| + 1 && states[0] == Flight(0, {})
    && forall i :: 0 <= i < |moves| ==> Moves(states[i], readers, cap, moves[i], states[i + 1])
  }

  predicate Bounded(f: Flight, readers: nat, cap: nat) {
    && (forall r :: r in f.pending ==> 0 <= r < readers)
    && (if cap == 0 then f.inFlight == 0 && f.pending == {} else f.inFlight + |f.pending| <= cap - 1 + readers)
  }

  lemma {:induction false} PendingAreReaders(p: set<nat>, readers: nat)
    requires forall r :: r in p ==> r < readers
    ensures |p| <= readers
  {
    if readers == 0 {
      assert p == {};
    } else {
      PendingAreReaders(p - {readers - 1}, readers - 1);
    }
  }

  lemma MoveKeeps(f: Flight, readers: nat, cap: nat, m: Move, f': Flight)
    requires Bounded(f, readers, cap) && Moves(f, readers, cap, m, f')
    ensures Bounded(f', readers, cap)
  {
    PendingAreReaders(f'.pending, readers);
  }

  lemma {:induction false} EveryFlightIsBounded(states: seq<Flight>, moves: seq<Move>, readers: nat, cap: nat, n: nat)
    requires Flights(states, moves, readers, cap) && n < |states| && readers > 0
    ensures Bounded(states[n], readers, cap)
    decreases n
  {
    if n > 0 {
      EveryFlightIsBounded(states, moves, readers, cap, n - 1);
      MoveKeeps(states[n - 1], readers, cap, moves[n - 1], states[n]);
    }
  }

  /** With the single reader of a connection, dispatches in flight never exceed the cap. */
  lemma InFlightStaysUnderCap(states: seq<Flight>, moves: seq<Move>, cap: nat, n: nat)
    requires Flights(states, moves, 1, cap) && n < |states|
    ensures states[n].inFlight <= cap
  {
    EveryFlightIsBounded(states, moves, 1, cap, n);
  }

  /** One reader can fill the cap up to any level. */
  lemma {:induction false} FillTo(n: nat, readers: nat, cap: nat) returns (states: seq<Flight>, moves: seq<Move>)
    requires n <= cap && readers > 0
    ensures Flights(states, moves, readers, cap) && states[|states| - 1] == Flight(n, {})
  {
    if n == 0 {
      states, moves := [Flight(0, {})], [];
    } else {
      states, moves := FillTo(n - 1, readers, cap);
      states := states + [Flight(n - 1, {0}), Flight(n, {})];
      moves := moves + [Load(0), Dispatch(0)];
      assert Moves(Flight(n - 1, {}), readers, cap, Load(0), Flight(n - 1, {0}));
      assert Moves(Flight(n - 1, {0}), readers, cap, Dispatch(0), Flight(n, {}));
    }
  }

  /** Two readers could both load below the cap, so the bound rests on there being one. */
  lemma TwoReadersExceedTheCap(cap: nat) returns (states: seq<Flight>, moves: seq<Move>)
    requires cap > 0
    ensures Flights(states, moves, 2, cap) && states[|states| - 1].inFlight == cap + 1
  {
    var low := cap - 1;
    states, moves := FillTo(low, 2, cap);
    states := states + [Flight(low, {0}), Flight(low, {0, 1}), Flight(cap, {1}), Flight(cap + 1, {})];
    moves := moves + [Load(0), Load(1), Dispatch(0), Dispatch(1)];
    assert Moves(Flight(low, {}), 2, cap, Load(0), Flight(low, {0}));
    assert Moves(Flight(low, {0}), 2, cap, Load(1), Flight(low, {0, 1}));
    assert Moves(Flight(low, {0, 1}), 2, cap, Dispatch(0), Flight(cap, {1}));
    assert Moves(Flight(cap, {1}), 2, cap, Dispatch(1), Flight(cap + 1, {}));
  }

  // ---- the tenant's ceiling --------------------------------------------------

  function Of(m: map<string, string>, tenant: string): (ids: set<string>)
  {
    set id | id in m && m[id] == tenant
  }

  predicate UnderCap(m: map<string, string>, cap: nat) {
    forall id :: id in m ==> |Of(m, m[id])| <= cap
  }

  /** The node's registry: socket id to tenant. */
  class SocketHub {
    const cap: nat
    var sockets: map<string, string>

    constructor (cap: nat)
      ensures this.cap == cap && sockets == map[]
    {
      this.cap, sockets := cap, map[];
    }

    /** The registration under the hub's lock. */
    method Start(id: string, tenant: string) returns (accepted: bool)
      requires UnderCap(sockets, cap)
      modifies this
      ensures accepted <==> old(|Of(sockets, tenant)|) < cap
      ensures sockets == if accepted then old(sockets)[id := tenant] else old(sockets)
      ensures UnderCap(sockets, cap)
    {
      var observed := |Of(sockets, tenant)|;
      accepted := observed < cap;
      if accepted {
        RegisterKeeps(sockets, id, tenant, cap);
        sockets := sockets[id := tenant];
      }
    }

    method Remove(id: string)
      requires UnderCap(sockets, cap)
      modifies this
      ensures sockets == old(sockets) - {id}
      ensures UnderCap(sockets, cap)
    {
      RemoveKeeps(sockets, id, cap);
      sockets := sockets - {id};
    }
  }

  lemma RegisterKeeps(m: map<string, string>, id: string, tenant: string, cap: nat)
    requires UnderCap(m, cap) && |Of(m, tenant)| < cap
    ensures UnderCap(m[id := tenant], cap)
  {
    var m' := m[id := tenant];
    forall i | i in m' ensures |Of(m', m'[i])| <= cap {
      if m'[i] == tenant {
        assert Of(m', tenant) == Of(m, tenant) + {id};
      } else {
        assert Of(m', m'[i]) == Of(m, m[i]) - {id};
        Sets.SubsetSize(Of(m', m'[i]), Of(m, m[i]));
      }
    }
  }

  lemma RemoveKeeps(m: map<string, string>, id: string, cap: nat)
    requires UnderCap(m, cap)
    ensures UnderCap(m - {id}, cap)
  {
    forall i | i in m - {id} ensures |Of(m - {id}, m[i])| <= cap {
      Sets.SubsetSize(Of(m - {id}, m[i]), Of(m, m[i]));
    }
  }

  datatype HubOp = Register(id: string, tenant: string) | Release(id: string)

  function HubAfter(ops: seq<HubOp>, cap: nat): (m: map<string, string>)
  {
    if ops == [] then map[]
    else
      var m := HubAfter(ops[..|ops| - 1], cap);
      match ops[|ops| - 1]
      case Register(id, tenant) => if |Of(m, tenant)| < cap then m[id := tenant] else m
      case Release(id) => m - {id}
  }

  /** However registrations and releases interleave, no tenant has more sockets than the cap. */
  lemma {:induction false} TenantStaysUnderCap(ops: seq<HubOp>, cap: nat, tenant: string)
    ensures UnderCap(HubAfter(ops, cap), cap) && |Of(HubAfter(ops, cap), tenant)| <= cap
  {
    if ops != [] {
      TenantStaysUnderCap(ops[..|ops| - 1], cap, tenant);
      var m := HubAfter(ops[..|ops| - 1], cap);
      match ops[|ops| - 1]
      case Register(id, t) => if |Of(m, t)| < cap { RegisterKeeps(m, id, t, cap); }
      case Release(id) => RemoveKeeps(m, id, cap);
    }
    var m := HubAfter(ops, cap);
    if id :| id in Of(m, tenant) {
      assert m[id] == tenant;
    } else {
      assert Of(m, tenant) == {};
    }
  }
}
