/** The idempotency part of `dispatch`: register, run or replay, then record or release. */
module Dispatch {
  import opened Text
  import opened Idempotency

  const MAX_KEY_LEN: nat := 256

  /** What invoking the service does: a response small enough to store or not, or an error. */
  datatype Invocation = Responds(response: StoredResponse, storable: bool) | Errs

  datatype Outcome =
    | Ran(invocation: Invocation)
    | Replayed(response: StoredResponse)
    | Conflict
    | KeyReuse
    | BadKey

  /** What the store remembers of a slot after the dispatch that ran it. */
  function Recorded(t: Table, slot: Slot, hash: Option<string>, inv: Invocation, at: int): (t': Table)
  {
    if inv.Responds? && inv.storable then t[slot := Entry(hash, Done(inv.response, at))] else t - {slot}
  }

  /** The outcome and the table, from the table `begin` looked the slot up in. */
  function Handled(t: Table, slot: Slot, hash: Option<string>, inv: Invocation, at: int): (r: (Outcome, Table))
  {
    match Answer(t, slot, hash)
    case Fresh => (Ran(inv), Recorded(t, slot, hash, inv, at))
    case Busy => (Conflict, t)
    case PayloadMismatch => (KeyReuse, t)
    case Replay(response) => (Replayed(response), t)
  }

  /**
    One keyed dispatch, alone on the store. The service would do `inv`, finishing at `later`.
    It runs exactly when `begin` answers `Fresh`, and then the slot is completed or released.
   */
  method Handle(store: MemIdempotencyStore, scope: string, key: string, hash: Option<string>,
                inv: Invocation, now: int, later: int)
    returns (out: Outcome, ghost gone: set<Slot>, ghost cleaned: Table)
    requires now <= later
    modifies store
    ensures |key| > 256 ==> out == BadKey && store.entries == old(store.entries)
    ensures |key| <= 256 ==> Speaks(cleaned, (scope, key), hash, inv, out)
    ensures |key| <= 256 ==>
              && Cleaned(old(store.entries), cleaned, gone, old(store.begins), (scope, key),
                         store.window, store.maxEntries, now)
              && (out, store.entries) == Handled(cleaned, (scope, key), hash, inv, later)
  {
    hide Cleaned, Answer, Register, Complete, Abandon, Recorded;
    gone, cleaned := {}, store.entries;
    if |key| > MAX_KEY_LEN {
      return BadKey, gone, cleaned;
    }
    var slot := (scope, key);
    var b;
    b, gone, cleaned := store.Begin(slot, hash, now);
    match b {
      case Replay(response) => out := Replayed(response);
      case Busy => out := Conflict;
      case PayloadMismatch => out := KeyReuse;
      case Fresh =>
        if inv.Responds? && inv.storable {
          store.CompleteSlot(slot, inv.response, later);
        } else {
          store.AbandonSlot(slot);
        }
        out := Ran(inv);
    }
    Finishes(cleaned, slot, hash, inv, later);
    HandledSpeaks(cleaned, slot, hash, inv, later);
  }

  /**
    What the caller is told: the service's own result when the slot was free, a
    key reuse when both payloads have hashes and they differ, and otherwise a
    conflict while the slot is in flight or the stored response once it is done.
   */
  predicate Speaks(t: Table, slot: Slot, hash: Option<string>, inv: Invocation, out: Outcome) {
    if slot !in t then out == Ran(inv)
    else if t[slot].hash.Some? && hash.Some? && t[slot].hash != hash then out == KeyReuse
    else if t[slot].state == InFlight then out == Conflict
    else out == Replayed(t[slot].state.response)
  }

  lemma HandledSpeaks(t: Table, slot: Slot, hash: Option<string>, inv: Invocation, at: int)
    ensures Speaks(t, slot, hash, inv, Handled(t, slot, hash, inv, at).0)
  {
  }

  /** Registering then finishing a fresh slot records it or leaves no trace; otherwise nothing was registered. */
  lemma Finishes(t: Table, slot: Slot, hash: Option<string>, inv: Invocation, at: int)
    ensures !Answer(t, slot, hash).Fresh? ==> Register(t, slot, hash) == t
    ensures Answer(t, slot, hash).Fresh? && inv.Responds? && inv.storable ==>
              Complete(Register(t, slot, hash), slot, inv.response, at) == Recorded(t, slot, hash, inv, at)
    ensures Answer(t, slot, hash).Fresh? && !(inv.Responds? && inv.storable) ==>
              Abandon(Register(t, slot, hash), slot) == Recorded(t, slot, hash, inv, at)
  {
  }
}
