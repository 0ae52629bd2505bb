/**
  One WebSocket as its concurrent users see it: any number of pushers and
  closers over the `closed` flag and a bounded queue, the writer that drains the
  queue onto the wire, and the end of the session, all at the granularity of
  single atomic operations.
 */
module SocketWire {

  const OUTGOING_QUEUE: nat := 256

  datatype Item = Frame(payload: string) | Close(code: nat, reason: string)

  /** Where a call stands; each step performs one atomic operation. */
  datatype Pc =
    | PushLoad(frame: string)
    | PushSend(frame: string)
    | PushStore
    | PushRemove
    | PushKill
    | CloseSwap(code: nat, reason: string)
    | CloseRemove(code: nat, reason: string)
    | CloseSend(code: nat, reason: string)
    | CloseKill
    | EndStore
    | EndRemove
    | Returned(ok: bool)

  datatype Writer = Receiving | Sending(item: Item) | Stopped

  /** The shared flags: `closed`, the hub's registration, the kill notice, and the session's end. */
  datatype Flags = Flags(closed: bool, registered: bool, killed: bool, ended: bool)

  /** The queue, its writer and the wire, with the history of what was accepted and taken. */
  datatype Pipe = Pipe(queue: seq<Item>, writer: Writer, wire: seq<Item>, accepted: seq<Item>, taken: seq<Item>)

  datatype Socket = Socket(flags: Flags, pipe: Pipe, calls: map<nat, Pc>)

  predicate Init(s: Socket) {
    s == Socket(Flags(false, true, false, false), Pipe([], Receiving, [], [], []), map[])
  }

  /** `try_send` is refused when the queue is full or its receiver is gone. */
  predicate Accepts(p: Pipe) { p.writer != Stopped && |p.queue| < OUTGOING_QUEUE }

  predicate Begins(pc: Pc) { pc.PushLoad? || pc.CloseSwap? || pc.EndStore? }

  function NextPc(f: Flags, accepts: bool, pc: Pc): (r: Pc)
  {
    match pc
    case PushLoad(frame) => if f.closed then Returned(false) else PushSend(frame)
    case PushSend(_) => if accepts then Returned(true) else PushStore
    case PushStore => PushRemove
    case PushRemove => PushKill
    case PushKill => Returned(false)
    case CloseSwap(c, why) => if f.closed then Returned(false) else CloseRemove(c, why)
    case CloseRemove(c, why) => CloseSend(c, why)
    case CloseSend(_, _) => if accepts then Returned(true) else CloseKill
    case CloseKill => Returned(true)
    case EndStore => EndRemove
    case EndRemove => Returned(true)
    case Returned(_) => pc
  }

  function NextFlags(f: Flags, pc: Pc): (r: Flags)
  {
    match pc
    case PushStore | CloseSwap(_, _) => f.(closed := true)
    case EndStore => f.(closed := true, ended := true)
    case PushRemove | CloseRemove(_, _) | EndRemove => f.(registered := false)
    case PushKill | CloseKill => f.(killed := true)
    case _ => f
  }

  function NextPipe(p: Pipe, pc: Pc): (r: Pipe)
  {
    match pc
    case PushSend(frame) => if Accepts(p) then Enqueued(p, Frame(frame)) else p
    case CloseSend(c, why) => if Accepts(p) then Enqueued(p, Close(c, why)) else p
    case _ => p
  }

  function Enqueued(p: Pipe, item: Item): (r: Pipe)
  {
    p.(queue := p.queue + [item], accepted := p.accepted + [item])
  }

  datatype Action =
    | Call(t: nat, pc: Pc)
    | Continue(t: nat)
    | Receive
    | Written
    | WriteFails
    | Abort

  /** What the writer task does to the pipe. */
  predicate WriterStep(p: Pipe, a: Action, p': Pipe) {
    match a
    case Receive =>
      && p.writer == Receiving && p.queue != []
      && p' == p.(queue := p.queue[1..], writer := Sending(p.queue[0]), taken := p.taken + [p.queue[0]])
    case Written =>
      && p.writer.Sending?
      && p' == p.(wire := p.wire + [p.writer.item], writer := if p.writer.item.Close? then Stopped else Receiving)
    case WriteFails => p.writer.Sending? && p' == p.(writer := Stopped)
    case Abort => p' == p.(writer := Stopped)
    case _ => false
  }

  predicate Step(s: Socket, a: Action, s': Socket) {
    match a
    case Call(t, pc) => t !in s.calls && Begins(pc) && s' == s.(calls := s.calls[t := pc])
    case Continue(t) =>
      && t in s.calls && !s.calls[t].Returned?
      && s' == Socket(NextFlags(s.flags, s.calls[t]), NextPipe(s.pipe, s.calls[t]),
        s.calls[t := NextPc(s.flags, Accepts(s.pipe), s.calls[t])])
    case _ => WriterStep(s.pipe, a, s'.pipe) && s' == s.(pipe := s'.pipe)
  }

  predicate Run(states: seq<Socket>, acts: seq<Action>) {
    && |states| == |acts| + 1 && Init(states[0])
    && forall i :: 0 <= i < |acts| ==> Step(states[i], acts[i], states[i + 1])
  }

  // ---- the pipe --------------------------------------------------------------

  /** The queue is what was accepted and not yet taken, in order. */
  predicate Fifo(p: Pipe) {
    && p.accepted == p.taken + p.queue
    && |p.queue| <= OUTGOING_QUEUE
    && p.wire <= p.taken
    && (p.writer == Receiving ==> p.wire == p.taken)
    && (p.writer.Sending? ==> p.taken == p.wire + [p.writer.item])
  }

  /** The writer stops at a Close, so what it took holds one only at the end. */
  predicate CloseIsLast(p: Pipe) {
    && (forall i :: 0 <= i < |p.taken| - 1 ==> p.taken[i].Frame?)
    && (p.taken != [] && p.taken[|p.taken| - 1].Close? ==> p.writer != Receiving)
  }

  lemma PipeKeeps(p: Pipe, a: Action, p': Pipe)
    requires Fifo(p) && CloseIsLast(p) && WriterStep(p, a, p')
    ensures Fifo(p') && CloseIsLast(p') && p'.accepted == p.accepted
  {
    if a.Receive? { assert p.queue == [p.queue[0]] + p.queue[1..]; }
  }

  lemma EnqueueKeeps(p: Pipe, pc: Pc)
    requires Fifo(p) && CloseIsLast(p)
    ensures Fifo(NextPipe(p, pc)) && CloseIsLast(NextPipe(p, pc))
  {
  }

  // ---- the calls -------------------------------------------------------------

  predicate Closing(pc: Pc) { pc.CloseRemove? || pc.CloseSend? }

  predicate HasClose(items: seq<Item>) { exists i :: 0 <= i < |items| && items[i].Close? }

  predicate OneClose(items: seq<Item>) {
    forall i, j :: 0 <= i < j < |items| ==> items[i].Frame? || items[j].Frame?
  }

  /** The call that won the swap is the only one that may enqueue a Close, once. */
  predicate OneCloser(f: Flags, accepted: seq<Item>, calls: map<nat, Pc>) {
    && OneClose(accepted)
    && (HasClose(accepted) ==> f.closed && !f.registered && forall t :: t in calls ==> !Closing(calls[t]))
    && (forall t, u :: t in calls && u in calls && Closing(calls[t]) && Closing(calls[u]) ==> t == u)
  }

  /** What a call's position says about the flags. */
  predicate Placed(f: Flags, pc: Pc) {
    && (pc.PushRemove? || pc.PushKill? || pc.CloseKill? || pc.EndRemove? || Closing(pc) ==> f.closed)
    && (pc.PushKill? || pc.CloseSend? || pc.CloseKill? ==> !f.registered)
    && (pc.EndRemove? ==> f.ended)
    && (!f.registered ==> f.closed)
  }

  /** No flag is ever taken back. */
  predicate Onward(f: Flags, f': Flags) {
    && (f.closed ==> f'.closed) && (f'.registered ==> f.registered)
    && (f.killed ==> f'.killed) && (f.ended ==> f'.ended)
  }

  ghost predicate Inv(s: Socket) {
    && Fifo(s.pipe) && CloseIsLast(s.pipe)
    && OneCloser(s.flags, s.pipe.accepted, s.calls)
    && (!s.flags.registered ==> s.flags.closed)
    && forall t :: t in s.calls ==> Placed(s.flags, s.calls[t])
  }

  lemma AppendFrame(items: seq<Item>, f: string)
    requires OneClose(items)
    ensures OneClose(items + [Frame(f)]) && (HasClose(items + [Frame(f)]) <==> HasClose(items))
  {
    var more := items + [Frame(f)];
    if HasClose(items) {
      var i :| 0 <= i < |items| && items[i].Close?;
      assert more[i].Close?;
    }
  }

  lemma AppendClose(items: seq<Item>, c: Item)
    requires !HasClose(items)
    ensures OneClose(items + [c])
  {
  }

  lemma NextIsPlaced(f: Flags, pc: Pc, accepts: bool)
    requires Placed(f, pc)
    ensures Onward(f, NextFlags(f, pc)) && Placed(NextFlags(f, pc), NextPc(f, accepts, pc))
    ensures Closing(NextPc(f, accepts, pc)) ==> Closing(pc) || !f.closed
  {
  }

  lemma PlacedStays(f: Flags, f': Flags, pc: Pc)
    requires Placed(f, pc) && Onward(f, f') && (!f'.registered ==> f'.closed)
    ensures Placed(f', pc)
  {
  }

  /** What a call adds to the queue keeps the single closer. */
  lemma CallKeepsCloser(s: Socket, t: nat, s': Socket)
    requires Inv(s) && Step(s, Continue(t), s')
    ensures OneCloser(s'.flags, s'.pipe.accepted, s'.calls)
  {
    var pc := s.calls[t];
    NextIsPlaced(s.flags, pc, Accepts(s.pipe));
    if pc.PushSend? { AppendFrame(s.pipe.accepted, pc.frame); }
    if pc.CloseSend? { AppendClose(s.pipe.accepted, Close(pc.code, pc.reason)); }
    hide OneClose, HasClose, Fifo, CloseIsLast, Accepts, NextPc, NextFlags;
  }

  lemma CallKeeps(s: Socket, t: nat, s': Socket)
    requires Inv(s) && Step(s, Continue(t), s')
    ensures Inv(s')
  {
    CallKeepsCloser(s, t, s');
    EnqueueKeeps(s.pipe, s.calls[t]);
    NextIsPlaced(s.flags, s.calls[t], Accepts(s.pipe));
    forall u | u in s'.calls ensures Placed(s'.flags, s'.calls[u]) {
      if u != t { PlacedStays(s.flags, s'.flags, s.calls[u]); }
    }
    hide OneCloser, Fifo, CloseIsLast, NextPc, NextFlags, NextPipe;
  }

  lemma StepKeeps(s: Socket, a: Action, s': Socket)
    requires Inv(s) && Step(s, a, s')
    ensures Inv(s')
  {
    hide OneClose, HasClose;
    match a
    case Call(_, _) =>
    case Continue(t) => CallKeeps(s, t, s');
    case _ => PipeKeeps(s.pipe, a, s'.pipe);
  }

  lemma {:induction false} EveryStateIsSafe(states: seq<Socket>, acts: seq<Action>, n: nat)
    requires Run(states, acts) && n < |states|
    ensures Inv(states[n])
    decreases n
  {
    if n > 0 {
      EveryStateIsSafe(states, acts, n - 1);
      hide Inv, Step;
      StepKeeps(states[n - 1], acts[n - 1], states[n]);
    } else {
      assert !HasClose(states[0].pipe.accepted);
    }
  }

  // ---- the wire --------------------------------------------------------------

  /**
    In every run the wire carries a prefix of what the queue accepted, a Close
    only as its last item, and the queue accepts at most one Close in all.
   */
  lemma WireEndsAtClose(states: seq<Socket>, acts: seq<Action>, n: nat)
    requires Run(states, acts) && n < |states|
    ensures var s := states[n];
      && s.pipe.wire <= s.pipe.accepted && OneClose(s.pipe.accepted) && |s.pipe.queue| <= 256
      && forall i :: 0 <= i < |s.pipe.wire| - 1 ==> s.pipe.wire[i].Frame?
  {
    EveryStateIsSafe(states, acts, n);
  }

  /** The writer is done once a Close is on the wire. */
  lemma StopsAfterClose(s: Socket)
    requires Inv(s) && HasClose(s.pipe.wire)
    ensures s.pipe.writer == Stopped
  {
    hide OneCloser, Placed;
    var i :| 0 <= i < |s.pipe.wire| && s.pipe.wire[i].Close?;
    assert s.pipe.taken[i] == s.pipe.wire[i];
  }

  /** Once a Close is written, nothing is ever written again. */
  lemma {:induction false} NothingFollowsClose(states: seq<Socket>, acts: seq<Action>, n: nat, m: nat)
    requires Run(states, acts) && n <= m < |states| && HasClose(states[n].pipe.wire)
    ensures states[m].pipe.wire == states[n].pipe.wire
    decreases m
  {
    if n < m {
      NothingFollowsClose(states, acts, n, m - 1);
      EveryStateIsSafe(states, acts, m - 1);
      StopsAfterClose(states[m - 1]);
      hide Inv, HasClose;
      assert Step(states[m - 1], acts[m - 1], states[m]);
    }
  }

  /** By the time a Close can be seen on the wire, the socket is no longer a recipient. */
  lemma ClosedSocketsAreReleased(states: seq<Socket>, acts: seq<Action>, n: nat)
    requires Run(states, acts) && n < |states| && HasClose(states[n].pipe.wire)
    ensures !states[n].flags.registered && states[n].flags.closed
  {
    EveryStateIsSafe(states, acts, n);
    var s := states[n];
    var i :| 0 <= i < |s.pipe.wire| && s.pipe.wire[i].Close?;
    assert s.pipe.accepted[i] == s.pipe.wire[i];
  }

  // ---- pushes after the flag -------------------------------------------------

  predicate Refused(s: Socket, t: nat) {
    s.flags.closed && (t in s.calls ==> s.calls[t].PushLoad? || s.calls[t] == Returned(false))
  }

  /** A push called after the flag went up never enqueues and never reports success. */
  lemma {:induction false} LatePushIsRefused(states: seq<Socket>, acts: seq<Action>, n: nat, m: nat, t: nat)
    requires Run(states, acts) && n <= m < |states| && states[n].flags.closed && t !in states[n].calls
    requires forall i :: n <= i < |acts| && acts[i].Call? && acts[i].t == t ==> acts[i].pc.PushLoad?
    ensures Refused(states[m], t)
    decreases m
  {
    if n < m {
      LatePushIsRefused(states, acts, n, m - 1, t);
      assert Step(states[m - 1], acts[m - 1], states[m]);
    }
  }

  // ---- nothing is left half closed -------------------------------------------

  predicate Finishing(pc: Pc) {
    pc.PushRemove? || pc.PushKill? || pc.CloseRemove? || pc.CloseSend? || pc.CloseKill? || pc.EndRemove?
  }

  /** Released, with the peer told, the connection killed, or the session over. */
  predicate Settled(s: Socket) { !s.flags.registered && (s.flags.killed || s.flags.ended || HasClose(s.pipe.accepted)) }

  ghost predicate Accounted(s: Socket) {
    s.flags.closed ==> Settled(s) || exists t :: t in s.calls && Finishing(s.calls[t])
  }

  lemma SettledStays(s: Socket, a: Action, s': Socket)
    requires Settled(s) && Step(s, a, s')
    ensures Settled(s')
  {
    if HasClose(s.pipe.accepted) {
      var i :| 0 <= i < |s.pipe.accepted| && s.pipe.accepted[i].Close?;
      assert s'.pipe.accepted[i] == s.pipe.accepted[i];
    }
  }

  lemma FinisherMoves(s: Socket, t: nat, s': Socket)
    requires Step(s, Continue(t), s') && Finishing(s.calls[t]) && Placed(s.flags, s.calls[t])
    ensures Settled(s') || Finishing(s'.calls[t])
  {
    if s.calls[t].CloseSend? && Accepts(s.pipe) {
      assert s'.pipe.accepted[|s.pipe.accepted|].Close?;
    }
  }

  lemma AccountedKeeps(s: Socket, a: Action, s': Socket)
    requires Inv(s) && Accounted(s) && Step(s, a, s')
    ensures Accounted(s')
  {
    hide Fifo, CloseIsLast, OneCloser;
    if Settled(s) {
      SettledStays(s, a, s');
    } else if s.flags.closed {
      var t :| t in s.calls && Finishing(s.calls[t]);
      if a == Continue(t) {
        FinisherMoves(s, t, s');
      }
      hide Settled;
      assert t in s'.calls && (a != Continue(t) ==> s'.calls[t] == s.calls[t]);
    } else if s'.flags.closed {
      assert a.Continue? && Finishing(s'.calls[a.t]);
    }
  }

  lemma {:induction false} EveryStateIsAccounted(states: seq<Socket>, acts: seq<Action>, n: nat)
    requires Run(states, acts) && n < |states|
    ensures Accounted(states[n])
    decreases n
  {
    if n > 0 {
      EveryStateIsAccounted(states, acts, n - 1);
      EveryStateIsSafe(states, acts, n - 1);
      hide Inv, Step, Accounted;
      AccountedKeeps(states[n - 1], acts[n - 1], states[n]);
    }
  }

  /** When no call is under way, a closed socket is released and its connection is on the way out. */
  lemma QuietClosedSocketIsSettled(states: seq<Socket>, acts: seq<Action>, n: nat)
    requires Run(states, acts) && n < |states| && states[n].flags.closed
    requires forall t :: t in states[n].calls ==> states[n].calls[t].Returned?
    ensures Settled(states[n])
  {
    EveryStateIsAccounted(states, acts, n);
  }

  // ---- the writer ------------------------------------------------------------

  /** What reaches the wire of the items received, given which sends succeed. */
  function WrittenOf(items: seq<Item>, sent: seq<bool>): (wire: seq<Item>)
    requires |sent| == |items|
  {
    if items == [] || !sent[0] then []
    else if items[0].Close? then [items[0]]
    else [items[0]] + WrittenOf(items[1..], sent[1..])
  }

  /** `pump_writer` over the items the channel yields. */
  method PumpWriter(items: seq<Item>, sent: seq<bool>) returns (wire: seq<Item>)
    requires |sent| == |items|
    ensures wire == WrittenOf(items, sent)
  {
    wire := [];
    var i := 0;
    while i < |items|
      invariant 0 <= i <= |items|
      invariant wire + WrittenOf(items[i..], sent[i..]) == WrittenOf(items, sent)
    {
      if !sent[i] {
        break;
      }
      wire := wire + [items[i]];
      if items[i].Close? {
        break;
      }
      i := i + 1;
    }
  }

  /** The wire is a prefix that stops at the first Close or the first failed send, and no sooner. */
  lemma {:induction false} WrittenStops(items: seq<Item>, sent: seq<bool>)
    requires |sent| == |items|
    ensures var wire := WrittenOf(items, sent);
      && wire <= items
      && (forall i :: 0 <= i < |wire| ==> sent[i])
      && (forall i :: 0 <= i < |wire| - 1 ==> wire[i].Frame?)
      && (|wire| < |items| ==> !sent[|wire|] || (wire != [] && wire[|wire| - 1].Close?))
  {
    if items != [] && sent[0] && items[0].Frame? {
      WrittenStops(items[1..], sent[1..]);
    }
  }
}
