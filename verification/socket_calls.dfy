/** What the answer of a push or a close on a socket means, over every run. */
module SocketCalls {
  import opened SocketWire

  /** What call `t` put on the queue in the first `m` steps. */
  function Own(states: seq<Socket>, acts: seq<Action>, t: nat, m: nat): (items: seq<Item>)
    requires |states| == |acts| + 1 && m <= |acts|
  {
    if m == 0 then []
    else
      var was, now := states[m - 1].pipe.accepted, states[m].pipe.accepted;
      Own(states, acts, t, m - 1) + if acts[m - 1] == Continue(t) && |was| <= |now| then now[|was|..] else []
  }

  /** Step `i` is a step of call `t`. */
  predicate Takes(states: seq<Socket>, acts: seq<Action>, t: nat, i: nat)
    requires |states| == |acts| + 1
  {
    i < |acts| && acts[i] == Continue(t) && t in states[i].calls
  }

  /** The call reads the flag and finds the socket closed. */
  predicate FindsClosed(states: seq<Socket>, acts: seq<Action>, t: nat, i: nat)
    requires |states| == |acts| + 1
  {
    Takes(states, acts, t, i) && states[i].calls[t].PushLoad? && states[i].flags.closed
  }

  /** The call sends, and finds 256 items waiting or the writer gone. */
  predicate FindsFull(states: seq<Socket>, acts: seq<Action>, t: nat, i: nat)
    requires |states| == |acts| + 1
  {
    && Takes(states, acts, t, i) && (states[i].calls[t].PushSend? || states[i].calls[t].CloseSend?)
    && (states[i].pipe.writer == Stopped || |states[i].pipe.queue| >= 256)
  }

  /** The call raises the flag. */
  predicate Raises(states: seq<Socket>, acts: seq<Action>, t: nat, i: nat)
    requires |states| == |acts| + 1
  {
    Takes(states, acts, t, i) && !states[i].flags.closed && states[i + 1].flags.closed
  }

  predicate FoundClosed(states: seq<Socket>, acts: seq<Action>, t: nat, m: nat)
    requires |states| == |acts| + 1
  {
    exists i :: 0 <= i < m && FindsClosed(states, acts, t, i)
  }

  predicate FoundFull(states: seq<Socket>, acts: seq<Action>, t: nat, m: nat)
    requires |states| == |acts| + 1
  {
    exists i :: 0 <= i < m && FindsFull(states, acts, t, i)
  }

  predicate Raised(states: seq<Socket>, acts: seq<Action>, t: nat, m: nat)
    requires |states| == |acts| + 1
  {
    exists i :: 0 <= i < m && Raises(states, acts, t, i)
  }

  // ---- one more step ---------------------------------------------------------

  /** What a history gains by a step: the call's own step may add to it, others' steps do not. */
  lemma HistoryStep(states: seq<Socket>, acts: seq<Action>, t: nat, m: nat)
    requires |states| == |acts| + 1 && m < |acts|
    ensures FoundClosed(states, acts, t, m + 1) <==> FoundClosed(states, acts, t, m) || FindsClosed(states, acts, t, m)
    ensures FoundFull(states, acts, t, m + 1) <==> FoundFull(states, acts, t, m) || FindsFull(states, acts, t, m)
    ensures Raised(states, acts, t, m + 1) <==> Raised(states, acts, t, m) || Raises(states, acts, t, m)
  {
    hide FindsClosed, FindsFull, Raises;
  }

  lemma OneStep(states: seq<Socket>, acts: seq<Action>, i: nat)
    requires Run(states, acts) && i + 1 < |states|
    ensures |states| == |acts| + 1 && Step(states[i], acts[i], states[i + 1])
  {
    hide Step;
  }

  /** Another's step leaves a call where it is and takes back no flag. */
  lemma OthersStep(s: Socket, a: Action, s': Socket, t: nat)
    requires Step(s, a, s') && t in s.calls && a != Continue(t)
    ensures t in s'.calls && s'.calls[t] == s.calls[t] && Onward(s.flags, s'.flags)
  {
  }

  /** A call that has not begun has no history. */
  lemma {:induction false} NotBegun(states: seq<Socket>, acts: seq<Action>, t: nat, m: nat)
    requires Run(states, acts) && m < |states| && t !in states[m].calls
    ensures Own(states, acts, t, m) == []
    ensures !FoundClosed(states, acts, t, m) && !FoundFull(states, acts, t, m) && !Raised(states, acts, t, m)
    decreases m
  {
    if m > 0 {
      assert Step(states[m - 1], acts[m - 1], states[m]);
      NotBegun(states, acts, t, m - 1);
      HistoryStep(states, acts, t, m - 1);
    }
  }

  /** Nor has one that has just begun. */
  lemma JustBegun(states: seq<Socket>, acts: seq<Action>, t: nat, b: nat, pc: Pc)
    requires Run(states, acts) && b < |acts| && acts[b] == Call(t, pc)
    ensures t in states[b + 1].calls && states[b + 1].calls[t] == pc && Own(states, acts, t, b + 1) == []
    ensures !FoundClosed(states, acts, t, b + 1) && !FoundFull(states, acts, t, b + 1) && !Raised(states, acts, t, b + 1)
  {
    assert Step(states[b], acts[b], states[b + 1]);
    hide Run;
    NotBegun(states, acts, t, b);
    HistoryStep(states, acts, t, b);
    hide FoundClosed, FoundFull, Raised;
  }

  // ---- pushes ----------------------------------------------------------------

  /** Where a push of `frame` stands. */
  predicate PushIs(pc: Pc, frame: string, f: Flags, own: seq<Item>, foundClosed: bool, foundFull: bool) {
    match pc
    case PushLoad(x) => x == frame && own == [] && !foundClosed && !foundFull
    case PushSend(x) => x == frame && own == [] && !foundClosed && !foundFull
    case PushStore => own == [] && !foundClosed && foundFull
    case PushRemove => own == [] && !foundClosed && foundFull && f.closed
    case PushKill => own == [] && !foundClosed && foundFull && f.closed && !f.registered
    case Returned(ok) =>
      if ok then own == [Frame(frame)] && !foundClosed && !foundFull
      else
        && own == [] && f.closed && (foundClosed || foundFull)
        && (foundFull ==> !f.registered && f.killed)
    case _ => false
  }

  predicate PushAt(states: seq<Socket>, acts: seq<Action>, t: nat, m: nat, frame: string)
    requires |states| == |acts| + 1 && m <= |acts|
  {
    && t in states[m].calls
    && PushIs(states[m].calls[t], frame, states[m].flags, Own(states, acts, t, m),
      FoundClosed(states, acts, t, m), FoundFull(states, acts, t, m))
  }

  /** One step of the push itself. */
  lemma PushMoves(f: Flags, p: Pipe, pc: Pc, frame: string)
    requires PushIs(pc, frame, f, [], false, pc.PushStore? || pc.PushRemove? || pc.PushKill?) && !pc.Returned?
    ensures var added := NextPipe(p, pc).accepted;
      && |p.accepted| <= |added|
      && PushIs(NextPc(f, Accepts(p), pc), frame, NextFlags(f, pc), added[|p.accepted|..], pc.PushLoad? && f.closed,
        pc.PushStore? || pc.PushRemove? || pc.PushKill? || (pc.PushSend? && (p.writer == Stopped || |p.queue| >= 256)))
  {
  }

  /** Before it returns, its history is what its position says. */
  lemma PushOpen(pc: Pc, frame: string, f: Flags, own: seq<Item>, foundClosed: bool, foundFull: bool)
    requires PushIs(pc, frame, f, own, foundClosed, foundFull) && !pc.Returned?
    ensures own == [] && !foundClosed && (foundFull <==> pc.PushStore? || pc.PushRemove? || pc.PushKill?)
  {
  }

  lemma PushSteps(states: seq<Socket>, acts: seq<Action>, t: nat, m: nat, frame: string)
    requires |states| == |acts| + 1 && m < |acts| && PushAt(states, acts, t, m, frame)
    requires acts[m] == Continue(t) && Step(states[m], acts[m], states[m + 1])
    ensures PushAt(states, acts, t, m + 1, frame)
  {
    var s, s' := states[m], states[m + 1];
    HistoryStep(states, acts, t, m);
    hide FoundClosed, FoundFull, Raised, PushIs, NextPc, NextFlags, NextPipe;
    PushOpen(s.calls[t], frame, s.flags, Own(states, acts, t, m), FoundClosed(states, acts, t, m), FoundFull(states, acts, t, m));
    PushMoves(s.flags, s.pipe, s.calls[t], frame);
    var added := s'.pipe.accepted[|s.pipe.accepted|..];
    assert Own(states, acts, t, m + 1) == [] + added == added;
  }

  lemma PushWaits(states: seq<Socket>, acts: seq<Action>, t: nat, m: nat, frame: string)
    requires |states| == |acts| + 1 && m < |acts| && PushAt(states, acts, t, m, frame)
    requires acts[m] != Continue(t) && Step(states[m], acts[m], states[m + 1])
    ensures PushAt(states, acts, t, m + 1, frame)
  {
    HistoryStep(states, acts, t, m);
    OthersStep(states[m], acts[m], states[m + 1], t);
    hide FoundClosed, FoundFull, Raised, Step;
    var own := Own(states, acts, t, m);
    assert Own(states, acts, t, m + 1) == own + [] == own;
  }

  lemma PushBegins(states: seq<Socket>, acts: seq<Action>, t: nat, b: nat, frame: string)
    requires Run(states, acts) && b < |acts| && acts[b] == Call(t, PushLoad(frame))
    ensures PushAt(states, acts, t, b + 1, frame)
  {
    hide Run, Own, FoundClosed, FoundFull;
    JustBegun(states, acts, t, b, PushLoad(frame));
  }

  lemma {:induction false} EveryPushStands(states: seq<Socket>, acts: seq<Action>, t: nat, b: nat, m: nat, frame: string)
    requires Run(states, acts) && b < m < |states| && acts[b] == Call(t, PushLoad(frame))
    ensures PushAt(states, acts, t, m, frame)
    decreases m
  {
    hide *;
    OneStep(states, acts, m - 1);
    if m - 1 == b {
      PushBegins(states, acts, t, b, frame);
    } else {
      EveryPushStands(states, acts, t, b, m - 1, frame);
      if acts[m - 1] == Continue(t) {
        PushSteps(states, acts, t, m - 1, frame);
      } else {
        PushWaits(states, acts, t, m - 1, frame);
      }
    }
  }

  /**
    A push answers true exactly when it put its frame on the queue, once. It answers
    false when it found the socket closed, or else found 256 items waiting or the
    writer gone; then the socket is released and its connection killed.
   */
  lemma PushAnswers(states: seq<Socket>, acts: seq<Action>, t: nat, b: nat, m: nat, frame: string)
    requires Run(states, acts) && b < m < |states| && acts[b] == Call(t, PushLoad(frame))
    requires t in states[m].calls && states[m].calls[t].Returned?
    ensures var s := states[m];
      && Own(states, acts, t, m) == (if s.calls[t].ok then [Frame(frame)] else [])
      && (!s.calls[t].ok <==> FoundClosed(states, acts, t, m) || FoundFull(states, acts, t, m))
      && (!s.calls[t].ok ==> s.flags.closed)
      && (FoundFull(states, acts, t, m) ==> !s.flags.registered && s.flags.killed)
  {
    EveryPushStands(states, acts, t, b, m, frame);
    hide Run, FoundClosed, FoundFull;
  }

  // ---- closes ----------------------------------------------------------------

  /** Where a close with `code` and `reason` stands. */
  predicate CloseIs(pc: Pc, item: Item, f: Flags, own: seq<Item>, raised: bool, foundFull: bool) {
    match pc
    case CloseSwap(c, why) => Close(c, why) == item && own == [] && !raised && !foundFull
    case CloseRemove(c, why) => Close(c, why) == item && own == [] && raised && !foundFull && f.closed
    case CloseSend(c, why) => Close(c, why) == item && own == [] && raised && !foundFull && f.closed && !f.registered
    case CloseKill => own == [] && raised && foundFull && f.closed && !f.registered
    case Returned(ok) =>
      && f.closed && ok == raised && (ok ==> !f.registered)
      && own == (if ok && !foundFull then [item] else [])
      && (foundFull ==> ok && f.killed)
    case _ => false
  }

  predicate CloseAt(states: seq<Socket>, acts: seq<Action>, t: nat, m: nat, item: Item)
    requires |states| == |acts| + 1 && m <= |acts|
  {
    && t in states[m].calls
    && CloseIs(states[m].calls[t], item, states[m].flags, Own(states, acts, t, m),
      Raised(states, acts, t, m), FoundFull(states, acts, t, m))
  }

  /** One step of the close itself. */
  lemma CloseMoves(f: Flags, p: Pipe, pc: Pc, item: Item)
    requires CloseIs(pc, item, f, [], !pc.CloseSwap?, pc.CloseKill?) && !pc.Returned?
    ensures var added := NextPipe(p, pc).accepted;
      && |p.accepted| <= |added|
      && CloseIs(NextPc(f, Accepts(p), pc), item, NextFlags(f, pc), added[|p.accepted|..],
        !pc.CloseSwap? || (!f.closed && NextFlags(f, pc).closed),
        pc.CloseKill? || (pc.CloseSend? && (p.writer == Stopped || |p.queue| >= 256)))
  {
  }

  /** Before it returns, its history is what its position says. */
  lemma CloseOpen(pc: Pc, item: Item, f: Flags, own: seq<Item>, raised: bool, foundFull: bool)
    requires CloseIs(pc, item, f, own, raised, foundFull) && !pc.Returned?
    ensures own == [] && (raised <==> !pc.CloseSwap?) && (foundFull <==> pc.CloseKill?)
  {
  }

  lemma CloseSteps(states: seq<Socket>, acts: seq<Action>, t: nat, m: nat, item: Item)
    requires |states| == |acts| + 1 && m < |acts| && CloseAt(states, acts, t, m, item)
    requires acts[m] == Continue(t) && Step(states[m], acts[m], states[m + 1])
    ensures CloseAt(states, acts, t, m + 1, item)
  {
    var s, s' := states[m], states[m + 1];
    HistoryStep(states, acts, t, m);
    hide FoundClosed, FoundFull, Raised, CloseIs, NextPc, NextFlags, NextPipe;
    CloseOpen(s.calls[t], item, s.flags, Own(states, acts, t, m), Raised(states, acts, t, m), FoundFull(states, acts, t, m));
    CloseMoves(s.flags, s.pipe, s.calls[t], item);
    var added := s'.pipe.accepted[|s.pipe.accepted|..];
    assert Own(states, acts, t, m + 1) == [] + added == added;
  }

  lemma CloseWaits(states: seq<Socket>, acts: seq<Action>, t: nat, m: nat, item: Item)
    requires |states| == |acts| + 1 && m < |acts| && CloseAt(states, acts, t, m, item)
    requires acts[m] != Continue(t) && Step(states[m], acts[m], states[m + 1])
    ensures CloseAt(states, acts, t, m + 1, item)
  {
    HistoryStep(states, acts, t, m);
    OthersStep(states[m], acts[m], states[m + 1], t);
    hide FoundClosed, FoundFull, Raised, Step;
    var own := Own(states, acts, t, m);
    assert Own(states, acts, t, m + 1) == own + [] == own;
  }

  lemma CloseBegins(states: seq<Socket>, acts: seq<Action>, t: nat, b: nat, code: nat, reason: string)
    requires Run(states, acts) && b < |acts| && acts[b] == Call(t, CloseSwap(code, reason))
    ensures CloseAt(states, acts, t, b + 1, Close(code, reason))
  {
    hide Run, Own, Raised, FoundFull;
    JustBegun(states, acts, t, b, CloseSwap(code, reason));
  }

  lemma {:induction false} EveryCloseStands(states: seq<Socket>, acts: seq<Action>, t: nat, b: nat, m: nat,
    code: nat, reason: string)
    requires Run(states, acts) && b < m < |states| && acts[b] == Call(t, CloseSwap(code, reason))
    ensures CloseAt(states, acts, t, m, Close(code, reason))
    decreases m
  {
    hide *;
    OneStep(states, acts, m - 1);
    if m - 1 == b {
      CloseBegins(states, acts, t, b, code, reason);
    } else {
      EveryCloseStands(states, acts, t, b, m - 1, code, reason);
      if acts[m - 1] == Continue(t) {
        CloseSteps(states, acts, t, m - 1, Close(code, reason));
      } else {
        CloseWaits(states, acts, t, m - 1, Close(code, reason));
      }
    }
  }

  /**
    A close answers true exactly when it was the call that raised the flag. Then the
    socket is released, and a Close with its code and reason is on the queue, once,
    unless 256 items were waiting or the writer was gone, and the connection killed.
   */
  lemma CloseAnswers(states: seq<Socket>, acts: seq<Action>, t: nat, b: nat, m: nat, code: nat, reason: string)
    requires Run(states, acts) && b < m < |states| && acts[b] == Call(t, CloseSwap(code, reason))
    requires t in states[m].calls && states[m].calls[t].Returned?
    ensures var s := states[m];
      && (s.calls[t].ok <==> Raised(states, acts, t, m))
      && s.flags.closed && (s.calls[t].ok ==> !s.flags.registered)
      && Own(states, acts, t, m) ==
        (if s.calls[t].ok && !FoundFull(states, acts, t, m) then [Close(code, reason)] else [])
      && (FoundFull(states, acts, t, m) ==> s.flags.killed)
  {
    EveryCloseStands(states, acts, t, b, m, code, reason);
    hide Run, Raised, FoundFull;
  }
}
