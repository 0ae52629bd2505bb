/** When a frame is queued behind the Close of its socket. */
module SocketRace {
  import opened SocketWire

  // ---- the four moments ------------------------------------------------------

  predicate Moves(states: seq<Socket>, acts: seq<Action>, i: nat, t: nat) {
    i < |acts| && i < |states| && acts[i] == Continue(t) && t in states[i].calls
  }

  /** The push finds the flag down. */
  predicate Loads(states: seq<Socket>, acts: seq<Action>, i: nat, t: nat) {
    Moves(states, acts, i, t) && states[i].calls[t].PushLoad? && !states[i].flags.closed
  }

  /** The close raises the flag. */
  predicate Swaps(states: seq<Socket>, acts: seq<Action>, i: nat, t: nat) {
    Moves(states, acts, i, t) && states[i].calls[t].CloseSwap? && !states[i].flags.closed
  }

  /** The close gets its Close into the queue. */
  predicate Tells(states: seq<Socket>, acts: seq<Action>, i: nat, t: nat) {
    Moves(states, acts, i, t) && states[i].calls[t].CloseSend? && Accepts(states[i].pipe)
  }

  /** The push gets its frame into the queue. */
  predicate Sends(states: seq<Socket>, acts: seq<Action>, i: nat, t: nat) {
    Moves(states, acts, i, t) && states[i].calls[t].PushSend? && Accepts(states[i].pipe)
  }

  /** A push loads the flag, a close raises it and queues its Close, and only then does the push enqueue. */
  predicate Overtakes(states: seq<Socket>, acts: seq<Action>, t: nat, u: nat, i: nat, j: nat, k: nat, l: nat) {
    && i < j < k < l && Loads(states, acts, i, t) && Swaps(states, acts, j, u)
    && Tells(states, acts, k, u) && Sends(states, acts, l, t)
  }

  ghost predicate Overtaken(states: seq<Socket>, acts: seq<Action>, n: nat) {
    exists t: nat, u: nat, i: nat, j: nat, k: nat, l: nat :: l < n && Overtakes(states, acts, t, u, i, j, k, l)
  }

  predicate Behind(items: seq<Item>, i: nat, j: nat) { i < j < |items| && items[i].Close? && items[j].Frame? }

  ghost predicate FrameBehindClose(items: seq<Item>) { exists i: nat, j: nat :: Behind(items, i, j) }

  // ---- what the queue accepted -----------------------------------------------

  lemma StepAccepts(states: seq<Socket>, acts: seq<Action>, n: nat)
    requires Run(states, acts) && n < |acts|
    ensures var was, now := states[n].pipe.accepted, states[n + 1].pipe.accepted;
      || now == was
      || exists t ::
          || (Sends(states, acts, n, t) && now == was + [Frame(states[n].calls[t].frame)])
          || (Tells(states, acts, n, t) && now == was + [Close(states[n].calls[t].code, states[n].calls[t].reason)])
  {
    assert Step(states[n], acts[n], states[n + 1]);
    if acts[n].Continue? {
      assert Moves(states, acts, n, acts[n].t);
    }
  }

  lemma {:induction false} AcceptedGrows(states: seq<Socket>, acts: seq<Action>, m: nat, n: nat)
    requires Run(states, acts) && m <= n < |states|
    ensures states[m].pipe.accepted <= states[n].pipe.accepted
    decreases n
  {
    if m < n {
      AcceptedGrows(states, acts, m, n - 1);
      StepAccepts(states, acts, n - 1);
    }
  }

  lemma SendAppends(states: seq<Socket>, acts: seq<Action>, i: nat, t: nat)
    requires Run(states, acts) && (Sends(states, acts, i, t) || Tells(states, acts, i, t))
    ensures |states[i + 1].pipe.accepted| == |states[i].pipe.accepted| + 1
    ensures Sends(states, acts, i, t) ==> states[i + 1].pipe.accepted[|states[i].pipe.accepted|].Frame?
    ensures Tells(states, acts, i, t) ==> states[i + 1].pipe.accepted[|states[i].pipe.accepted|].Close?
  {
    assert Step(states[i], acts[i], states[i + 1]);
  }

  /** Every item in the queue's history got there by a send. */
  lemma {:induction false} WasSent(states: seq<Socket>, acts: seq<Action>, n: nat, j: nat) returns (i: nat, t: nat)
    requires Run(states, acts) && n < |states| && j < |states[n].pipe.accepted|
    ensures i < n && |states[i].pipe.accepted| == j
    ensures if states[n].pipe.accepted[j].Frame? then Sends(states, acts, i, t) else Tells(states, acts, i, t)
    decreases n
  {
    StepAccepts(states, acts, n - 1);
    if j < |states[n - 1].pipe.accepted| {
      AcceptedGrows(states, acts, n - 1, n);
      hide Run, Sends, Tells;
      i, t := WasSent(states, acts, n - 1, j);
    } else {
      i := n - 1;
      t := acts[i].t;
    }
  }

  // ---- how a call got where it stands ----------------------------------------

  lemma {:induction false} ClosedStays(states: seq<Socket>, acts: seq<Action>, m: nat, n: nat)
    requires Run(states, acts) && m <= n < |states| && states[m].flags.closed
    ensures states[n].flags.closed
    decreases n
  {
    if m < n {
      ClosedStays(states, acts, m, n - 1);
      assert Step(states[n - 1], acts[n - 1], states[n]);
    }
  }

  lemma {:induction false} WasLoaded(states: seq<Socket>, acts: seq<Action>, n: nat, t: nat) returns (i: nat)
    requires Run(states, acts) && n < |states| && t in states[n].calls && states[n].calls[t].PushSend?
    ensures i < n && Loads(states, acts, i, t)
    decreases n
  {
    assert Step(states[n - 1], acts[n - 1], states[n]);
    i := n - 1;
    if acts[i] != Continue(t) {
      i := WasLoaded(states, acts, n - 1, t);
    }
  }

  lemma {:induction false} WasSwapped(states: seq<Socket>, acts: seq<Action>, n: nat, t: nat) returns (i: nat)
    requires Run(states, acts) && n < |states| && t in states[n].calls && Closing(states[n].calls[t])
    ensures i < n && Swaps(states, acts, i, t)
    decreases n
  {
    assert Step(states[n - 1], acts[n - 1], states[n]);
    i := n - 1;
    if acts[i] != Continue(t) || Closing(states[i].calls[t]) {
      i := WasSwapped(states, acts, n - 1, t);
    }
  }

  // ---- exactly when ----------------------------------------------------------

  /** The flag was loaded before it was raised. */
  lemma LoadsBefore(states: seq<Socket>, acts: seq<Action>, i: nat, t: nat, j: nat, u: nat)
    requires Run(states, acts) && Loads(states, acts, i, t) && Swaps(states, acts, j, u)
    ensures i < j
  {
    assert Step(states[j], acts[j], states[j + 1]);
    if j < i {
      ClosedStays(states, acts, j + 1, i);
    }
  }

  lemma BehindIsOvertaken(states: seq<Socket>, acts: seq<Action>, n: nat, c: nat, f: nat)
    requires Run(states, acts) && n < |states| && Behind(states[n].pipe.accepted, c, f)
    ensures Overtaken(states, acts, n)
  {
    var k, u := WasSent(states, acts, n, c);
    var l, t := WasSent(states, acts, n, f);
    if l <= k {
      AcceptedGrows(states, acts, l, k);
    }
    var i := WasLoaded(states, acts, l, t);
    var j := WasSwapped(states, acts, k, u);
    LoadsBefore(states, acts, i, t, j, u);
    assert Overtakes(states, acts, t, u, i, j, k, l);
  }

  lemma OvertakenIsBehind(states: seq<Socket>, acts: seq<Action>, n: nat, k: nat, u: nat, l: nat, t: nat)
    requires Run(states, acts) && n < |states| && k < l < n && Tells(states, acts, k, u) && Sends(states, acts, l, t)
    ensures FrameBehindClose(states[n].pipe.accepted)
  {
    hide Run;
    SendAppends(states, acts, k, u);
    SendAppends(states, acts, l, t);
    AcceptedGrows(states, acts, k + 1, l);
    AcceptedGrows(states, acts, l, l + 1);
    AcceptedGrows(states, acts, l + 1, n);
    assert Behind(states[n].pipe.accepted, |states[k].pipe.accepted|, |states[l].pipe.accepted|);
  }

  /**
    In every run, a frame stands behind the Close if and only if its push loaded
    the flag before a close raised it, and enqueued after that close did.
   */
  lemma FrameBehindCloseIff(states: seq<Socket>, acts: seq<Action>, n: nat)
    requires Run(states, acts) && n < |states|
    ensures FrameBehindClose(states[n].pipe.accepted) <==> Overtaken(states, acts, n)
  {
    hide Run, Behind, Loads, Swaps, Tells, Sends;
    if c: nat, f: nat :| Behind(states[n].pipe.accepted, c, f) {
      BehindIsOvertaken(states, acts, n, c, f);
    }
    if t: nat, u: nat, i: nat, j: nat, k: nat, l: nat :| l < n && Overtakes(states, acts, t, u, i, j, k, l) {
      OvertakenIsBehind(states, acts, n, k, u, l, t);
    }
  }

  // ---- such a run ------------------------------------------------------------

  lemma WriterTakesClose(s: Socket, close: Item, late: Item)
    requires close.Close? && s.pipe == Pipe([close, late], Receiving, [], [close, late], [])
    ensures var s' := s.(pipe := Pipe([late], Sending(close), [], [close, late], [close]));
      && Step(s, Receive, s')
      && Step(s', Written, s.(pipe := Pipe([late], Stopped, [close], [close, late], [close])))
  {
    assert [close, late][1..] == [late];
  }

  const LATE: Pc := PushSend("late")
  const OPEN: Flags := Flags(false, true, false, false)
  const SHUT: Flags := Flags(true, false, false, false)
  const EMPTY: Pipe := Pipe([], Receiving, [], [], [])

  /** A call of its own steps on. */
  lemma Steps(s: Socket, t: nat, s': Socket)
    requires t in s.calls && !s.calls[t].Returned?
    requires s'.flags == NextFlags(s.flags, s.calls[t]) && s'.pipe == NextPipe(s.pipe, s.calls[t])
    requires s'.calls == s.calls[t := NextPc(s.flags, Accepts(s.pipe), s.calls[t])]
    ensures Step(s, Continue(t), s')
  {
  }

  lemma GoesOn(states: seq<Socket>, acts: seq<Action>, a: Action, s: Socket)
    returns (states': seq<Socket>, acts': seq<Action>)
    requires Run(states, acts) && Step(states[|states| - 1], a, s)
    ensures Run(states', acts') && states'[|states'| - 1] == s
  {
    hide Step;
    states', acts' := states + [s], acts + [a];
  }

  lemma LatePushLoads() returns (states: seq<Socket>, acts: seq<Action>)
    ensures Run(states, acts)
    ensures states[|states| - 1] == Socket(OPEN, EMPTY, map[0 := LATE, 1 := CloseSwap(4429, "")])
  {
    states, acts := [Socket(OPEN, EMPTY, map[])], [];
    var s := Socket(OPEN, EMPTY, map[0 := PushLoad("late")]);
    states, acts := GoesOn(states, acts, Call(0, PushLoad("late")), s);
    Steps(s, 0, Socket(OPEN, EMPTY, map[0 := LATE]));
    hide Run;
    states, acts := GoesOn(states, acts, Continue(0), Socket(OPEN, EMPTY, map[0 := LATE]));
    s := Socket(OPEN, EMPTY, map[0 := LATE, 1 := CloseSwap(4429, "")]);
    states, acts := GoesOn(states, acts, Call(1, CloseSwap(4429, "")), s);
  }

  lemma CloseGoesFirst() returns (states: seq<Socket>, acts: seq<Action>)
    ensures Run(states, acts)
    ensures var close, late := Close(4429, ""), Frame("late");
      states[|states| - 1].pipe == Pipe([close, late], Receiving, [], [close, late], [])
  {
    var close, late := Close(4429, ""), Frame("late");
    var queued, both := Pipe([close], Receiving, [], [close], []), Pipe([close, late], Receiving, [], [close, late], []);
    var s0 := Socket(OPEN, EMPTY, map[0 := LATE, 1 := CloseSwap(4429, "")]);
    var s1 := Socket(OPEN.(closed := true), EMPTY, map[0 := LATE, 1 := CloseRemove(4429, "")]);
    var s2 := Socket(SHUT, EMPTY, map[0 := LATE, 1 := CloseSend(4429, "")]);
    var s3 := Socket(SHUT, queued, map[0 := LATE, 1 := Returned(true)]);
    var s4 := Socket(SHUT, both, map[0 := Returned(true), 1 := Returned(true)]);
    assert NextPipe(EMPTY, CloseSend(4429, "")) == queued;
    assert NextPipe(queued, LATE) == both;
    hide NextPipe, Run;
    Steps(s0, 1, s1);
    Steps(s1, 1, s2);
    Steps(s2, 1, s3);
    Steps(s3, 0, s4);
    hide Step;
    states, acts := LatePushLoads();
    states, acts := GoesOn(states, acts, Continue(1), s1);
    states, acts := GoesOn(states, acts, Continue(1), s2);
    states, acts := GoesOn(states, acts, Continue(1), s3);
    states, acts := GoesOn(states, acts, Continue(0), s4);
  }

  /** A push that loaded the flag before the swap queues its frame behind the Close; the wire never carries it. */
  lemma FrameQueuedBehindClose() returns (states: seq<Socket>, acts: seq<Action>)
    ensures Run(states, acts)
    ensures var p := states[|states| - 1].pipe;
      p.accepted == [Close(4429, ""), Frame("late")] && p.wire == [Close(4429, "")] && p.writer == Stopped
  {
    hide Step;
    var close, late := Close(4429, ""), Frame("late");
    states, acts := CloseGoesFirst();
    var s := states[|states| - 1];
    WriterTakesClose(s, close, late);
    states, acts := GoesOn(states, acts, Receive, s.(pipe := Pipe([late], Sending(close), [], [close, late], [close])));
    states, acts := GoesOn(states, acts, Written, s.(pipe := Pipe([late], Stopped, [close], [close, late], [close])));
  }
}
