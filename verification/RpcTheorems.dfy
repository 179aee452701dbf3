/** What every run of two joined peers guarantees, and what it does not. */
module RpcTheorems {
  import opened Common
  import opened Frames
  import opened RpcPeer
  import opened RpcSystem

  /** Every run starts here: two fresh peers, empty queues. */
  function Reached(wire: bool, handlerA: bool, handlerB: bool, ls: seq<Label>): Sys {
    Run(Init(wire, handlerA, handlerB), ls)
  }

  lemma ReachedInv(wire: bool, handlerA: bool, handlerB: bool, ls: seq<Label>)
    ensures Inv(Reached(wire, handlerA, handlerB, ls))
    ensures Reached(wire, handlerA, handlerB, ls).wire == wire
  {
    InitHolds(wire, handlerA, handlerB);
    RunKeepsInv(Init(wire, handlerA, handlerB), ls);
    RunKeepsWire(Init(wire, handlerA, handlerB), ls);
  }

  lemma {:induction false} RunKeepsWire(s: Sys, ls: seq<Label>)
    ensures Run(s, ls).wire == s.wire
    decreases |ls|
  {
    if ls != [] {
      RunKeepsWire(Step(s, ls[0]), ls[1..]);
    }
  }

  // ---- Over the control plane ----

  /** The value that a payload becomes on the wire. */
  function OnWire(p: Payload): Payload {
    if p.Absent? then Bytes([]) else p
  }

  /** A reply that crosses the wire reads as a value exactly when the handler returned one, or raised an
      error with no text: that error arrives as the empty value. */
  lemma WireReplyReads(i: int, reply: Reply)
    requires Carry(true, ResponseOf(i, reply)).Some?
    ensures var outcome := ResponseOutcome(Carry(true, ResponseOf(i, reply)).value);
            && (forall v :: outcome == Value(v) <==>
                  (reply.Good? && v == OnWire(reply.payload)) || (reply == Bad("") && v == Bytes([])))
            && (forall m :: outcome == RemoteError(m) <==> reply == Bad(m) && m != "")
  {
  }

  // ---- Closing ----

  /** No future of `t` is new to `s`, and every one that was settled in `s` holds its outcome. */
  ghost predicate TableOnlyShrinks(s: PeerState, t: PeerState) {
    t.pending.Keys <= s.pending.Keys && OutcomesKept(s.pending, t.pending)
  }

  /** The results that callers of `s` have are the results they have in `t`. */
  ghost predicate ResultsKept(s: Node, t: Node) {
    forall i :: i in s.calls && s.calls[i].phase.Done? ==> i in t.calls && t.calls[i] == s.calls[i]
  }

  lemma FailingKeepsOutcomes(pending: Pending, outcome: Outcome)
    ensures OutcomesKept(pending, FailAll(FailAll(pending, outcome), PeerClosed))
    ensures FailAll(FailAll(pending, outcome), PeerClosed).Keys == pending.Keys
  {
  }

  lemma HandledKeepsOutcomes(n: Node, f: LogicalFrame)
    requires !f.kind.Unknown?
    ensures OutcomesKept(n.peer.pending, Handled(n, f).peer.pending)
    ensures Handled(n, f).peer.pending.Keys == n.peer.pending.Keys
    ensures Handled(n, f).calls == n.calls && (n.peer.closed ==> Handled(n, f).peer.closed)
  {
    HandledFrame(n, f);
    var m := FrameHandled(n.peer, f);
    assert OutcomesKept(n.peer.pending, m.pending) && m.pending.Keys == n.peer.pending.Keys;
    FailingKeepsOutcomes(m.pending, PeerClosed);
  }

  lemma CallBeginKeepsOutcomes(s: Sys, act: Action)
    requires IdsInOrder(s.a, s.ha)
    requires act.CallStart? || act.CallSend? || act.CallTimeout?
    ensures OutcomesKept(s.a.peer.pending, Do(s, act).a.peer.pending)
    ensures ResultsKept(s.a, Do(s, act).a) && Do(s, act).b == s.b
    ensures s.a.peer.closed ==> Do(s, act).a.peer.closed && Do(s, act).a.peer.pending.Keys <= s.a.peer.pending.Keys
  {
  }

  lemma EndingKeepsOutcomes(c: Node, d: Node, i: int, result: CallResult)
    requires i in c.calls && !c.calls[i].phase.Done? && d.calls == SetPhase(c, i, Done(result)).calls
    requires d.peer.pending == c.peer.pending || d.peer.pending == c.peer.pending - {i}
    ensures OutcomesKept(c.peer.pending, d.peer.pending) && ResultsKept(c, d)
    ensures d.peer.pending.Keys <= c.peer.pending.Keys
  {
  }

  lemma CallEndKeepsOutcomes(s: Sys, act: Action)
    requires act.CallReturn? || act.CallExpire? || act.CallAbandon?
    ensures OutcomesKept(s.a.peer.pending, Do(s, act).a.peer.pending)
    ensures ResultsKept(s.a, Do(s, act).a) && Do(s, act).b == s.b
    ensures s.a.peer.closed ==> Do(s, act).a.peer.closed && Do(s, act).a.peer.pending.Keys <= s.a.peer.pending.Keys
  {
    var t, i := Do(s, act), act.id;
    if i in s.a.calls && i in t.a.calls && t.a.calls[i] != s.a.calls[i] {
      EndingKeepsOutcomes(s.a, t.a, i, t.a.calls[i].phase.result);
    }
  }

  lemma ReceiveKeepsOutcomes(s: Sys)
    requires forall k :: 0 <= k < |s.ba| ==> !s.ba[k].kind.Unknown?
    ensures OutcomesKept(s.a.peer.pending, DoReceive(s).a.peer.pending)
    ensures ResultsKept(s.a, DoReceive(s).a) && DoReceive(s).b == s.b
    ensures s.a.peer.closed ==> DoReceive(s).a.peer.closed && DoReceive(s).a.peer.pending.Keys <= s.a.peer.pending.Keys
  {
    if s.ba != [] && Carry(s.wire, s.ba[0]).Some? {
      CarryKeeps(s.wire, s.ba[0]);
      HandledKeepsOutcomes(s.a, Carry(s.wire, s.ba[0]).value);
    }
  }

  lemma FailingKeepsNode(n: Node, m: Node, outcome: Outcome)
    requires m.calls == n.calls && m.peer.pending == FailAll(FailAll(n.peer.pending, outcome), PeerClosed)
    ensures OutcomesKept(n.peer.pending, m.peer.pending) && ResultsKept(n, m) && m.peer.pending.Keys == n.peer.pending.Keys
  {
    FailingKeepsOutcomes(n.peer.pending, outcome);
  }

  lemma ReaderStepFails(s: Sys, act: Action)
    requires act.EventDone? || act.ReaderStop? || act.Start? || act.FinishClose?
    ensures var t, outcome := Do(s, act), if act.ReaderStop? && act.failure.Some? then LocalError(act.failure.value) else PeerClosed;
            && t.b == s.b && t.a.calls == s.a.calls && (s.a.peer.closed ==> t.a.peer.closed)
            && (t.a.peer.pending == s.a.peer.pending
                || t.a.peer.pending == FailAll(FailAll(s.a.peer.pending, outcome), PeerClosed))
  {
  }

  lemma ReaderKeepsOutcomes(s: Sys, act: Action)
    requires act.EventDone? || act.ReaderStop? || act.Start? || act.FinishClose?
    ensures OutcomesKept(s.a.peer.pending, Do(s, act).a.peer.pending)
    ensures ResultsKept(s.a, Do(s, act).a) && Do(s, act).b == s.b
    ensures s.a.peer.closed ==> Do(s, act).a.peer.closed && Do(s, act).a.peer.pending.Keys <= s.a.peer.pending.Keys
  {
    ReaderStepFails(s, act);
    var t := Do(s, act);
    if t.a.peer.pending != s.a.peer.pending {
      FailingKeepsNode(s.a, t.a, if act.ReaderStop? && act.failure.Some? then LocalError(act.failure.value) else PeerClosed);
    }
  }

  lemma SendingKeepsOutcomes(s: Sys, act: Action)
    requires act.EmitEvent? || act.AskCancel? || act.HandlerDone? || act.HandlerGone? || act.BeginClose?
    ensures OutcomesKept(s.a.peer.pending, Do(s, act).a.peer.pending)
    ensures ResultsKept(s.a, Do(s, act).a) && Do(s, act).b == s.b
    ensures s.a.peer.closed ==> Do(s, act).a.peer.closed && Do(s, act).a.peer.pending.Keys <= s.a.peer.pending.Keys
  {
  }

  /** One step changes no settled outcome and no result, on either node. */
  lemma StepKeepsOutcomes(s: Sys, act: Action)
    requires IdsInOrder(s.a, s.ha) && (forall k :: 0 <= k < |s.ba| ==> !s.ba[k].kind.Unknown?)
    ensures OutcomesKept(s.a.peer.pending, Do(s, act).a.peer.pending)
    ensures ResultsKept(s.a, Do(s, act).a) && Do(s, act).b == s.b
    ensures s.a.peer.closed ==> Do(s, act).a.peer.closed && Do(s, act).a.peer.pending.Keys <= s.a.peer.pending.Keys
  {
    if act.Receive? {
      ReceiveKeepsOutcomes(s);
    } else if act.CallStart? || act.CallSend? || act.CallTimeout? {
      CallBeginKeepsOutcomes(s, act);
    } else if act.CallReturn? || act.CallExpire? || act.CallAbandon? {
      CallEndKeepsOutcomes(s, act);
    } else if act.EventDone? || act.ReaderStop? || act.Start? || act.FinishClose? {
      ReaderKeepsOutcomes(s, act);
    } else {
      SendingKeepsOutcomes(s, act);
    }
  }

  lemma StepKeepsClosed(s: Sys, l: Label)
    requires Inv(s) && AllSettled(s.a.peer)
    ensures AllSettled(Step(s, l).a.peer) && TableOnlyShrinks(s.a.peer, Step(s, l).a.peer)
    ensures ResultsKept(s.a, Step(s, l).a)
  {
    StepKeepsOutcomes(if l.byA then s else Swap(s), l.act);
  }

  /** A closed and settled peer stays so in every continuation of the run. */
  lemma {:induction false} RunKeepsClosed(s: Sys, ls: seq<Label>)
    requires Inv(s) && AllSettled(s.a.peer)
    ensures AllSettled(Run(s, ls).a.peer) && TableOnlyShrinks(s.a.peer, Run(s, ls).a.peer)
    ensures ResultsKept(s.a, Run(s, ls).a)
    decreases |ls|
  {
    if ls != [] {
      StepKeepsClosed(s, ls[0]);
      StepKeepsInv(s, ls[0]);
      RunKeepsClosed(Step(s, ls[0]), ls[1..]);
    }
  }

  predicate InDone(n: Node, i: int, result: CallResult) {
    i in n.calls && n.calls[i].phase == Done(result)
  }

  lemma WaitersCanReturn(t: Sys)
    requires Inv(t) && AllSettled(t.a.peer)
    ensures forall i :: InPhase(t.a, i, true) ==>
              && i in t.a.peer.pending
              && InDone(Do(t, CallReturn(i)).a, i, ResultOf(t.a.peer.pending[i].outcome))
  {
  }

  lemma SendersCanReturn(t: Sys)
    requires Inv(t) && AllSettled(t.a.peer)
    ensures forall i :: InPhase(t.a, i, false) ==>
              && i in t.a.peer.pending
              && InDone(Do(Do(t, CallSend(i)), CallReturn(i)).a, i, ResultOf(t.a.peer.pending[i].outcome))
  {
  }

  /** Once the reader of a node ran its final block or its `aclose` finished, then for the rest of the
      run: every pending future is settled, none is added, no outcome changes, and every caller still
      waiting can return at once with its outcome, and one that still sends can do so after that. `s` is the reached system seen from either node. */
  lemma NobodyWaitsOnAClosedPeer(wire: bool, handlerA: bool, handlerB: bool, ls: seq<Label>, s: Sys, rest: seq<Label>)
    requires s == Reached(wire, handlerA, handlerB, ls) || s == Swap(Reached(wire, handlerA, handlerB, ls))
    requires s.a.reader.Finished? || s.a.acloseDone
    ensures var t := Run(s, rest);
            && AllSettled(t.a.peer) && TableOnlyShrinks(s.a.peer, t.a.peer) && ResultsKept(s.a, t.a)
            && (forall i :: InPhase(t.a, i, true) ==>
                  i in t.a.peer.pending
                  && InDone(Do(t, CallReturn(i)).a, i, ResultOf(t.a.peer.pending[i].outcome)))
            && (forall i :: InPhase(t.a, i, false) ==>
                  i in t.a.peer.pending
                  && InDone(Do(Do(t, CallSend(i)), CallReturn(i)).a, i, ResultOf(t.a.peer.pending[i].outcome)))
            && (forall route, payload :: Do(t, CallStart(route, payload)) == t)
  {
    ReachedInv(wire, handlerA, handlerB, ls);
    assert Swap(Swap(Reached(wire, handlerA, handlerB, ls))) == Reached(wire, handlerA, handlerB, ls);
    RunKeepsClosed(s, rest);
    RunKeepsInv(s, rest);
    WaitersCanReturn(Run(s, rest));
    SendersCanReturn(Run(s, rest));
  }

  // ---- Where a request is ----

  /** Of a call that waits unsettled: its request is in the queue, or its handler runs, or its reply is
      on the way back, or the handler task was cancelled on the remote side; never two of these, and
      never none. A reply in the queue is not lost. */
  ghost predicate RequestAccountedFor(s: Sys, i: int)
    requires i in s.a.calls
  {
    var sent := RequestOf(i, s.a.calls[i]);
    var seen := Carry(s.wire, sent);
    i in s.ha.stage &&
    match s.ha.stage[i]
    case InFlight => sent in s.ab && !(seen.Some? && seen.value in s.b.peer.tasks)
    case Running => sent !in s.ab && seen.Some? && seen.value in s.b.peer.tasks
    case Dropped => sent !in s.ab && !(seen.Some? && seen.value in s.b.peer.tasks)
    case Replied(k) => sent !in s.ab && !(seen.Some? && seen.value in s.b.peer.tasks)
                       && k < |s.ha.served| && ResponseOf(i, s.ha.served[k].reply) in s.ba
  }

  lemma NoRequestIsLost(wire: bool, handlerA: bool, handlerB: bool, ls: seq<Label>, s: Sys)
    requires s == Reached(wire, handlerA, handlerB, ls) || s == Swap(Reached(wire, handlerA, handlerB, ls))
    ensures forall i :: InPhase(s.a, i, true) && i in s.a.peer.pending && s.a.peer.pending[i].Unsettled? ==>
              RequestAccountedFor(s, i)
  {
    ReachedInv(wire, handlerA, handlerB, ls);
    forall i | InPhase(s.a, i, true) && i in s.a.peer.pending && s.a.peer.pending[i].Unsettled?
      ensures RequestAccountedFor(s, i)
    {
      CarryKeeps(s.wire, RequestOf(i, s.a.calls[i]));
    }
  }

  // ---- Cancel frames ----

  /** A cancel frame reaches no handler task. It settles a future exactly when the receiver itself has an
      unsettled call under that id, whichever call the sender meant. */
  lemma CancelActsOnTheReceiversOwnCalls(p: PeerState, id: int)
    ensures FrameHandled(p, CancelOf(id)).tasks == p.tasks
    ensures FrameHandled(p, CancelOf(id)) != p <==> id in p.pending && p.pending[id].Unsettled?
    ensures FrameHandled(p, CancelOf(id)) != p ==>
              FrameHandled(p, CancelOf(id)).pending == p.pending[id := Settled(Cancelled)]
  {
  }

  /** In every run: a call ends cancelled only when the remote node timed out on its own call of the same
      id, or was asked to cancel that id. */
  lemma CancelledOnlyByTheRemotePeer(wire: bool, handlerA: bool, handlerB: bool, ls: seq<Label>, s: Sys)
    requires s == Reached(wire, handlerA, handlerB, ls) || s == Swap(Reached(wire, handlerA, handlerB, ls))
    ensures forall i :: InDone(s.a, i, Raised(Cancelled)) ==> i in s.hb.asked || InDone(s.b, i, TimedOut)
  {
    ReachedInv(wire, handlerA, handlerB, ls);
  }

  lemma {:induction false} RunExtends(s: Sys, ls: seq<Label>, l: Label)
    ensures Run(s, ls + [l]) == Step(Run(s, ls), l)
    decreases |ls|
  {
    if ls == [] {
      assert ls + [l] == [l];
      assert [l][1..] == [];
    } else {
      assert (ls + [l])[0] == ls[0] && (ls + [l])[1..] == ls[1..] + [l];
      RunExtends(Step(s, ls[0]), ls[1..], l);
    }
  }

  /** The run one step longer. */
  lemma Then(s0: Sys, ls: seq<Label>, byA: bool, act: Action) returns (longer: seq<Label>)
    ensures Run(s0, longer) == Step(Run(s0, ls), Label(byA, act))
  {
    longer := ls + [Label(byA, act)];
    RunExtends(s0, ls, Label(byA, act));
  }

  /** `a` called, `b` received the request and called under the same id; both requests are out. */
  lemma BothCall() returns (ls: seq<Label>)
    ensures var s := Reached(false, true, true, ls);
            && s.ab == [] && s.ba == [LogicalFrame(1, Request, Some("n"), Absent, None)]
            && s.a == Node(PeerState(2, map[1 := Unsettled], [], false, true, true), map[1 := Call("m", Absent, Waiting)], Receiving, false)
            && s.b == Node(PeerState(2, map[1 := Unsettled], [LogicalFrame(1, Request, Some("m"), Absent, None)], false, true, true),
                           map[1 := Call("n", Absent, Waiting)], Receiving, false)
            && s.ha.asked == s.hb.asked == {} && !s.wire
  {
    var s0 := Init(false, true, true);
    ls := Then(s0, [], true, CallStart("m", Absent));
    ls := Then(s0, ls, true, CallSend(1));
    assert Run(s0, ls).ab == [LogicalFrame(1, Request, Some("m"), Absent, None)];
    ls := Then(s0, ls, false, CallStart("n", Absent));
    ls := Then(s0, ls, false, CallSend(1));
    assert Run(s0, ls).ba == [LogicalFrame(1, Request, Some("n"), Absent, None)];
    ls := Then(s0, ls, false, Receive);
  }

  /** ... and `b` timed out: its cancel frame follows its request. */
  lemma ThenOneTimesOut() returns (ls: seq<Label>)
    ensures var s := Reached(false, true, true, ls);
            && s.ba == [LogicalFrame(1, Request, Some("n"), Absent, None), CancelOf(1)]
            && s.a == Node(PeerState(2, map[1 := Unsettled], [], false, true, true), map[1 := Call("m", Absent, Waiting)], Receiving, false)
            && s.b.peer.tasks == [LogicalFrame(1, Request, Some("m"), Absent, None)]
            && InDone(s.b, 1, TimedOut) && s.ha.asked == s.hb.asked == {} && !s.wire
  {
    var s0 := Init(false, true, true);
    ls := BothCall();
    ls := Then(s0, ls, false, CallTimeout(1));
    assert Run(s0, ls).b.calls == map[1 := Call("n", Absent, Expired)];
    ls := Then(s0, ls, false, CallExpire(1));
  }

  /** The other direction's timeout does cancel an innocent call: `a` calls, `b` calls under the same id
      and times out, and the call of `a` ends cancelled while its handler is still running. */
  lemma ATimeoutCancelsAnInnocentCall() returns (ls: seq<Label>)
    ensures var s := Reached(false, true, true, ls);
            && InDone(s.a, 1, Raised(Cancelled)) && InDone(s.b, 1, TimedOut)
            && s.ha.asked == s.hb.asked == {}
            && s.b.peer.tasks == [RequestOf(1, s.a.calls[1])]
  {
    var s0 := Init(false, true, true);
    ls := ThenOneTimesOut();
    ls := Then(s0, ls, true, Receive);
    assert Run(s0, ls).ba == [CancelOf(1)];
    ls := Then(s0, ls, true, Receive);
    assert Run(s0, ls).a.peer.pending == map[1 := Settled(Cancelled)];
    ls := Then(s0, ls, true, CallReturn(1));
  }

  lemma OneRequestSent() returns (ls: seq<Label>)
    ensures var s := Reached(true, true, true, ls);
            && s.wire && s.ab == [LogicalFrame(1, Request, Some("m"), Bytes([]), None)] && s.ba == []
            && s.a == Node(PeerState(2, map[1 := Unsettled], [], false, true, true), map[1 := Call("m", Bytes([]), Waiting)], Receiving, false)
            && s.b == FreshNode(true) && s.ha.served == []
  {
    var s0 := Init(true, true, true);
    ls := Then(s0, [], true, CallStart("m", Bytes([])));
    ls := Then(s0, ls, true, CallSend(1));
  }

  lemma OneRequestServed() returns (ls: seq<Label>)
    ensures var s := Reached(true, true, true, ls);
            && s.wire && s.ba == [ErrorFrame(1, "")]
            && s.a == Node(PeerState(2, map[1 := Unsettled], [], false, true, true), map[1 := Call("m", Bytes([]), Waiting)], Receiving, false)
            && |s.ha.served| == 1 && s.ha.served[0].request.id == 1 && s.ha.served[0].reply == Bad("")
  {
    var s0 := Init(true, true, true);
    ls := OneRequestSent();
    var sent := LogicalFrame(1, Request, Some("m"), Bytes([]), None);
    DecodeAfterEncode(sent);
    ls := Then(s0, ls, false, Start);
    ls := Then(s0, ls, false, Receive);
    assert Run(s0, ls).b.peer.tasks == [sent];
    ls := Then(s0, ls, false, HandlerDone(0, Bad("")));
  }

  /** Over the wire a handler that raises without text looks like one that returned nothing. */
  lemma AnErrorWithoutTextReturnsAValue() returns (ls: seq<Label>)
    ensures var s := Reached(true, true, true, ls);
            && InDone(s.a, 1, Returned(Bytes([])))
            && |s.ha.served| == 1 && s.ha.served[0].request.id == 1 && s.ha.served[0].reply == Bad("")
  {
    var s0 := Init(true, true, true);
    ls := OneRequestServed();
    WireNormalises(ErrorFrame(1, ""));
    ls := Then(s0, ls, true, Receive);
    assert Run(s0, ls).a.peer.pending == map[1 := Settled(Value(Bytes([])))];
    ls := Then(s0, ls, true, CallReturn(1));
  }
}
