/** What does arrive: requests, answers and events. */
module RpcDelivery {
  import opened Common
  import opened Frames
  import opened RpcPeer
  import opened RpcSystem
  import opened RpcTheorems
  import opened RpcAnswers

  /** The reader of `a` waits, and the frame at the head of its queue arrives as `f`. */
  ghost predicate Arrives(s: Sys, f: LogicalFrame) {
    s.a.reader.Receiving? && s.ba != [] && Carry(s.wire, s.ba[0]) == Some(f)
  }

  /** Call `i` of `a` waits, and is not answered yet. */
  ghost predicate IsOpen(s: Sys, i: int) {
    InPhase(s.a, i, true) && i in s.a.peer.pending && s.a.peer.pending[i].Unsettled?
  }

  /** In any state: a request that arrives becomes one more task, which runs on the frame as it arrived. */
  lemma ARequestStartsATask(s: Sys, f: LogicalFrame)
    requires Arrives(s, f) && f.kind.Request?
    ensures DoReceive(s).a.peer.tasks == s.a.peer.tasks + [f]
  {
  }

  lemma AnswerSettles(s: Sys, f: LogicalFrame)
    requires Arrives(s, f) && f.kind.Response? && f.id in s.a.peer.pending && s.a.peer.pending[f.id].Unsettled?
    ensures var p := DoReceive(s).a.peer.pending;
            f.id in p && p[f.id] == Settled(if f.error.Some? then RemoteError(f.error.value) else Value(f.payload))
    ensures DoReceive(s).a.calls == s.a.calls
  {
  }

  /** In any state: an answer that arrives lets the open call it belongs to end with it. */
  lemma AnAnswerEndsItsCall(s: Sys, f: LogicalFrame)
    requires Arrives(s, f) && f.kind.Response? && IsOpen(s, f.id)
    ensures InDone(DoCallReturn(DoReceive(s), f.id).a, f.id,
                   if f.error.Some? then Raised(RemoteError(f.error.value)) else Returned(f.payload))
  {
    AnswerSettles(s, f);
  }

  /** A frame that arrives at an open peer touches no future but the one of its own id. */
  lemma OtherFuturesStay(s: Sys, f: LogicalFrame, j: int)
    requires Arrives(s, f) && !f.kind.Unknown? && !s.a.peer.closed && j in s.a.peer.pending && j != f.id
    ensures j in DoReceive(s).a.peer.pending && DoReceive(s).a.peer.pending[j] == s.a.peer.pending[j]
  {
  }

  /** The run one action longer, which starts as before. */
  lemma GoesOn(s0: Sys, ls: seq<Label>, byA: bool, act: Action) returns (longer: seq<Label>)
    requires ls != []
    ensures Run(s0, longer) == Step(Run(s0, ls), Label(byA, act)) && longer != [] && longer[0] == ls[0]
  {
    longer := ls + [Label(byA, act)];
    RunExtends(s0, ls, Label(byA, act));
  }

  /** The caller while its call is out. */
  function WaitingCaller(route: string, payload: Payload): Node {
    Node(PeerState(2, map[1 := Unsettled], [], false, true, true), map[1 := Call(route, payload, Waiting)], Receiving, false)
  }

  lemma ARequestIsSent(route: string, payload: Payload) returns (ls: seq<Label>)
    ensures ls != [] && ls[0] == Label(true, CallStart(route, payload))
    ensures var s := Reached(false, true, true, ls);
            && !s.wire && s.ab == [LogicalFrame(1, Request, Some(route), payload, None)] && s.ba == [] && s.b == FreshNode(true)
            && s.a == WaitingCaller(route, payload)
  {
    var s0 := Init(false, true, true);
    ls := [Label(true, CallStart(route, payload))];
    assert ls[1..] == [] && Run(s0, ls) == Step(s0, ls[0]);
    ls := GoesOn(s0, ls, true, CallSend(1));
  }

  lemma ARequestRuns(route: string, payload: Payload) returns (ls: seq<Label>)
    ensures ls != [] && ls[0] == Label(true, CallStart(route, payload))
    ensures var s := Reached(false, true, true, ls);
            && !s.wire && s.ba == [] && s.b.peer.hasHandler && s.b.peer.tasks == [LogicalFrame(1, Request, Some(route), payload, None)]
            && s.a == WaitingCaller(route, payload)
  {
    var s0 := Init(false, true, true);
    ls := ARequestIsSent(route, payload);
    ls := GoesOn(s0, ls, false, Start);
    ls := GoesOn(s0, ls, false, Receive);
  }

  /** The frame that carries what the handler did. */
  function AnswerFrame(did: Reply): LogicalFrame {
    if did.Good? then LogicalFrame(1, Response, None, did.payload, None)
    else LogicalFrame(1, Response, None, Absent, Some(did.message))
  }

  lemma AnAnswerIsSent(route: string, payload: Payload, did: Reply) returns (ls: seq<Label>)
    ensures ls != [] && ls[0] == Label(true, CallStart(route, payload))
    ensures var s := Reached(false, true, true, ls);
            !s.wire && s.ba == [AnswerFrame(did)] && s.a == WaitingCaller(route, payload)
  {
    ls := ARequestRuns(route, payload);
    ls := GoesOn(Init(false, true, true), ls, false, HandlerDone(0, did));
  }

  /** Any answer is given to some call: for every method, payload and handler result there is a run in which the
      call for the one ends with the other. */
  lemma ACallIsAnswered(route: string, payload: Payload, did: Reply) returns (ls: seq<Label>)
    ensures ls != [] && ls[0] == Label(true, CallStart(route, payload))
    ensures InDone(Reached(false, true, true, ls).a, 1, if did.Good? then Returned(did.payload) else Raised(RemoteError(did.message)))
  {
    var s0 := Init(false, true, true);
    ls := AnAnswerIsSent(route, payload, did);
    AnAnswerEndsItsCall(Run(s0, ls), AnswerFrame(did));
    ls := GoesOn(s0, ls, true, Receive);
    ls := GoesOn(s0, ls, true, CallReturn(1));
  }

  // ---- Cancels ----

  /** The same with nothing in the queue to `a`, whose reader waits. */
  ghost predicate WaitsForFrame(s: Sys, i: int) {
    s.ba == [] && s.a.reader.Receiving? && IsOpen(s, i)
  }

  lemma ACancelEndsTheCall(s: Sys, i: int)
    requires WaitsForFrame(s.(ba := []), i) && s.ba == [LogicalFrame(i, Cancel, None, Absent, None)]
    ensures InDone(DoCallReturn(DoReceive(s), i).a, i, Raised(Cancelled))
  {
    CarryKeeps(s.wire, s.ba[0]);
  }

  /** Asking to cancel an id cancels the other side's own call of that id. */
  lemma AnAskedCancelEndsTheCall(s: Sys, i: int)
    requires WaitsForFrame(s, i) && !s.b.peer.closed
    ensures var asked := Swap(DoAskCancel(Swap(s), i));
            InDone(DoCallReturn(DoReceive(asked), i).a, i, Raised(Cancelled))
  {
    ACancelEndsTheCall(Swap(DoAskCancel(Swap(s), i)), i);
  }

  /** And so does a call of that id that times out. */
  lemma ATimeoutEndsTheCall(s: Sys, i: int)
    requires WaitsForFrame(s, i) && !s.b.peer.closed && i in s.b.calls && s.b.calls[i].phase.Expired?
    ensures var expired := Swap(DoCallExpire(Swap(s), i));
            && InDone(expired.b, i, TimedOut)
            && InDone(DoCallReturn(DoReceive(expired), i).a, i, Raised(Cancelled))
  {
    ACancelEndsTheCall(Swap(DoCallExpire(Swap(s), i)), i);
  }

  /** An answer that comes after the timeout of its call is ignored, and the call ends timed out. */
  lemma AnAnswerAfterTheTimeoutIsIgnored(s: Sys, f: LogicalFrame)
    requires Arrives(s, f) && f.kind.Response? && IsOpen(s, f.id)
    ensures var late := DoReceive(DoCallTimeout(s, f.id));
            && f.id in late.a.peer.pending && late.a.peer.pending[f.id] == Settled(Cancelled)
            && InDone(DoCallExpire(late, f.id).a, f.id, TimedOut)
  {
    var t := DoCallTimeout(s, f.id);
    assert f.id in t.a.calls && t.a.calls[f.id].phase.Expired?;
    assert DoReceive(t).a.calls == t.a.calls;
  }

  /** A call, an event or a start makes sure that an open peer has a reader. */
  lemma AnyUseStartsTheReader(s: Sys, act: Action)
    requires !s.a.peer.closed && (act.CallStart? || act.EmitEvent? || act.Start?)
    ensures var t := Do(s, act);
            t.a.peer.hasReader && (s.a.peer.hasReader ==> t.a.reader == s.a.reader) && (!s.a.peer.hasReader ==> t.a.reader.Receiving?)
  {
  }

  /** In any state: closing ends with every future settled. */
  lemma ClosingEnds(s: Sys)
    ensures var t := DoFinishClose(DoBeginClose(s)); t.a.acloseDone && AllSettled(t.a.peer)
  {
  }

  /** While a peer closes, starting it again settles every call it still waits for. */
  lemma StartingAClosingPeerSettles(s: Sys)
    ensures AllSettled(DoStart(DoBeginClose(s)).a.peer)
  {
  }

  // ---- Events ----

  /** The `m`-th action is by the other side, which emits this event while it is open. */
  ghost predicate Emits(s0: Sys, ls: seq<Label>, d: bool, m: nat, route: string, payload: Payload) {
    m < |ls| && ls[m] == Label(!d, EmitEvent(route, payload)) && !Before(s0, ls, d, m).b.peer.closed
  }

  ghost predicate IsEvent(f: LogicalFrame, route: string, payload: Payload) {
    f.kind.Event? && f.route == Some(route) && f.payload == payload && f.error.None?
  }

  lemma OwnStepTakesFrames(s: Sys, act: Action)
    ensures Do(s, act).ba == s.ba || (s.ba != [] && Do(s, act).ba == s.ba[1..])
  {
  }

  /** At most one frame is sent, and if it is an event then the action emits it. */
  lemma OtherStepEmits(s: Sys, act: Action)
    ensures var t := Do(s, act);
            || t.ab == s.ab
            || (t.ab == s.ab + [t.ab[|t.ab| - 1]]
                && (t.ab[|t.ab| - 1].kind.Event? ==>
                      act.EmitEvent? && !s.a.peer.closed && IsEvent(t.ab[|t.ab| - 1], act.route, act.payload)))
  {
  }

  /** In every run: an event on its way to a side was emitted by the other one, with this method and payload. */
  lemma {:induction false} EventsWereEmitted(s0: Sys, ls: seq<Label>, d: bool, f: LogicalFrame)
    requires Side(s0, d).ba == [] && f in Side(Run(s0, ls), d).ba && f.kind.Event?
    ensures exists m: nat, route, payload :: Emits(s0, ls, d, m, route, payload) && IsEvent(f, route, payload)
    decreases |ls|
  {
    if ls != [] {
      var n, l := |ls| - 1, ls[|ls| - 1];
      var t := Side(Run(s0, ls[..n]), d);
      LastAction(s0, ls, d);
      if l.byA == d {
        OwnStepTakesFrames(t, l.act);
      } else {
        OtherStepEmits(Swap(t), l.act);
      }
      if f in t.ba {
        EventsWereEmitted(s0, ls[..n], d, f);
        var m: nat, route, payload :| Emits(s0, ls[..n], d, m, route, payload) && IsEvent(f, route, payload);
        EmitsEarlier(s0, ls, d, n, m, route, payload);
      } else {
        assert Emits(s0, ls, d, n, l.act.route, l.act.payload);
      }
    }
  }

  lemma EmitsEarlier(s0: Sys, ls: seq<Label>, d: bool, n: nat, m: nat, route: string, payload: Payload)
    requires n <= |ls| && Emits(s0, ls[..n], d, m, route, payload)
    ensures Emits(s0, ls, d, m, route, payload)
  {
    assert ls[..n][..m] == ls[..m];
  }

  /** In any state: an event that arrives waits for the handler of a peer that has one, and is dropped by a
      peer that has none; the calls of either node are not touched, and an open peer goes on to receive. */
  lemma AnEventGoesToTheHandler(s: Sys, f: LogicalFrame, route: string, payload: Payload)
    requires Arrives(s, f) && IsEvent(f, route, payload)
    ensures DoReceive(s).a.reader.InEvent? <==> s.a.peer.hasHandler
    ensures s.a.peer.hasHandler ==> DoReceive(s).a.peer == s.a.peer
    ensures DoReceive(s).a.calls == s.a.calls && DoReceive(s).b == s.b
    ensures !s.a.peer.closed ==> DoEventDone(DoReceive(s)).a.reader.Receiving?
  {
  }
}
