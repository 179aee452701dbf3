/** Whose answer a call gets, told by the run itself: the action that started the call and the handler completion
    that answered it. */
module RpcAnswers {
  import opened Common
  import opened Frames
  import opened RpcPeer
  import opened RpcSystem
  import opened RpcTheorems

  /** The system seen from node `a`, or from node `b` with the two exchanged. */
  function Side(s: Sys, d: bool): Sys {
    if d then s else Swap(s)
  }

  /** The system before the `n`-th action of a run. */
  function Before(s0: Sys, ls: seq<Label>, d: bool, n: nat): Sys
    requires n <= |ls|
  {
    Side(Run(s0, ls[..n]), d)
  }

  /** The `m`-th action starts call `i` of the side `d`, with this method and payload. */
  ghost predicate Starts(s0: Sys, ls: seq<Label>, d: bool, m: nat, i: int, route: string, payload: Payload) {
    && m < |ls| && ls[m] == Label(d, CallStart(route, payload))
    && var s := Before(s0, ls, d, m);
       !s.a.peer.closed && s.a.peer.nextId == i
  }

  /** The `n`-th action completes the task that the other side runs on the frame `f`: its handler did `did`. */
  ghost predicate Completes(s0: Sys, ls: seq<Label>, d: bool, n: nat, f: LogicalFrame, did: Reply) {
    && n < |ls| && ls[n].byA != d && ls[n].act.HandlerDone? && ls[n].act.reply == did
    && ls[n].act.task < |Before(s0, ls, d, n).b.peer.tasks|
    && Before(s0, ls, d, n).b.peer.tasks[ls[n].act.task] == f
  }

  /** What a task answers: its fixed error when the frame names no method or the peer has no handler, and
      else what the handler did. */
  ghost predicate TaskAnswers(f: LogicalFrame, hasHandler: bool, did: Reply, answer: Reply) {
    && (f.route.None? ==> answer == Bad("request frame is missing method"))
    && (f.route.Some? && !hasHandler ==> answer == Bad("no handler for '" + f.route.value + "'"))
    && (f.route.Some? && hasHandler ==> answer == did)
  }

  /** The frame that carries an answer. */
  ghost predicate CarriesAnswer(frame: LogicalFrame, id: int, answer: Reply) {
    && frame.id == id && frame.kind.Response?
    && (answer.Good? ==> frame.error.None? && frame.payload == answer.payload)
    && (answer.Bad? ==> frame.error == Some(answer.message))
  }

  /** Every completed task sends one frame, which carries its answer under the id of its request. */
  lemma ATaskAnswersItsRequest(s: Sys, k: nat, did: Reply)
    requires k < |s.a.peer.tasks|
    ensures exists frame, answer ::
              && DoHandlerDone(s, k, did).ab == s.ab + [frame]
              && CarriesAnswer(frame, s.a.peer.tasks[k].id, answer)
              && TaskAnswers(s.a.peer.tasks[k], s.a.peer.hasHandler, did, answer)
  {
    var f := s.a.peer.tasks[k];
    var answer := ReplyTo(s.a.peer, f, did);
    var frame := ResponseOf(f.id, answer);
    assert CarriesAnswer(frame, f.id, answer) && TaskAnswers(f, s.a.peer.hasHandler, did, answer);
  }

  // ---- Runs, one action longer ----

  lemma LastAction(s0: Sys, ls: seq<Label>, d: bool)
    requires ls != []
    ensures var t, l := Side(Run(s0, ls[..|ls| - 1]), d), ls[|ls| - 1];
            Side(Run(s0, ls), d) == if l.byA == d then Do(t, l.act) else Swap(Do(Swap(t), l.act))
  {
    var init, l := ls[..|ls| - 1], ls[|ls| - 1];
    assert ls == init + [l];
    RunExtends(s0, init, l);
    assert Swap(Swap(Run(s0, init))) == Run(s0, init);
    assert Swap(Swap(Do(Run(s0, init), l.act))) == Do(Run(s0, init), l.act);
  }

  lemma {:induction false} RunOfSum(s: Sys, a: seq<Label>, b: seq<Label>)
    ensures Run(s, a + b) == Run(Run(s, a), b)
    decreases |a|
  {
    if a == [] {
      assert a + b == b;
    } else {
      assert (a + b)[1..] == a[1..] + b;
      RunOfSum(Step(s, a[0]), a[1..], b);
    }
  }

  lemma StartsEarlier(s0: Sys, ls: seq<Label>, d: bool, n: nat, m: nat, i: int, route: string, payload: Payload)
    requires n <= |ls| && Starts(s0, ls[..n], d, m, i, route, payload)
    ensures m < n && Starts(s0, ls, d, m, i, route, payload)
  {
    assert ls[..n][..m] == ls[..m];
  }

  lemma CompletesEarlier(s0: Sys, ls: seq<Label>, d: bool, n: nat, m: nat, f: LogicalFrame, did: Reply)
    requires n <= |ls| && Completes(s0, ls[..n], d, m, f, did)
    ensures Completes(s0, ls, d, m, f, did)
  {
    assert ls[..n][..m] == ls[..m];
  }

  // ---- Every call was started, every logged answer was given ----

  /** The call is one that `s` had, with the same method and payload, or the one that `act` starts. */
  ghost predicate OldOrStarted(s: Sys, act: Action, i: int, call: Call) {
    || (i in s.a.calls && call.route == s.a.calls[i].route && call.payload == s.a.calls[i].payload)
    || (act == CallStart(call.route, call.payload) && !s.a.peer.closed && i == s.a.peer.nextId)
  }

  lemma CallStepGrows(s: Sys, act: Action, i: int)
    requires IsCallStep(act) && i in Do(s, act).a.calls
    ensures OldOrStarted(s, act, i, Do(s, act).a.calls[i])
  {
  }

  lemma ReaderStepKeepsCalls(s: Sys, act: Action)
    requires act.Receive? || act.EventDone? || act.ReaderStop? || act.Start? || act.EmitEvent?
    ensures Do(s, act).a.calls == s.a.calls
  {
  }

  lemma CallsGrow(s: Sys, act: Action, i: int)
    requires i in Do(s, act).a.calls
    ensures OldOrStarted(s, act, i, Do(s, act).a.calls[i])
  {
    if IsCallStep(act) {
      CallStepGrows(s, act, i);
    } else if act.Receive? || act.EventDone? || act.ReaderStop? || act.Start? || act.EmitEvent? {
      ReaderStepKeepsCalls(s, act);
    } else {
      assert Do(s, act).a.calls == s.a.calls;
    }
  }

  lemma {:induction false} CallWasStarted(s0: Sys, ls: seq<Label>, d: bool, i: int)
    requires Side(s0, d).a.calls == map[] && i in Side(Run(s0, ls), d).a.calls
    ensures var call := Side(Run(s0, ls), d).a.calls[i];
            exists m :: Starts(s0, ls, d, m, i, call.route, call.payload)
    decreases |ls|
  {
    if ls != [] {
      var n, l := |ls| - 1, ls[|ls| - 1];
      var t := Side(Run(s0, ls[..n]), d);
      LastAction(s0, ls, d);
      StepKeepsOther(if l.byA == d then t else Swap(t), l.act);
      if l.byA == d {
        CallsGrow(t, l.act, i);
      }
      var call := Side(Run(s0, ls), d).a.calls[i];
      if i in t.a.calls && t.a.calls[i].route == call.route && t.a.calls[i].payload == call.payload {
        CallWasStarted(s0, ls[..n], d, i);
        var m :| Starts(s0, ls[..n], d, m, i, call.route, call.payload);
        StartsEarlier(s0, ls, d, n, m, i, call.route, call.payload);
      } else {
        assert Starts(s0, ls, d, n, i, call.route, call.payload);
      }
    }
  }

  lemma HandlingKeepsHandler(n: Node, f: LogicalFrame, failure: Option<string>)
    ensures Handled(n, f).peer.hasHandler == NextTurn(n).peer.hasHandler == n.peer.hasHandler
    ensures Stopped(n, failure).peer.hasHandler == WithReader(n).peer.hasHandler == n.peer.hasHandler
  {
  }

  lemma CallStepKeepsHandler(s: Sys, act: Action)
    requires IsCallStep(act)
    ensures Do(s, act).a.peer.hasHandler == s.a.peer.hasHandler
  {
  }

  lemma ReaderStepKeepsHandler(s: Sys, act: Action)
    requires act.Receive? || act.EventDone? || act.ReaderStop? || act.Start? || act.EmitEvent?
    ensures Do(s, act).a.peer.hasHandler == s.a.peer.hasHandler
  {
    HandlingKeepsHandler(s.a, if act.Receive? && s.ba != [] then Carry(s.wire, s.ba[0]).GetOr(s.ba[0]) else CancelOf(0),
                         if act.ReaderStop? then act.failure else None);
  }

  lemma StepKeepsHandler(s: Sys, act: Action)
    ensures Do(s, act).a.peer.hasHandler == s.a.peer.hasHandler
  {
    if IsCallStep(act) {
      CallStepKeepsHandler(s, act);
    } else if act.Receive? || act.EventDone? || act.ReaderStop? || act.Start? || act.EmitEvent? {
      ReaderStepKeepsHandler(s, act);
    }
  }

  lemma StepKeepsOther(s: Sys, act: Action)
    ensures Do(s, act).b == s.b
  {
  }

  lemma OwnStepLogsNothing(s: Sys, act: Action)
    ensures Do(s, act).ha.served == s.ha.served
  {
  }

  /** What the other side's action adds to the log of this side's answers. */
  lemma OtherStepLogsAnswers(s: Sys, act: Action)
    ensures var t := Do(s, act);
            || t.hb.served == s.hb.served
            || (act.HandlerDone? && act.task < |s.a.peer.tasks|
                && exists answer ::
                     && t.hb.served == s.hb.served + [Served(s.a.peer.tasks[act.task], answer)]
                     && TaskAnswers(s.a.peer.tasks[act.task], s.a.peer.hasHandler, act.reply, answer))
  {
    if act.HandlerDone? && act.task < |s.a.peer.tasks| {
      var f := s.a.peer.tasks[act.task];
      assert TaskAnswers(f, s.a.peer.hasHandler, act.reply, ReplyTo(s.a.peer, f, act.reply));
    }
  }

  lemma {:induction false} HandlerStays(s0: Sys, ls: seq<Label>, d: bool)
    ensures Side(Run(s0, ls), d).b.peer.hasHandler == Side(s0, d).b.peer.hasHandler
    decreases |ls|
  {
    if ls != [] {
      var n, l := |ls| - 1, ls[|ls| - 1];
      var t := Side(Run(s0, ls[..n]), d);
      LastAction(s0, ls, d);
      HandlerStays(s0, ls[..n], d);
      StepKeepsHandler(if l.byA == d then t else Swap(t), l.act);
      StepKeepsOther(if l.byA == d then t else Swap(t), l.act);
    }
  }

  lemma {:induction false} AnswerWasGiven(s0: Sys, ls: seq<Label>, d: bool, k: nat)
    requires Side(s0, d).ha.served == [] && k < |Side(Run(s0, ls), d).ha.served|
    ensures var entry := Side(Run(s0, ls), d).ha.served[k];
            exists n, did ::
              && Completes(s0, ls, d, n, entry.request, did)
              && TaskAnswers(entry.request, Side(s0, d).b.peer.hasHandler, did, entry.reply)
    decreases |ls|
  {
    if ls != [] {
      var n, l := |ls| - 1, ls[|ls| - 1];
      var t := Side(Run(s0, ls[..n]), d);
      var served := Side(Run(s0, ls), d).ha.served;
      LastAction(s0, ls, d);
      HandlerStays(s0, ls[..n], d);
      if l.byA == d {
        OwnStepLogsNothing(t, l.act);
      } else {
        OtherStepLogsAnswers(Swap(t), l.act);
      }
      if k < |t.ha.served| {
        AnswerWasGiven(s0, ls[..n], d, k);
        var n', did :| Completes(s0, ls[..n], d, n', t.ha.served[k].request, did)
                       && TaskAnswers(t.ha.served[k].request, Side(s0, d).b.peer.hasHandler, did, t.ha.served[k].reply);
        CompletesEarlier(s0, ls, d, n, n', t.ha.served[k].request, did);
        assert served[k] == t.ha.served[k];
      } else {
        assert Completes(s0, ls, d, n, served[k].request, l.act.reply);
      }
    }
  }

  // ---- The request that a task runs on ----

  /** Two fresh peers and empty queues. */
  ghost predicate Begins(s0: Sys) {
    exists wire, handlerA, handlerB :: s0 == Init(wire, handlerA, handlerB)
  }

  lemma BeginsEmpty(s0: Sys, d: bool)
    requires Begins(s0)
    ensures Side(s0, d).a.calls == map[] && Side(s0, d).ha.served == []
  {
  }

  lemma PrefixInv(s0: Sys, ls: seq<Label>, d: bool, n: nat)
    requires Begins(s0) && n <= |ls|
    ensures Inv(Run(s0, ls[..n])) && Inv(Before(s0, ls, d, n)) && Before(s0, ls, d, n).wire == s0.wire
  {
    var wire, handlerA, handlerB :| s0 == Init(wire, handlerA, handlerB);
    ReachedInv(wire, handlerA, handlerB, ls[..n]);
    assert Swap(Swap(Run(s0, ls[..n]))) == Run(s0, ls[..n]);
  }

  /** The frame a call sends. */
  ghost predicate IsRequest(f: LogicalFrame, i: int, route: string, payload: Payload) {
    f == LogicalFrame(i, Request, Some(route), payload, None)
  }

  lemma TaskWasSent(s0: Sys, ls: seq<Label>, d: bool, n: nat, f: LogicalFrame, did: Reply)
    requires Begins(s0) && Completes(s0, ls, d, n, f, did)
    ensures exists m: nat, route, payload, sent ::
              && m < n && Starts(s0, ls, d, m, f.id, route, payload)
              && IsRequest(sent, f.id, route, payload) && Carry(s0.wire, sent) == Some(f)
  {
    PrefixInv(s0, ls, d, n);
    BeginsEmpty(s0, d);
    var s := Before(s0, ls, d, n);
    var i := f.id;
    TaskIsOfACall(s, f);
    CallWasStarted(s0, ls[..n], d, i);
    var m :| Starts(s0, ls[..n], d, m, i, s.a.calls[i].route, s.a.calls[i].payload);
    StartsEarlier(s0, ls, d, n, m, i, s.a.calls[i].route, s.a.calls[i].payload);
    assert IsRequest(RequestOf(i, s.a.calls[i]), i, s.a.calls[i].route, s.a.calls[i].payload);
  }

  lemma TaskIsOfACall(s: Sys, f: LogicalFrame)
    requires Dir(s) && f in s.b.peer.tasks
    ensures f.id in s.a.calls && Carry(s.wire, RequestOf(f.id, s.a.calls[f.id])) == Some(f)
    ensures f.id in s.ha.stage && s.ha.stage[f.id].Running?
  {
  }

  // ---- No request is answered twice ----

  lemma OwnStageMoves(s: Sys, act: Action)
    requires IdsInOrder(s.a, s.ha)
    ensures StageMoved(s.ha, Do(s, act).ha)
  {
    if act.CallSend? && InPhase(s.a, act.id, false) {
      assert act.id !in s.ha.stage;
    } else {
      assert Do(s, act).ha.stage == s.ha.stage;
    }
  }

  /** At most one stage changed, and not that of an answered call. */
  ghost predicate StageMoved(before: History, after: History) {
    forall i :: IsReplied(before, i) ==> IsReplied(after, i)
  }

  lemma ReceiveMovesStage(s: Sys)
    requires Inv(s)
    ensures StageMoved(s.hb, DoReceive(s).hb)
  {
    if s.ba != [] && Carry(s.wire, s.ba[0]).Some? {
      HeadIsInFlight(s);
      CarryKeeps(s.wire, s.ba[0]);
    }
  }

  lemma HandlerMovesStage(s: Sys, k: nat, did: Reply)
    requires Dir(Swap(s))
    ensures StageMoved(s.hb, DoHandlerDone(s, k, did).hb)
  {
    if k < |s.a.peer.tasks| {
      TaskIsOfACall(Swap(s), s.a.peer.tasks[k]);
    }
  }

  lemma GoneHandlerMovesStage(s: Sys, k: nat)
    requires Dir(Swap(s))
    ensures StageMoved(s.hb, DoHandlerGone(s, k).hb)
  {
    if k < |s.a.peer.tasks| {
      TaskIsOfACall(Swap(s), s.a.peer.tasks[k]);
    }
  }

  lemma HandlerStepMovesStage(s: Sys, act: Action)
    requires Dir(Swap(s)) && IsHandlerStep(act)
    ensures StageMoved(s.hb, Do(s, act).hb)
  {
    match act
    case HandlerDone(k, did) => HandlerMovesStage(s, k, did);
    case HandlerGone(k) => GoneHandlerMovesStage(s, k);
  }

  lemma RestMovesNoStage(s: Sys, act: Action)
    requires !act.Receive? && !IsHandlerStep(act)
    ensures Do(s, act).hb == s.hb
  {
  }

  lemma OtherStageMoves(s: Sys, act: Action)
    requires Inv(s)
    ensures StageMoved(s.hb, Do(s, act).hb)
  {
    if act.Receive? {
      ReceiveMovesStage(s);
    } else if IsHandlerStep(act) {
      HandlerStepMovesStage(s, act);
    } else {
      RestMovesNoStage(s, act);
    }
  }

  lemma HeadIsInFlight(s: Sys)
    requires Inv(s) && s.ba != []
    ensures !s.ba[0].kind.Unknown?
    ensures s.ba[0].kind.Request? ==> s.ba[0].id in s.hb.stage && s.hb.stage[s.ba[0].id].InFlight?
  {
  }

  predicate IsReplied(h: History, i: int) {
    i in h.stage && h.stage[i].Replied?
  }

  lemma RepliedStays(s: Sys, act: Action, i: int)
    requires Inv(s)
    ensures IsReplied(s.ha, i) ==> IsReplied(Do(s, act).ha, i)
    ensures IsReplied(s.hb, i) ==> IsReplied(Do(s, act).hb, i)
  {
    OwnStageMoves(s, act);
    OtherStageMoves(s, act);
  }

  lemma {:induction false} RepliedStaysInRuns(s: Sys, ls: seq<Label>, d: bool, i: int)
    requires Inv(s) && IsReplied(Side(s, d).ha, i)
    ensures IsReplied(Side(Run(s, ls), d).ha, i)
    decreases |ls|
  {
    if ls != [] {
      assert Swap(Swap(s)) == s;
      RepliedStays(if ls[0].byA then s else Swap(s), ls[0].act, i);
      StepKeepsInv(s, ls[0]);
      RepliedStaysInRuns(Step(s, ls[0]), ls[1..], d, i);
    }
  }

  lemma DoneIsReplied(s: Sys, k: nat, did: Reply)
    requires k < |s.a.peer.tasks|
    ensures IsReplied(DoHandlerDone(s, k, did).hb, s.a.peer.tasks[k].id)
  {
  }

  lemma CompletedIsReplied(s0: Sys, ls: seq<Label>, d: bool, n: nat, f: LogicalFrame, did: Reply)
    requires Begins(s0) && Completes(s0, ls, d, n, f, did)
    ensures !IsReplied(Before(s0, ls, d, n).ha, f.id) && IsReplied(Before(s0, ls, d, n + 1).ha, f.id)
  {
    TaskIsRunning(s0, ls, d, n, f, did);
    LastAction(s0, ls[..n + 1], d);
    assert ls[..n + 1][..n] == ls[..n];
    DoneIsReplied(Swap(Before(s0, ls, d, n)), ls[n].act.task, did);
  }

  lemma TaskIsRunning(s0: Sys, ls: seq<Label>, d: bool, n: nat, f: LogicalFrame, did: Reply)
    requires Begins(s0) && Completes(s0, ls, d, n, f, did)
    ensures !IsReplied(Before(s0, ls, d, n).ha, f.id)
  {
    PrefixInv(s0, ls, d, n);
    TaskIsOfACall(Before(s0, ls, d, n), f);
  }

  lemma CompletedBefore(s0: Sys, ls: seq<Label>, d: bool, n: nat, f: LogicalFrame, did: Reply, n': nat)
    requires Begins(s0) && Completes(s0, ls, d, n, f, did) && n < n' <= |ls|
    ensures IsReplied(Before(s0, ls, d, n').ha, f.id)
  {
    CompletedIsReplied(s0, ls, d, n, f, did);
    PrefixInv(s0, ls, d, n + 1);
    RepliedLater(s0, ls, d, n + 1, n', f.id);
  }

  lemma RepliedLater(s0: Sys, ls: seq<Label>, d: bool, n: nat, n': nat, i: int)
    requires n <= n' <= |ls| && Inv(Run(s0, ls[..n])) && IsReplied(Before(s0, ls, d, n).ha, i)
    ensures IsReplied(Before(s0, ls, d, n').ha, i)
  {
    RepliedStaysInRuns(Run(s0, ls[..n]), ls[n..n'], d, i);
    RunInTwo(s0, ls, n, n');
  }

  lemma RunInTwo(s0: Sys, ls: seq<Label>, n: nat, n': nat)
    requires n <= n' <= |ls|
    ensures Run(s0, ls[..n']) == Run(Run(s0, ls[..n]), ls[n..n'])
  {
    RunOfSum(s0, ls[..n], ls[n..n']);
    assert ls[..n] + ls[n..n'] == ls[..n'];
  }

  lemma CompletedOnce(s0: Sys, ls: seq<Label>, d: bool,
                      n1: nat, f1: LogicalFrame, did1: Reply, n2: nat, f2: LogicalFrame, did2: Reply)
    requires Begins(s0) && f1.id == f2.id
    requires Completes(s0, ls, d, n1, f1, did1) && Completes(s0, ls, d, n2, f2, did2)
    ensures n1 == n2
  {
    if n1 < n2 {
      CompletedBefore(s0, ls, d, n1, f1, did1, n2);
      CompletedIsReplied(s0, ls, d, n2, f2, did2);
    } else if n2 < n1 {
      CompletedBefore(s0, ls, d, n2, f2, did2, n1);
      CompletedIsReplied(s0, ls, d, n1, f1, did1);
    }
  }

  // ---- The answer of a call ----

  /** Call `i` of the side `d` was started with this method and payload; after that the other side ran a task
      on the frame `f` under its id, and only one; its handler did `did`. */
  ghost predicate HandledOnce(s0: Sys, ls: seq<Label>, d: bool, i: int, route: string, payload: Payload, f: LogicalFrame, did: Reply) {
    exists m, n ::
      && m < n && Starts(s0, ls, d, m, i, route, payload) && Completes(s0, ls, d, n, f, did) && f.id == i
      && forall n', f', did' :: Completes(s0, ls, d, n', f', did') && f'.id == i ==> n' == n
  }

  lemma CompletedIsHandledOnce(s0: Sys, ls: seq<Label>, d: bool, n: nat, f: LogicalFrame, did: Reply)
    requires Begins(s0) && Completes(s0, ls, d, n, f, did)
    ensures exists route, payload, sent ::
              && IsRequest(sent, f.id, route, payload) && Carry(s0.wire, sent) == Some(f)
              && HandledOnce(s0, ls, d, f.id, route, payload, f, did)
  {
    TaskWasSent(s0, ls, d, n, f, did);
    var m: nat, route, payload, sent :|
      && m < n && Starts(s0, ls, d, m, f.id, route, payload) && IsRequest(sent, f.id, route, payload) && Carry(s0.wire, sent) == Some(f);
    forall n', f', did' | Completes(s0, ls, d, n', f', did') && f'.id == f.id ensures n' == n {
      CompletedOnce(s0, ls, d, n', f', did', n, f, did);
    }
    assert HandledOnce(s0, ls, d, f.id, route, payload, f, did);
  }

  /** How an answer reads for the caller. */
  ghost predicate ReadsAs(wire: bool, i: int, answer: Reply, outcome: Outcome) {
    var carried := Carry(wire, ResponseOf(i, answer));
    carried.Some? && outcome == ResponseOutcome(carried.value)
  }

  /** The answer `outcome` of a call comes from one task that ran on what the call sent. */
  ghost predicate HasAnswer(s0: Sys, ls: seq<Label>, d: bool, i: int, outcome: Outcome) {
    exists route, payload, sent, f, did, answer ::
      && IsRequest(sent, i, route, payload) && Carry(s0.wire, sent) == Some(f)
      && HandledOnce(s0, ls, d, i, route, payload, f, did)
      && TaskAnswers(f, Side(s0, d).b.peer.hasHandler, did, answer)
      && ReadsAs(s0.wire, i, answer, outcome)
  }

  lemma AnsweredIsLogged(s: Sys, i: int, outcome: Outcome)
    requires Inv(s) && Answered(s.wire, s.ha, i, outcome)
    ensures exists k: nat :: k < |s.ha.served| && s.ha.served[k].request.id == i && ReadsAs(s.wire, i, s.ha.served[k].reply, outcome)
  {
    var k := s.ha.stage[i].k;
    assert i in s.a.calls && Carry(s.wire, RequestOf(i, s.a.calls[i])) == Some(s.ha.served[k].request);
    CarryKeeps(s.wire, RequestOf(i, s.a.calls[i]));
    assert ReadsAs(s.wire, i, s.ha.served[k].reply, outcome);
  }

  lemma AnswersComeFromHandlers(s0: Sys, ls: seq<Label>, d: bool, i: int, outcome: Outcome)
    requires Begins(s0)
    requires var s := Side(Run(s0, ls), d); Answered(s.wire, s.ha, i, outcome)
    ensures HasAnswer(s0, ls, d, i, outcome)
  {
    assert ls[..|ls|] == ls;
    PrefixInv(s0, ls, d, |ls|);
    BeginsEmpty(s0, d);
    var s := Side(Run(s0, ls), d);
    AnsweredIsLogged(s, i, outcome);
    var k: nat :| k < |s.ha.served| && s.ha.served[k].request.id == i && ReadsAs(s.wire, i, s.ha.served[k].reply, outcome);
    LoggedIsHandled(s0, ls, d, k, outcome);
  }

  lemma LoggedIsHandled(s0: Sys, ls: seq<Label>, d: bool, k: nat, outcome: Outcome)
    requires Begins(s0) && Side(s0, d).ha.served == [] && k < |Side(Run(s0, ls), d).ha.served|
    requires var entry := Side(Run(s0, ls), d).ha.served[k]; ReadsAs(s0.wire, entry.request.id, entry.reply, outcome)
    ensures HasAnswer(s0, ls, d, Side(Run(s0, ls), d).ha.served[k].request.id, outcome)
  {
    var entry := Side(Run(s0, ls), d).ha.served[k];
    var f := entry.request;
    AnswerWasGiven(s0, ls, d, k);
    var n, did :| Completes(s0, ls, d, n, f, did) && TaskAnswers(f, Side(s0, d).b.peer.hasHandler, did, entry.reply);
    CompletedIsHandledOnce(s0, ls, d, n, f, did);
  }

  lemma ResultsAreAnswers(s0: Sys, ls: seq<Label>, d: bool, i: int)
    requires Begins(s0)
    ensures var s := Side(Run(s0, ls), d);
            && (forall v :: InDone(s.a, i, Returned(v)) ==> Answered(s.wire, s.ha, i, Value(v)))
            && (forall e :: InDone(s.a, i, Raised(RemoteError(e))) ==> Answered(s.wire, s.ha, i, RemoteError(e)))
  {
    assert ls[..|ls|] == ls;
    PrefixInv(s0, ls, d, |ls|);
    var s := Side(Run(s0, ls), d);
    assert i in s.a.calls && s.a.calls[i].phase.Done? ==> ResultIsAnswer(s.wire, s.ha, i, s.a.calls[i].phase.result);
  }

  lemma ReturnedHasAnswer(s0: Sys, ls: seq<Label>, d: bool, i: int, v: Payload)
    requires Begins(s0) && InDone(Side(Run(s0, ls), d).a, i, Returned(v))
    ensures HasAnswer(s0, ls, d, i, Value(v))
  {
    ResultsAreAnswers(s0, ls, d, i);
    AnswersComeFromHandlers(s0, ls, d, i, Value(v));
  }

  lemma RaisedHasAnswer(s0: Sys, ls: seq<Label>, d: bool, i: int, e: string)
    requires Begins(s0) && InDone(Side(Run(s0, ls), d).a, i, Raised(RemoteError(e)))
    ensures HasAnswer(s0, ls, d, i, RemoteError(e))
  {
    ResultsAreAnswers(s0, ls, d, i);
    AnswersComeFromHandlers(s0, ls, d, i, RemoteError(e));
  }

  /** In every run over in-process queues, for either side: a call that returns `v` was started with some method
      and payload; after that the other side, which has a handler, handled exactly that method and payload
      under the call's id, once, and its handler returned `v`. */
  lemma CallReturnsItsHandlersResult(s0: Sys, ls: seq<Label>, d: bool, i: int, v: Payload)
    requires Begins(s0) && !s0.wire && InDone(Side(Run(s0, ls), d).a, i, Returned(v))
    ensures Side(s0, d).b.peer.hasHandler
    ensures exists route, payload ::
              HandledOnce(s0, ls, d, i, route, payload, LogicalFrame(i, Request, Some(route), payload, None), Good(v))
  {
    ReturnedHasAnswer(s0, ls, d, i, v);
  }

  /** A remote error is what the handler raised for the call's own method and payload, or says that the other
      side has no handler for that method. */
  lemma CallRaisesItsHandlersError(s0: Sys, ls: seq<Label>, d: bool, i: int, e: string)
    requires Begins(s0) && !s0.wire && InDone(Side(Run(s0, ls), d).a, i, Raised(RemoteError(e)))
    ensures exists route, payload, did ::
              && HandledOnce(s0, ls, d, i, route, payload, LogicalFrame(i, Request, Some(route), payload, None), did)
              && if Side(s0, d).b.peer.hasHandler then did == Bad(e) else e == "no handler for '" + route + "'"
  {
    RaisedHasAnswer(s0, ls, d, i, e);
  }

  // ---- Over the control plane ----

  /** What the other side sees of a request: an empty method is none, an absent payload is empty. */
  function Arrived(i: int, route: string, payload: Payload): LogicalFrame {
    LogicalFrame(i, Request, if route == "" then None else Some(route), OnWire(payload), None)
  }

  lemma RequestArrives(sent: LogicalFrame, f: LogicalFrame, i: int, route: string, payload: Payload)
    requires IsRequest(sent, i, route, payload) && Carry(true, sent) == Some(f)
    ensures f == Arrived(i, route, payload)
  {
    WireNormalises(sent);
  }

  /** What the caller gets of what the handler did: the wire's spelling of its result; an error without text is
      taken for the empty value. */
  ghost predicate CrossesAs(did: Reply, v: Payload) {
    if did.Good? then v == OnWire(did.payload) else did == Bad("") && v == Bytes([])
  }

  lemma WireAnswerMeans(s0: Sys, ls: seq<Label>, d: bool, i: int, v: Payload)
    requires s0.wire && HasAnswer(s0, ls, d, i, Value(v))
    ensures Side(s0, d).b.peer.hasHandler
    ensures exists route, payload, did ::
              && HandledOnce(s0, ls, d, i, route, payload, Arrived(i, route, payload), did) && route != ""
              && CrossesAs(did, v)
  {
    var route, payload, sent, f, did, answer :|
      && IsRequest(sent, i, route, payload) && Carry(s0.wire, sent) == Some(f)
      && HandledOnce(s0, ls, d, i, route, payload, f, did)
      && TaskAnswers(f, Side(s0, d).b.peer.hasHandler, did, answer)
      && ReadsAs(s0.wire, i, answer, Value(v));
    RequestArrives(sent, f, i, route, payload);
    ValueMeans(i, f, Side(s0, d).b.peer.hasHandler, did, answer, v);
  }

  /** The same over the control plane: the handler saw the call's own method and payload as the wire spells them,
      and what the caller gets is the wire's spelling of what the handler returned; or the handler raised an
      error without text, which is taken for the empty value. */
  lemma WireCallReturnsItsHandlersResult(s0: Sys, ls: seq<Label>, d: bool, i: int, v: Payload)
    requires Begins(s0) && s0.wire && InDone(Side(Run(s0, ls), d).a, i, Returned(v))
    ensures Side(s0, d).b.peer.hasHandler
    ensures exists route, payload, did ::
              && HandledOnce(s0, ls, d, i, route, payload, Arrived(i, route, payload), did) && route != ""
              && CrossesAs(did, v)
  {
    ReturnedHasAnswer(s0, ls, d, i, v);
    WireAnswerMeans(s0, ls, d, i, v);
  }

  lemma ValueMeans(i: int, f: LogicalFrame, hasHandler: bool, did: Reply, answer: Reply, v: Payload)
    requires TaskAnswers(f, hasHandler, did, answer) && ReadsAs(true, i, answer, Value(v))
    ensures f.route.Some? && hasHandler && CrossesAs(did, v)
  {
    WireReplyReads(i, answer);
    if f.route.Some? {
      assert ("no handler for '" + f.route.value + "'")[0] == 'n';
    }
  }

  lemma ErrorMeans(i: int, f: LogicalFrame, hasHandler: bool, did: Reply, answer: Reply, e: string)
    requires TaskAnswers(f, hasHandler, did, answer) && ReadsAs(true, i, answer, RemoteError(e))
    ensures e != ""
    ensures if f.route.None? then e == "request frame is missing method"
            else if hasHandler then did == Bad(e) else e == "no handler for '" + f.route.value + "'"
  {
    WireReplyReads(i, answer);
  }

  lemma WireErrorMeans(s0: Sys, ls: seq<Label>, d: bool, i: int, e: string)
    requires s0.wire && HasAnswer(s0, ls, d, i, RemoteError(e))
    ensures e != ""
    ensures exists route, payload, did ::
              && HandledOnce(s0, ls, d, i, route, payload, Arrived(i, route, payload), did)
              && if route == "" then e == "request frame is missing method"
                 else if Side(s0, d).b.peer.hasHandler then did == Bad(e)
                 else e == "no handler for '" + route + "'"
  {
    var route, payload, sent, f, did, answer :|
      && IsRequest(sent, i, route, payload) && Carry(s0.wire, sent) == Some(f)
      && HandledOnce(s0, ls, d, i, route, payload, f, did)
      && TaskAnswers(f, Side(s0, d).b.peer.hasHandler, did, answer)
      && ReadsAs(s0.wire, i, answer, RemoteError(e));
    RequestArrives(sent, f, i, route, payload);
    ErrorMeans(i, f, Side(s0, d).b.peer.hasHandler, did, answer, e);
  }

  /** A remote error over the control plane always has a text: the one the handler raised, or one of the two fixed
      ones, for an empty method and for a side without a handler. */
  lemma WireCallRaisesItsHandlersError(s0: Sys, ls: seq<Label>, d: bool, i: int, e: string)
    requires Begins(s0) && s0.wire && InDone(Side(Run(s0, ls), d).a, i, Raised(RemoteError(e)))
    ensures e != ""
    ensures exists route, payload, did ::
              && HandledOnce(s0, ls, d, i, route, payload, Arrived(i, route, payload), did)
              && if route == "" then e == "request frame is missing method"
                 else if Side(s0, d).b.peer.hasHandler then did == Bad(e)
                 else e == "no handler for '" + route + "'"
  {
    RaisedHasAnswer(s0, ls, d, i, e);
    WireErrorMeans(s0, ls, d, i, e);
  }
}
