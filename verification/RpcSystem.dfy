/** Two peers joined by two FIFO queues, and every interleaving of their tasks. */
module RpcSystem {
  import opened Common
  import opened Frames
  import opened RpcPeer
  import opened Sequences

  /** How one `call` ended for its caller. */
  datatype CallResult = Returned(payload: Payload) | Raised(outcome: Outcome) | TimedOut | Abandoned

  /** Where the coroutine of one `call` stands: before its send, waiting for its future, timed out, or finished.
      A timed-out one tells the remote peer when it goes on, if its own peer is still open then. */
  datatype Phase = Sending | Waiting | Expired | Done(result: CallResult)

  datatype Call = Call(route: string, payload: Payload, phase: Phase)

  datatype Reader = NotStarted | Receiving | InEvent | Finished

  datatype Node = Node(peer: PeerState, calls: map<int, Call>, reader: Reader, acloseDone: bool)

  /** What a request handler did: returned a value, or raised. */
  datatype Reply = Good(payload: Payload) | Bad(message: string)

  datatype Served = Served(request: LogicalFrame, reply: Reply)

  /** Where the request of one call is. `Replied(k)` points into the log of handler completions. */
  datatype Stage = InFlight | Running | Dropped | Replied(k: nat)

  /** What happened to the calls of one node, for the statements below; no step reads it. */
  datatype History = History(
    stage: map<int, Stage>,
    served: seq<Served>,
    cancelled: set<int>,
    asked: set<int>)

  /** `wire` says whether the queues carry frames through the control codec. `ab` goes from `a` to `b`. */
  datatype Sys = Sys(
    wire: bool,
    a: Node,
    b: Node,
    ab: seq<LogicalFrame>,
    ba: seq<LogicalFrame>,
    ha: History,
    hb: History)

  datatype Action =
    | CallStart(route: string, payload: Payload)
    | CallSend(id: int)
    | CallReturn(id: int)
    | CallTimeout(id: int)
    | CallExpire(id: int)
    | CallAbandon(id: int)
    | EmitEvent(route: string, payload: Payload)
    | AskCancel(id: int)
    | Start
    | Receive
    | EventDone
    | ReaderStop(failure: Option<string>)
    | HandlerDone(task: nat, reply: Reply)
    | HandlerGone(task: nat)
    | BeginClose
    | FinishClose

  function RequestOf(id: int, call: Call): LogicalFrame {
    LogicalFrame(id, Request, Some(call.route), call.payload, None)
  }

  function ResponseOf(id: int, reply: Reply): LogicalFrame {
    match reply
    case Good(payload) => LogicalFrame(id, Response, None, payload, None)
    case Bad(message) => ErrorFrame(id, message)
  }

  function CancelOf(id: int): LogicalFrame {
    LogicalFrame(id, Cancel, None, Absent, None)
  }

  /** What the receiving end of a queue sees of `f`, when it can be carried at all. */
  function Carry(wire: bool, f: LogicalFrame): Option<LogicalFrame> {
    if wire then OverTheWire(f) else Some(f)
  }

  /** `_handle_request`: a request without a method or a peer without a handler answers an error itself. */
  function ReplyTo(p: PeerState, f: LogicalFrame, reply: Reply): Reply {
    if f.route.None? then Bad("request frame is missing method")
    else if !p.hasHandler then Bad("no handler for '" + f.route.value + "'")
    else reply
  }

  function SetPhase(n: Node, id: int, phase: Phase): Node
    requires id in n.calls
  {
    n.(calls := n.calls[id := n.calls[id].(phase := phase)])
  }

  /** The loop head of the reader: it goes on only while the peer is open. */
  function NextTurn(n: Node): Node {
    if n.peer.closed then n.(reader := Finished, peer := Closed(n.peer, PeerClosed))
    else n.(reader := Receiving)
  }

  function Stopped(n: Node, failure: Option<string>): Node {
    n.(reader := Finished,
       peer := Closed(n.peer, if failure.Some? then LocalError(failure.value) else PeerClosed))
  }

  function ResultOf(outcome: Outcome): CallResult {
    match outcome case Value(payload) => Returned(payload) case _ => Raised(outcome)
  }

  function WithReader(n: Node): Node {
    if n.peer.hasReader then n
    else if n.peer.closed then n.(peer := Closed(Started(n.peer), PeerClosed))
    else n.(peer := Started(n.peer), reader := Receiving)
  }

  function Handled(n: Node, f: LogicalFrame): Node {
    var m := n.(peer := FrameHandled(n.peer, f));
    match AfterFrame(n.peer, f)
    case Continue => NextTurn(m)
    case AwaitEventHandler => m.(reader := InEvent)
    case Raise(message) => Stopped(m, Some(message))
  }

  predicate InPhase(n: Node, id: int, waiting: bool) {
    id in n.calls && (if waiting then n.calls[id].phase.Waiting? else n.calls[id].phase.Sending?)
  }

  // ---- One atomic step of node `a`. A step that is not possible changes nothing ----

  function DoCallStart(s: Sys, route: string, payload: Payload): Sys {
    if s.a.peer.closed then s
    else
      var n := WithReader(s.a);
      s.(a := n.(peer := CallBegun(n.peer), calls := n.calls[n.peer.nextId := Call(route, payload, Sending)]))
  }

  function DoCallSend(s: Sys, id: int): Sys {
    if !InPhase(s.a, id, false) then s
    else
      s.(a := SetPhase(s.a, id, Waiting),
         ab := s.ab + [RequestOf(id, s.a.calls[id])],
         ha := s.ha.(stage := s.ha.stage[id := InFlight]))
  }

  function Ended(n: Node, id: int, result: CallResult): Node
    requires id in n.calls
  {
    SetPhase(n, id, Done(result)).(peer := Popped(n.peer, id))
  }

  function DoCallReturn(s: Sys, id: int): Sys {
    if !(InPhase(s.a, id, true) && id in s.a.peer.pending && s.a.peer.pending[id].Settled?) then s
    else s.(a := Ended(s.a, id, ResultOf(s.a.peer.pending[id].outcome)))
  }

  function DoCallTimeout(s: Sys, id: int): Sys {
    if !InPhase(s.a, id, true) then s
    else
      var n := SetPhase(s.a, id, Expired);
      s.(a := n.(peer := n.peer.(pending := Settle(n.peer.pending, id, Cancelled))))
  }

  function DoCallExpire(s: Sys, id: int): Sys {
    if !(id in s.a.calls && s.a.calls[id].phase.Expired?) then s
    else if s.a.peer.closed then s.(a := Ended(s.a, id, TimedOut))
    else
      s.(a := Ended(s.a, id, TimedOut),
         ab := s.ab + [CancelOf(id)],
         ha := s.ha.(cancelled := s.ha.cancelled + {id}))
  }

  function DoCallAbandon(s: Sys, id: int): Sys {
    if !(id in s.a.calls && !s.a.calls[id].phase.Done?) then s
    else if s.a.calls[id].phase.Sending? then s.(a := SetPhase(s.a, id, Done(Abandoned)))
    else s.(a := Ended(s.a, id, Abandoned))
  }

  function DoEmitEvent(s: Sys, route: string, payload: Payload): Sys {
    if s.a.peer.closed then s
    else s.(a := WithReader(s.a), ab := s.ab + [LogicalFrame(0, Event, Some(route), payload, None)])
  }

  function DoAskCancel(s: Sys, id: int): Sys {
    if s.a.peer.closed then s
    else
      s.(ab := s.ab + [CancelOf(id)],
         ha := s.ha.(cancelled := s.ha.cancelled + {id}, asked := s.ha.asked + {id}))
  }

  function DoStart(s: Sys): Sys {
    s.(a := WithReader(s.a))
  }

  function DoReceive(s: Sys): Sys {
    if !s.a.reader.Receiving? || s.ba == [] || Carry(s.wire, s.ba[0]).None? then s
    else
      var f := Carry(s.wire, s.ba[0]).value;
      var t := s.(a := Handled(s.a, f), ba := s.ba[1..]);
      if f.kind.Request? then t.(hb := s.hb.(stage := s.hb.stage[f.id := Running])) else t
  }

  function DoEventDone(s: Sys): Sys {
    if s.a.reader.InEvent? then s.(a := NextTurn(s.a)) else s
  }

  function DoReaderStop(s: Sys, failure: Option<string>): Sys {
    if s.a.reader.Receiving? || s.a.reader.InEvent? then s.(a := Stopped(s.a, failure)) else s
  }

  function WithoutTask(n: Node, k: nat): Node
    requires k < |n.peer.tasks|
  {
    n.(peer := n.peer.(tasks := Without(n.peer.tasks, k)))
  }

  function DoHandlerDone(s: Sys, k: nat, reply: Reply): Sys {
    if k >= |s.a.peer.tasks| then s
    else
      var f := s.a.peer.tasks[k];
      var r := ReplyTo(s.a.peer, f, reply);
      s.(a := WithoutTask(s.a, k), ab := s.ab + [ResponseOf(f.id, r)], hb := Logged(s.hb, f, r))
  }

  function DoHandlerGone(s: Sys, k: nat): Sys {
    if k >= |s.a.peer.tasks| then s
    else s.(a := WithoutTask(s.a, k), hb := s.hb.(stage := s.hb.stage[s.a.peer.tasks[k].id := Dropped]))
  }

  function DoBeginClose(s: Sys): Sys {
    s.(a := s.a.(peer := s.a.peer.(closed := true, hasReader := false)))
  }

  function DoFinishClose(s: Sys): Sys {
    if !s.a.peer.closed then s else s.(a := s.a.(peer := Closed(s.a.peer, PeerClosed), acloseDone := true))
  }

  function Do(s: Sys, act: Action): Sys {
    match act
    case CallStart(route, payload) => DoCallStart(s, route, payload)
    case CallSend(id) => DoCallSend(s, id)
    case CallReturn(id) => DoCallReturn(s, id)
    case CallTimeout(id) => DoCallTimeout(s, id)
    case CallExpire(id) => DoCallExpire(s, id)
    case CallAbandon(id) => DoCallAbandon(s, id)
    case EmitEvent(route, payload) => DoEmitEvent(s, route, payload)
    case AskCancel(id) => DoAskCancel(s, id)
    case Start => DoStart(s)
    case Receive => DoReceive(s)
    case EventDone => DoEventDone(s)
    case ReaderStop(failure) => DoReaderStop(s, failure)
    case HandlerDone(k, reply) => DoHandlerDone(s, k, reply)
    case HandlerGone(k) => DoHandlerGone(s, k)
    case BeginClose => DoBeginClose(s)
    case FinishClose => DoFinishClose(s)
  }

  function Swap(s: Sys): Sys {
    Sys(s.wire, s.b, s.a, s.ba, s.ab, s.hb, s.ha)
  }

  datatype Label = Label(byA: bool, act: Action)

  function Step(s: Sys, l: Label): Sys {
    if l.byA then Do(s, l.act) else Swap(Do(Swap(s), l.act))
  }

  function Run(s: Sys, ls: seq<Label>): Sys
    decreases |ls|
  {
    if ls == [] then s else Run(Step(s, ls[0]), ls[1..])
  }

  function FreshNode(handler: bool): Node {
    Node(PeerState(1, map[], [], false, false, handler), map[], NotStarted, false)
  }

  function Init(wire: bool, handlerA: bool, handlerB: bool): Sys {
    var h := History(map[], [], {}, {});
    Sys(wire, FreshNode(handlerA), FreshNode(handlerB), [], [], h, h)
  }

  // ---- What holds between the calls of one node and everything else, in every reachable state ----

  ghost predicate IdsInOrder(c: Node, h: History) {
    && 1 <= c.peer.nextId
    && (forall i :: i in c.calls <==> 1 <= i < c.peer.nextId)
    && (forall i :: i in c.peer.pending ==> i in c.calls)
    && (forall i :: i in h.stage ==> i in c.calls && !c.calls[i].phase.Sending?)
    && (forall i :: i in c.calls && !c.calls[i].phase.Done? ==> i in c.peer.pending)
    && (forall i :: i in c.calls && (c.calls[i].phase.Waiting? || c.calls[i].phase.Expired?) ==> i in h.stage)
  }

  /** The requests in the queue are those of the calls in flight, one each. */
  ghost predicate QueueHoldsInFlight(calls: map<int, Call>, out: seq<LogicalFrame>, h: History) {
    && (forall k :: 0 <= k < |out| ==> !out[k].kind.Unknown?)
    && (forall k :: 0 <= k < |out| && out[k].kind.Request? ==>
                      var i := out[k].id;
                      i in h.stage && h.stage[i].InFlight? && i in calls && out[k] == RequestOf(i, calls[i]))
    && (forall j, k :: 0 <= j < k < |out| && out[j].kind.Request? && out[k].kind.Request? ==> out[j].id != out[k].id)
    && (forall i :: i in h.stage && h.stage[i].InFlight? ==> i in calls && RequestOf(i, calls[i]) in out)
  }

  /** The handler tasks are those of the running calls, one each, started with what was sent. */
  ghost predicate TasksHoldRunning(wire: bool, calls: map<int, Call>, tasks: seq<LogicalFrame>, h: History) {
    && (forall k :: 0 <= k < |tasks| ==>
                      var i := tasks[k].id;
                      i in h.stage && h.stage[i].Running? && i in calls && Carry(wire, RequestOf(i, calls[i])) == Some(tasks[k]))
    && (forall j, k :: 0 <= j < k < |tasks| ==> tasks[j].id != tasks[k].id)
    && (forall i :: i in h.stage && h.stage[i].Running? ==>
                      i in calls && Carry(wire, RequestOf(i, calls[i])).Some?
                      && Carry(wire, RequestOf(i, calls[i])).value in tasks)
  }

  /** The log of completions holds one entry for each call that was replied to, for what was sent. */
  ghost predicate LogHoldsReplied(wire: bool, calls: map<int, Call>, h: History) {
    && (forall k :: 0 <= k < |h.served| ==> h.served[k].request.id in h.stage && h.stage[h.served[k].request.id] == Replied(k))
    && (forall i :: i in h.stage && h.stage[i].Replied? ==>
                      h.stage[i].k < |h.served| && i in calls
                      && Carry(wire, RequestOf(i, calls[i])) == Some(h.served[h.stage[i].k].request))
  }

  /** The call `i` was answered: its handler completed, and the reply reads as `outcome` on arrival. */
  ghost predicate Answered(wire: bool, h: History, i: int, outcome: Outcome) {
    && i in h.stage && h.stage[i].Replied? && h.stage[i].k < |h.served|
    && var carried := Carry(wire, ResponseOf(i, h.served[h.stage[i].k].reply));
       carried.Some? && outcome == ResponseOutcome(carried.value)
  }

  ghost predicate ResponsesAreReplies(back: seq<LogicalFrame>, h: History) {
    forall k :: 0 <= k < |back| && back[k].kind.Response? ==>
                  var i := back[k].id;
                  i in h.stage && h.stage[i].Replied? && h.stage[i].k < |h.served|
                  && back[k] == ResponseOf(i, h.served[h.stage[i].k].reply)
  }

  ghost predicate FromAnswer(wire: bool, h: History, i: int, outcome: Outcome) {
    outcome.Value? || outcome.RemoteError? ==> Answered(wire, h, i, outcome)
  }

  ghost predicate ResultIsAnswer(wire: bool, h: History, i: int, result: CallResult) {
    match result
    case Returned(v) => Answered(wire, h, i, Value(v))
    case Raised(o) => FromAnswer(wire, h, i, o)
    case TimedOut => true
    case Abandoned => true
  }

  ghost predicate OutcomesAreAnswers(wire: bool, c: Node, h: History) {
    && (forall i :: i in c.peer.pending && c.peer.pending[i].Settled? ==> FromAnswer(wire, h, i, c.peer.pending[i].outcome))
    && (forall i :: i in c.calls && c.calls[i].phase.Done? ==> ResultIsAnswer(wire, h, i, c.calls[i].phase.result))
  }

  /** A reply whose caller is still unsettled is on its way. */
  ghost predicate RepliesNotLost(pending: Pending, back: seq<LogicalFrame>, h: History) {
    forall i :: i in pending && pending[i].Unsettled? && i in h.stage && h.stage[i].Replied? ==>
                  h.stage[i].k < |h.served| && ResponseOf(i, h.served[h.stage[i].k].reply) in back
  }

  predicate Live(c: Node, i: int) {
    i in c.calls && (c.calls[i].phase.Sending? || c.calls[i].phase.Waiting?)
  }

  /** A live call is cancelled only by a cancel frame of the remote peer. */
  ghost predicate CancelsCome(c: Node, back: seq<LogicalFrame>, remote: History) {
    && (forall k :: 0 <= k < |back| && back[k].kind.Cancel? ==> back[k].id in remote.cancelled)
    && (forall i :: i in c.peer.pending && c.peer.pending[i] == Settled(Cancelled) && Live(c, i) ==>
                      i in remote.cancelled)
    && (forall i :: i in c.calls && c.calls[i].phase == Done(Raised(Cancelled)) ==> i in remote.cancelled)
  }

  /** A node sends a cancel frame for its own timed-out call, or because `cancel` was called. */
  ghost predicate CancelsHaveCause(c: Node, h: History) {
    forall i :: i in h.cancelled ==> i in h.asked || (i in c.calls && c.calls[i].phase == Done(TimedOut))
  }

  ghost predicate ClosedIsSettled(c: Node) {
    c.reader.Finished? || c.acloseDone ==> AllSettled(c.peer)
  }

  /** What the calls of one node have to do with the frames and tasks elsewhere. */
  ghost predicate LinkOk(wire: bool, calls: map<int, Call>, out: seq<LogicalFrame>, tasks: seq<LogicalFrame>,
                         back: seq<LogicalFrame>, h: History)
  {
    && QueueHoldsInFlight(calls, out, h)
    && TasksHoldRunning(wire, calls, tasks, h)
    && LogHoldsReplied(wire, calls, h)
    && ResponsesAreReplies(back, h)
  }

  /** What holds of the pending table and the coroutines of one node. */
  ghost predicate NodeOk(wire: bool, c: Node, back: seq<LogicalFrame>, h: History, remote: History) {
    && IdsInOrder(c, h)
    && OutcomesAreAnswers(wire, c, h)
    && RepliesNotLost(c.peer.pending, back, h)
    && CancelsCome(c, back, remote)
    && CancelsHaveCause(c, h)
  }

  /** Everything that holds of the calls of node `a`. */
  ghost predicate Dir(s: Sys) {
    && LinkOk(s.wire, s.a.calls, s.ab, s.b.peer.tasks, s.ba, s.ha)
    && NodeOk(s.wire, s.a, s.ba, s.ha, s.hb)
    && ClosedIsSettled(s.a)
  }

  ghost predicate Inv(s: Sys) {
    Dir(s) && Dir(Swap(s))
  }

  /** Carrying a frame keeps its id and its kind. */
  lemma CarryKeeps(wire: bool, f: LogicalFrame)
    requires !f.kind.Unknown?
    ensures Carry(wire, f).Some? ==> Carry(wire, f).value.id == f.id && Carry(wire, f).value.kind == f.kind
  {
  }

  // ---- Frames: what one change leaves in place ----

  predicate SameRequests(before: map<int, Call>, after: map<int, Call>) {
    forall i :: i in before ==> i in after && RequestOf(i, after[i]) == RequestOf(i, before[i])
  }

  lemma QueueAppend(calls: map<int, Call>, out: seq<LogicalFrame>, h: History, f: LogicalFrame)
    requires QueueHoldsInFlight(calls, out, h) && !f.kind.Request? && !f.kind.Unknown?
    ensures QueueHoldsInFlight(calls, out + [f], h)
  {
  }

  lemma QueueSend(calls: map<int, Call>, out: seq<LogicalFrame>, h: History, i: int)
    requires QueueHoldsInFlight(calls, out, h) && i in calls && i !in h.stage
    ensures QueueHoldsInFlight(calls, out + [RequestOf(i, calls[i])], h.(stage := h.stage[i := InFlight]))
  {
  }

  lemma QueuePop(calls: map<int, Call>, out: seq<LogicalFrame>, h: History)
    requires QueueHoldsInFlight(calls, out, h) && out != [] && !out[0].kind.Request?
    ensures QueueHoldsInFlight(calls, out[1..], h)
  {
  }

  lemma QueueStage(calls: map<int, Call>, out: seq<LogicalFrame>, h: History, h': History, i: int, to: Stage)
    requires QueueHoldsInFlight(calls, out, h) && h'.stage == h.stage[i := to] && !to.InFlight?
    requires i in h.stage && !h.stage[i].InFlight?
    ensures QueueHoldsInFlight(calls, out, h')
  {
  }

  lemma TasksStage(wire: bool, calls: map<int, Call>, tasks: seq<LogicalFrame>, h: History, i: int, to: Stage)
    requires TasksHoldRunning(wire, calls, tasks, h) && !to.Running?
    requires i in h.stage ==> !h.stage[i].Running?
    ensures TasksHoldRunning(wire, calls, tasks, h.(stage := h.stage[i := to]))
  {
  }

  lemma TasksRemove(wire: bool, calls: map<int, Call>, tasks: seq<LogicalFrame>, h: History, h': History, k: nat, to: Stage)
    requires TasksHoldRunning(wire, calls, tasks, h) && k < |tasks| && !to.Running?
    requires h'.stage == h.stage[tasks[k].id := to]
    ensures TasksHoldRunning(wire, calls, Without(tasks, k), h')
  {
  }

  lemma LogStage(wire: bool, calls: map<int, Call>, h: History, i: int, to: Stage)
    requires LogHoldsReplied(wire, calls, h) && !to.Replied?
    requires i in h.stage ==> !h.stage[i].Replied?
    ensures LogHoldsReplied(wire, calls, h.(stage := h.stage[i := to]))
  {
  }

  /** The history after the handler of request `f` completed with `reply`. */
  function Logged(h: History, f: LogicalFrame, reply: Reply): History {
    h.(served := h.served + [Served(f, reply)], stage := h.stage[f.id := Replied(|h.served|)])
  }

  lemma LogAdd(wire: bool, calls: map<int, Call>, h: History, f: LogicalFrame, reply: Reply)
    requires LogHoldsReplied(wire, calls, h)
    requires f.id in h.stage && !h.stage[f.id].Replied? && f.id in calls
    requires Carry(wire, RequestOf(f.id, calls[f.id])) == Some(f)
    ensures LogHoldsReplied(wire, calls, Logged(h, f, reply))
  {
  }

  /** The replies that `before` holds are those of `after` as well. */
  predicate KeepsReplies(before: History, after: History) {
    forall i :: i in before.stage && before.stage[i].Replied? && before.stage[i].k < |before.served| ==>
                  && i in after.stage && after.stage[i] == before.stage[i]
                  && before.stage[i].k < |after.served|
                  && after.served[before.stage[i].k] == before.served[before.stage[i].k]
  }

  lemma ResponsesFrame(back: seq<LogicalFrame>, h: History, h': History)
    requires ResponsesAreReplies(back, h) && KeepsReplies(h, h')
    ensures ResponsesAreReplies(back, h')
  {
  }

  lemma OutcomesFrame(wire: bool, c: Node, h: History, h': History)
    requires KeepsReplies(h, h') && OutcomesAreAnswers(wire, c, h)
    ensures OutcomesAreAnswers(wire, c, h')
  {
  }

  lemma QueueFrame(before: map<int, Call>, after: map<int, Call>, out: seq<LogicalFrame>, h: History)
    requires SameRequests(before, after) && QueueHoldsInFlight(before, out, h)
    ensures QueueHoldsInFlight(after, out, h)
  {
  }

  lemma TasksFrame(wire: bool, before: map<int, Call>, after: map<int, Call>, tasks: seq<LogicalFrame>, h: History)
    requires SameRequests(before, after) && TasksHoldRunning(wire, before, tasks, h)
    ensures TasksHoldRunning(wire, after, tasks, h)
  {
  }

  lemma LogFrame(wire: bool, before: map<int, Call>, after: map<int, Call>, h: History)
    requires SameRequests(before, after) && LogHoldsReplied(wire, before, h)
    ensures LogHoldsReplied(wire, after, h)
  {
  }

  lemma LinkFrame(wire: bool, before: map<int, Call>, after: map<int, Call>, out: seq<LogicalFrame>,
                  tasks: seq<LogicalFrame>, back: seq<LogicalFrame>, h: History)
    requires SameRequests(before, after) && LinkOk(wire, before, out, tasks, back, h)
    ensures LinkOk(wire, after, out, tasks, back, h)
  {
    QueueFrame(before, after, out, h);
    TasksFrame(wire, before, after, tasks, h);
    LogFrame(wire, before, after, h);
  }

  lemma LinkOut(wire: bool, calls: map<int, Call>, out: seq<LogicalFrame>, out': seq<LogicalFrame>,
                tasks: seq<LogicalFrame>, back: seq<LogicalFrame>, h: History, h': History)
    requires LinkOk(wire, calls, out, tasks, back, h) && QueueHoldsInFlight(calls, out', h)
    requires h'.stage == h.stage && h'.served == h.served
    ensures LinkOk(wire, calls, out', tasks, back, h')
  {
  }

  // ---- What a step of a node does to its own calls ----

  predicate SameCalls(c: Node, d: Node) {
    d.calls == c.calls && d.peer.nextId == c.peer.nextId
  }

  /** The cancels that came with `after` were asked for. */
  predicate OnlyAsked(before: History, after: History) {
    forall i :: i in after.cancelled ==> i in after.asked || (i in before.cancelled && i !in before.asked)
  }

  lemma NodeSame(wire: bool, c: Node, d: Node, back: seq<LogicalFrame>, h: History, h': History, remote: History, remote': History)
    requires NodeOk(wire, c, back, h, remote) && SameCalls(c, d) && d.peer.pending == c.peer.pending
    requires h'.stage == h.stage && h'.served == h.served && OnlyAsked(h, h')
    requires remote.cancelled <= remote'.cancelled
    ensures NodeOk(wire, d, back, h', remote')
  {
    OutcomesFrame(wire, c, h, h');
    assert CancelsHaveCause(d, h');
  }

  lemma NodeFails(wire: bool, c: Node, d: Node, back: seq<LogicalFrame>, h: History, remote: History, outcome: Outcome)
    requires NodeOk(wire, c, back, h, remote) && SameCalls(c, d)
    requires outcome.LocalError? || outcome.PeerClosed?
    requires d.peer.pending == FailAll(FailAll(c.peer.pending, outcome), PeerClosed)
    ensures NodeOk(wire, d, back, h, remote)
  {
  }

  lemma NodeStarts(wire: bool, c: Node, d: Node, call: Call, back: seq<LogicalFrame>, h: History, remote: History)
    requires NodeOk(wire, c, back, h, remote) && call.phase.Sending?
    requires d.calls == c.calls[c.peer.nextId := call] && d.peer.nextId == c.peer.nextId + 1
    requires d.peer.pending == c.peer.pending[c.peer.nextId := Unsettled]
    ensures NodeOk(wire, d, back, h, remote) && SameRequests(c.calls, d.calls)
  {
    StartKeepsIds(c, d, call, h);
    StartKeepsOutcomes(wire, c, d, call, h);
  }

  lemma StartKeepsIds(c: Node, d: Node, call: Call, h: History)
    requires IdsInOrder(c, h) && call.phase.Sending?
    requires d.calls == c.calls[c.peer.nextId := call] && d.peer.nextId == c.peer.nextId + 1
    requires d.peer.pending == c.peer.pending[c.peer.nextId := Unsettled]
    ensures IdsInOrder(d, h)
  {
  }

  lemma StartKeepsOutcomes(wire: bool, c: Node, d: Node, call: Call, h: History)
    requires OutcomesAreAnswers(wire, c, h) && call.phase.Sending?
    requires d.calls == c.calls[c.peer.nextId := call] && d.peer.pending == c.peer.pending[c.peer.nextId := Unsettled]
    ensures OutcomesAreAnswers(wire, d, h)
  {
  }

  lemma NodeSends(wire: bool, c: Node, i: int, back: seq<LogicalFrame>, h: History, remote: History)
    requires NodeOk(wire, c, back, h, remote) && InPhase(c, i, false)
    ensures NodeOk(wire, SetPhase(c, i, Waiting), back, h.(stage := h.stage[i := InFlight]), remote)
  {
  }

  /** The end of a call: its coroutine is done, and its future may be gone. */
  lemma NodeEnds(wire: bool, c: Node, d: Node, i: int, result: CallResult, back: seq<LogicalFrame>, h: History, h': History, remote: History)
    requires NodeOk(wire, c, back, h, remote) && i in c.calls && !c.calls[i].phase.Done?
    requires d.calls == SetPhase(c, i, Done(result)).calls && d.peer.nextId == c.peer.nextId
    requires d.peer.pending == c.peer.pending - {i} || (d.peer.pending == c.peer.pending && result.Abandoned?)
    requires result.TimedOut? || result.Abandoned?
             || (InPhase(c, i, true) && c.peer.pending[i].Settled? && result == ResultOf(c.peer.pending[i].outcome))
    requires c.calls[i].phase.Sending? ==> result.Abandoned?
    requires h' == h || (result.TimedOut? && h' == h.(cancelled := h.cancelled + {i}))
    ensures NodeOk(wire, d, back, h', remote)
  {
    EndKeepsIds(c, d, i, result, h, h');
    OutcomesFrame(wire, c, h, h');
    assert result.Raised? || result.Returned? ==> FromAnswer(wire, h', i, c.peer.pending[i].outcome);
  }

  lemma EndKeepsIds(c: Node, d: Node, i: int, result: CallResult, h: History, h': History)
    requires IdsInOrder(c, h) && i in c.calls && h'.stage == h.stage && (c.calls[i].phase.Sending? ==> result.Abandoned?)
    requires d.calls == SetPhase(c, i, Done(result)).calls && d.peer.nextId == c.peer.nextId
    requires d.peer.pending == c.peer.pending - {i} || (d.peer.pending == c.peer.pending && result.Abandoned?)
    ensures IdsInOrder(d, h')
  {
  }

  lemma NodeExpires(wire: bool, c: Node, i: int, back: seq<LogicalFrame>, h: History, remote: History)
    requires NodeOk(wire, c, back, h, remote) && InPhase(c, i, true)
    ensures var n := SetPhase(c, i, Expired);
            NodeOk(wire, n.(peer := n.peer.(pending := Settle(n.peer.pending, i, Cancelled))), back, h, remote)
  {
  }

  lemma RepliesAfterPop(wire: bool, c: Node, back: seq<LogicalFrame>, h: History, pending: Pending)
    requires RepliesNotLost(c.peer.pending, back, h) && ResponsesAreReplies(back, h)
    requires back != [] && Carry(wire, back[0]).Some? && !back[0].kind.Unknown?
    requires pending == FrameHandled(c.peer, Carry(wire, back[0]).value).pending
    ensures RepliesNotLost(pending, back[1..], h)
  {
    CarryKeeps(wire, back[0]);
    forall i | i in pending && pending[i].Unsettled? && i in h.stage && h.stage[i].Replied?
      ensures h.stage[i].k < |h.served| && ResponseOf(i, h.served[h.stage[i].k].reply) in back[1..]
    {
      assert c.peer.pending[i].Unsettled?;
      assert ResponseOf(i, h.served[h.stage[i].k].reply) in [back[0]] + back[1..];
    }
  }

  /** A frame of the remote peer arrives: the node's table changes as that frame says. */
  lemma OutcomesAfterFrame(wire: bool, c: Node, d: Node, f: LogicalFrame, h: History)
    requires OutcomesAreAnswers(wire, c, h) && (f.kind.Response? ==> Answered(wire, h, f.id, ResponseOutcome(f)))
    requires SameCalls(c, d) && d.peer.pending == FrameHandled(c.peer, f).pending
    ensures OutcomesAreAnswers(wire, d, h)
  {
  }

  lemma NodeReceives(wire: bool, c: Node, d: Node, back: seq<LogicalFrame>, h: History, remote: History)
    requires NodeOk(wire, c, back, h, remote) && ResponsesAreReplies(back, h)
    requires back != [] && Carry(wire, back[0]).Some? && !back[0].kind.Unknown?
    requires SameCalls(c, d) && d.peer.pending == FrameHandled(c.peer, Carry(wire, back[0]).value).pending
    ensures NodeOk(wire, d, back[1..], h, remote)
  {
    var f := Carry(wire, back[0]).value;
    CarryKeeps(wire, back[0]);
    OutcomesAfterFrame(wire, c, d, f, h);
    RepliesAfterPop(wire, c, back, h, d.peer.pending);
    CancelsAfterFrame(c, d, f, back, remote);
  }

  lemma CancelsAfterFrame(c: Node, d: Node, f: LogicalFrame, back: seq<LogicalFrame>, remote: History)
    requires CancelsCome(c, back, remote) && back != [] && f.id == back[0].id && f.kind == back[0].kind
    requires SameCalls(c, d) && d.peer.pending == FrameHandled(c.peer, f).pending
    ensures CancelsCome(d, back[1..], remote)
  {
  }

  lemma NodeMoves(wire: bool, c: Node, back: seq<LogicalFrame>, h: History, remote: History, i: int, to: Stage)
    requires NodeOk(wire, c, back, h, remote) && !to.Replied?
    requires i in h.stage && !h.stage[i].Replied?
    ensures NodeOk(wire, c, back, h.(stage := h.stage[i := to]), remote)
  {
  }

  lemma NodeReplied(wire: bool, c: Node, back: seq<LogicalFrame>, h: History, remote: History, f: LogicalFrame, reply: Reply)
    requires NodeOk(wire, c, back, h, remote)
    requires f.id in h.stage && !h.stage[f.id].Replied?
    ensures NodeOk(wire, c, back + [ResponseOf(f.id, reply)], Logged(h, f, reply), remote)
  {
  }

  lemma ResponsesAdd(back: seq<LogicalFrame>, h: History, f: LogicalFrame, reply: Reply)
    requires ResponsesAreReplies(back, h) && f.id in h.stage && !h.stage[f.id].Replied?
    ensures ResponsesAreReplies(back + [ResponseOf(f.id, reply)], Logged(h, f, reply))
  {
  }

  // ---- Every step, for the calls of the node that takes it ----

  lemma ClosedSettles(p: PeerState, outcome: Outcome)
    ensures AllSettled(Closed(p, outcome))
  {
  }

  lemma OwnCallStart(s: Sys, route: string, payload: Payload)
    requires Dir(s)
    ensures Dir(DoCallStart(s, route, payload))
  {
    if !s.a.peer.closed {
      var t := DoCallStart(s, route, payload);
      NodeStarts(s.wire, s.a, t.a, Call(route, payload, Sending), s.ba, s.ha, s.hb);
      LinkFrame(s.wire, s.a.calls, t.a.calls, s.ab, s.b.peer.tasks, s.ba, s.ha);
    }
  }

  lemma OwnCallSend(s: Sys, i: int)
    requires Dir(s)
    ensures Dir(DoCallSend(s, i))
  {
    if InPhase(s.a, i, false) {
      var t := DoCallSend(s, i);
      NodeSends(s.wire, s.a, i, s.ba, s.ha, s.hb);
      LinkFrame(s.wire, s.a.calls, t.a.calls, s.ab, s.b.peer.tasks, s.ba, s.ha);
      QueueSend(t.a.calls, s.ab, s.ha, i);
      TasksStage(s.wire, t.a.calls, s.b.peer.tasks, s.ha, i, InFlight);
      LogStage(s.wire, t.a.calls, s.ha, i, InFlight);
      ResponsesFrame(s.ba, s.ha, t.ha);
    }
  }

  lemma OwnCallReturn(s: Sys, i: int)
    requires Dir(s)
    ensures Dir(DoCallReturn(s, i))
  {
    if InPhase(s.a, i, true) && i in s.a.peer.pending && s.a.peer.pending[i].Settled? {
      var t := DoCallReturn(s, i);
      NodeEnds(s.wire, s.a, t.a, i, ResultOf(s.a.peer.pending[i].outcome), s.ba, s.ha, s.ha, s.hb);
      LinkFrame(s.wire, s.a.calls, t.a.calls, s.ab, s.b.peer.tasks, s.ba, s.ha);
    }
  }

  lemma OwnCallExpire(s: Sys, i: int)
    requires Dir(s)
    ensures Dir(DoCallExpire(s, i))
  {
    if i in s.a.calls && s.a.calls[i].phase.Expired? {
      var n := Ended(s.a, i, TimedOut);
      LinkFrame(s.wire, s.a.calls, n.calls, s.ab, s.b.peer.tasks, s.ba, s.ha);
      if !s.a.peer.closed {
        var h := s.ha.(cancelled := s.ha.cancelled + {i});
        NodeEnds(s.wire, s.a, n, i, TimedOut, s.ba, s.ha, h, s.hb);
        QueueAppend(n.calls, s.ab, s.ha, CancelOf(i));
        LinkOut(s.wire, n.calls, s.ab, s.ab + [CancelOf(i)], s.b.peer.tasks, s.ba, s.ha, h);
      } else {
        NodeEnds(s.wire, s.a, n, i, TimedOut, s.ba, s.ha, s.ha, s.hb);
      }
    }
  }

  lemma OwnCallAbandon(s: Sys, i: int)
    requires Dir(s)
    ensures Dir(DoCallAbandon(s, i))
  {
    if i in s.a.calls && !s.a.calls[i].phase.Done? {
      var t := DoCallAbandon(s, i);
      NodeEnds(s.wire, s.a, t.a, i, Abandoned, s.ba, s.ha, s.ha, s.hb);
      LinkFrame(s.wire, s.a.calls, t.a.calls, s.ab, s.b.peer.tasks, s.ba, s.ha);
    }
  }

  lemma OwnCallTimeout(s: Sys, i: int)
    requires Dir(s)
    ensures Dir(DoCallTimeout(s, i))
  {
    if InPhase(s.a, i, true) {
      var t := DoCallTimeout(s, i);
      NodeExpires(s.wire, s.a, i, s.ba, s.ha, s.hb);
      LinkFrame(s.wire, s.a.calls, t.a.calls, s.ab, s.b.peer.tasks, s.ba, s.ha);
    }
  }

  /** From `s` to `t` no call of `a` moves, except that its pending futures may all fail with `failure`. */
  predicate Quiet(s: Sys, t: Sys, failure: Option<Outcome>) {
    && t.wire == s.wire && t.b == s.b && t.ba == s.ba && SameCalls(s.a, t.a)
    && t.a.peer.pending == (if failure.None? then s.a.peer.pending
                            else FailAll(FailAll(s.a.peer.pending, failure.value), PeerClosed))
    && (failure.Some? ==> failure.value.LocalError? || failure.value.PeerClosed?)
    && t.ha.stage == s.ha.stage && t.ha.served == s.ha.served
    && OnlyAsked(s.ha, t.ha)
    && t.hb.cancelled == s.hb.cancelled
  }

  lemma OwnQuiet(s: Sys, t: Sys, failure: Option<Outcome>, sent: seq<LogicalFrame>)
    requires Dir(s) && Quiet(s, t, failure) && ClosedIsSettled(t.a)
    requires t.ab == s.ab + sent && |sent| <= 1
    requires sent != [] ==> !sent[0].kind.Request? && !sent[0].kind.Unknown?
    ensures Dir(t)
  {
    if failure.Some? {
      NodeFails(s.wire, s.a, t.a, s.ba, s.ha, s.hb, failure.value);
    } else {
      NodeSame(s.wire, s.a, t.a, s.ba, s.ha, s.ha, s.hb, s.hb);
    }
    NodeSame(s.wire, t.a, t.a, s.ba, s.ha, t.ha, s.hb, t.hb);
    if sent != [] {
      QueueAppend(s.a.calls, s.ab, s.ha, sent[0]);
      assert sent == [sent[0]];
    } else {
      assert s.ab + sent == s.ab;
    }
    LinkOut(s.wire, s.a.calls, s.ab, t.ab, s.b.peer.tasks, s.ba, s.ha, t.ha);
  }

  lemma OwnStart(s: Sys)
    requires Dir(s)
    ensures Dir(DoStart(s))
  {
    ClosedSettles(Started(s.a.peer), PeerClosed);
    OwnQuiet(s, DoStart(s), if s.a.peer.closed && !s.a.peer.hasReader then Some(PeerClosed) else None, []);
  }

  lemma OwnEmitEvent(s: Sys, route: string, payload: Payload)
    requires Dir(s)
    ensures Dir(DoEmitEvent(s, route, payload))
  {
    if !s.a.peer.closed {
      OwnQuiet(s, DoEmitEvent(s, route, payload), None, [LogicalFrame(0, Event, Some(route), payload, None)]);
    }
  }

  lemma OwnAskCancel(s: Sys, id: int)
    requires Dir(s)
    ensures Dir(DoAskCancel(s, id))
  {
    if !s.a.peer.closed {
      OwnQuiet(s, DoAskCancel(s, id), None, [CancelOf(id)]);
    }
  }

  lemma OwnClose(s: Sys)
    requires Dir(s)
    ensures Dir(DoBeginClose(s)) && Dir(DoFinishClose(s))
  {
    OwnQuiet(s, DoBeginClose(s), None, []);
    if s.a.peer.closed {
      ClosedSettles(s.a.peer, PeerClosed);
      OwnQuiet(s, DoFinishClose(s), Some(PeerClosed), []);
    }
  }

  lemma OwnEventDone(s: Sys)
    requires Dir(s)
    ensures Dir(DoEventDone(s))
  {
    if s.a.reader.InEvent? {
      ClosedSettles(s.a.peer, PeerClosed);
      OwnQuiet(s, DoEventDone(s), if s.a.peer.closed then Some(PeerClosed) else None, []);
    }
  }

  lemma OwnReaderStop(s: Sys, failure: Option<string>)
    requires Dir(s)
    ensures Dir(DoReaderStop(s, failure))
  {
    if s.a.reader.Receiving? || s.a.reader.InEvent? {
      var outcome := if failure.Some? then LocalError(failure.value) else PeerClosed;
      ClosedSettles(s.a.peer, outcome);
      OwnQuiet(s, DoReaderStop(s, failure), Some(outcome), []);
    }
  }

  lemma OwnHandlerDone(s: Sys, k: nat, reply: Reply)
    requires Dir(s)
    ensures Dir(DoHandlerDone(s, k, reply))
  {
    if k < |s.a.peer.tasks| {
      var f := s.a.peer.tasks[k];
      OwnQuiet(s, DoHandlerDone(s, k, reply), None, [ResponseOf(f.id, ReplyTo(s.a.peer, f, reply))]);
    }
  }

  lemma OwnHandlerGone(s: Sys, k: nat)
    requires Dir(s)
    ensures Dir(DoHandlerGone(s, k))
  {
    if k < |s.a.peer.tasks| {
      OwnQuiet(s, DoHandlerGone(s, k), None, []);
    }
  }

  /** The system after the reader of `a` acted on the frame `f` at the head of its queue, before its next turn. */
  function Delivered(s: Sys, f: LogicalFrame): Sys
    requires s.ba != []
  {
    s.(a := s.a.(peer := FrameHandled(s.a.peer, f)), ba := s.ba[1..])
  }

  lemma OwnDelivery(s: Sys, f: LogicalFrame)
    requires Dir(s) && s.ba != [] && !s.ba[0].kind.Unknown? && Carry(s.wire, s.ba[0]) == Some(f)
    requires s.a.reader.Receiving?
    ensures Dir(Delivered(s, f))
  {
    var u := Delivered(s, f);
    NodeReceives(s.wire, s.a, u.a, s.ba, s.ha, s.hb);
    assert ResponsesAreReplies(u.ba, s.ha);
  }

  lemma HandledFrame(n: Node, f: LogicalFrame)
    requires !f.kind.Unknown?
    ensures var m := n.(peer := FrameHandled(n.peer, f));
            && SameCalls(m, Handled(n, f)) && Handled(n, f).peer.tasks == m.peer.tasks
            && (if Handled(n, f).reader.Finished?
                then Handled(n, f).peer == Closed(m.peer, PeerClosed)
                else Handled(n, f).peer == m.peer && Handled(n, f).acloseDone == n.acloseDone)
  {
  }

  /** What follows the frame in the same stretch moves no call, and at most fails what is pending. */
  lemma ReceiveIsQuiet(s: Sys, f: LogicalFrame)
    requires s.a.reader.Receiving? && s.ba != [] && Carry(s.wire, s.ba[0]) == Some(f) && !f.kind.Unknown?
    requires ClosedIsSettled(Delivered(s, f).a)
    ensures var t := DoReceive(s);
            && Quiet(Delivered(s, f), t, if t.a.reader.Finished? then Some(PeerClosed) else None)
            && t.ab == s.ab && ClosedIsSettled(t.a)
  {
    HandledFrame(s.a, f);
    ClosedSettles(FrameHandled(s.a.peer, f), PeerClosed);
  }

  predicate KnownKinds(frames: seq<LogicalFrame>) {
    forall k :: 0 <= k < |frames| ==> !frames[k].kind.Unknown?
  }

  lemma OwnReceive(s: Sys)
    requires Dir(s) && KnownKinds(s.ba)
    ensures Dir(DoReceive(s))
  {
    if s.a.reader.Receiving? && s.ba != [] && Carry(s.wire, s.ba[0]).Some? {
      var f, t := Carry(s.wire, s.ba[0]).value, DoReceive(s);
      CarryKeeps(s.wire, s.ba[0]);
      OwnDelivery(s, f);
      ReceiveIsQuiet(s, f);
      OwnQuiet(Delivered(s, f), t, if t.a.reader.Finished? then Some(PeerClosed) else None, []);
    }
  }

  predicate IsCallStep(act: Action) {
    act.CallStart? || act.CallSend? || act.CallReturn? || act.CallTimeout? || act.CallExpire? || act.CallAbandon?
  }

  lemma OwnCallStep(s: Sys, act: Action)
    requires Dir(s) && IsCallStep(act)
    ensures Dir(Do(s, act))
  {
    match act
    case CallStart(route, payload) => OwnCallStart(s, route, payload);
    case CallSend(id) => OwnCallSend(s, id);
    case CallReturn(id) => OwnCallReturn(s, id);
    case CallTimeout(id) => OwnCallTimeout(s, id);
    case CallExpire(id) => OwnCallExpire(s, id);
    case CallAbandon(id) => OwnCallAbandon(s, id);
  }

  predicate IsReaderStep(act: Action) {
    act.EventDone? || act.ReaderStop?
  }

  predicate IsHandlerStep(act: Action) {
    act.HandlerDone? || act.HandlerGone?
  }

  lemma QueuesHoldKnownKinds(s: Sys)
    requires Inv(s)
    ensures KnownKinds(s.ba)
  {
  }

  lemma OwnReaderStep(s: Sys, act: Action)
    requires Dir(s) && IsReaderStep(act)
    ensures Dir(Do(s, act))
  {
    match act
    case EventDone => OwnEventDone(s);
    case ReaderStop(failure) => OwnReaderStop(s, failure);
  }

  lemma OwnHandlerStep(s: Sys, act: Action)
    requires Dir(s) && IsHandlerStep(act)
    ensures Dir(Do(s, act))
  {
    match act
    case HandlerDone(k, reply) => OwnHandlerDone(s, k, reply);
    case HandlerGone(k) => OwnHandlerGone(s, k);
  }

  lemma OwnOtherStep(s: Sys, act: Action)
    requires Dir(s) && !IsCallStep(act) && !act.Receive? && !IsReaderStep(act) && !IsHandlerStep(act)
    ensures Dir(Do(s, act))
  {
    match act
    case EmitEvent(route, payload) => OwnEmitEvent(s, route, payload);
    case AskCancel(id) => OwnAskCancel(s, id);
    case Start => OwnStart(s);
    case BeginClose => OwnClose(s);
    case FinishClose => OwnClose(s);
  }

  lemma OwnStep(s: Sys, act: Action)
    requires Inv(s)
    ensures Dir(Do(s, act))
  {
    if IsCallStep(act) {
      OwnCallStep(s, act);
    } else if act.Receive? {
      QueuesHoldKnownKinds(s);
      OwnReceive(s);
    } else if IsReaderStep(act) {
      OwnReaderStep(s, act);
    } else if IsHandlerStep(act) {
      OwnHandlerStep(s, act);
    } else {
      OwnOtherStep(s, act);
    }
  }

  // ---- Every step, for the calls of the other node ----

  /** Node `a` may send at most one frame that is no response; nothing else of `b`'s calls moves. */
  lemma PeerHears(s: Sys, t: Sys, sent: seq<LogicalFrame>)
    requires Dir(Swap(s)) && t.wire == s.wire && t.b == s.b && t.hb == s.hb && t.ba == s.ba
    requires t.a.peer.tasks == s.a.peer.tasks && s.ha.cancelled <= t.ha.cancelled
    requires t.ab == s.ab + sent && |sent| <= 1
    requires sent != [] ==> !sent[0].kind.Response? && (sent[0].kind.Cancel? ==> sent[0].id in t.ha.cancelled)
    ensures Dir(Swap(t))
  {
  }

  lemma PeerCall(s: Sys, act: Action)
    requires Dir(Swap(s)) && IsCallStep(act)
    ensures Dir(Swap(Do(s, act)))
  {
    var t := Do(s, act);
    PeerHears(s, t, if |t.ab| == |s.ab| then [] else [t.ab[|s.ab|]]);
  }

  lemma PeerRest(s: Sys, act: Action)
    requires Dir(Swap(s))
    requires act.EmitEvent? || act.AskCancel? || act.Start? || act.BeginClose? || act.FinishClose? || act.EventDone? || act.ReaderStop?
    ensures Dir(Swap(Do(s, act)))
  {
    var t := Do(s, act);
    PeerHears(s, t, if |t.ab| == |s.ab| then [] else [t.ab[|s.ab|]]);
  }

  /** The request at the head of the queue becomes a running task. */
  lemma LinkDelivers(wire: bool, calls: map<int, Call>, out: seq<LogicalFrame>, tasks: seq<LogicalFrame>,
                     back: seq<LogicalFrame>, h: History, f: LogicalFrame)
    requires LinkOk(wire, calls, out, tasks, back, h) && out != [] && out[0].kind.Request? && Carry(wire, out[0]) == Some(f)
    ensures f.id in h.stage && h.stage[f.id].InFlight?
    ensures LinkOk(wire, calls, out[1..], tasks + [f], back, h.(stage := h.stage[f.id := Running]))
  {
  }

  lemma PeerReceivesRequest(s: Sys, f: LogicalFrame)
    requires Dir(Swap(s)) && s.a.reader.Receiving? && s.ba != [] && Carry(s.wire, s.ba[0]) == Some(f)
    requires s.ba[0].kind.Request? && f.kind.Request?
    ensures Dir(Swap(DoReceive(s)))
  {
    HandledFrame(s.a, f);
    LinkDelivers(s.wire, s.b.calls, s.ba, s.a.peer.tasks, s.ab, s.hb, f);
    NodeMoves(s.wire, s.b, s.ab, s.hb, s.ha, f.id, Running);
  }

  lemma PeerReceivesOther(s: Sys, f: LogicalFrame)
    requires Dir(Swap(s)) && s.a.reader.Receiving? && s.ba != [] && Carry(s.wire, s.ba[0]) == Some(f)
    requires !s.ba[0].kind.Request? && !f.kind.Request? && !f.kind.Unknown?
    ensures Dir(Swap(DoReceive(s)))
  {
    HandledFrame(s.a, f);
    QueuePop(s.b.calls, s.ba, s.hb);
  }

  lemma PeerReceive(s: Sys)
    requires Dir(Swap(s))
    ensures Dir(Swap(DoReceive(s)))
  {
    if s.a.reader.Receiving? && s.ba != [] && Carry(s.wire, s.ba[0]).Some? {
      var f := Carry(s.wire, s.ba[0]).value;
      CarryKeeps(s.wire, s.ba[0]);
      if f.kind.Request? {
        PeerReceivesRequest(s, f);
      } else {
        PeerReceivesOther(s, f);
      }
    }
  }

  lemma PeerHandlerDone(s: Sys, k: nat, reply: Reply)
    requires Dir(Swap(s))
    ensures Dir(Swap(DoHandlerDone(s, k, reply)))
  {
    if k < |s.a.peer.tasks| {
      var f := s.a.peer.tasks[k];
      var r := ReplyTo(s.a.peer, f, reply);
      var t := DoHandlerDone(s, k, reply);
      NodeReplied(s.wire, s.b, s.ab, s.hb, s.ha, f, r);
      QueueStage(s.b.calls, s.ba, s.hb, t.hb, f.id, Replied(|s.hb.served|));
      TasksRemove(s.wire, s.b.calls, s.a.peer.tasks, s.hb, t.hb, k, Replied(|s.hb.served|));
      LogAdd(s.wire, s.b.calls, s.hb, f, r);
      ResponsesAdd(s.ab, s.hb, f, r);
    }
  }

  lemma PeerHandlerGone(s: Sys, k: nat)
    requires Dir(Swap(s))
    ensures Dir(Swap(DoHandlerGone(s, k)))
  {
    if k < |s.a.peer.tasks| {
      var f := s.a.peer.tasks[k];
      var t := DoHandlerGone(s, k);
      NodeMoves(s.wire, s.b, s.ab, s.hb, s.ha, f.id, Dropped);
      QueueStage(s.b.calls, s.ba, s.hb, t.hb, f.id, Dropped);
      TasksRemove(s.wire, s.b.calls, s.a.peer.tasks, s.hb, t.hb, k, Dropped);
      LogStage(s.wire, s.b.calls, s.hb, f.id, Dropped);
      ResponsesFrame(s.ab, s.hb, t.hb);
    }
  }

  lemma PeerStep(s: Sys, act: Action)
    requires Inv(s)
    ensures Dir(Swap(Do(s, act)))
  {
    if IsCallStep(act) {
      PeerCall(s, act);
    } else if act.Receive? {
      PeerReceive(s);
    } else if act.HandlerDone? {
      PeerHandlerDone(s, act.task, act.reply);
    } else if act.HandlerGone? {
      PeerHandlerGone(s, act.task);
    } else {
      PeerRest(s, act);
    }
  }

  lemma StepKeepsInv(s: Sys, l: Label)
    requires Inv(s)
    ensures Inv(Step(s, l))
  {
    var from := if l.byA then s else Swap(s);
    assert Swap(Swap(s)) == s;
    OwnStep(from, l.act);
    PeerStep(from, l.act);
    assert Swap(Swap(Do(from, l.act))) == Do(from, l.act);
  }

  lemma {:induction false} RunKeepsInv(s: Sys, ls: seq<Label>)
    requires Inv(s)
    ensures Inv(Run(s, ls))
    decreases |ls|
  {
    if ls != [] {
      StepKeepsInv(s, ls[0]);
      RunKeepsInv(Step(s, ls[0]), ls[1..]);
    }
  }

  lemma InitHolds(wire: bool, handlerA: bool, handlerB: bool)
    ensures Inv(Init(wire, handlerA, handlerB))
  {
    FreshHolds(Init(wire, handlerA, handlerB));
    FreshHolds(Swap(Init(wire, handlerA, handlerB)));
  }

  lemma FreshHolds(s: Sys)
    requires s.ab == s.ba == s.b.peer.tasks == [] && s.ha == History(map[], [], {}, {}) && s.a == FreshNode(s.a.peer.hasHandler)
    ensures Dir(s)
  {
  }
}
