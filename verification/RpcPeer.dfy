/** One logical RPC peer: the fields of `LogicalRpcPeer`, and what each uninterrupted stretch of its
    methods does to them. A stretch runs from one `await` to the next, so it is atomic on the event loop. */
module RpcPeer {
  import opened Common
  import opened Frames

  datatype Outcome =
    | Value(payload: Payload)
    | RemoteError(message: string)
    | LocalError(message: string)
    | PeerClosed
    | Cancelled

  /** A one-shot future of the pending table. */
  datatype Future = Unsettled | Settled(outcome: Outcome)

  type Pending = map<int, Future>

  datatype PeerState = PeerState(
    nextId: int,
    pending: Pending,
    tasks: seq<LogicalFrame>,
    closed: bool,
    hasReader: bool,
    hasHandler: bool)

  /** What the reader does after it handled one frame. */
  datatype Next = Continue | AwaitEventHandler | Raise(message: string)

  function Settle(pending: Pending, id: int, outcome: Outcome): Pending {
    if id in pending && pending[id].Unsettled? then pending[id := Settled(outcome)] else pending
  }

  function Failed(f: Future, outcome: Outcome): Future {
    if f.Unsettled? then Settled(outcome) else f
  }

  function FailAll(pending: Pending, outcome: Outcome): Pending {
    map i | i in pending :: if pending[i].Unsettled? then Settled(outcome) else pending[i]
  }

  /** What a response frame settles a future with. */
  function ResponseOutcome(f: LogicalFrame): Outcome {
    match f.error case Some(message) => RemoteError(message) case None => Value(f.payload)
  }

  function Started(p: PeerState): PeerState {
    p.(hasReader := true)
  }

  function CallBegun(p: PeerState): PeerState {
    p.(nextId := p.nextId + 1, pending := p.pending[p.nextId := Unsettled], hasReader := true)
  }

  function Popped(p: PeerState, id: int): PeerState {
    p.(pending := p.pending - {id})
  }

  function FrameHandled(p: PeerState, f: LogicalFrame): PeerState {
    match f.kind
    case Request => p.(tasks := p.tasks + [f])
    case Response => p.(pending := Settle(p.pending, f.id, ResponseOutcome(f)))
    case Cancel => p.(pending := Settle(p.pending, f.id, Cancelled))
    case Event => p
    case Unknown(_) => p
  }

  function AfterFrame(p: PeerState, f: LogicalFrame): Next {
    match f.kind
    case Request => Continue
    case Response => Continue
    case Cancel => Continue
    case Event => if p.hasHandler && f.route.Some? then AwaitEventHandler else Continue
    case Unknown(_) => Raise("unknown logical frame kind")
  }

  function Closed(p: PeerState, outcome: Outcome): PeerState {
    p.(closed := true, pending := FailAll(FailAll(p.pending, outcome), PeerClosed))
  }

  predicate AllSettled(p: PeerState) {
    p.closed && forall i :: i in p.pending ==> p.pending[i].Settled?
  }

  /** The futures of `after` that were settled before hold the same outcome. */
  predicate OutcomesKept(before: Pending, after: Pending) {
    forall i :: i in before && i in after && before[i].Settled? ==> after[i] == before[i]
  }

  function ErrorFrame(id: int, message: string): LogicalFrame {
    LogicalFrame(id, Response, None, Absent, Some(message))
  }

  /** A reader that is never interrupted, on the frames that arrive before the stream ends. */
  function ReadAll(p: PeerState, frames: seq<LogicalFrame>): PeerState
    decreases |frames|
  {
    if p.closed || frames == [] then Closed(p, PeerClosed)
    else
      var q := FrameHandled(p, frames[0]);
      match AfterFrame(p, frames[0])
      case Raise(message) => Closed(q, LocalError(message))
      case _ => ReadAll(q, frames[1..])
  }

  lemma FailAllIs(before: Pending, after: Pending, outcome: Outcome)
    requires after.Keys == before.Keys && forall i :: i in before ==> after[i] == Failed(before[i], outcome)
    ensures after == FailAll(before, outcome)
  {
    var goal := FailAll(before, outcome);
    assert goal.Keys == after.Keys;
    assert forall i :: i in after ==> after[i] == goal[i];
  }

  class LogicalRpcPeer {
    var nextId: int
    var pending: Pending
    var tasks: seq<LogicalFrame>
    var closed: bool
    var hasReader: bool
    const hasHandler: bool

    function View(): PeerState
      reads this
    {
      PeerState(nextId, pending, tasks, closed, hasReader, hasHandler)
    }

    constructor (hasHandler: bool)
      ensures View() == PeerState(1, map[], [], false, false, hasHandler)
    {
      this.hasHandler := hasHandler;
      nextId, pending, tasks, closed, hasReader := 1, map[], [], false, false;
    }

    method Start() returns (spawned: bool)
      modifies this
      ensures View() == Started(old(View()))
      ensures spawned == !old(hasReader)
    {
      if hasReader {
        return false;
      }
      hasReader := true;
      return true;
    }

    /** `call` up to the first send: refused on a closed peer, and otherwise a fresh id whose future is pending. */
    method BeginCall(route: string, payload: Payload) returns (request: Option<LogicalFrame>)
      modifies this
      ensures old(closed) ==> request == None && View() == old(View())
      ensures !old(closed) ==> View() == CallBegun(old(View()))
      ensures !old(closed) ==> request == Some(LogicalFrame(old(nextId), Request, Some(route), payload, None))
    {
      if closed {
        return None;
      }
      var _ := Start();
      var id := nextId;
      nextId := nextId + 1;
      pending := pending[id := Unsettled];
      return Some(LogicalFrame(id, Request, Some(route), payload, None));
    }

    /** The `finally` of `call`. */
    method EndCall(id: int)
      modifies this
      ensures View() == Popped(old(View()), id)
    {
      pending := pending - {id};
    }

    method SendCancel(id: int) returns (frame: Option<LogicalFrame>)
      ensures frame == if closed then None else Some(LogicalFrame(id, Cancel, None, Absent, None))
    {
      if closed {
        return None;
      }
      return Some(LogicalFrame(id, Cancel, None, Absent, None));
    }

    method CompleteResponse(f: LogicalFrame)
      modifies this
      ensures View() == old(View()).(pending := Settle(old(pending), f.id, ResponseOutcome(f)))
    {
      if f.id !in pending || pending[f.id].Settled? {
        return;
      }
      if f.error.Some? {
        pending := pending[f.id := Settled(RemoteError(f.error.value))];
      } else {
        pending := pending[f.id := Settled(Value(f.payload))];
      }
    }

    method CancelPending(id: int)
      modifies this
      ensures View() == old(View()).(pending := Settle(old(pending), id, Cancelled))
    {
      if id in pending && pending[id].Unsettled? {
        pending := pending[id := Settled(Cancelled)];
      }
    }

    /** Settles what is not settled, one future at a time and in whatever order the table gives them. */
    method FailPending(outcome: Outcome)
      modifies this
      ensures View() == old(View()).(pending := FailAll(old(pending), outcome))
    {
      var todo: set<int> := pending.Keys;
      while todo != {}
        invariant todo <= pending.Keys && pending.Keys == old(pending).Keys
        invariant unchanged(`nextId, `tasks, `closed, `hasReader)
        invariant forall i :: i in old(pending) ==>
                                pending[i] == if i in todo then old(pending)[i] else Failed(old(pending)[i], outcome)
        decreases |todo|
      {
        ghost var _ := Member(todo);
        var id :| id in todo;
        if pending[id].Unsettled? {
          pending := pending[id := Settled(outcome)];
        }
        todo := todo - {id};
      }
      FailAllIs(old(pending), pending, outcome);
    }

    method HandleFrame(f: LogicalFrame) returns (next: Next)
      modifies this
      ensures View() == FrameHandled(old(View()), f)
      ensures next == AfterFrame(old(View()), f)
    {
      match f.kind
      case Request =>
        tasks := tasks + [f];
        return Continue;
      case Response =>
        CompleteResponse(f);
        return Continue;
      case Cancel =>
        CancelPending(f.id);
        return Continue;
      case Event =>
        return if hasHandler && f.route.Some? then AwaitEventHandler else Continue;
      case Unknown(name) =>
        return Raise("unknown logical frame kind");
    }

    /** The `except` and `finally` blocks of `_receive_loop`: `failure` is absent when the loop ended by
        itself or was cancelled. */
    method EndReader(failure: Option<string>)
      modifies this
      ensures View() == Closed(old(View()), if failure.Some? then LocalError(failure.value) else PeerClosed)
      ensures AllSettled(View())
    {
      if failure.Some? {
        FailPending(LocalError(failure.value));
      }
      closed := true;
      FailPending(PeerClosed);
    }

    /** `_receive_loop` with no other task in between, and an event handler that returns. */
    method ReceiveLoop(frames: seq<LogicalFrame>)
      modifies this
      ensures View() == ReadAll(old(View()), frames)
      ensures AllSettled(View())
    {
      var i := 0;
      while !closed && i < |frames|
        invariant 0 <= i <= |frames|
        invariant ReadAll(View(), frames[i..]) == ReadAll(old(View()), frames)
      {
        var next := HandleFrame(frames[i]);
        if next.Raise? {
          EndReader(Some(next.message));
          return;
        }
        i := i + 1;
      }
      EndReader(None);
    }

    /** `aclose` before it waits for its tasks. */
    method BeginClose()
      modifies this
      ensures View() == old(View()).(closed := true, hasReader := false)
    {
      closed := true;
      hasReader := false;
    }

    /** `aclose` after its tasks ended. */
    method FinishClose()
      requires closed
      modifies this
      ensures View() == Closed(old(View()), PeerClosed)
      ensures AllSettled(View())
    {
      FailPending(PeerClosed);
    }
  }

  /** However a table is failed, every future ends settled, settled ones keep their outcome, none is added. */
  lemma FailAllSettles(pending: Pending, outcome: Outcome)
    ensures FailAll(pending, outcome).Keys == pending.Keys
    ensures forall i :: i in pending ==> FailAll(pending, outcome)[i].Settled?
    ensures OutcomesKept(pending, FailAll(pending, outcome))
    ensures FailAll(FailAll(pending, outcome), PeerClosed) == FailAll(pending, outcome)
  {
  }
}
