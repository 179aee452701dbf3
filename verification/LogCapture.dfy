/** The recorder of one block's log events and operations: `LogCapture`. */
module LogCapture {
  import opened Sequences

  /** What the bus delivers: a log event, an operation's end, a loss further up, or the teardown marker. */
  datatype Event = NixLog(request: int, line: string) | Finalized(request: int) | Lost(count: nat) | Teardown

  predicate IsNixLog(e: Event) {
    e.NixLog?
  }

  function LastOf<T>(s: seq<T>, n: nat): seq<T> {
    if |s| <= n then s else s[|s| - n..]
  }

  /** The ids whose end was delivered. */
  function Marked(delivered: seq<Event>): set<int> {
    if delivered == [] then {}
    else
      var last := delivered[|delivered| - 1];
      Marked(delivered[..|delivered| - 1]) + if last.Finalized? then {last.request} else {}
  }

  /** The order of delivery does not matter to the marked ids. */
  lemma {:induction false} MarkedIsDelivered(delivered: seq<Event>, id: int)
    ensures id in Marked(delivered) <==> Finalized(id) in delivered
  {
    if delivered != [] {
      MarkedIsDelivered(delivered[..|delivered| - 1], id);
      assert delivered == delivered[..|delivered| - 1] + [delivered[|delivered| - 1]];
    }
  }

  function LostIn(delivered: seq<Event>): nat {
    if delivered == [] then 0
    else
      var last := delivered[|delivered| - 1];
      LostIn(delivered[..|delivered| - 1]) + if last.Lost? then last.count else 0
  }

  /** A capture that keeps `n` events keeps the end of what it saw: all of it, or the last `n`. */
  lemma TheEndIsKept<T>(s: seq<T>, n: nat)
    ensures |LastOf(s, n)| == n || (|LastOf(s, n)| < n && LastOf(s, n) == s)
    ensures exists gone :: s == gone + LastOf(s, n)
  {
    assert s == (if |s| <= n then [] else s[..|s| - n]) + LastOf(s, n);
  }

  /** The recorded kind of event is the log event. */
  lemma LogEventsAreRecorded(delivered: seq<Event>)
    ensures forall e :: e in Kept(delivered, IsNixLog) <==> e in delivered && e.NixLog?
  {
    KeptMembers(delivered, IsNixLog);
  }

  /** The losses are the sum of the counts of the notices, however the deliveries are cut in two. */
  lemma {:induction false} LossesAddUp(a: seq<Event>, b: seq<Event>)
    ensures LostIn(a + b) == LostIn(a) + LostIn(b)
    ensures forall e :: LostIn([e]) == match e case Lost(count) => count case _ => 0
    decreases |b|
  {
    if b == [] {
      assert a + b == a;
    } else {
      var n := |b| - 1;
      assert (a + b)[..|a + b| - 1] == a + b[..n] && (a + b)[|a + b| - 1] == b[n];
      LossesAddUp(a, b[..n]);
    }
  }

  /** A bounded deque that takes one more element at the end. */
  lemma AppendToLast<T>(s: seq<T>, x: T, n: nat)
    ensures LastOf(s + [x], n) ==
            if n == 0 then [] else if |LastOf(s, n)| == n then LastOf(s, n)[1..] + [x] else LastOf(s, n) + [x]
    ensures |LastOf(s, n)| == n <==> |s| >= n
  {
  }

  /** What one more delivered event changes. */
  lemma OneMoreDelivered(delivered: seq<Event>, e: Event)
    ensures Kept(delivered + [e], IsNixLog) == if e.NixLog? then Kept(delivered, IsNixLog) + [e] else Kept(delivered, IsNixLog)
    ensures LostIn(delivered + [e]) == LostIn(delivered) + if e.Lost? then e.count else 0
    ensures Marked(delivered + [e]) == if e.Finalized? then Marked(delivered) + {e.request} else Marked(delivered)
  {
  }

  class LogCapture {
    const maxEvents: nat
    var events: seq<Event>
    var truncated: bool
    var droppedEvents: nat
    var requestIds: set<int>
    var finalized: set<int>
    var waiters: map<int, bool>
    var active: bool

    /** Everything the bus delivered to this capture, and every id registered inside its block. */
    ghost var delivered: seq<Event>
    ghost var registered: set<int>

    /** In every reachable state the capture is this function of what was delivered and registered, in
        whatever order the two were interleaved. */
    ghost predicate Valid()
      reads this
    {
      && events == LastOf(Kept(delivered, IsNixLog), maxEvents)
      && (truncated <==> |Kept(delivered, IsNixLog)| > maxEvents)
      && droppedEvents == LostIn(delivered)
      && requestIds == registered
      && finalized == Marked(delivered)
      && requestIds <= waiters.Keys
      && (forall id :: id in waiters && waiters[id] ==> id in finalized)
    }

    constructor (maxEvents: nat)
      ensures Valid() && delivered == [] && registered == {} && !active && this.maxEvents == maxEvents
    {
      this.maxEvents := maxEvents;
      events, truncated, droppedEvents := [], false, 0;
      requestIds, finalized, waiters, active := {}, {}, map[], false;
      delivered, registered := [], {};
    }

    method Enter()
      requires Valid()
      modifies `active
      ensures Valid() && active
    {
      active := true;
    }

    method Leave()
      requires Valid()
      modifies `active
      ensures Valid() && !active
    {
      active := false;
    }

    method RegisterRequest(id: int)
      requires Valid()
      modifies `requestIds, `waiters, `registered
      ensures Valid()
      ensures registered == if active then old(registered) + {id} else old(registered)
    {
      if active {
        requestIds := requestIds + {id};
        if id !in waiters {
          waiters := waiters[id := false];
        }
        registered := registered + {id};
      }
    }

    method RecordLog(e: Event, ghost logs: seq<Event>)
      requires events == LastOf(logs, maxEvents) && (truncated <==> |logs| > maxEvents)
      modifies `events, `truncated
      ensures events == LastOf(logs + [e], maxEvents) && (truncated <==> |logs + [e]| > maxEvents)
    {
      AppendToLast(logs, e, maxEvents);
      if |events| == maxEvents {
        truncated := true;
      }
      events := if maxEvents == 0 then [] else if |events| == maxEvents then events[1..] + [e] else events + [e];
    }

    method RecordEnd(id: int)
      modifies `finalized, `waiters
      ensures finalized == old(finalized) + {id}
      ensures waiters == if id in old(waiters) then old(waiters)[id := true] else old(waiters)
    {
      finalized := finalized + {id};
      if id in waiters {
        waiters := waiters[id := true];
      }
    }

    method Append(e: Event)
      requires Valid()
      modifies `events, `truncated, `droppedEvents, `finalized, `waiters, `delivered
      ensures Valid() && delivered == old(delivered) + [e]
      ensures forall id :: id in waiters && e == Finalized(id) ==> waiters[id]
    {
      OneMoreDelivered(delivered, e);
      ghost var logs := Kept(delivered, IsNixLog);
      delivered := delivered + [e];
      if e.NixLog? {
        RecordLog(e, logs);
      } else if e.Finalized? {
        RecordEnd(e.request);
      } else if e.Lost? {
        droppedEvents := droppedEvents + e.count;
      }
    }

    /** `unfinalized_request_ids`. */
    function Unfinalized(): (ids: set<int>)
      requires Valid()
      reads this
      ensures ids == registered - Marked(delivered)
    {
      requestIds - finalized
    }

    /** Whether a wait on a registered id has to block: exactly when its marker has not arrived, whether the
        id was registered before or after the marker. */
    method MustBlock(id: int) returns (blocks: bool)
      requires Valid() && id in requestIds
      ensures blocks <==> Finalized(id) !in delivered
    {
      MarkedIsDelivered(delivered, id);
      if id in finalized {
        return false;
      }
      return !waiters[id];
    }

    /** `wait_for_request` up to its wait: an unregistered id is an error, not a wait. */
    method CheckRegistered(id: int) returns (known: bool)
      requires Valid()
      ensures known <==> id in registered
    {
      return id in requestIds;
    }
  }
}
