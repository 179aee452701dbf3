/** The whole way of a log event: Nix's threads, the collector, the relay, the outbox, the stream. */
module LogPipeline {
  import opened Common
  import opened Sequences
  import C = LogCollector
  import O = LogOutbox

  /** `hand` is the item the relay took from the collector and has not forwarded; `ended` says that it
      forwarded the sentinel, `closed` that the stream met it; `delivered` is what the stream sent. */
  datatype Pipe = Pipe(c: C.State, hand: Option<C.Item>, ended: bool, o: O.Trace, closed: bool, delivered: seq<O.Event>)

  datatype Act = Produce(act: C.Act) | RelayGet | RelayForward | Stream

  /** The two queues' bounds. */
  datatype Sizes = Sizes(collector: nat, outbox: nat)

  function Encode(item: C.Item): O.Event {
    match item
    case Nix(request, line) => O.Log(request, line)
    case Finalized(request) => O.Finalized(request)
    case Sentinel => O.Sentinel
  }

  function PutNotice(o: O.Trace, count: nat, maxsize: nat): O.Trace {
    if count == 0 then o else O.StepOp(o, O.Put(O.Notice(count)), maxsize)
  }

  function Forward(o: O.Trace, count: nat, item: C.Item, maxsize: nat): O.Trace {
    O.StepOp(PutNotice(o, count, maxsize), O.Put(Encode(item)), maxsize)
  }

  function NoticeOf(count: nat): seq<O.Event> {
    if count == 0 then [] else [O.Notice(count)]
  }

  /** One step of a producer, of the relay or of the stream; an impossible one changes nothing. The relay
      announces the collector's drops before the item it forwards, the stream the outbox's drops before
      the event it sends. The stream stops at the sentinel without another look at the drops. */
  function Next(p: Pipe, act: Act, max: Sizes): Pipe {
    match act
    case Produce(a) => if a.Offer? || a.Go? then p.(c := C.Next(p.c, a, max.collector)) else p
    case RelayGet =>
      if p.hand.Some? || p.ended || p.c.queue == [] then p
      else p.(c := C.Next(p.c, C.Consume, max.collector), hand := Some(p.c.queue[0]))
    case RelayForward =>
      if p.hand.None? then p
      else
        p.(c := C.Next(p.c, C.Announce, max.collector),
           hand := None,
           ended := p.hand.value.Sentinel?,
           o := Forward(p.o, p.c.undelivered, p.hand.value, max.outbox))
    case Stream =>
      if p.closed || p.o.items == [] then p
      else if p.o.items[0].Sentinel? then p.(o := O.StepOp(p.o, O.Get, max.outbox), closed := true)
      else
        p.(o := O.StepOp(O.StepOp(p.o, O.Get, max.outbox), O.TakeDropped, max.outbox),
           delivered := p.delivered + NoticeOf(p.o.undelivered) + [p.o.items[0]])
  }

  function Run(p: Pipe, acts: seq<Act>, max: Sizes): Pipe
    decreases |acts|
  {
    if acts == [] then p else Run(Next(p, acts[0], max), acts[1..], max)
  }

  function Start(producers: nat): Pipe {
    Pipe(C.Start(producers), None, false, O.FRESH, false, [])
  }

  // ---- Books ----

  /** How many offered events an event stands for: itself, or the lost ones it announces. */
  function Worth(e: O.Event): nat {
    if e.Notice? then e.count else 1
  }

  function Total(events: seq<O.Event>): nat {
    if events == [] then 0 else Worth(events[0]) + Total(events[1..])
  }

  lemma {:induction false} TotalOfSum(a: seq<O.Event>, b: seq<O.Event>)
    ensures Total(a + b) == Total(a) + Total(b)
  {
    if a == [] {
      assert a + b == b;
    } else {
      assert (a + b)[1..] == a[1..] + b;
      TotalOfSum(a[1..], b);
    }
  }

  lemma TotalOfOne(e: O.Event)
    ensures Total([e]) == Worth(e)
  {
  }

  lemma {:induction false} TotalWithout(events: seq<O.Event>, k: nat)
    requires k < |events|
    ensures Total(Without(events, k)) == Total(events) - Worth(events[k])
  {
    if k == 0 {
      assert Without(events, 0) == events[1..];
    } else {
      TotalWithout(events[1..], k - 1);
      assert Without(events, k)[1..] == Without(events[1..], k - 1);
    }
  }

  /** The outbox between two steps: a drop the stream has not seen leaves a full buffer behind it, the
      sentinel is the newest item, and no notice announces nothing. */
  ghost predicate BufferOk(o: O.Trace, ended: bool, maxsize: nat) {
    && O.Fits(o.items, maxsize)
    && (o.undelivered > 0 ==> |o.items| >= maxsize)
    && (forall j :: 0 <= j < |o.items| && o.items[j].Sentinel? ==> ended && j == |o.items| - 1)
    && AllCount(o.items)
  }

  /** Every event stands for at least one. */
  ghost predicate AllCount(events: seq<O.Event>) {
    forall j :: 0 <= j < |events| ==> Worth(events[j]) >= 1
  }

  /** The events that discarding these leaves unaccounted for: each discarded event adds one to the count of
      drops, whatever it stands for. */
  function Missing(discarded: seq<O.Event>): int {
    Total(discarded) - |discarded|
  }

  /** Nothing is missing exactly when each discarded event stands for one, that is, when no discarded notice
      announced two or more. */
  lemma {:induction false} MissingIsNotices(discarded: seq<O.Event>)
    requires AllCount(discarded)
    ensures Missing(discarded) >= 0
    ensures Missing(discarded) == 0 <==> forall e :: e in discarded ==> !(e.Notice? && e.count >= 2)
  {
    if discarded != [] {
      MissingIsNotices(discarded[1..]);
      assert discarded == [discarded[0]] + discarded[1..];
      assert Worth(discarded[0]) >= 1;
    }
  }

  lemma TotalOfMore(events: seq<O.Event>, e: O.Event)
    ensures Total(events + [e]) == Total(events) + Worth(e)
  {
    TotalOfSum(events, [e]);
    TotalOfOne(e);
  }

  /** A put keeps the books: whatever it discards is counted as one. */
  lemma PutKeepsTotal(o: O.Trace, e: O.Event, maxsize: nat)
    ensures var t := O.StepOp(o, O.Put(e), maxsize);
            Total(t.items) + t.undelivered + Missing(t.discarded)
            == Total(o.items) + o.undelivered + Missing(o.discarded) + Worth(e)
  {
    TotalOfMore(o.items, e);
    var victim := O.Victim(o.items, e, maxsize);
    if victim.Some? {
      TotalWithout(o.items + [e], victim.value);
      TotalOfMore(o.discarded, (o.items + [e])[victim.value]);
    } else {
      assert o.discarded + [] == o.discarded;
    }
  }

  lemma PutKeepsBuffer(o: O.Trace, e: O.Event, maxsize: nat)
    requires BufferOk(o, false, maxsize) && Worth(e) >= 1
    ensures BufferOk(O.StepOp(o, O.Put(e), maxsize), e.Sentinel?, maxsize)
  {
    O.PutKeepsLimits(o.items, e, maxsize);
  }

  lemma PutKeepsDiscarded(o: O.Trace, e: O.Event, maxsize: nat)
    requires AllCount(o.items) && AllCount(o.discarded) && Worth(e) >= 1
    ensures AllCount(O.StepOp(o, O.Put(e), maxsize).discarded)
  {
  }

  lemma ForwardKeepsBooks(o: O.Trace, count: nat, item: C.Item, maxsize: nat)
    requires BufferOk(o, false, maxsize) && AllCount(o.discarded)
    ensures var t := Forward(o, count, item, maxsize);
            && BufferOk(t, item.Sentinel?, maxsize) && AllCount(t.discarded)
            && Total(t.items) + t.undelivered + Missing(t.discarded)
               == Total(o.items) + o.undelivered + Missing(o.discarded) + count + 1
  {
    var noted := PutNotice(o, count, maxsize);
    if count > 0 {
      PutKeepsBuffer(o, O.Notice(count), maxsize);
      PutKeepsDiscarded(o, O.Notice(count), maxsize);
      PutKeepsTotal(o, O.Notice(count), maxsize);
    }
    PutKeepsBuffer(noted, Encode(item), maxsize);
    PutKeepsDiscarded(noted, Encode(item), maxsize);
    PutKeepsTotal(noted, Encode(item), maxsize);
  }

  function OneIf(b: bool): nat {
    if b then 1 else 0
  }

  /** Every event the relay took, and every drop it announced, is in its hand, in the outbox, waiting to be
      announced by the stream, delivered, or missing. */
  ghost predicate Balanced(p: Pipe) {
    |p.c.consumed| + p.c.announced
    == Total(p.delivered) + Total(p.o.items) + p.o.undelivered + Missing(p.o.discarded)
       + OneIf(p.hand.Some?) + OneIf(p.closed)
  }

  ghost predicate Books(p: Pipe, maxOutbox: nat) {
    && Balanced(p) && AllCount(p.o.discarded)
    && (p.ended ==> p.hand.None?)
    && (if p.closed then p.ended && p.o.items == [] && (maxOutbox >= 2 ==> p.o.undelivered == 0)
        else BufferOk(p.o, p.ended, maxOutbox))
  }

  lemma ProducersOnlyProduce(s: C.State, a: C.Act, maxsize: nat)
    requires a.Offer? || a.Go?
    ensures C.Next(s, a, maxsize).consumed == s.consumed && C.Next(s, a, maxsize).announced == s.announced
  {
  }

  lemma StreamKeepsBooks(p: Pipe, max: Sizes)
    requires Books(p, max.outbox) && !p.closed && p.o.items != []
    ensures Books(Next(p, Stream, max), max.outbox)
  {
    var e, notice := p.o.items[0], NoticeOf(p.o.undelivered);
    TotalOfSum(p.delivered + notice, [e]);
    TotalOfSum(p.delivered, notice);
    TotalOfOne(e);
    TotalOfOne(O.Notice(p.o.undelivered));
    var rest := p.o.items[1..];
    assert forall j :: 0 <= j < |rest| ==> rest[j] == p.o.items[j + 1];
    assert Total([]) == 0;
  }

  lemma RelayKeepsBooks(p: Pipe, max: Sizes)
    requires Books(p, max.outbox) && p.hand.Some?
    ensures Books(Next(p, RelayForward, max), max.outbox)
  {
    ForwardKeepsBooks(p.o, p.c.undelivered, p.hand.value, max.outbox);
    assert Next(p, RelayForward, max).c.announced == p.c.announced + p.c.undelivered;
  }

  lemma NextKeepsBooks(p: Pipe, act: Act, max: Sizes)
    requires Books(p, max.outbox)
    ensures Books(Next(p, act, max), max.outbox)
  {
    match act
    case Produce(a) =>
      if a.Offer? || a.Go? {
        ProducersOnlyProduce(p.c, a, max.collector);
      }
    case RelayGet =>
    case RelayForward =>
      if p.hand.Some? {
        RelayKeepsBooks(p, max);
      }
    case Stream =>
      if !p.closed && p.o.items != [] {
        StreamKeepsBooks(p, max);
      }
  }

  lemma {:induction false} RunKeepsBooks(p: Pipe, acts: seq<Act>, max: Sizes)
    requires Books(p, max.outbox) && C.Accounted(p.c, max.collector)
    ensures Books(Run(p, acts, max), max.outbox) && C.Accounted(Run(p, acts, max).c, max.collector)
    decreases |acts|
  {
    if acts != [] {
      NextKeepsBooks(p, acts[0], max);
      NextKeepsCollector(p, acts[0], max);
      RunKeepsBooks(Next(p, acts[0], max), acts[1..], max);
    }
  }

  lemma NextKeepsCollector(p: Pipe, act: Act, max: Sizes)
    requires C.Accounted(p.c, max.collector)
    ensures C.Accounted(Next(p, act, max).c, max.collector)
  {
    match act
    case Produce(a) => C.NextKeepsAccount(p.c, a, max.collector);
    case RelayGet => C.NextKeepsAccount(p.c, C.Consume, max.collector);
    case RelayForward => C.NextKeepsAccount(p.c, C.Announce, max.collector);
    case Stream =>
  }

  /** What has not reached the client yet: in the collector and its producers, in the hand of the relay, in
      the outbox, or lost and not yet announced. */
  function OnItsWay(p: Pipe): nat {
    |p.c.queue| + p.c.undelivered + C.Debt(p.c.threads) + OneIf(p.hand.Some?) + Total(p.o.items) + p.o.undelivered
  }

  /** Over every interleaving of producers, relay and stream: every event offered was delivered, is announced
      to the client as lost, is on its way, or is missing. Nothing is missing, and so every loss is or will
      be announced, exactly when the outbox discarded no notice of two or more. When the stream closes,
      the drops that it has not announced are lost too; there are none if the outbox holds at least two. */
  lemma EveryLossIsAnnounced(producers: nat, acts: seq<Act>, max: Sizes)
    ensures var p := Run(Start(producers), acts, max);
            var missing := Missing(p.o.discarded);
            && p.c.offered == Total(p.delivered) + OneIf(p.closed) + OnItsWay(p) + missing
            && (p.closed ==> |p.c.consumed| + p.c.announced == Total(p.delivered) + 1 + missing + p.o.undelivered)
            && (p.closed && max.outbox >= 2 ==> p.o.undelivered == 0)
            && missing >= 0
            && (missing == 0 <==> forall e :: e in p.o.discarded ==> !(e.Notice? && e.count >= 2))
  {
    var start := Start(producers);
    C.StartAccounted(producers, max.collector);
    assert Books(start, max.outbox);
    RunKeepsBooks(start, acts, max);
    MissingIsNotices(Run(start, acts, max).o.discarded);
  }

  /** A put by the one producer, and what it takes to bring an item through an idle pipe. */
  function PutActs(item: C.Item): seq<Act> {
    [Produce(C.Offer(0, item)), Produce(C.Go(0)), Produce(C.Go(0))]
  }

  function RelayActs(): seq<Act> {
    [RelayGet, RelayForward]
  }

  function Through(item: C.Item): seq<Act> {
    PutActs(item) + RelayActs()
  }

  ghost predicate IdlePipe(p: Pipe) {
    p.c.threads == [C.Idle] && p.c.queue == [] && p.c.undelivered == 0 && p.hand.None? && !p.ended
  }

  lemma RunOne(p: Pipe, act: Act, rest: seq<Act>, max: Sizes)
    ensures Run(p, [act] + rest, max) == Run(Next(p, act, max), rest, max)
  {
  }

  function AfterPutActs(p: Pipe, item: C.Item, max: Sizes): Pipe {
    Next(Next(Next(p, Produce(C.Offer(0, item)), max), Produce(C.Go(0)), max), Produce(C.Go(0)), max)
  }

  lemma RunPut(p: Pipe, item: C.Item, rest: seq<Act>, max: Sizes)
    ensures Run(p, PutActs(item) + rest, max) == Run(AfterPutActs(p, item, max), rest, max)
  {
    var offer, go := Produce(C.Offer(0, item)), Produce(C.Go(0));
    var p1 := Next(p, offer, max);
    assert PutActs(item) + rest == [offer] + ([go] + ([go] + rest));
    RunOne(p, offer, [go] + ([go] + rest), max);
    RunOne(p1, go, [go] + rest, max);
    RunOne(Next(p1, go, max), go, rest, max);
  }

  lemma RunRelay(p: Pipe, rest: seq<Act>, max: Sizes)
    ensures Run(p, RelayActs() + rest, max) == Run(Next(Next(p, RelayGet, max), RelayForward, max), rest, max)
  {
    assert RelayActs() + rest == [RelayGet] + ([RelayForward] + rest);
    RunOne(p, RelayGet, [RelayForward] + rest, max);
    RunOne(Next(p, RelayGet, max), RelayForward, rest, max);
  }

  function Queued(p: Pipe, item: C.Item): Pipe {
    p.(c := p.c.(offered := p.c.offered + 1, enqueued := p.c.enqueued + 1, queue := [item], accepted := p.c.accepted + [item]))
  }

  function Relayed(p: Pipe, item: C.Item, maxOutbox: nat): Pipe {
    p.(c := p.c.(queue := [], consumed := p.c.consumed + [item], announced := p.c.announced + p.c.undelivered, undelivered := 0),
       ended := item.Sentinel?,
       o := Forward(p.o, p.c.undelivered, item, maxOutbox))
  }

  lemma ItemIsQueued(p: Pipe, item: C.Item, max: Sizes)
    requires p.c.threads == [C.Idle] && p.c.queue == []
    ensures AfterPutActs(p, item, max) == Queued(p, item)
  {
  }

  lemma LogIsRefused(p: Pipe, item: C.Item, max: Sizes)
    requires p.c.threads == [C.Idle] && C.Full(p.c.queue, max.collector) && item.Nix?
    ensures AfterPutActs(p, item, max)
            == p.(c := p.c.(offered := p.c.offered + 1, dropped := p.c.dropped + 1, undelivered := p.c.undelivered + 1))
  {
  }

  lemma ItemIsForwarded(p: Pipe, item: C.Item, max: Sizes)
    requires p.c.queue == [item] && p.hand.None? && !p.ended
    ensures Next(Next(p, RelayGet, max), RelayForward, max) == Relayed(p, item, max.outbox)
  {
    assert Next(p, RelayGet, max) == p.(c := p.c.(queue := [], consumed := p.c.consumed + [item]), hand := Some(item));
  }

  function PipeAfter(p: Pipe, item: C.Item, maxOutbox: nat): Pipe {
    Relayed(Queued(p, item), item, maxOutbox)
  }

  lemma ItemGoesThrough(p: Pipe, item: C.Item, rest: seq<Act>, max: Sizes)
    requires IdlePipe(p)
    ensures Run(p, Through(item) + rest, max) == Run(PipeAfter(p, item, max.outbox), rest, max)
  {
    assert Through(item) + rest == PutActs(item) + (RelayActs() + rest);
    RunPut(p, item, RelayActs() + rest, max);
    ItemIsQueued(p, item, max);
    RunRelay(Queued(p, item), rest, max);
    ItemIsForwarded(Queued(p, item), item, max);
  }

  /** With an outbox of one the last loss is never announced: the sentinel pushes out a log line, and the
      stream stops at the sentinel. */
  lemma AnOutboxOfOneEndsWithASilentLoss(line: string)
    ensures var p := Run(Start(1), Through(C.Nix(1, line)) + (Through(C.Sentinel) + [Stream]), Sizes(0, 1));
            p.closed && p.delivered == [] && p.o.overflows == 0 && p.o.undelivered == 1
  {
    var max, log := Sizes(0, 1), C.Nix(1, line);
    assert Start(1).c.threads == [C.Idle];
    ItemGoesThrough(Start(1), log, Through(C.Sentinel) + [Stream], max);
    var p := PipeAfter(Start(1), log, 1);
    LogThenSentinel(line);
    ItemGoesThrough(p, C.Sentinel, [Stream], max);
    RunOne(PipeAfter(p, C.Sentinel, 1), Stream, [], max);
  }

  lemma LogThenSentinel(line: string)
    ensures var o := Forward(Forward(O.FRESH, 0, C.Nix(1, line), 1), 0, C.Sentinel, 1);
            o.items == [O.Sentinel] && o.overflows == 0 && o.undelivered == 1
  {
  }

  /** A marker put into a buffer of control events: it is added, or takes the place of the oldest. */
  lemma MarkerIsPut(o: O.Trace, request: int)
    requires O.OnlyControls(o.items) && 1 <= |o.items| <= 4
    ensures var t, e := Forward(o, 0, C.Finalized(request), 1), O.Finalized(request);
            if |o.items| < 4 then t.items == o.items + [e] && t.discarded == o.discarded
            else t.items == o.items[1..] + [e] && t.discarded == o.discarded + [o.items[0]]
  {
    var all := o.items + [O.Finalized(request)];
    assert forall j :: 0 <= j < |all| ==> O.IsControl(all[j]);
    assert O.OldestLog(all) == |all|;
    if |o.items| == 4 {
      assert Without(all, 0) == o.items[1..] + [O.Finalized(request)];
    }
  }

  /** Three lines meet a collector of one: two are lost, and the relay announces them to an outbox of one. */
  function TwoRefused(line: string): seq<Act> {
    PutActs(C.Nix(1, line)) + (PutActs(C.Nix(1, line)) + (PutActs(C.Nix(1, line)) + RelayActs()))
  }

  lemma NoticeIsPut(line: string)
    ensures var o := Forward(O.FRESH, 2, C.Nix(1, line), 1);
            o.items == [O.Notice(2)] && o.discarded == [O.Log(1, line)]
  {
    var o := PutNotice(O.FRESH, 2, 1);
    assert o.items == [O.Notice(2)];
    LogBounces(o, 1, line);
  }

  /** A line put into a full buffer of control events is discarded at once. */
  lemma LogBounces(o: O.Trace, request: int, line: string)
    requires O.OnlyControls(o.items) && |o.items| == 1
    ensures var t := Forward(o, 0, C.Nix(request, line), 1);
            t.items == o.items && t.discarded == o.discarded + [O.Log(request, line)]
  {
    var all := o.items + [O.Log(request, line)];
    assert O.IsControl(all[0]) && all[1..] == [O.Log(request, line)];
    assert O.OldestLog(all) == 1;
    assert Without(all, 1) == o.items;
  }

  lemma LogsAreRefused(p: Pipe, log: C.Item, rest: seq<Act>, max: Sizes) returns (q: Pipe)
    requires p.c.threads == [C.Idle] && C.Full(p.c.queue, max.collector) && log.Nix?
    ensures Run(p, PutActs(log) + (PutActs(log) + rest), max) == Run(q, rest, max)
    ensures q == p.(c := p.c.(offered := p.c.offered + 2, dropped := p.c.dropped + 2, undelivered := p.c.undelivered + 2))
  {
    RunPut(p, log, PutActs(log) + rest, max);
    LogIsRefused(p, log, max);
    q := AfterPutActs(p, log, max);
    RunPut(q, log, rest, max);
    LogIsRefused(q, log, max);
    q := AfterPutActs(q, log, max);
  }

  lemma TwoAreRefused(line: string, rest: seq<Act>) returns (p: Pipe)
    ensures Run(Start(1), TwoRefused(line) + rest, Sizes(1, 1)) == Run(p, rest, Sizes(1, 1))
    ensures IdlePipe(p) && p.o.items == [O.Notice(2)] && p.o.discarded == [O.Log(1, line)] && p.delivered == []
  {
    var max, log := Sizes(1, 1), C.Nix(1, line);
    var relay := RelayActs() + rest;
    assert TwoRefused(line) + rest == PutActs(log) + (PutActs(log) + (PutActs(log) + relay));
    assert Start(1).c.threads == [C.Idle];
    RunPut(Start(1), log, PutActs(log) + (PutActs(log) + relay), max);
    ItemIsQueued(Start(1), log, max);
    p := LogsAreRefused(Queued(Start(1), log), log, relay, max);
    RunRelay(p, rest, max);
    ItemIsForwarded(p, log, max);
    NoticeIsPut(line);
    p := Relayed(p, log, 1);
  }

  lemma MarkerGoesThrough(p: Pipe, rest: seq<Act>) returns (q: Pipe)
    requires IdlePipe(p) && O.OnlyControls(p.o.items) && 1 <= |p.o.items| <= 4
    ensures Run(p, Through(C.Finalized(1)) + rest, Sizes(1, 1)) == Run(q, rest, Sizes(1, 1))
    ensures IdlePipe(q) && q.delivered == p.delivered && O.OnlyControls(q.o.items)
    ensures |p.o.items| < 4 ==> q.o.items == p.o.items + [O.Finalized(1)] && q.o.discarded == p.o.discarded
    ensures |p.o.items| == 4 ==> |q.o.items| == 4 && q.o.discarded == p.o.discarded + [p.o.items[0]]
  {
    ItemGoesThrough(p, C.Finalized(1), rest, Sizes(1, 1));
    MarkerIsPut(p.o, 1);
    q := PipeAfter(p, C.Finalized(1), 1);
  }

  /** The events that go missing: four markers push the notice of two lost lines out of an outbox of one, and
      the client never hears of one of them. */
  lemma ADiscardedNoticeIsASilentLoss(line: string)
    ensures var marker := Through(C.Finalized(1));
            var p := Run(Start(1), TwoRefused(line) + (marker + (marker + (marker + (marker + [])))), Sizes(1, 1));
            && p.o.discarded == [O.Log(1, line), O.Notice(2)] && Missing(p.o.discarded) == 1 && p.delivered == []
  {
    var marker := Through(C.Finalized(1));
    var p := TwoAreRefused(line, marker + (marker + (marker + (marker + []))));
    p := MarkerGoesThrough(p, marker + (marker + (marker + [])));
    p := MarkerGoesThrough(p, marker + (marker + []));
    p := MarkerGoesThrough(p, marker + []);
    p := MarkerGoesThrough(p, []);
    TotalOfOne(O.Log(1, line));
    TotalOfMore([O.Log(1, line)], O.Notice(2));
    assert [O.Log(1, line)] + [O.Notice(2)] == [O.Log(1, line), O.Notice(2)];
  }

  // ---- Order ----

  predicate IsEvent(e: O.Event) {
    e.Log? || e.Finalized?
  }

  function Events(es: seq<O.Event>): seq<O.Event> {
    Kept(es, IsEvent)
  }

  lemma EventsAppend(es: seq<O.Event>, e: O.Event)
    ensures Events(es + [e]) == if IsEvent(e) then Events(es) + [e] else Events(es)
  {
  }

  function Encoded(items: seq<C.Item>): seq<O.Event> {
    seq(|items|, i requires 0 <= i < |items| => Encode(items[i]))
  }

  lemma EncodedAppend(items: seq<C.Item>, item: C.Item)
    ensures Encoded(items + [item]) == Encoded(items) + [Encode(item)]
  {
  }

  /** What was forwarded is everything consumed but the item in hand; what was sent is everything the stream
      got. */
  ghost predicate Forwarded(p: Pipe) {
    && (if p.hand.Some? then p.c.consumed != [] && Events(p.o.puts) == Events(Encoded(p.c.consumed[..|p.c.consumed| - 1]))
                             && p.hand.value == p.c.consumed[|p.c.consumed| - 1]
        else Events(p.o.puts) == Events(Encoded(p.c.consumed)))
    && Events(p.delivered) == Events(p.o.gots)
  }

  lemma GetKeepsForwarded(p: Pipe, max: Sizes)
    requires Forwarded(p)
    ensures Forwarded(Next(p, RelayGet, max))
  {
  }

  lemma ForwardPuts(o: O.Trace, count: nat, item: C.Item, maxsize: nat)
    ensures Events(Forward(o, count, item, maxsize).puts) == Events(o.puts + [Encode(item)])
    ensures Forward(o, count, item, maxsize).gots == o.gots
    ensures Forward(o, count, item, maxsize).puts == o.puts + NoticeOf(count) + [Encode(item)]
  {
    var noted := PutNotice(o, count, maxsize);
    EventsAppend(o.puts, O.Notice(count));
    EventsAppend(o.puts, Encode(item));
    EventsAppend(noted.puts, Encode(item));
  }

  lemma ForwardKeepsForwarded(p: Pipe, max: Sizes)
    requires Forwarded(p) && p.hand.Some?
    ensures Forwarded(Next(p, RelayForward, max))
  {
    ForwardPuts(p.o, p.c.undelivered, p.hand.value, max.outbox);
    PuttingTheHand(p.o.puts, p.c.consumed, p.hand.value);
  }

  /** A loss is announced where it happened: the relay puts the notice of the collector's drops before the event
      that it forwards, and the stream sends the notice of the outbox's drops before the event that it sends. */
  lemma NoticesComeFirst(p: Pipe, max: Sizes)
    ensures p.hand.Some? ==>
              var lost, item := p.c.undelivered, p.hand.value;
              Next(p, RelayForward, max).o.puts
              == p.o.puts + (if lost == 0 then [] else [O.Notice(lost)])
                 + [if item.Nix? then O.Log(item.request, item.line) else if item.Finalized? then O.Finalized(item.request) else O.Sentinel]
    ensures !p.closed && p.o.items != [] && !p.o.items[0].Sentinel? ==>
              var lost := p.o.undelivered;
              Next(p, Stream, max).delivered == p.delivered + (if lost == 0 then [] else [O.Notice(lost)]) + [p.o.items[0]]
  {
    if p.hand.Some? {
      ForwardPuts(p.o, p.c.undelivered, p.hand.value, max.outbox);
    }
  }

  lemma PuttingTheHand(puts: seq<O.Event>, consumed: seq<C.Item>, item: C.Item)
    requires consumed != [] && consumed[|consumed| - 1] == item
    requires Events(puts) == Events(Encoded(consumed[..|consumed| - 1]))
    ensures Events(puts + [Encode(item)]) == Events(Encoded(consumed))
  {
    var before := consumed[..|consumed| - 1];
    assert consumed == before + [item];
    EncodedAppend(before, item);
    EventsAppend(Encoded(before), Encode(item));
    EventsAppend(puts, Encode(item));
  }

  lemma NoticesAreNoEvents(es: seq<O.Event>, count: nat, e: O.Event)
    ensures Events(es + NoticeOf(count) + [e]) == if IsEvent(e) then Events(es) + [e] else Events(es)
  {
    EventsAppend(es + NoticeOf(count), e);
    EventsAppend(es, O.Notice(count));
    assert es + [] == es;
  }

  lemma SendingKeepsEvents(delivered: seq<O.Event>, gots: seq<O.Event>, count: nat, e: O.Event)
    requires Events(delivered) == Events(gots)
    ensures Events(delivered + NoticeOf(count) + [e]) == Events(gots + [e])
    ensures e.Sentinel? ==> Events(delivered) == Events(gots + [e])
  {
    EventsAppend(gots, e);
    NoticesAreNoEvents(delivered, count, e);
  }

  lemma StreamMoves(p: Pipe, max: Sizes)
    requires !p.closed && p.o.items != []
    ensures var q, e := Next(p, Stream, max), p.o.items[0];
            && q.c == p.c && q.hand == p.hand && q.o.puts == p.o.puts && q.o.gots == p.o.gots + [e]
            && q.delivered == if e.Sentinel? then p.delivered else p.delivered + NoticeOf(p.o.undelivered) + [e]
  {
  }

  lemma StreamKeepsForwarded(p: Pipe, max: Sizes)
    requires Forwarded(p) && !p.closed && p.o.items != []
    ensures Forwarded(Next(p, Stream, max))
  {
    StreamMoves(p, max);
    SendingKeepsEvents(p.delivered, p.o.gots, p.o.undelivered, p.o.items[0]);
  }

  lemma NextKeepsForwarded(p: Pipe, act: Act, max: Sizes)
    requires Forwarded(p)
    ensures Forwarded(Next(p, act, max))
  {
    match act
    case Produce(a) =>
      if a.Offer? || a.Go? {
        ProducersOnlyProduce(p.c, a, max.collector);
      }
    case RelayGet => GetKeepsForwarded(p, max);
    case RelayForward =>
      if p.hand.Some? {
        ForwardKeepsForwarded(p, max);
      }
    case Stream =>
      if !p.closed && p.o.items != [] {
        StreamKeepsForwarded(p, max);
      }
  }

  lemma NextKeepsOutbox(p: Pipe, act: Act, max: Sizes)
    requires O.TraceOk(p.o, max.outbox)
    ensures O.TraceOk(Next(p, act, max).o, max.outbox)
  {
    match act
    case Produce(_) =>
    case RelayGet =>
    case RelayForward =>
      if p.hand.Some? {
        ForwardKeepsOutbox(p.o, p.c.undelivered, p.hand.value, max.outbox);
      }
    case Stream =>
      O.StepOk(p.o, O.Get, max.outbox);
      O.StepOk(O.StepOp(p.o, O.Get, max.outbox), O.TakeDropped, max.outbox);
  }

  lemma ForwardKeepsOutbox(o: O.Trace, count: nat, item: C.Item, maxsize: nat)
    requires O.TraceOk(o, maxsize)
    ensures O.TraceOk(Forward(o, count, item, maxsize), maxsize)
  {
    O.StepOk(o, O.Put(O.Notice(count)), maxsize);
    O.StepOk(PutNotice(o, count, maxsize), O.Put(Encode(item)), maxsize);
  }

  lemma {:induction false} RunKeepsOrder(p: Pipe, acts: seq<Act>, max: Sizes)
    requires Forwarded(p) && O.TraceOk(p.o, max.outbox)
    ensures Forwarded(Run(p, acts, max)) && O.TraceOk(Run(p, acts, max).o, max.outbox)
    decreases |acts|
  {
    if acts != [] {
      NextKeepsForwarded(p, acts[0], max);
      NextKeepsOutbox(p, acts[0], max);
      RunKeepsOrder(Next(p, acts[0], max), acts[1..], max);
    }
  }

  lemma ForwardedInOrder(p: Pipe)
    requires Forwarded(p)
    ensures InOrderIn(Events(p.o.puts), Events(Encoded(p.c.consumed)))
  {
    var sent := Events(p.o.puts);
    assert Embeds(seq(|sent|, i => i), sent, sent);
    if p.hand.Some? {
      var before := p.c.consumed[..|p.c.consumed| - 1];
      assert p.c.consumed == before + [p.hand.value];
      EncodedAppend(before, p.hand.value);
      EventsAppend(Encoded(before), Encode(p.hand.value));
      InOrderLonger(sent, sent, Encode(p.hand.value));
    }
  }

  /** Over every interleaving the client gets log lines and markers in the order in which the collector
      accepted them, with the lost ones left out. */
  lemma DeliveryKeepsOrder(producers: nat, acts: seq<Act>, max: Sizes)
    ensures var p := Run(Start(producers), acts, max);
            InOrderIn(Events(p.delivered), Events(Encoded(p.c.consumed))) && InOrderIn(p.c.consumed, p.c.accepted)
  {
    var start := Start(producers);
    C.StartAccounted(producers, max.collector);
    O.FreshOk(max.outbox);
    assert Books(start, max.outbox);
    RunKeepsBooks(start, acts, max);
    RunKeepsOrder(start, acts, max);
    var p := Run(start, acts, max);
    InOrderPrefix(p.c.consumed, p.c.queue, p.c.accepted);
    InOrderPrefix(p.o.gots, p.o.items, p.o.puts);
    KeptInOrder(p.o.gots, p.o.puts, IsEvent);
    ForwardedInOrder(p);
    InOrderTrans(Events(p.o.gots), Events(p.o.puts), Events(Encoded(p.c.consumed)));
  }
}
