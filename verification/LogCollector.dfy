/** The queue between Nix's threads and the one task that drains it: `LogCollector`. */
module LogCollector {
  import opened Common
  import opened Sequences

  datatype Item = Nix(request: int, line: string) | Finalized(request: int) | Sentinel

  predicate IsControl(item: Item) {
    !item.Nix?
  }

  /** A bound of zero is no bound. */
  predicate Full(queue: seq<Item>, maxsize: nat) {
    0 < maxsize <= |queue|
  }

  /** The queue after an uninterrupted put of a control event: it takes the place of the oldest item. */
  function AfterControl(queue: seq<Item>, item: Item, maxsize: nat): seq<Item> {
    if Full(queue, maxsize) then queue[1..] + [item] else queue + [item]
  }

  class LogCollector {
    const maxsize: nat
    var queue: seq<Item>
    var enqueued: nat
    var dropped: nat
    var undelivered: nat

    predicate Valid()
      reads this
    {
      maxsize > 0 ==> |queue| <= maxsize
    }

    constructor (maxsize: nat)
      ensures Valid()
      ensures this.maxsize == maxsize && queue == [] && enqueued == dropped == undelivered == 0
    {
      this.maxsize := maxsize;
      queue, enqueued, dropped, undelivered := [], 0, 0, 0;
    }

    method RecordDrop()
      modifies `dropped, `undelivered
      ensures dropped == old(dropped) + 1 && undelivered == old(undelivered) + 1
    {
      dropped := dropped + 1;
      undelivered := undelivered + 1;
    }

    method PutNowait(item: Item) returns (full: bool)
      modifies `queue
      ensures full == Full(old(queue), maxsize)
      ensures queue == if full then old(queue) else old(queue) + [item]
    {
      if Full(queue, maxsize) {
        return true;
      }
      queue := queue + [item];
      return false;
    }

    method GetNowait() returns (item: Option<Item>)
      modifies `queue
      ensures item == if old(queue) == [] then None else Some(old(queue)[0])
      ensures queue == if old(queue) == [] then [] else old(queue)[1..]
    {
      if queue == [] {
        return None;
      }
      item := Some(queue[0]);
      queue := queue[1..];
    }

    /** A log line that does not fit is counted and forgotten; nothing queued moves. */
    method PutLog(item: Item)
      requires Valid()
      modifies this
      ensures Valid()
      ensures queue == if Full(old(queue), maxsize) then old(queue) else old(queue) + [item]
      ensures (enqueued, dropped, undelivered) ==
              if Full(old(queue), maxsize) then (old(enqueued), old(dropped) + 1, old(undelivered) + 1)
              else (old(enqueued) + 1, old(dropped), old(undelivered))
    {
      var full := PutNowait(item);
      if full {
        RecordDrop();
        return;
      }
      enqueued := enqueued + 1;
    }

    /** `rival` is what another producer puts into the slot this one frees, when it gets there first. With
        no rival the item always gets in. */
    method PutControl(item: Item, rival: Option<Item>)
      requires Valid()
      modifies this
      ensures Valid()
      ensures !Full(old(queue), maxsize) || rival.None? ==>
                queue == AfterControl(old(queue), item, maxsize) && enqueued == old(enqueued) + 1
      ensures Full(old(queue), maxsize) && rival.Some? ==>
                queue == AfterControl(old(queue), rival.value, maxsize) && enqueued == old(enqueued)
      ensures dropped - old(dropped) == undelivered - old(undelivered)
              == if !Full(old(queue), maxsize) then 0 else if rival.None? then 1 else 2
    {
      var full := PutNowait(item);
      if full {
        var oldest := GetNowait();
        if oldest.Some? {
          RecordDrop();
        }
        if rival.Some? {
          var _ := PutNowait(rival.value);
        }
        full := PutNowait(item);
        if full {
          RecordDrop();
          return;
        }
      }
      enqueued := enqueued + 1;
    }

    method TakeDropped() returns (count: nat)
      modifies `undelivered
      ensures count == old(undelivered) && undelivered == 0
    {
      count, undelivered := undelivered, 0;
    }

    method Drain() returns (events: seq<Item>)
      modifies `queue
      ensures events == old(queue) && queue == []
    {
      events := [];
      while true
        invariant events + queue == old(queue)
        decreases |queue|
      {
        var item := GetNowait();
        if item.None? {
          return;
        }
        events := events + [item.value];
      }
    }
  }

  /** An uninterrupted control put loses a control event exactly when the queue is full and its oldest item
      is one: the queue does not tell the kinds apart. */
  lemma AControlPutCanLoseAControl(queue: seq<Item>, item: Item, maxsize: nat)
    requires IsControl(item)
    ensures |Kept(AfterControl(queue, item, maxsize), IsControl)| == |Kept(queue, IsControl)| + 1
            <==> !(Full(queue, maxsize) && IsControl(queue[0]))
    ensures AfterControl([Finalized(1)], Finalized(2), 1) == [Finalized(2)]
  {
    KeptOfSum(queue, [item], IsControl);
    KeptOfOne(item, IsControl);
    if Full(queue, maxsize) {
      KeptOfSum(queue[1..], [item], IsControl);
      KeptOfWithout(queue, 0, IsControl);
      assert Without(queue, 0) == queue[1..];
    }
  }

  // ---- Many producer threads and one consumer ----

  /** Where a producer stands between two operations on the queue or the counters. */
  datatype Pc =
    | Idle
    | FirstPut(item: Item)
    | Refused(item: Item)
    | Evicting(item: Item)
    | Evicted(item: Item)
    | SecondPut(item: Item)
    | RefusedAgain(item: Item)
    | Counting

  /** The collector, its producers, and what went through it: `accepted` in the order the queue took the
      items, `consumed` in the order the consumer got them. */
  datatype State = State(
    queue: seq<Item>,
    enqueued: nat,
    dropped: nat,
    undelivered: nat,
    threads: seq<Pc>,
    offered: nat,
    accepted: seq<Item>,
    consumed: seq<Item>,
    evictions: nat,
    announced: nat)

  datatype Act = Offer(t: nat, item: Item) | Go(t: nat) | Consume | Announce

  function SetPc(s: State, t: nat, pc: Pc): State
    requires t < |s.threads|
  {
    s.(threads := s.threads[t := pc])
  }

  function Dropped(s: State): State {
    s.(dropped := s.dropped + 1, undelivered := s.undelivered + 1)
  }

  /** The next uninterrupted operation of thread `t`. */
  function Advance(s: State, t: nat, maxsize: nat): State
    requires t < |s.threads|
  {
    match s.threads[t]
    case Idle => s
    case FirstPut(item) =>
      if !Full(s.queue, maxsize)
      then SetPc(s.(queue := s.queue + [item], accepted := s.accepted + [item]), t, Counting)
      else SetPc(s, t, if IsControl(item) then Evicting(item) else Refused(item))
    case Refused(_) => SetPc(Dropped(s), t, Idle)
    case Evicting(item) =>
      if s.queue == [] then SetPc(s, t, SecondPut(item))
      else SetPc(s.(queue := s.queue[1..], evictions := s.evictions + 1), t, Evicted(item))
    case Evicted(item) => SetPc(Dropped(s), t, SecondPut(item))
    case SecondPut(item) =>
      if !Full(s.queue, maxsize)
      then SetPc(s.(queue := s.queue + [item], accepted := s.accepted + [item]), t, Counting)
      else SetPc(s, t, RefusedAgain(item))
    case RefusedAgain(_) => SetPc(Dropped(s), t, Idle)
    case Counting => SetPc(s.(enqueued := s.enqueued + 1), t, Idle)
  }

  function Next(s: State, act: Act, maxsize: nat): State {
    match act
    case Offer(t, item) =>
      if t < |s.threads| && s.threads[t].Idle? then SetPc(s.(offered := s.offered + 1), t, FirstPut(item)) else s
    case Go(t) => if t < |s.threads| then Advance(s, t, maxsize) else s
    case Consume => if s.queue == [] then s else s.(queue := s.queue[1..], consumed := s.consumed + [s.queue[0]])
    case Announce => s.(announced := s.announced + s.undelivered, undelivered := 0)
  }

  function Run(s: State, acts: seq<Act>, maxsize: nat): State
    decreases |acts|
  {
    if acts == [] then s else Run(Next(s, acts[0], maxsize), acts[1..], maxsize)
  }

  function Start(producers: nat): State {
    State([], 0, 0, 0, seq(producers, _ => Idle), 0, [], [], 0, 0)
  }

  function StepsLeft(pc: Pc): nat {
    match pc
    case Idle => 0
    case FirstPut(_) => 5
    case Evicting(_) => 4
    case Evicted(_) => 3
    case SecondPut(_) => 2
    case _ => 1
  }

  /** A thread that nobody interrupts until its put ends. */
  function Uninterrupted(s: State, t: nat, maxsize: nat): State
    requires t < |s.threads|
    decreases StepsLeft(s.threads[t])
  {
    if s.threads[t].Idle? then s else Uninterrupted(Advance(s, t, maxsize), t, maxsize)
  }

  lemma OneOperation(s: State, t: nat, maxsize: nat, u: State)
    requires t < |s.threads| && !s.threads[t].Idle? && Advance(s, t, maxsize) == u
    ensures |u.threads| == |s.threads| && Uninterrupted(s, t, maxsize) == Uninterrupted(u, t, maxsize)
  {
  }

  lemma CountingEnds(s: State, t: nat, maxsize: nat)
    requires t < |s.threads| && s.threads[t].Counting?
    ensures Uninterrupted(s, t, maxsize) == SetPc(s, t, Idle).(enqueued := s.enqueued + 1)
  {
  }

  lemma PlacingEnds(s: State, t: nat, maxsize: nat, item: Item)
    requires t < |s.threads| && s.threads[t] in {FirstPut(item), SecondPut(item)} && !Full(s.queue, maxsize)
    ensures Uninterrupted(s, t, maxsize)
            == SetPc(s, t, Idle).(queue := s.queue + [item], accepted := s.accepted + [item], enqueued := s.enqueued + 1)
  {
    var placed := SetPc(s, t, Counting).(queue := s.queue + [item], accepted := s.accepted + [item]);
    OneOperation(s, t, maxsize, placed);
    CountingEnds(placed, t, maxsize);
    assert placed.threads[t := Idle] == s.threads[t := Idle];
  }

  lemma RefusingEnds(s: State, t: nat, maxsize: nat, item: Item)
    requires t < |s.threads| && s.threads[t] == FirstPut(item) && Full(s.queue, maxsize) && !IsControl(item)
    ensures Uninterrupted(s, t, maxsize) == Dropped(SetPc(s, t, Idle))
  {
    var refused := SetPc(s, t, Refused(item));
    OneOperation(s, t, maxsize, refused);
    var done := Dropped(SetPc(s, t, Idle));
    assert refused.threads[t := Idle] == done.threads;
    OneOperation(refused, t, maxsize, done);
  }

  lemma EvictingEnds(s: State, t: nat, maxsize: nat, item: Item)
    requires t < |s.threads| && s.threads[t] == FirstPut(item) && Full(s.queue, maxsize) && IsControl(item)
    requires |s.queue| <= maxsize
    ensures Uninterrupted(s, t, maxsize)
            == Dropped(SetPc(s, t, Idle)).(queue := s.queue[1..] + [item], accepted := s.accepted + [item],
                 enqueued := s.enqueued + 1, evictions := s.evictions + 1)
  {
    var evicting := SetPc(s, t, Evicting(item));
    OneOperation(s, t, maxsize, evicting);
    var evicted := SetPc(s, t, Evicted(item)).(queue := s.queue[1..], evictions := s.evictions + 1);
    assert evicting.threads[t := Evicted(item)] == evicted.threads;
    OneOperation(evicting, t, maxsize, evicted);
    var again := Dropped(evicted).(threads := s.threads[t := SecondPut(item)]);
    assert evicted.threads[t := SecondPut(item)] == again.threads;
    OneOperation(evicted, t, maxsize, again);
    PlacingEnds(again, t, maxsize, item);
    assert again.threads[t := Idle] == s.threads[t := Idle];
  }

  /** A put that nobody interrupts ends, and does to the queue and the counters what `PutLog` and `PutControl`
      do without a rival: the interleaved machine is those methods cut into their atomic operations. */
  lemma UninterruptedPutIsTheMethod(s: State, t: nat, maxsize: nat)
    requires t < |s.threads| && s.threads[t].FirstPut? && (maxsize > 0 ==> |s.queue| <= maxsize)
    ensures var u, item, full := Uninterrupted(s, t, maxsize), s.threads[t].item, Full(s.queue, maxsize);
            && u.threads == s.threads[t := Idle]
            && u.queue == (if full && !IsControl(item) then s.queue else AfterControl(s.queue, item, maxsize))
            && u.enqueued - s.enqueued == (if full && !IsControl(item) then 0 else 1)
            && u.dropped - s.dropped == u.undelivered - s.undelivered == (if full then 1 else 0)
  {
    var item := s.threads[t].item;
    if !Full(s.queue, maxsize) {
      PlacingEnds(s, t, maxsize, item);
    } else if IsControl(item) {
      EvictingEnds(s, t, maxsize, item);
    } else {
      RefusingEnds(s, t, maxsize, item);
    }
  }

  /** At a full queue a log line is refused and nothing queued moves; every other event takes the place that the
      oldest one leaves. */
  lemma OnlyLinesAreRefused(s: State, t: nat, maxsize: nat)
    requires t < |s.threads| && s.threads[t].FirstPut? && 0 < maxsize == |s.queue|
    ensures var u, item := Uninterrupted(s, t, maxsize), s.threads[t].item;
            && (item.Nix? ==> u.queue == s.queue)
            && (item.Finalized? || item.Sentinel? ==> u.queue == s.queue[1..] + [item])
  {
    UninterruptedPutIsTheMethod(s, t, maxsize);
  }

  /** How many events thread `pc` still answers for: its own until it is placed or counted, and the one it
      evicted until that is counted. */
  function Owes(pc: Pc): nat {
    match pc
    case Idle => 0
    case Counting => 0
    case Evicted(_) => 2
    case _ => 1
  }

  /** Placed, and not yet in the `enqueued` counter. */
  function Uncounted(pc: Pc): nat {
    if pc.Counting? then 1 else 0
  }

  function Debt(pcs: seq<Pc>): nat {
    if pcs == [] then 0 else Owes(pcs[0]) + Debt(pcs[1..])
  }

  function UncountedIn(pcs: seq<Pc>): nat {
    if pcs == [] then 0 else Uncounted(pcs[0]) + UncountedIn(pcs[1..])
  }

  lemma {:induction false} SumsAfterUpdate(pcs: seq<Pc>, t: nat, pc: Pc)
    requires t < |pcs|
    ensures Debt(pcs[t := pc]) + Owes(pcs[t]) == Debt(pcs) + Owes(pc)
    ensures UncountedIn(pcs[t := pc]) + Uncounted(pcs[t]) == UncountedIn(pcs) + Uncounted(pc)
  {
    if t == 0 {
      assert pcs[0 := pc][1..] == pcs[1..];
    } else {
      SumsAfterUpdate(pcs[1..], t - 1, pc);
      assert pcs[t := pc][1..] == pcs[1..][t - 1 := pc];
    }
  }

  lemma {:induction false} SumsOfIdle(pcs: seq<Pc>)
    requires forall t :: 0 <= t < |pcs| ==> pcs[t].Idle?
    ensures Debt(pcs) == UncountedIn(pcs) == 0
  {
    if pcs != [] {
      SumsOfIdle(pcs[1..]);
    }
  }

  ghost predicate Counted(s: State, maxsize: nat) {
    && (maxsize > 0 ==> |s.queue| <= maxsize)
    && s.offered == |s.consumed| + |s.queue| + s.dropped + Debt(s.threads)
    && |s.accepted| == s.enqueued + UncountedIn(s.threads)
    && |s.accepted| == |s.consumed| + |s.queue| + s.evictions
    && s.dropped == s.announced + s.undelivered
  }

  ghost predicate Accounted(s: State, maxsize: nat) {
    Counted(s, maxsize) && InOrderIn(s.consumed + s.queue, s.accepted)
  }

  /** What one operation of a thread moves between the counters. */
  lemma GoMoves(s: State, t: nat, maxsize: nat)
    requires t < |s.threads|
    ensures var u := Advance(s, t, maxsize);
            && |u.threads| == |s.threads|
            && |u.queue| + u.dropped + Owes(u.threads[t]) == |s.queue| + s.dropped + Owes(s.threads[t])
            && |u.accepted| - u.enqueued - Uncounted(u.threads[t]) == |s.accepted| - s.enqueued - Uncounted(s.threads[t])
            && |u.accepted| - |u.queue| - u.evictions == |s.accepted| - |s.queue| - s.evictions
  {
  }

  lemma GoKeeps(s: State, t: nat, maxsize: nat)
    requires t < |s.threads| && (maxsize > 0 ==> |s.queue| <= maxsize)
    ensures var u := Advance(s, t, maxsize);
            && |u.threads| == |s.threads| && u.threads == s.threads[t := u.threads[t]]
            && (maxsize > 0 ==> |u.queue| <= maxsize)
            && u.offered == s.offered && u.consumed == s.consumed && u.announced == s.announced
            && u.dropped - u.undelivered == s.dropped - s.undelivered
  {
  }

  lemma GoKeepsCounts(s: State, t: nat, maxsize: nat)
    requires Counted(s, maxsize) && t < |s.threads|
    ensures Counted(Advance(s, t, maxsize), maxsize)
  {
    GoMoves(s, t, maxsize);
    GoKeeps(s, t, maxsize);
    SumsAfterUpdate(s.threads, t, Advance(s, t, maxsize).threads[t]);
  }

  lemma GoKeepsOrder(s: State, t: nat, maxsize: nat)
    requires t < |s.threads| && InOrderIn(s.consumed + s.queue, s.accepted)
    ensures var u := Advance(s, t, maxsize); InOrderIn(u.consumed + u.queue, u.accepted)
  {
    var u := Advance(s, t, maxsize);
    if |u.queue| > |s.queue| {
      var item := s.threads[t].item;
      InOrderBoth(s.consumed + s.queue, s.accepted, item);
      assert u.consumed + u.queue == s.consumed + s.queue + [item];
    } else if |u.queue| < |s.queue| {
      InOrderWithout(s.consumed + s.queue, s.accepted, |s.consumed|);
      assert u.consumed + u.queue == Without(s.consumed + s.queue, |s.consumed|);
    }
  }

  lemma NextKeepsAccount(s: State, act: Act, maxsize: nat)
    requires Accounted(s, maxsize)
    ensures Accounted(Next(s, act, maxsize), maxsize)
  {
    match act
    case Offer(t, item) =>
      if t < |s.threads| {
        SumsAfterUpdate(s.threads, t, FirstPut(item));
      }
    case Go(t) =>
      if t < |s.threads| {
        GoKeepsCounts(s, t, maxsize);
        GoKeepsOrder(s, t, maxsize);
      }
    case Consume =>
      var u := Next(s, act, maxsize);
      assert u.consumed + u.queue == s.consumed + s.queue;
    case Announce =>
  }

  lemma {:induction false} RunKeepsAccount(s: State, acts: seq<Act>, maxsize: nat)
    requires Accounted(s, maxsize)
    ensures Accounted(Run(s, acts, maxsize), maxsize)
    decreases |acts|
  {
    if acts != [] {
      NextKeepsAccount(s, acts[0], maxsize);
      RunKeepsAccount(Next(s, acts[0], maxsize), acts[1..], maxsize);
    }
  }

  lemma StartAccounted(producers: nat, maxsize: nat)
    ensures Accounted(Start(producers), maxsize)
  {
    var s0 := Start(producers);
    SumsOfIdle(s0.threads);
    assert s0.consumed + s0.queue == [];
    assert Embeds<Item>([], [], []);
  }

  predicate Quiet(s: State) {
    forall t :: 0 <= t < |s.threads| ==> s.threads[t].Idle?
  }

  /** Every interleaving of any number of producers with the consumer: the queue keeps its bound, the
      announced drops and the ones waiting to be announced are all the drops, and the consumer gets what
      the queue accepted, in order, with the evicted items left out. Once no producer is in the middle
      of a put, every event offered was consumed, is queued, or is counted as dropped. */
  lemma EveryEventIsAccountedFor(producers: nat, acts: seq<Act>, maxsize: nat)
    ensures var s := Run(Start(producers), acts, maxsize);
            && (maxsize > 0 ==> |s.queue| <= maxsize)
            && s.dropped == s.announced + s.undelivered
            && InOrderIn(s.consumed, s.accepted) && InOrderIn(s.consumed + s.queue, s.accepted)
            && |s.consumed| + |s.queue| + s.dropped <= s.offered
            && (Quiet(s) ==> s.offered == |s.consumed| + |s.queue| + s.dropped && s.enqueued == |s.accepted|)
  {
    var s0 := Start(producers);
    StartAccounted(producers, maxsize);
    RunKeepsAccount(s0, acts, maxsize);
    var s := Run(s0, acts, maxsize);
    InOrderPrefix(s.consumed, s.queue, s.accepted);
    if Quiet(s) {
      SumsOfIdle(s.threads);
    }
  }
}
