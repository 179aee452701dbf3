/** The wake-up protocol of `LogOutbox.get`: puts and consumers interleave at every `await`. */
module OutboxWakeup {
  import opened Common
  import Outbox = LogOutbox

  /** Signals are numbered in the order they were made; `ready` is the one the outbox holds now. A consumer
      that waits holds the number of the signal it waits for. */
  datatype State = State(
    items: seq<Outbox.Event>,
    ready: nat,
    raised: set<nat>,
    waiting: seq<Option<nat>>,
    gots: seq<seq<Outbox.Event>>)

  datatype Act = Put(e: Outbox.Event) | Get(c: nat) | Wake(c: nat) | Abandon(c: nat)

  /** A consumer at the loop head of `get`: it takes the oldest item, or waits for the current signal. */
  function LoopHead(s: State, c: nat): State
    requires c < |s.waiting| == |s.gots|
  {
    if s.items == [] then s.(waiting := s.waiting[c := Some(s.ready)])
    else s.(items := s.items[1..], waiting := s.waiting[c := None], gots := s.gots[c := s.gots[c] + [s.items[0]]])
  }

  predicate CanWake(s: State, c: nat) {
    c < |s.waiting| == |s.gots| && s.waiting[c].Some? && s.waiting[c].value in s.raised
  }

  /** An impossible act changes nothing. `Wake` makes a new signal and then looks at the buffer again. */
  function Next(s: State, act: Act, maxsize: nat): State {
    match act
    case Put(e) => s.(items := Outbox.AfterPut(s.items, e, maxsize), raised := s.raised + {s.ready})
    case Get(c) => if c < |s.waiting| == |s.gots| && s.waiting[c].None? then LoopHead(s, c) else s
    case Wake(c) => if CanWake(s, c) then LoopHead(s.(ready := s.ready + 1), c) else s
    case Abandon(c) => if c < |s.waiting| then s.(waiting := s.waiting[c := None]) else s
  }

  function Run(s: State, acts: seq<Act>, maxsize: nat): State
    decreases |acts|
  {
    if acts == [] then s else Run(Next(s, acts[0], maxsize), acts[1..], maxsize)
  }

  function Start(consumers: nat): State {
    State([], 0, {}, seq(consumers, _ => None), seq(consumers, _ => []))
  }

  ghost predicate OneWaiter(s: State) {
    && |s.waiting| == |s.gots| == 1
    && (forall g :: g in s.raised ==> g <= s.ready)
    && (s.waiting[0].Some? ==> s.waiting[0].value == s.ready && (s.items != [] ==> s.ready in s.raised))
  }

  lemma {:induction false} RunKeepsOneWaiter(s: State, acts: seq<Act>, maxsize: nat)
    requires OneWaiter(s)
    ensures OneWaiter(Run(s, acts, maxsize))
    decreases |acts|
  {
    if acts != [] {
      RunKeepsOneWaiter(Next(s, acts[0], maxsize), acts[1..], maxsize);
    }
  }

  /** In every run with one consumer: if it waits while the buffer holds something, its signal is raised,
      and waking hands it the oldest item. */
  lemma TheConsumerIsNeverStuck(acts: seq<Act>, maxsize: nat)
    ensures var s := Run(Start(1), acts, maxsize);
            && |s.waiting| == |s.gots| == 1
            && (s.waiting[0].Some? && s.items != [] ==>
                  && CanWake(s, 0)
                  && Next(s, Wake(0), maxsize).waiting == [None]
                  && Next(s, Wake(0), maxsize).items == s.items[1..]
                  && Next(s, Wake(0), maxsize).gots[0] == s.gots[0] + [s.items[0]])
  {
    RunKeepsOneWaiter(Start(1), acts, maxsize);
  }

  /** In every run with one consumer: a wake-up that finds the buffer empty happens once, and the next one needs a
      put. */
  lemma AnEmptyWakeUpHappensOnce(acts: seq<Act>, e: Outbox.Event, maxsize: nat)
    ensures var s := Run(Start(1), acts, maxsize);
            CanWake(s, 0) && s.items == [] ==>
              var t := Next(s, Wake(0), maxsize);
              && t.waiting[0].Some? && !CanWake(t, 0)
              && CanWake(Next(t, Put(e), maxsize), 0)
  {
    RunKeepsOneWaiter(Start(1), acts, maxsize);
  }

  /** A consumer that gave up waiting gets the oldest item like any other when it comes back. */
  lemma AnAbandonedWaitStartsOver(s: State, c: nat, maxsize: nat)
    requires c < |s.waiting| == |s.gots| && s.items != []
    ensures var t := Next(Next(s, Abandon(c), maxsize), Get(c), maxsize);
            t.items == s.items[1..] && t.gots == s.gots[c := s.gots[c] + [s.items[0]]] && t.waiting == s.waiting[c := None]
  {
  }

  /** The run one step longer. */
  lemma {:induction false} RunExtends(s: State, acts: seq<Act>, act: Act, maxsize: nat)
    ensures Run(s, acts + [act], maxsize) == Next(Run(s, acts, maxsize), act, maxsize)
    decreases |acts|
  {
    if acts == [] {
      assert acts + [act] == [act];
      assert [act][1..] == [];
    } else {
      assert (acts + [act])[0] == acts[0] && (acts + [act])[1..] == acts[1..] + [act];
      RunExtends(Next(s, acts[0], maxsize), acts[1..], act, maxsize);
    }
  }

  lemma Then(s0: State, acts: seq<Act>, act: Act) returns (longer: seq<Act>)
    ensures Run(s0, longer, 10) == Next(Run(s0, acts, 10), act, 10)
  {
    longer := acts + [act];
    RunExtends(s0, acts, act, 10);
  }

  /** Where the first two of the consumers stand. */
  predicate Stands(s: State, consumers: nat, items: seq<Outbox.Event>, ready: nat, raised: set<nat>,
                   first: Option<nat>, second: Option<nat>)
  {
    && s.items == items && s.ready == ready && s.raised == raised && |s.waiting| == |s.gots| == consumers >= 2
    && s.waiting[0] == first && s.waiting[1] == second
  }

  lemma BothWait(consumers: nat, e: Outbox.Event) returns (acts: seq<Act>)
    requires consumers >= 2
    ensures Stands(Run(Start(consumers), acts, 10), consumers, [e], 0, {0}, Some(0), Some(0))
  {
    var s0 := Start(consumers);
    acts := Then(s0, [], Get(0));
    assert Stands(Run(s0, acts, 10), consumers, [], 0, {}, Some(0), None);
    acts := Then(s0, acts, Get(1));
    assert Stands(Run(s0, acts, 10), consumers, [], 0, {}, Some(0), Some(0));
    acts := Then(s0, acts, Put(e));
  }

  lemma BothWaitAgain(consumers: nat, e: Outbox.Event) returns (acts: seq<Act>)
    requires consumers >= 2
    ensures Stands(Run(Start(consumers), acts, 10), consumers, [], 2, {0}, Some(1), Some(2))
  {
    var s0 := Start(consumers);
    acts := BothWait(consumers, e);
    acts := Then(s0, acts, Wake(0));
    assert Stands(Run(s0, acts, 10), consumers, [], 1, {0}, None, Some(0));
    acts := Then(s0, acts, Get(0));
    assert Stands(Run(s0, acts, 10), consumers, [], 1, {0}, Some(1), Some(0));
    acts := Then(s0, acts, Wake(1));
  }

  /** With any number of consumers but one, one can wait for a signal that nobody will raise, while an item is
      there. */
  lemma MoreConsumersCanBeStuck(consumers: nat) returns (acts: seq<Act>)
    requires consumers >= 2
    ensures var s := Run(Start(consumers), acts, 10);
            && s.items != [] && |s.waiting| == consumers && s.waiting[1].None?
            && s.waiting[0].Some? && s.waiting[0].value < s.ready && s.waiting[0].value !in s.raised
  {
    var s0, e := Start(consumers), Outbox.Log(1, "");
    acts := BothWaitAgain(consumers, e);
    acts := Then(s0, acts, Put(e));
    assert Stands(Run(s0, acts, 10), consumers, [e], 2, {0, 2}, Some(1), Some(2));
    acts := Then(s0, acts, Put(e));
    assert Stands(Run(s0, acts, 10), consumers, [e, e], 2, {0, 2}, Some(1), Some(2));
    acts := Then(s0, acts, Wake(1));
  }
}
