/** The bounded hand-off from the worker's log relay to its stream: `LogOutbox`. */
module LogOutbox {
  import opened Common
  import opened Sequences

  /** One item of the outbox. Everything but a log line is a control event. */
  datatype Event = Log(request: int, line: string) | Finalized(request: int) | Notice(count: nat) | Sentinel

  const CEILING_FACTOR := 4

  predicate IsControl(e: Event) {
    !e.Log?
  }

  function Controls(items: seq<Event>): seq<Event> {
    Kept(items, IsControl)
  }

  /** The index of the oldest log line, or the length when there is none. */
  function OldestLog(items: seq<Event>): (k: nat)
    ensures k <= |items|
    ensures k < |items| ==> items[k].Log?
    ensures forall j :: 0 <= j < k ==> IsControl(items[j])
  {
    if items == [] then 0 else if items[0].Log? then 0 else 1 + OldestLog(items[1..])
  }

  /** The item at `k` is a log line, and none before it is. */
  ghost predicate IsOldestLine(items: seq<Event>, k: int) {
    0 <= k < |items| && items[k].Log? && forall j :: 0 <= j < k ==> !items[j].Log?
  }

  lemma OldestLogIs(items: seq<Event>, k: int)
    requires IsOldestLine(items, k)
    ensures OldestLog(items) == k
  {
  }

  predicate OnlyControls(items: seq<Event>) {
    forall j :: 0 <= j < |items| ==> IsControl(items[j])
  }

  predicate Fits(items: seq<Event>, maxsize: nat) {
    && |items| <= CEILING_FACTOR * maxsize
    && (|items| > maxsize ==> OnlyControls(items))
  }

  /** The index of the item that adding `e` pushes out, or none: the oldest log line when the buffer is
      over its size, and the very oldest item when only control events are left and the ceiling is reached. */
  function Victim(items: seq<Event>, e: Event, maxsize: nat): (k: Option<nat>)
    ensures k.Some? ==> k.value < |items + [e]|
  {
    var all := items + [e];
    if |all| <= maxsize then None
    else if OldestLog(all) < |all| then Some(OldestLog(all))
    else if |all| > CEILING_FACTOR * maxsize then Some(0)
    else None
  }

  function AfterPut(items: seq<Event>, e: Event, maxsize: nat): seq<Event> {
    match Victim(items, e, maxsize)
    case None => items + [e]
    case Some(k) => Without(items + [e], k)
  }

  /** The event that a put discards, if it discards one. */
  function Discarded(items: seq<Event>, e: Event, maxsize: nat): seq<Event> {
    match Victim(items, e, maxsize)
    case None => []
    case Some(k) => [(items + [e])[k]]
  }

  /** A put that must discard a control event. */
  predicate Overflows(items: seq<Event>, e: Event, maxsize: nat) {
    IsControl(e) && |items| == CEILING_FACTOR * maxsize
  }

  lemma PutOverflows(items: seq<Event>, e: Event, maxsize: nat)
    requires Fits(items, maxsize)
    ensures Overflows(items, e, maxsize) <==>
              Victim(items, e, maxsize).Some? && IsControl((items + [e])[Victim(items, e, maxsize).value])
  {
    var all := items + [e];
    assert all[|items|] == e;
    if Overflows(items, e, maxsize) {
      assert |items| > maxsize || items == [];
      assert OnlyControls(all);
    }
  }

  /** Whatever is put: the buffer stays within its two limits, at most one item goes, and a control event
      goes exactly when one arrives at a buffer full of control events. */
  lemma PutKeepsLimits(items: seq<Event>, e: Event, maxsize: nat)
    requires Fits(items, maxsize)
    ensures Fits(AfterPut(items, e, maxsize), maxsize)
    ensures |items| <= |AfterPut(items, e, maxsize)| <= |items| + 1
    ensures Overflows(items, e, maxsize) <==>
              Victim(items, e, maxsize).Some? && IsControl((items + [e])[Victim(items, e, maxsize).value])
  {
    PutOverflows(items, e, maxsize);
    var all, after := items + [e], AfterPut(items, e, maxsize);
    if |items| > maxsize {
      assert forall j :: 0 <= j < |items| ==> IsControl(all[j]);
    }
    if |after| > maxsize {
      assert OnlyControls(after);
    }
  }

  /** One log line is all that a put discards: what is left fits, or holds control events only. */
  lemma OneLogIsEnough(items: seq<Event>, e: Event, maxsize: nat)
    requires Fits(items, maxsize) && maxsize < |items + [e]| && OldestLog(items + [e]) < |items + [e]|
    ensures var left := Without(items + [e], OldestLog(items + [e]));
            |left| <= CEILING_FACTOR * maxsize && (|left| <= maxsize || OldestLog(left) == |left|)
  {
  }

  /** While there is room nothing goes; when there is none, the oldest line goes, if there is one. */
  lemma RoomOrOldestLine(items: seq<Event>, e: Event, maxsize: nat)
    ensures |items| < maxsize ==> AfterPut(items, e, maxsize) == items + [e]
    ensures |items| >= maxsize ==>
              forall k :: 0 <= k <= |items| && IsOldestLine(items + [e], k) ==>
                AfterPut(items, e, maxsize) == (items + [e])[..k] + (items + [e])[k + 1..]
  {
    forall k | IsOldestLine(items + [e], k) ensures OldestLog(items + [e]) == k {
      OldestLogIs(items + [e], k);
    }
  }

  /** `anyio.Event`. */
  class Signal {
    var raised: bool

    constructor ()
      ensures !raised
    {
      raised := false;
    }
  }

  class LogOutbox {
    const maxsize: nat
    var items: seq<Event>
    var ready: Signal
    var dropped: nat
    var undelivered: nat

    predicate Valid()
      reads this
    {
      Fits(items, maxsize)
    }

    constructor (maxsize: nat)
      ensures Valid() && this.maxsize == maxsize && items == [] && dropped == undelivered == 0
      ensures fresh(ready) && !ready.raised
    {
      this.maxsize := maxsize;
      items, dropped, undelivered := [], 0, 0;
      ready := new Signal();
    }

    /** Removes the oldest log line, and reports whether there was one. */
    method DiscardOldestLog() returns (found: bool)
      modifies `items, `dropped, `undelivered
      ensures found <==> OldestLog(old(items)) < |old(items)|
      ensures found ==> items == Without(old(items), OldestLog(old(items)))
                        && dropped == old(dropped) + 1 && undelivered == old(undelivered) + 1
      ensures !found ==> items == old(items) && dropped == old(dropped) && undelivered == old(undelivered)
    {
      for index := 0 to |items|
        invariant items == old(items) && dropped == old(dropped) && undelivered == old(undelivered)
        invariant OldestLog(items) >= index
      {
        if items[index].Log? {
          items := items[..index] + items[index + 1..];
          RecordDrop();
          return true;
        }
      }
      return false;
    }

    method RecordDrop()
      modifies `dropped, `undelivered
      ensures dropped == old(dropped) + 1 && undelivered == old(undelivered) + 1
    {
      dropped := dropped + 1;
      undelivered := undelivered + 1;
    }

    method Put(e: Event)
      requires Valid()
      modifies this, ready
      ensures Valid() && ready == old(ready) && ready.raised
      ensures items == AfterPut(old(items), e, maxsize)
      ensures |old(items)| < maxsize ==> items == old(items) + [e]
      ensures |old(items)| >= maxsize ==>
                forall k :: 0 <= k <= |old(items)| && IsOldestLine(old(items) + [e], k) ==>
                  items == (old(items) + [e])[..k] + (old(items) + [e])[k + 1..]
      ensures dropped - old(dropped) == undelivered - old(undelivered) == |old(items)| + 1 - |items|
    {
      ghost var all := items + [e];
      PutKeepsLimits(items, e, maxsize);
      RoomOrOldestLine(items, e, maxsize);
      if maxsize < |all| && OldestLog(all) < |all| {
        OneLogIsEnough(items, e, maxsize);
      }
      items := items + [e];
      var more := true;
      while |items| > maxsize && more
        invariant ready == old(ready)
        invariant items == all || (OldestLog(all) < |all| && |all| > maxsize && items == Without(all, OldestLog(all)))
        invariant items == all && !more ==> OldestLog(all) == |all|
        invariant dropped - old(dropped) == undelivered - old(undelivered) == |all| - |items|
        decreases |items|, more
      {
        more := DiscardOldestLog();
      }
      while |items| > CEILING_FACTOR * maxsize
        invariant ready == old(ready)
        invariant items == AfterPut(old(items), e, maxsize) || (items == all && |all| > maxsize && OldestLog(all) == |all|)
        invariant dropped - old(dropped) == undelivered - old(undelivered) == |all| - |items|
        decreases |items|
      {
        items := items[1..];
        RecordDrop();
      }
      ready.raised := true;
    }

    method TakeDropped() returns (count: nat)
      modifies `undelivered
      ensures count == old(undelivered) && undelivered == 0
    {
      count, undelivered := undelivered, 0;
    }

    /** The loop head of `get`: the oldest item, or none when the consumer has to wait. */
    method TryGet() returns (e: Option<Event>)
      requires Valid()
      modifies `items
      ensures Valid()
      ensures e == if old(items) == [] then None else Some(old(items)[0])
      ensures items == if old(items) == [] then [] else old(items)[1..]
    {
      if items == [] {
        return None;
      }
      e := Some(items[0]);
      items := items[1..];
    }

    /** `get` after its wait ended: the signal it waited for is replaced. */
    method Rearm()
      modifies `ready
      ensures fresh(ready) && !ready.raised
    {
      ready := new Signal();
    }
  }

  // ---- Runs ----

  datatype Op = Put(e: Event) | Get | TakeDropped

  /** The outbox with what went through it: every event put, handed out or discarded, every drop announced. */
  datatype Trace = Trace(
    items: seq<Event>,
    dropped: nat,
    undelivered: nat,
    puts: seq<Event>,
    gots: seq<Event>,
    discarded: seq<Event>,
    announced: nat,
    overflows: nat)

  const FRESH := Trace([], 0, 0, [], [], [], 0, 0)

  function StepOp(t: Trace, op: Op, maxsize: nat): Trace {
    match op
    case Put(e) =>
      var gone := Discarded(t.items, e, maxsize);
      t.(items := AfterPut(t.items, e, maxsize),
         dropped := t.dropped + |gone|,
         undelivered := t.undelivered + |gone|,
         puts := t.puts + [e],
         discarded := t.discarded + gone,
         overflows := t.overflows + if Overflows(t.items, e, maxsize) then 1 else 0)
    case Get => if t.items == [] then t else t.(items := t.items[1..], gots := t.gots + [t.items[0]])
    case TakeDropped => t.(undelivered := 0, announced := t.announced + t.undelivered)
  }

  function RunOps(t: Trace, ops: seq<Op>, maxsize: nat): Trace
    decreases |ops|
  {
    if ops == [] then t else RunOps(StepOp(t, ops[0], maxsize), ops[1..], maxsize)
  }

  ghost predicate TraceOk(t: Trace, maxsize: nat) {
    && Fits(t.items, maxsize)
    && |t.puts| == |t.gots| + |t.items| + t.dropped
    && t.dropped == t.announced + t.undelivered == |t.discarded|
    && InOrderIn(t.gots + t.items, t.puts)
    && |Controls(t.puts)| == |Controls(t.gots + t.items)| + t.overflows
    && (t.overflows == 0 ==> Controls(t.gots + t.items) == Controls(t.puts))
  }

  lemma PutAppends(t: Trace, e: Event, maxsize: nat)
    requires TraceOk(t, maxsize)
    ensures var all := t.gots + t.items + [e];
            && InOrderIn(all, t.puts + [e])
            && |Controls(t.puts + [e])| == |Controls(all)| + t.overflows
            && (t.overflows == 0 ==> Controls(all) == Controls(t.puts + [e]))
  {
    InOrderBoth(t.gots + t.items, t.puts, e);
    KeptOfSum(t.gots + t.items, [e], IsControl);
    KeptOfSum(t.puts, [e], IsControl);
  }

  lemma PutDrops(gots: seq<Event>, items: seq<Event>, k: nat, puts: seq<Event>)
    requires k < |items| && InOrderIn(gots + items, puts)
    ensures InOrderIn(gots + Without(items, k), puts)
    ensures IsControl(items[k]) ==> |Controls(gots + Without(items, k))| == |Controls(gots + items)| - 1
    ensures !IsControl(items[k]) ==> Controls(gots + Without(items, k)) == Controls(gots + items)
  {
    var all := gots + items;
    assert gots + Without(items, k) == Without(all, |gots| + k);
    assert all[|gots| + k] == items[k];
    InOrderWithout(all, puts, |gots| + k);
    ControlsWithout(all, |gots| + k);
  }

  lemma ControlsWithout(all: seq<Event>, k: nat)
    requires k < |all|
    ensures IsControl(all[k]) ==> |Controls(Without(all, k))| == |Controls(all)| - 1
    ensures !IsControl(all[k]) ==> Controls(Without(all, k)) == Controls(all)
  {
    KeptOfWithout(all, k, IsControl);
  }

  lemma StepPutAdds(t: Trace, e: Event, maxsize: nat)
    requires TraceOk(t, maxsize) && Victim(t.items, e, maxsize).None?
    ensures TraceOk(StepOp(t, Put(e), maxsize), maxsize)
  {
    PutKeepsLimits(t.items, e, maxsize);
    PutAppends(t, e, maxsize);
    assert t.gots + t.items + [e] == t.gots + (t.items + [e]);
  }

  lemma StepPutDiscards(t: Trace, e: Event, maxsize: nat)
    requires TraceOk(t, maxsize) && Victim(t.items, e, maxsize).Some?
    ensures TraceOk(StepOp(t, Put(e), maxsize), maxsize)
  {
    PutKeepsLimits(t.items, e, maxsize);
    PutAppends(t, e, maxsize);
    assert t.gots + t.items + [e] == t.gots + (t.items + [e]);
    PutDrops(t.gots, t.items + [e], Victim(t.items, e, maxsize).value, t.puts + [e]);
  }

  lemma StepPutOk(t: Trace, e: Event, maxsize: nat)
    requires TraceOk(t, maxsize)
    ensures TraceOk(StepOp(t, Put(e), maxsize), maxsize)
  {
    if Victim(t.items, e, maxsize).None? {
      StepPutAdds(t, e, maxsize);
    } else {
      StepPutDiscards(t, e, maxsize);
    }
  }

  lemma StepOk(t: Trace, op: Op, maxsize: nat)
    requires TraceOk(t, maxsize)
    ensures TraceOk(StepOp(t, op, maxsize), maxsize)
  {
    match op
    case Put(e) => StepPutOk(t, e, maxsize);
    case Get =>
      var u := StepOp(t, op, maxsize);
      assert u.gots + u.items == t.gots + t.items;
    case TakeDropped =>
  }

  lemma {:induction false} RunOk(t: Trace, ops: seq<Op>, maxsize: nat)
    requires TraceOk(t, maxsize)
    ensures TraceOk(RunOps(t, ops, maxsize), maxsize)
    decreases |ops|
  {
    if ops != [] {
      StepOk(t, ops[0], maxsize);
      RunOk(StepOp(t, ops[0], maxsize), ops[1..], maxsize);
    }
  }

  lemma FreshOk(maxsize: nat)
    ensures TraceOk(FRESH, maxsize)
  {
    assert Embeds<Event>([], [], []);
    assert FRESH.gots + FRESH.items == [];
  }

  /** Every run of puts, gets and counter reads: the two limits hold, every event put is handed out, still
      held or counted as dropped, every drop is announced or waiting to be, and what is handed out and
      held is what was put, in order, with the dropped events left out. */
  lemma NothingIsLostUncounted(ops: seq<Op>, maxsize: nat)
    ensures var t := RunOps(FRESH, ops, maxsize);
            && Fits(t.items, maxsize)
            && |t.puts| == |t.gots| + |t.items| + t.dropped
            && t.dropped == t.announced + t.undelivered
            && InOrderIn(t.gots, t.puts) && InOrderIn(t.gots + t.items, t.puts)
  {
    FreshOk(maxsize);
    RunOk(FRESH, ops, maxsize);
    var t := RunOps(FRESH, ops, maxsize);
    InOrderPrefix(t.gots, t.items, t.puts);
  }

  /** No control event is lost, and all of them come out in order, exactly when none was put into a buffer
      that already held the ceiling of control events. */
  lemma ControlsSurviveBelowTheCeiling(ops: seq<Op>, maxsize: nat)
    ensures var t := RunOps(FRESH, ops, maxsize);
            && (Controls(t.gots + t.items) == Controls(t.puts) <==> t.overflows == 0)
            && (t.overflows == 0 ==> Controls(t.gots) <= Controls(t.puts))
            && (t.overflows == 0 && t.items == [] ==> Controls(t.gots) == Controls(t.puts))
  {
    FreshOk(maxsize);
    RunOk(FRESH, ops, maxsize);
    var t := RunOps(FRESH, ops, maxsize);
    KeptOfSum(t.gots, t.items, IsControl);
  }

  // ---- Which events go ----

  predicate IsLine(e: Event) {
    e.Log?
  }

  predicate IsSuffix(part: seq<Event>, whole: seq<Event>) {
    |part| <= |whole| && part == whole[|whole| - |part|..]
  }

  lemma SuffixOfTail(part: seq<Event>, whole: seq<Event>)
    requires IsSuffix(part, whole)
    ensures part != [] ==> IsSuffix(part[1..], whole)
    ensures forall e :: IsSuffix(part + [e], whole + [e])
  {
  }

  lemma KeptOfPut(items: seq<Event>, e: Event, keep: Event -> bool)
    ensures Kept(items + [e], keep) == if keep(e) then Kept(items, keep) + [e] else Kept(items, keep)
  {
    KeptOfLast(items + [e], keep);
    assert (items + [e])[..|items|] == items;
  }

  /** Leaving out the first event of a kind leaves out the first of what is kept of it; leaving out another
      event changes nothing there. */
  lemma KeptWithoutFirst(all: seq<Event>, k: nat, keep: Event -> bool)
    requires k < |all| && forall j :: 0 <= j < k ==> !keep(all[j])
    ensures keep(all[k]) ==> Kept(all, keep) != [] && Kept(Without(all, k), keep) == Kept(all, keep)[1..]
    ensures !keep(all[k]) ==> Kept(Without(all, k), keep) == Kept(all, keep)
  {
    var left, right := all[..k], all[k + 1..];
    assert all == left + [all[k]] + right;
    KeptAround(left, all[k], right, keep);
    KeptNone(left, keep);
    KeptOfSum(left, right, keep);
  }

  /** A put discards nothing, or the oldest line, or, when there is no line, the oldest event. */
  lemma TheOldestGoes(items: seq<Event>, e: Event, maxsize: nat)
    ensures var all, after := items + [e], AfterPut(items, e, maxsize);
            || after == all
            || (exists k: nat :: IsOldestLine(all, k) && after == Without(all, k))
            || (OnlyControls(all) && after == Without(all, 0))
  {
    var all := items + [e];
    if OldestLog(all) < |all| {
      assert IsOldestLine(all, OldestLog(all));
    }
  }

  /** What is held of a kind is the newest that was put of it. */
  ghost predicate HoldsNewest(items: seq<Event>, puts: seq<Event>, keep: Event -> bool) {
    IsSuffix(Kept(items, keep), Kept(puts, keep))
  }

  lemma AddingHoldsNewest(items: seq<Event>, puts: seq<Event>, e: Event, keep: Event -> bool)
    requires HoldsNewest(items, puts, keep)
    ensures HoldsNewest(items + [e], puts + [e], keep)
  {
    KeptOfPut(items, e, keep);
    KeptOfPut(puts, e, keep);
    SuffixOfTail(Kept(items, keep), Kept(puts, keep));
  }

  /** What goes is the first of its kind, or of another kind. */
  lemma DroppingHoldsNewest(all: seq<Event>, puts: seq<Event>, k: nat, keep: Event -> bool)
    requires HoldsNewest(all, puts, keep) && k < |all|
    requires keep(all[k]) ==> forall j :: 0 <= j < k ==> !keep(all[j])
    ensures HoldsNewest(Without(all, k), puts, keep)
  {
    if keep(all[k]) {
      KeptWithoutFirst(all, k, keep);
      SuffixOfTail(Kept(all, keep), Kept(puts, keep));
    } else {
      KeptOfWithout(all, k, keep);
    }
  }

  lemma PutHoldsNewest(t: Trace, e: Event, maxsize: nat, keep: Event -> bool)
    requires keep == IsLine || keep == IsControl
    requires HoldsNewest(t.items, t.puts, keep)
    ensures HoldsNewest(StepOp(t, Put(e), maxsize).items, StepOp(t, Put(e), maxsize).puts, keep)
  {
    var all := t.items + [e];
    AddingHoldsNewest(t.items, t.puts, e, keep);
    TheOldestGoes(t.items, e, maxsize);
    if k: nat :| IsOldestLine(all, k) && AfterPut(t.items, e, maxsize) == Without(all, k) {
      DroppingHoldsNewest(all, t.puts + [e], k, keep);
    } else if AfterPut(t.items, e, maxsize) != all {
      DroppingHoldsNewest(all, t.puts + [e], 0, keep);
    }
  }

  lemma GetHoldsNewest(t: Trace, maxsize: nat, keep: Event -> bool)
    requires HoldsNewest(t.items, t.puts, keep)
    ensures HoldsNewest(StepOp(t, Get, maxsize).items, t.puts, keep)
  {
    if t.items != [] {
      DroppingHoldsNewest(t.items, t.puts, 0, keep);
      assert Without(t.items, 0) == t.items[1..];
    }
  }

  lemma {:induction false} RunHoldsNewest(t: Trace, ops: seq<Op>, maxsize: nat, keep: Event -> bool)
    requires keep == IsLine || keep == IsControl
    requires HoldsNewest(t.items, t.puts, keep)
    ensures HoldsNewest(RunOps(t, ops, maxsize).items, RunOps(t, ops, maxsize).puts, keep)
    decreases |ops|
  {
    if ops != [] {
      match ops[0] {
        case Put(e) => PutHoldsNewest(t, e, maxsize, keep);
        case Get => GetHoldsNewest(t, maxsize, keep);
        case TakeDropped =>
      }
      RunHoldsNewest(StepOp(t, ops[0], maxsize), ops[1..], maxsize, keep);
    }
  }

  /** In every run, of the log lines that were put the ones held are the last ones, and so are the control
      events: whatever was discarded or handed out was put before all that is held of its kind. */
  lemma TheNewestAreHeld(ops: seq<Op>, maxsize: nat)
    ensures var t := RunOps(FRESH, ops, maxsize);
            IsSuffix(Kept(t.items, IsLine), Kept(t.puts, IsLine)) && IsSuffix(Kept(t.items, IsControl), Kept(t.puts, IsControl))
  {
    RunHoldsNewest(FRESH, ops, maxsize, IsLine);
    RunHoldsNewest(FRESH, ops, maxsize, IsControl);
  }

  /** A buffer full of log lines makes room by its first one. */
  lemma AFullBufferOfLinesShifts(t: Trace, e: Event, maxsize: nat)
    requires |t.items| == maxsize >= 1 && forall j :: 0 <= j < |t.items| ==> t.items[j].Log?
    ensures StepOp(t, Put(e), maxsize).items == t.items[1..] + [e]
  {
    assert (t.items + [e])[0].Log?;
    OldestLogIs(t.items + [e], 0);
    assert Without(t.items + [e], 0) == t.items[1..] + [e];
  }
}
