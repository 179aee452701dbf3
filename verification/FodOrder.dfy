/** What the order in which a store lists inputs decides in `is_fixed_output_derivation_in_closure`. */
module FodOrder {
  import opened Common
  import opened Sequences
  import opened Reachability
  import opened Fod

  /** The same derivations, each with the same inputs in some order. */
  ghost predicate Reordered(store: Store, other: Store) {
    && other.Keys == store.Keys
    && forall p :: p in store ==>
         && other[p].name == store[p].name && other[p].fixed == store[p].fixed
         && multiset(other[p].inputs) == multiset(store[p].inputs)
  }

  /** Meeting `path` ends the walk without a yes: it cannot be read, or it is a namesake of the candidate
      that is not fixed-output. */
  predicate Stopper(store: Store, candidate: string, name: Option<string>, path: string) {
    path != candidate && (path !in store || (Namesake(store, name, path) && !store[path].fixed))
  }

  /** The input edges without those of the candidate: its paths avoid the candidate until their end. */
  ghost function Avoiding(store: Store, candidate: string): Graph {
    path => if path == candidate then {} else InputsOf(store, path)
  }

  /** The input edges that the walk follows: none from the candidate, none from a stopper. */
  ghost function Passing(store: Store, candidate: string, name: Option<string>): Graph {
    path => if path == candidate || Stopper(store, candidate, name, path) then {} else InputsOf(store, path)
  }

  lemma SameElements(a: seq<string>, b: seq<string>)
    requires multiset(a) == multiset(b)
    ensures forall x :: x in a <==> x in b
  {
    forall x ensures x in a <==> x in b {
      assert x in a <==> x in multiset(a);
      assert x in b <==> x in multiset(b);
    }
  }

  lemma OrderKeepsGraph(store: Store, other: Store, candidate: string, name: Option<string>)
    requires Reordered(store, other)
    ensures forall p :: Stopper(store, candidate, name, p) <==> Stopper(other, candidate, name, p)
    ensures forall p :: InputsOf(store, p) == InputsOf(other, p)
    ensures forall p :: Passing(store, candidate, name)(p) == Passing(other, candidate, name)(p)
  {
    forall p ensures InputsOf(store, p) == InputsOf(other, p) {
      if p in store {
        SameElements(store[p].inputs, other[p].inputs);
      }
    }
  }

  lemma OrderKeepsReach(store: Store, other: Store, candidate: string, name: Option<string>, root: string, y: string)
    requires Reordered(store, other)
    ensures Reachable(Passing(store, candidate, name), {root}, y) <==> Reachable(Passing(other, candidate, name), {root}, y)
    ensures FixedIn(store, root, y) <==> FixedIn(other, root, y)
  {
    OrderKeepsGraph(store, other, candidate, name);
    forall a: Graph, b: Graph | (forall p :: a(p) == b(p)) && Reachable(a, {root}, y) ensures Reachable(b, {root}, y) {
      MoreEdgesReachMore(a, b, {root}, y);
    }
  }

  // ---- What a walk in any order comes to ----

  /** The walk so far went only where the passing edges lead, and met neither the candidate nor a stopper. */
  ghost predicate Passed(store: Store, root: string, candidate: string, name: Option<string>, pending: seq<string>, visited: set<string>) {
    && Walked(store, root, pending, visited)
    && (forall p :: p in visited ==> p != candidate && !Stopper(store, candidate, name, p))
    && (forall p :: p in visited || p in pending ==> Reachable(Passing(store, candidate, name), {root}, p))
  }

  lemma PassVisits(store: Store, root: string, candidate: string, name: Option<string>, pending: seq<string>, visited: set<string>)
    requires Passed(store, root, candidate, name, pending, visited) && pending != []
    requires var path := pending[|pending| - 1]; path in store && path != candidate && !Stopper(store, candidate, name, path)
    ensures var path := pending[|pending| - 1];
            Passed(store, root, candidate, name, pending[..|pending| - 1] + store[path].inputs, visited + {path})
  {
    var path := pending[|pending| - 1];
    WalkVisits(store, root, pending, visited);
    assert path in pending;
    forall q | q in store[path].inputs ensures Reachable(Passing(store, candidate, name), {root}, q) {
      assert q in Passing(store, candidate, name)(path);
      NeighbourIsReachable(Passing(store, candidate, name), {root}, path, q);
    }
  }

  /** A yes was reached over passing edges, and anything else was caused by a stopper that they reach. */
  ghost predicate HasCause(store: Store, root: string, candidate: string, name: Option<string>, r: Result<bool>) {
    if r == Ok(true) then Reachable(Passing(store, candidate, name), {root}, candidate)
    else exists b :: Reachable(Passing(store, candidate, name), {root}, b) && Stopper(store, candidate, name, b)
  }

  lemma {:induction false} WalkHasCause(store: Store, root: string, candidate: string, name: Option<string>, pending: seq<string>,
                                        visited: set<string>, matches: nat)
    requires Passed(store, root, candidate, name, pending, visited) && FixedIn(store, root, candidate)
    ensures HasCause(store, root, candidate, name, AnswerFrom(store, candidate, name, pending, visited, matches))
    decreases store.Keys - visited, |pending|
  {
    if pending == [] {
      WalkEnds(store, root, visited);
    } else {
      var path, rest := pending[|pending| - 1], pending[..|pending| - 1];
      assert path in pending && Reachable(Passing(store, candidate, name), {root}, path);
      if path in visited {
        WalkSkips(store, root, pending, visited);
        WalkHasCause(store, root, candidate, name, rest, visited, matches);
      } else if path != candidate && !Stopper(store, candidate, name, path) {
        PassVisits(store, root, candidate, name, pending, visited);
        WalkHasCause(store, root, candidate, name, rest + store[path].inputs, visited + {path},
                     if Namesake(store, name, path) then matches + 1 else matches);
      }
    }
  }

  lemma AnswerHasCause(store: Store, root: string, candidate: string)
    requires FixedIn(store, root, candidate)
    ensures HasCause(store, root, candidate, NameOf(candidate), Answer(store, root, candidate))
  {
    var name := NameOf(candidate);
    WalkStarts(store, root);
    StartIsReachable(Passing(store, candidate, name), {root}, root);
    WalkHasCause(store, root, candidate, name, [root], {}, 0);
  }

  // ---- An order that takes the walk along a given path ----

  /** Every node of the path lists the next one last, so that it is popped first. */
  ghost predicate Leads(store: Store, p: seq<string>) {
    forall i :: 0 <= i < |p| - 1 ==>
      p[i] in store && store[p[i]].inputs != [] && store[p[i]].inputs[|store[p[i]].inputs| - 1] == p[i + 1]
  }

  /** What the walk answers when it comes straight to `last`. */
  ghost predicate EndsBy(store: Store, candidate: string, name: Option<string>, last: string, r: Result<bool>) {
    && (last == candidate && candidate in store ==> r == Ok(store[candidate].fixed))
    && (Stopper(store, candidate, name, last) ==> r != Ok(true))
  }

  lemma LastStep(store: Store, candidate: string, name: Option<string>, pending: seq<string>, visited: set<string>, matches: nat)
    requires pending != [] && pending[|pending| - 1] !in visited
    ensures EndsBy(store, candidate, name, pending[|pending| - 1], AnswerFrom(store, candidate, name, pending, visited, matches))
  {
  }

  lemma PassingStep(store: Store, candidate: string, name: Option<string>, pending: seq<string>, visited: set<string>, matches: nat)
    requires pending != []
    requires var path := pending[|pending| - 1];
             path !in visited && path in store && path != candidate && !Stopper(store, candidate, name, path)
    ensures var path := pending[|pending| - 1];
            AnswerFrom(store, candidate, name, pending, visited, matches)
            == AnswerFrom(store, candidate, name, pending[..|pending| - 1] + store[path].inputs, visited + {path},
                          if Namesake(store, name, path) then matches + 1 else matches)
  {
  }

  lemma {:induction false} StraightWalk(store: Store, candidate: string, name: Option<string>, p: seq<string>, i: nat, pending: seq<string>,
                                        visited: set<string>, matches: nat)
    requires i < |p| && Distinct(p) && IsPath(Passing(store, candidate, name), p) && Leads(store, p)
    requires pending != [] && pending[|pending| - 1] == p[i] && forall x :: x in visited <==> x in p[..i]
    ensures EndsBy(store, candidate, name, p[|p| - 1], AnswerFrom(store, candidate, name, pending, visited, matches))
    decreases |p| - i
  {
    if i == |p| - 1 {
      LastStep(store, candidate, name, pending, visited, matches);
    } else {
      assert p[i + 1] in Passing(store, candidate, name)(p[i]);
      PassingStep(store, candidate, name, pending, visited, matches);
      assert p[..i + 1] == p[..i] + [p[i]];
      StraightWalk(store, candidate, name, p, i + 1, pending[..|pending| - 1] + store[p[i]].inputs, visited + {p[i]},
                   if Namesake(store, name, p[i]) then matches + 1 else matches);
    }
  }

  function MoveLast(inputs: seq<string>, x: string): (r: seq<string>)
    requires x in inputs
    ensures r != [] && r[|r| - 1] == x
  {
    Without(inputs, IndexOf(inputs, x)) + [x]
  }

  lemma MoveLastPermutes(inputs: seq<string>, x: string)
    requires x in inputs
    ensures multiset(MoveLast(inputs, x)) == multiset(inputs)
  {
    var k := IndexOf(inputs, x);
    assert inputs == inputs[..k] + [inputs[k]] + inputs[k + 1..];
  }

  /** The inputs of `q`, with the successor of `q` on the path moved to the end. */
  function Directed(inputs: seq<string>, p: seq<string>, q: string): seq<string> {
    var k := IndexOf(p, q);
    if k + 1 < |p| && p[k + 1] in inputs then MoveLast(inputs, p[k + 1]) else inputs
  }

  function DirectedStore(store: Store, p: seq<string>): Store {
    map q | q in store :: store[q].(inputs := Directed(store[q].inputs, p, q))
  }

  lemma DirectedIsReordered(store: Store, p: seq<string>)
    ensures Reordered(store, DirectedStore(store, p))
  {
    forall q | q in store ensures multiset(Directed(store[q].inputs, p, q)) == multiset(store[q].inputs) {
      var k := IndexOf(p, q);
      if k + 1 < |p| && p[k + 1] in store[q].inputs {
        MoveLastPermutes(store[q].inputs, p[k + 1]);
      }
    }
  }

  lemma DirectedLeads(store: Store, candidate: string, name: Option<string>, p: seq<string>)
    requires Distinct(p) && IsPath(Passing(store, candidate, name), p)
    ensures Leads(DirectedStore(store, p), p)
  {
    var other := DirectedStore(store, p);
    forall i | 0 <= i < |p| - 1
      ensures p[i] in other && other[p[i]].inputs != [] && other[p[i]].inputs[|other[p[i]].inputs| - 1] == p[i + 1]
    {
      assert p[i + 1] in Passing(store, candidate, name)(p[i]);
      assert IndexOf(p, p[i]) == i;
    }
  }

  /** Whatever the passing edges reach, some order makes the walk come straight to it. */
  lemma SomeOrderComesStraight(store: Store, root: string, candidate: string, name: Option<string>, last: string) returns (other: Store)
    requires Reachable(Passing(store, candidate, name), {root}, last)
    ensures Reordered(store, other) && EndsBy(other, candidate, name, last, AnswerFrom(other, candidate, name, [root], {}, 0))
  {
    var path :| IsPath(Passing(store, candidate, name), path) && path[0] in {root} && path[|path| - 1] == last;
    var p := WithoutLoops(Passing(store, candidate, name), path);
    other := DirectedStore(store, p);
    DirectedIsReordered(store, p);
    DirectedLeads(store, candidate, name, p);
    OrderKeepsGraph(store, other, candidate, name);
    assert IsPath(Passing(other, candidate, name), p);
    StraightWalk(other, candidate, name, p, 0, [root], {}, 0);
  }

  // ---- The two conditions ----

  lemma {:induction false} FirstStopper(store: Store, candidate: string, name: Option<string>, p: seq<string>) returns (b: string)
    requires IsPath(Avoiding(store, candidate), p) && Stopper(store, candidate, name, p[|p| - 1])
    ensures Reachable(Passing(store, candidate, name), {p[0]}, b) && Stopper(store, candidate, name, b)
    decreases |p|
  {
    if i :| 0 <= i < |p| - 1 && Stopper(store, candidate, name, p[i]) {
      var q := p[..i + 1];
      assert IsPath(Avoiding(store, candidate), q);
      b := FirstStopper(store, candidate, name, q);
    } else {
      b := p[|p| - 1];
      assert forall i :: 0 <= i < |p| - 1 ==> p[i + 1] in Avoiding(store, candidate)(p[i]) && !Stopper(store, candidate, name, p[i]);
      assert IsPath(Passing(store, candidate, name), p);
    }
  }

  /** No path of inputs leads from the root to a stopper without meeting the candidate first. */
  ghost predicate NothingStops(store: Store, root: string, candidate: string, name: Option<string>) {
    forall b :: Reachable(Avoiding(store, candidate), {root}, b) ==> !Stopper(store, candidate, name, b)
  }

  lemma StoppersPass(store: Store, root: string, candidate: string, name: Option<string>)
    ensures NothingStops(store, root, candidate, name) <==>
              forall b :: Reachable(Passing(store, candidate, name), {root}, b) ==> !Stopper(store, candidate, name, b)
  {
    if b :| Reachable(Avoiding(store, candidate), {root}, b) && Stopper(store, candidate, name, b) {
      var p :| IsPath(Avoiding(store, candidate), p) && p[0] in {root} && p[|p| - 1] == b;
      var first := FirstStopper(store, candidate, name, p);
      assert Reachable(Passing(store, candidate, name), {root}, first);
    }
    if b :| Reachable(Passing(store, candidate, name), {root}, b) && Stopper(store, candidate, name, b) {
      MoreEdgesReachMore(Passing(store, candidate, name), Avoiding(store, candidate), {root}, b);
    }
  }

  /** A fixed-output derivation of the closure is accepted in every order of inputs exactly when no path of
      inputs leads from the root, without meeting it, to a path that cannot be read or to a namesake that is
      not fixed-output. */
  lemma AcceptedInEveryOrder(store: Store, root: string, candidate: string)
    requires FixedIn(store, root, candidate)
    ensures (forall other :: Reordered(store, other) ==> Answer(other, root, candidate) == Ok(true))
            <==> NothingStops(store, root, candidate, NameOf(candidate))
  {
    var name := NameOf(candidate);
    StoppersPass(store, root, candidate, name);
    if NothingStops(store, root, candidate, name) {
      forall other | Reordered(store, other) ensures Answer(other, root, candidate) == Ok(true) {
        OrderKeepsReach(store, other, candidate, name, root, candidate);
        OrderKeepsGraph(store, other, candidate, name);
        AnswerHasCause(other, root, candidate);
        if b :| Reachable(Passing(other, candidate, name), {root}, b) && Stopper(other, candidate, name, b) {
          OrderKeepsReach(store, other, candidate, name, root, b);
        }
      }
    } else {
      var b :| Reachable(Passing(store, candidate, name), {root}, b) && Stopper(store, candidate, name, b);
      var other := SomeOrderComesStraight(store, root, candidate, name, b);
      OrderKeepsGraph(store, other, candidate, name);
    }
  }

  /** It is accepted in some order exactly when a path of inputs leads from the root to it that meets neither
      before. */
  lemma AcceptedInSomeOrder(store: Store, root: string, candidate: string)
    requires FixedIn(store, root, candidate)
    ensures (exists other :: Reordered(store, other) && Answer(other, root, candidate) == Ok(true))
            <==> Reachable(Passing(store, candidate, NameOf(candidate)), {root}, candidate)
  {
    var name := NameOf(candidate);
    if other :| Reordered(store, other) && Answer(other, root, candidate) == Ok(true) {
      OrderKeepsReach(store, other, candidate, name, root, candidate);
      AnswerHasCause(other, root, candidate);
    }
    if Reachable(Passing(store, candidate, name), {root}, candidate) {
      var other := SomeOrderComesStraight(store, root, candidate, name, candidate);
      assert Answer(other, root, candidate) == Ok(true);
    }
  }

  /** The order of inputs decides about a fixed-output derivation of the closure exactly when it can be reached
      before every stopper and some stopper can be reached before it. */
  lemma TheOrderDecides(store: Store, root: string, candidate: string)
    requires FixedIn(store, root, candidate)
    ensures (exists a, b :: Reordered(store, a) && Reordered(store, b)
                            && Answer(a, root, candidate) == Ok(true) && Answer(b, root, candidate) != Ok(true))
            <==> Reachable(Passing(store, candidate, NameOf(candidate)), {root}, candidate)
                 && !NothingStops(store, root, candidate, NameOf(candidate))
  {
    AcceptedInEveryOrder(store, root, candidate);
    AcceptedInSomeOrder(store, root, candidate);
  }
}
