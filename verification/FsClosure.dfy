/** The closure walk over the Nix database: `compute_fs_closure`. */
module FsClosure {
  import opened Common
  import opened Reachability

  datatype ValidPath = ValidPath(path: string, deriver: Option<string>)

  datatype Ref = Ref(referrer: int, reference: int)

  datatype DrvOutput = DrvOutput(drv: int, id: string, path: Option<string>)

  /** The three tables. The id of a valid path is its key. */
  datatype Database = Database(valid: map<int, ValidPath>, refs: set<Ref>, outputs: set<DrvOutput>)

  /** The schema's own constraint: a path is listed once. */
  predicate PathsAreUnique(db: Database) {
    forall i, j :: i in db.valid && j in db.valid && db.valid[i].path == db.valid[j].path ==> i == j
  }

  datatype Edge = ForwardRefs | BackwardRefs | DrvOutputs | DrvDerivers | Deriver

  predicate Names(db: Database, id: int, path: string) {
    id in db.valid && db.valid[id].path == path
  }

  /** The rows of one of the five queries for `path`, without the path itself for references and without
      absent values. */
  function Query(db: Database, edge: Edge, path: string): set<string> {
    match edge
    case ForwardRefs =>
      set r | r in db.refs && Names(db, r.referrer, path) && r.reference in db.valid
              && db.valid[r.reference].path != path :: db.valid[r.reference].path
    case BackwardRefs =>
      set r | r in db.refs && Names(db, r.reference, path) && r.referrer in db.valid
              && db.valid[r.referrer].path != path :: db.valid[r.referrer].path
    case DrvOutputs =>
      set o | o in db.outputs && Names(db, o.drv, path) && o.path.Some? :: o.path.value
    case DrvDerivers =>
      set o | o in db.outputs && o.path == Some(path) && o.drv in db.valid :: db.valid[o.drv].path
    case Deriver =>
      set i | i in db.valid && db.valid[i].path == path && db.valid[i].deriver.Some? :: db.valid[i].deriver.value
  }

  /** The edges a call follows, in the order it asks for them. */
  function EdgesOf(flip: bool, outputs: bool, derivers: bool): seq<Edge> {
    if flip then [BackwardRefs] + (if outputs then [DrvDerivers] else []) + (if derivers then [DrvOutputs] else [])
    else [ForwardRefs] + (if outputs then [DrvOutputs] else []) + (if derivers then [Deriver] else [])
  }

  /** The edge functions of a call, as the walk gets them. */
  function EdgeFunctions(db: Database, edges: seq<Edge>): seq<Graph> {
    seq(|edges|, i requires 0 <= i < |edges| => path => Query(db, edges[i], path))
  }

  function Union(edges: seq<Graph>, path: string): set<string> {
    if edges == [] then {} else edges[0](path) + Union(edges[1..], path)
  }

  function UnionOf(edges: seq<Graph>): Graph {
    path => Union(edges, path)
  }

  function GraphOf(db: Database, edges: seq<Edge>): Graph {
    UnionOf(EdgeFunctions(db, edges))
  }

  lemma {:induction false} UnionHolds(edges: seq<Graph>, path: string, y: string)
    ensures y in Union(edges, path) <==> exists i :: 0 <= i < |edges| && y in edges[i](path)
  {
    if edges != [] {
      UnionHolds(edges[1..], path, y);
      if y in Union(edges[1..], path) {
        var i :| 0 <= i < |edges[1..]| && y in edges[1..][i](path);
        assert y in edges[i + 1](path);
      }
      if exists i :: 0 <= i < |edges| && y in edges[i](path) {
        var i :| 0 <= i < |edges| && y in edges[i](path);
        assert i > 0 ==> y in edges[1..][i - 1](path);
      }
    }
  }

  lemma GraphHolds(db: Database, edges: seq<Edge>, path: string, y: string)
    ensures y in GraphOf(db, edges)(path) <==> exists i :: 0 <= i < |edges| && y in Query(db, edges[i], path)
  {
    var fs := EdgeFunctions(db, edges);
    UnionHolds(fs, path, y);
    assert forall i :: 0 <= i < |edges| ==> fs[i](path) == Query(db, edges[i], path);
  }

  /** Every path the tables mention. */
  function Mentioned(db: Database): set<string> {
    (set i | i in db.valid :: db.valid[i].path)
    + (set i | i in db.valid && db.valid[i].deriver.Some? :: db.valid[i].deriver.value)
    + (set o | o in db.outputs && o.path.Some? :: o.path.value)
  }

  lemma NeighboursAreMentioned(db: Database, edge: Edge, path: string)
    ensures Query(db, edge, path) <= Mentioned(db)
  {
  }

  lemma GraphIsMentioned(db: Database, edges: seq<Edge>, path: string)
    ensures GraphOf(db, edges)(path) <= Mentioned(db)
  {
    forall y | y in GraphOf(db, edges)(path) ensures y in Mentioned(db) {
      GraphHolds(db, edges, path, y);
      var i :| 0 <= i < |edges| && y in Query(db, edges[i], path);
      NeighboursAreMentioned(db, edges[i], path);
    }
  }

  /** The edges of one frontier path: what they lead to and the closure does not hold yet is added to both. */
  method Expand(edges: seq<Graph>, path: string, closure: set<string>, nextFrontier: set<string>)
    returns (closure': set<string>, nextFrontier': set<string>)
    ensures closure' == closure + Union(edges, path)
    ensures nextFrontier' == nextFrontier + (Union(edges, path) - closure)
  {
    closure', nextFrontier' := closure, nextFrontier;
    for i := 0 to |edges|
      invariant closure <= closure' && nextFrontier' == nextFrontier + (closure' - closure)
      invariant closure' + Union(edges[i..], path) == closure + Union(edges, path)
    {
      assert edges[i..][0] == edges[i] && edges[i..][1..] == edges[i + 1..];
      var neighbours := edges[i](path);
      var added := neighbours - closure';
      nextFrontier' := nextFrontier' + added;
      closure' := closure' + added;
    }
  }

  /** What holds of the sets between two frontier paths: `todo` is still to be expanded. */
  ghost predicate Walking(next: Graph, starts: set<string>, bound: set<string>, closure: set<string>, nextFrontier: set<string>, todo: set<string>) {
    && starts <= closure && closure !! nextFrontier && closure + nextFrontier <= bound && todo <= closure
    && (forall x :: x in closure + nextFrontier ==> Reachable(next, starts, x))
    && (forall x :: x in closure && x !in todo ==> next(x) <= closure + nextFrontier)
  }

  lemma WalkingOn(next: Graph, starts: set<string>, bound: set<string>, closure: set<string>, nextFrontier: set<string>, todo: set<string>, path: string)
    requires Walking(next, starts, bound, closure, nextFrontier, todo) && path in todo && next(path) <= bound
    ensures Walking(next, starts, bound, closure, nextFrontier + (next(path) - (closure + nextFrontier)), todo - {path})
  {
    forall y | y in next(path) ensures Reachable(next, starts, y) {
      NeighbourIsReachable(next, starts, path, y);
    }
  }

  lemma WalkingRound(next: Graph, starts: set<string>, bound: set<string>, closure: set<string>, nextFrontier: set<string>)
    requires Walking(next, starts, bound, closure, nextFrontier, {})
    ensures Walking(next, starts, bound, closure + nextFrontier, {}, nextFrontier)
    ensures nextFrontier != {} ==> bound - (closure + nextFrontier) < bound - closure
    ensures nextFrontier == {} ==> closure + nextFrontier == closure
  {
  }

  lemma Added(closure: set<string>, before: set<string>, neighbours: set<string>, closure': set<string>, after: set<string>)
    requires closure' == closure + before + neighbours && after == before + (neighbours - (closure + before))
    ensures closure' == closure + after
  {
  }

  /** One round: every path of the frontier, in whatever order the set gives them. */
  method Round(edges: seq<Graph>, ghost next: Graph, ghost starts: set<string>, ghost bound: set<string>,
               closure: set<string>, frontier: set<string>)
    returns (closure': set<string>, nextFrontier: set<string>)
    requires Walking(next, starts, bound, closure, {}, frontier)
    requires forall x :: next(x) == Union(edges, x) && next(x) <= bound
    ensures Walking(next, starts, bound, closure, nextFrontier, {})
    ensures closure' == closure + nextFrontier
  {
    closure', nextFrontier := closure, {};
    var todo := frontier;
    while todo != {}
      invariant closure' == closure + nextFrontier
      invariant Walking(next, starts, bound, closure, nextFrontier, todo)
      decreases |todo|
    {
      var path :| path in todo;
      ghost var before := nextFrontier;
      WalkingOn(next, starts, bound, closure, before, todo, path);
      closure', nextFrontier := Expand(edges, path, closure', nextFrontier);
      Added(closure, before, next(path), closure', nextFrontier);
      todo := todo - {path};
    }
    assert todo == {};
  }

  /** The breadth-first walk over any edge functions that stay within a finite set of paths: it terminates
      and returns exactly what is reachable, whatever order the sets are visited in. */
  method Walk(edges: seq<Graph>, ghost next: Graph, starts: set<string>, ghost bound: set<string>) returns (closure: set<string>)
    requires starts <= bound && forall x :: next(x) == Union(edges, x) && next(x) <= bound
    ensures forall y :: y in closure <==> Reachable(next, starts, y)
  {
    closure := starts;
    var frontier := starts;
    WalkingStarts(next, starts, bound);
    while frontier != {}
      invariant Walking(next, starts, bound, closure, {}, frontier)
      decreases bound - closure, |frontier|
    {
      ghost var before := closure;
      closure, frontier := Round(edges, next, starts, bound, closure, frontier);
      WalkingRound(next, starts, bound, before, frontier);
    }
    assert frontier == {};
    WalkingEnds(next, starts, bound, closure);
  }

  lemma WalkingStarts(next: Graph, starts: set<string>, bound: set<string>)
    requires starts <= bound
    ensures Walking(next, starts, bound, starts, {}, starts)
  {
    forall x | x in starts ensures Reachable(next, starts, x) {
      StartIsReachable(next, starts, x);
    }
  }

  lemma WalkingEnds(next: Graph, starts: set<string>, bound: set<string>, closure: set<string>)
    requires Walking(next, starts, bound, closure, {}, {})
    ensures forall y :: y in closure <==> Reachable(next, starts, y)
  {
    ClosedHoldsReachable(next, starts, closure);
  }

  // ---- What the tables say, row by row ----

  /** Some row of the references leads from `p` to `q`. */
  ghost predicate RefersTo(db: Database, p: string, q: string) {
    exists r :: r in db.refs && Names(db, r.referrer, p) && Names(db, r.reference, q)
  }

  /** Some row of the outputs lists `q` for the derivation `p`. */
  ghost predicate HasOutput(db: Database, p: string, q: string) {
    exists o :: o in db.outputs && Names(db, o.drv, p) && o.path == Some(q)
  }

  /** Some valid path `p` records the deriver `q`. */
  ghost predicate HasDeriver(db: Database, p: string, q: string) {
    exists i :: Names(db, i, p) && db.valid[i].deriver == Some(q)
  }

  /** The rows that a walk follows from `p` to `q`: references, outputs and recorded derivers; flipped, references
      and outputs the other way, and outputs instead of derivers. */
  ghost predicate Linked(db: Database, flip: bool, outputs: bool, derivers: bool, p: string, q: string) {
    if flip then RefersTo(db, q, p) || (outputs && HasOutput(db, q, p)) || (derivers && HasOutput(db, p, q))
    else RefersTo(db, p, q) || (outputs && HasOutput(db, p, q)) || (derivers && HasDeriver(db, p, q))
  }

  /** Each path of the chain is linked to the next one by a row. */
  ghost predicate IsChain(db: Database, flip: bool, outputs: bool, derivers: bool, chain: seq<string>) {
    chain != [] && forall i :: 0 <= i < |chain| - 1 ==> Linked(db, flip, outputs, derivers, chain[i], chain[i + 1])
  }

  ghost predicate ChainLeads(db: Database, flip: bool, outputs: bool, derivers: bool, starts: set<string>, y: string) {
    exists chain :: IsChain(db, flip, outputs, derivers, chain) && chain[0] in starts && chain[|chain| - 1] == y
  }

  /** What each query asks for, in terms of the rows. */
  lemma QueriesReadTheRows(db: Database, p: string, q: string)
    ensures q in Query(db, ForwardRefs, p) <==> q != p && RefersTo(db, p, q)
    ensures q in Query(db, BackwardRefs, p) <==> q != p && RefersTo(db, q, p)
    ensures q in Query(db, DrvOutputs, p) <==> HasOutput(db, p, q)
    ensures q in Query(db, DrvDerivers, p) <==> HasOutput(db, q, p)
    ensures q in Query(db, Deriver, p) <==> HasDeriver(db, p, q)
  {
  }

  /** The edges of a walk are the linked pairs, but for a path that refers to itself. */
  lemma EdgesAreLinks(db: Database, flip: bool, outputs: bool, derivers: bool, p: string, q: string)
    ensures q in Edges(db, flip, outputs, derivers)(p) ==> Linked(db, flip, outputs, derivers, p, q)
    ensures Linked(db, flip, outputs, derivers, p, q) ==> q == p || q in Edges(db, flip, outputs, derivers)(p)
  {
    var edges := EdgesOf(flip, outputs, derivers);
    GraphHolds(db, edges, p, q);
    QueriesReadTheRows(db, p, q);
    if Linked(db, flip, outputs, derivers, p, q) && q != p {
      var edge := if !flip && RefersTo(db, p, q) then ForwardRefs else if flip && RefersTo(db, q, p) then BackwardRefs
                  else if !flip && outputs && HasOutput(db, p, q) then DrvOutputs
                  else if flip && outputs && HasOutput(db, q, p) then DrvDerivers
                  else if flip then DrvOutputs else Deriver;
      assert edge in edges && q in Query(db, edge, p);
      var i :| 0 <= i < |edges| && edges[i] == edge;
    }
  }

  lemma {:induction false} ChainReaches(db: Database, flip: bool, outputs: bool, derivers: bool, chain: seq<string>)
    requires IsChain(db, flip, outputs, derivers, chain)
    ensures Reachable(Edges(db, flip, outputs, derivers), {chain[0]}, chain[|chain| - 1])
    decreases |chain|
  {
    var next := Edges(db, flip, outputs, derivers);
    if |chain| == 1 {
      StartIsReachable(next, {chain[0]}, chain[0]);
    } else {
      var init := chain[..|chain| - 1];
      ChainReaches(db, flip, outputs, derivers, init);
      EdgesAreLinks(db, flip, outputs, derivers, init[|init| - 1], chain[|chain| - 1]);
      if chain[|chain| - 1] != init[|init| - 1] {
        NeighbourIsReachable(next, {chain[0]}, init[|init| - 1], chain[|chain| - 1]);
      }
    }
  }

  lemma ReachableIsChained(db: Database, flip: bool, outputs: bool, derivers: bool, starts: set<string>, y: string)
    ensures Reachable(Edges(db, flip, outputs, derivers), starts, y) <==> ChainLeads(db, flip, outputs, derivers, starts, y)
  {
    var next := Edges(db, flip, outputs, derivers);
    if Reachable(next, starts, y) {
      var p :| IsPath(next, p) && p[0] in starts && p[|p| - 1] == y;
      forall i | 0 <= i < |p| - 1 ensures Linked(db, flip, outputs, derivers, p[i], p[i + 1]) {
        EdgesAreLinks(db, flip, outputs, derivers, p[i], p[i + 1]);
      }
      assert IsChain(db, flip, outputs, derivers, p);
    }
    if chain :| IsChain(db, flip, outputs, derivers, chain) && chain[0] in starts && chain[|chain| - 1] == y {
      ChainReaches(db, flip, outputs, derivers, chain);
      StartIsReachable(next, starts, chain[0]);
      ReachableThrough(next, starts, chain[0], y);
    }
  }

  /** `compute_fs_closure`: it terminates on every database, and returns exactly the paths to which a chain of
      rows leads from a start, the rows being those that the flags choose. */
  method ComputeFsClosure(db: Database, starts: set<string>, flip: bool, outputs: bool, derivers: bool)
    returns (closure: set<string>)
    ensures forall y :: y in closure <==> ChainLeads(db, flip, outputs, derivers, starts, y)
    ensures forall y :: y in closure <==> Reachable(Edges(db, flip, outputs, derivers), starts, y)
  {
    var edges := EdgesOf(flip, outputs, derivers);
    ghost var bound := starts + Mentioned(db);
    forall x ensures GraphOf(db, edges)(x) <= bound {
      GraphIsMentioned(db, edges, x);
    }
    closure := Walk(EdgeFunctions(db, edges), GraphOf(db, edges), starts, bound);
    forall y ensures y in closure <==> ChainLeads(db, flip, outputs, derivers, starts, y) {
      ReachableIsChained(db, flip, outputs, derivers, starts, y);
    }
  }

  // ---- The two directions ----

  lemma ReferencesAreConverse(db: Database, a: string, b: string)
    requires PathsAreUnique(db)
    ensures b in Query(db, ForwardRefs, a) <==> a in Query(db, BackwardRefs, b)
    ensures b in Query(db, DrvOutputs, a) <==> a in Query(db, DrvDerivers, b)
  {
  }

  lemma EdgeLeads(db: Database, edges: seq<Edge>, i: nat, a: string, b: string)
    requires i < |edges| && b in Query(db, edges[i], a)
    ensures Reachable(GraphOf(db, edges), {a}, b)
  {
    GraphHolds(db, edges, a, b);
    EdgeIsReachable(GraphOf(db, edges), a, b);
  }

  /** With or without output edges and deriver edges, the graph that the plain or the flipped walk follows. */
  function Edges(db: Database, flip: bool, outputs: bool, derivers: bool): Graph {
    GraphOf(db, EdgesOf(flip, outputs, derivers))
  }

  /** The two deriver edges are the ones that can lead nowhere: a recorded deriver must reach its path in
      the flipped graph, and an output its derivation in the plain one. */
  ghost predicate DeriversLeadBack(db: Database, outputs: bool) {
    && (forall a, b :: b in Query(db, Deriver, a) ==> Reachable(Edges(db, true, outputs, true), {b}, a))
    && (forall a, b :: b in Query(db, DrvOutputs, a) ==> Reachable(Edges(db, false, outputs, true), {b}, a))
  }

  lemma PlainLeadsBack(db: Database, outputs: bool, derivers: bool)
    requires PathsAreUnique(db) && (derivers ==> DeriversLeadBack(db, outputs))
    ensures LeadsBack(Edges(db, false, outputs, derivers), Edges(db, true, outputs, derivers))
  {
    var there, back := EdgesOf(false, outputs, derivers), EdgesOf(true, outputs, derivers);
    forall a, b | b in GraphOf(db, there)(a) ensures Reachable(GraphOf(db, back), {b}, a) {
      GraphHolds(db, there, a, b);
      ReferencesAreConverse(db, a, b);
      var i :| 0 <= i < |there| && b in Query(db, there[i], a);
      if there[i].ForwardRefs? || there[i].DrvOutputs? {
        EdgeLeads(db, back, i, b, a);
      }
    }
  }

  lemma FlippedLeadsBack(db: Database, outputs: bool, derivers: bool)
    requires PathsAreUnique(db) && (derivers ==> DeriversLeadBack(db, outputs))
    ensures LeadsBack(Edges(db, true, outputs, derivers), Edges(db, false, outputs, derivers))
  {
    var there, back := EdgesOf(false, outputs, derivers), EdgesOf(true, outputs, derivers);
    forall a, b | b in GraphOf(db, back)(a) ensures Reachable(GraphOf(db, there), {b}, a) {
      GraphHolds(db, back, a, b);
      ReferencesAreConverse(db, b, a);
      var i :| 0 <= i < |back| && b in Query(db, back[i], a);
      if back[i].BackwardRefs? || back[i].DrvDerivers? {
        EdgeLeads(db, there, i, b, a);
      }
    }
  }

  /** For reference edges, with or without output edges: `y` is in the closure of `x` exactly when `x` is in
      the flipped closure of `y`. */
  lemma FlippingIsConverse(db: Database, outputs: bool, x: string, y: string)
    requires PathsAreUnique(db)
    ensures ChainLeads(db, false, outputs, false, {x}, y) <==> ChainLeads(db, true, outputs, false, {y}, x)
  {
    PlainLeadsBack(db, outputs, false);
    FlippedLeadsBack(db, outputs, false);
    ConverseIsEdgewise(Edges(db, false, outputs, false), Edges(db, true, outputs, false));
    ReachableIsChained(db, false, outputs, false, {x}, y);
    ReachableIsChained(db, true, outputs, false, {y}, x);
  }

  /** With deriver edges the closures are converse exactly when every recorded deriver leads to its path in the
      flipped graph and every output leads to its derivation in the plain one. */
  lemma FlippingDeriversIsConverse(db: Database, outputs: bool)
    requires PathsAreUnique(db)
    ensures Converse(Edges(db, false, outputs, true), Edges(db, true, outputs, true)) <==> DeriversLeadBack(db, outputs)
  {
    var there, back := EdgesOf(false, outputs, true), EdgesOf(true, outputs, true);
    if DeriversLeadBack(db, outputs) {
      PlainLeadsBack(db, outputs, true);
      FlippedLeadsBack(db, outputs, true);
      ConverseIsEdgewise(Edges(db, false, outputs, true), Edges(db, true, outputs, true));
    }
    if Converse(Edges(db, false, outputs, true), Edges(db, true, outputs, true)) {
      forall a, b | b in Query(db, Deriver, a) ensures Reachable(Edges(db, true, outputs, true), {b}, a) {
        EdgeLeads(db, there, |there| - 1, a, b);
      }
      forall a, b | b in Query(db, DrvOutputs, a) ensures Reachable(Edges(db, false, outputs, true), {b}, a) {
        EdgeLeads(db, back, |back| - 1, a, b);
      }
    }
  }

  /** Row by row: a path records a deriver exactly when the outputs table lists the path for it. */
  ghost predicate DeriversAreConfirmed(db: Database) {
    forall a, b :: b in Query(db, Deriver, a) <==> a in Query(db, DrvOutputs, b)
  }

  /** Where the two tables agree on derivers, the closures are converse with deriver edges too. */
  lemma ConfirmedDeriversAreConverse(db: Database, outputs: bool)
    requires PathsAreUnique(db) && DeriversAreConfirmed(db)
    ensures Converse(Edges(db, false, outputs, true), Edges(db, true, outputs, true))
  {
    var there, back := EdgesOf(false, outputs, true), EdgesOf(true, outputs, true);
    forall a, b | b in Query(db, Deriver, a) ensures Reachable(Edges(db, true, outputs, true), {b}, a) {
      EdgeLeads(db, back, |back| - 1, b, a);
    }
    forall a, b | b in Query(db, DrvOutputs, a) ensures Reachable(Edges(db, false, outputs, true), {b}, a) {
      EdgeLeads(db, there, |there| - 1, b, a);
    }
    FlippingDeriversIsConverse(db, outputs);
  }

  /** An output whose recorded deriver the outputs table does not list. */
  function Unconfirmed(): Database {
    Database(map[1 := ValidPath("out", Some("drv")), 2 := ValidPath("drv", None)], {}, {})
  }

  lemma UnconfirmedForward()
    ensures Reachable(Edges(Unconfirmed(), false, true, true), {"out"}, "drv")
  {
    var edges := EdgesOf(false, true, true);
    assert 1 in Unconfirmed().valid && "drv" in Query(Unconfirmed(), Deriver, "out");
    assert edges[2] == Deriver;
    GraphHolds(Unconfirmed(), edges, "out", "drv");
    StartIsReachable(GraphOf(Unconfirmed(), edges), {"out"}, "out");
    NeighbourIsReachable(GraphOf(Unconfirmed(), edges), {"out"}, "out", "drv");
  }

  lemma UnconfirmedBackward()
    ensures !Reachable(Edges(Unconfirmed(), true, true, true), {"drv"}, "out")
  {
    var edges := EdgesOf(true, true, true);
    forall y ensures y !in GraphOf(Unconfirmed(), edges)("drv") {
      GraphHolds(Unconfirmed(), edges, "drv", y);
    }
    ClosedHoldsReachable(GraphOf(Unconfirmed(), edges), {"drv"}, {"drv"});
  }

  /** With deriver edges the two directions read different tables: a deriver that the outputs table does not
      confirm is in the closure, and the flipped closure does not lead back. */
  lemma DeriversAreNotConverse()
    ensures PathsAreUnique(Unconfirmed())
    ensures Reachable(Edges(Unconfirmed(), false, true, true), {"out"}, "drv")
    ensures !Reachable(Edges(Unconfirmed(), true, true, true), {"drv"}, "out")
  {
    UnconfirmedForward();
    UnconfirmedBackward();
  }
}
