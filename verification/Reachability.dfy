/** Paths in a graph of store paths, given by the set of neighbours of each. */
module Reachability {
  import opened Sequences

  type Graph = string -> set<string>

  ghost predicate IsPath(next: Graph, p: seq<string>) {
    p != [] && forall i :: 0 <= i < |p| - 1 ==> p[i + 1] in next(p[i])
  }

  ghost predicate Reachable(next: Graph, starts: set<string>, y: string) {
    exists p :: IsPath(next, p) && p[0] in starts && p[|p| - 1] == y
  }

  lemma StartIsReachable(next: Graph, starts: set<string>, x: string)
    requires x in starts
    ensures Reachable(next, starts, x)
  {
    assert IsPath(next, [x]) && [x][0] == x;
  }

  lemma NeighbourIsReachable(next: Graph, starts: set<string>, x: string, y: string)
    requires Reachable(next, starts, x) && y in next(x)
    ensures Reachable(next, starts, y)
  {
    var p :| IsPath(next, p) && p[0] in starts && p[|p| - 1] == x;
    var q := p + [y];
    assert forall i :: 0 <= i < |q| - 1 ==> q[i + 1] in next(q[i]);
    assert IsPath(next, q) && q[0] in starts && q[|q| - 1] == y;
  }

  lemma {:induction false} PathStaysInside(next: Graph, closed: set<string>, p: seq<string>)
    requires forall x :: x in closed ==> next(x) <= closed
    requires IsPath(next, p) && p[0] in closed
    ensures p[|p| - 1] in closed
    decreases |p|
  {
    if |p| > 1 {
      assert p[1] in next(p[0]);
      PathStaysInside(next, closed, p[1..]);
    }
  }

  /** A set that holds the starts and the neighbours of its members holds everything reachable. */
  lemma ClosedHoldsReachable(next: Graph, starts: set<string>, closed: set<string>)
    requires starts <= closed && forall x :: x in closed ==> next(x) <= closed
    ensures forall y :: Reachable(next, starts, y) ==> y in closed
  {
    forall y | Reachable(next, starts, y) ensures y in closed {
      var p :| IsPath(next, p) && p[0] in starts && p[|p| - 1] == y;
      PathStaysInside(next, closed, p);
    }
  }

  lemma ReachableThrough(next: Graph, starts: set<string>, x: string, y: string)
    requires Reachable(next, starts, x) && Reachable(next, {x}, y)
    ensures Reachable(next, starts, y)
  {
    var p :| IsPath(next, p) && p[0] in starts && p[|p| - 1] == x;
    var q :| IsPath(next, q) && q[0] in {x} && q[|q| - 1] == y;
    var r := p + q[1..];
    forall i | 0 <= i < |r| - 1 ensures r[i + 1] in next(r[i]) {
      if i >= |p| - 1 {
        var j := i - (|p| - 1);
        assert r[i] == q[j] && r[i + 1] == q[j + 1];
      }
    }
    assert IsPath(next, r) && r[0] in starts && r[|r| - 1] == y;
  }

  /** Fewer edges reach less. */
  lemma MoreEdgesReachMore(some: Graph, all: Graph, starts: set<string>, y: string)
    requires forall x :: some(x) <= all(x)
    requires Reachable(some, starts, y)
    ensures Reachable(all, starts, y)
  {
    var p :| IsPath(some, p) && p[0] in starts && p[|p| - 1] == y;
    assert IsPath(all, p);
  }

  lemma {:induction false} WithoutLoops(next: Graph, p: seq<string>) returns (q: seq<string>)
    requires IsPath(next, p)
    ensures IsPath(next, q) && q[0] == p[0] && q[|q| - 1] == p[|p| - 1] && Distinct(q)
    decreases |p|
  {
    if Distinct(p) {
      return p;
    }
    var i, j :| 0 <= i < j < |p| && p[i] == p[j];
    var r := p[..i] + p[j..];
    forall k | 0 <= k < |r| - 1 ensures r[k + 1] in next(r[k]) {
      if k >= i {
        assert r[k] == p[k + j - i] && r[k + 1] == p[k + 1 + j - i];
      } else if k + 1 == i {
        assert r[k + 1] == p[j] == p[i];
      }
    }
    q := WithoutLoops(next, r);
  }

  // ---- Two directions ----

  /** The other end of every edge of `next` reaches back over `back`. */
  ghost predicate LeadsBack(next: Graph, back: Graph) {
    forall a, b :: b in next(a) ==> Reachable(back, {b}, a)
  }

  lemma {:induction false} PathLeadsBack(next: Graph, back: Graph, p: seq<string>)
    requires LeadsBack(next, back) && IsPath(next, p)
    ensures Reachable(back, {p[|p| - 1]}, p[0])
    decreases |p|
  {
    if |p| == 1 {
      StartIsReachable(back, {p[0]}, p[0]);
    } else {
      var q := p[1..];
      assert IsPath(next, q);
      PathLeadsBack(next, back, q);
      assert p[1] in next(p[0]);
      ReachableThrough(back, {p[|p| - 1]}, p[1], p[0]);
    }
  }

  lemma ReachesBack(next: Graph, back: Graph, x: string, y: string)
    requires LeadsBack(next, back) && Reachable(next, {x}, y)
    ensures Reachable(back, {y}, x)
  {
    var p :| IsPath(next, p) && p[0] in {x} && p[|p| - 1] == y;
    PathLeadsBack(next, back, p);
  }

  /** What one graph reaches, the other reaches back. */
  ghost predicate Converse(next: Graph, back: Graph) {
    forall x, y :: Reachable(next, {x}, y) <==> Reachable(back, {y}, x)
  }

  /** Reachability is converse exactly when each edge of either graph has a path back in the other. */
  lemma ConverseIsEdgewise(next: Graph, back: Graph)
    ensures Converse(next, back) <==> LeadsBack(next, back) && LeadsBack(back, next)
  {
    if Converse(next, back) {
      forall a, b | b in next(a) ensures Reachable(back, {b}, a) {
        EdgeIsReachable(next, a, b);
      }
      forall a, b | b in back(a) ensures Reachable(next, {b}, a) {
        EdgeIsReachable(back, a, b);
      }
    }
    if LeadsBack(next, back) && LeadsBack(back, next) {
      forall x, y ensures Reachable(next, {x}, y) <==> Reachable(back, {y}, x) {
        if Reachable(next, {x}, y) {
          ReachesBack(next, back, x, y);
        }
        if Reachable(back, {y}, x) {
          ReachesBack(back, next, y, x);
        }
      }
    }
  }

  lemma EdgeIsReachable(next: Graph, a: string, b: string)
    requires b in next(a)
    ensures Reachable(next, {a}, b)
  {
    StartIsReachable(next, {a}, a);
    NeighbourIsReachable(next, {a}, a, b);
  }
}
