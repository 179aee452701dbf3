/** Order-preserving sub-sequences and filters. */
module Sequences {

  /** `at` says where in `whole` each element of `part` sits. */
  ghost predicate Embeds<T>(at: seq<int>, part: seq<T>, whole: seq<T>) {
    && |at| == |part|
    && (forall i :: 0 <= i < |at| ==> 0 <= at[i] < |whole| && whole[at[i]] == part[i])
    && (forall i, j :: 0 <= i < j < |at| ==> at[i] < at[j])
  }

  /** `part` is `whole` with some elements left out. */
  ghost predicate InOrderIn<T>(part: seq<T>, whole: seq<T>) {
    exists at :: Embeds(at, part, whole)
  }

  function Without<T>(s: seq<T>, k: nat): (r: seq<T>)
    requires k < |s|
    ensures |r| == |s| - 1
    ensures forall i :: 0 <= i < |r| ==> r[i] == s[if i < k then i else i + 1]
  {
    s[..k] + s[k + 1..]
  }

  lemma InOrderBoth<T>(part: seq<T>, whole: seq<T>, x: T)
    requires InOrderIn(part, whole)
    ensures InOrderIn(part + [x], whole + [x])
  {
    var at :| Embeds(at, part, whole);
    assert Embeds(at + [|whole|], part + [x], whole + [x]);
  }

  lemma InOrderWithout<T>(part: seq<T>, whole: seq<T>, k: nat)
    requires InOrderIn(part, whole) && k < |part|
    ensures InOrderIn(Without(part, k), whole)
  {
    var at :| Embeds(at, part, whole);
    assert Embeds(Without(at, k), Without(part, k), whole);
  }

  lemma InOrderPrefix<T>(part: seq<T>, rest: seq<T>, whole: seq<T>)
    requires InOrderIn(part + rest, whole)
    ensures InOrderIn(part, whole)
  {
    var at :| Embeds(at, part + rest, whole);
    assert forall i :: 0 <= i < |part| ==> (part + rest)[i] == part[i];
    assert Embeds(at[..|part|], part, whole);
  }

  lemma InOrderTrans<T>(a: seq<T>, b: seq<T>, c: seq<T>)
    requires InOrderIn(a, b) && InOrderIn(b, c)
    ensures InOrderIn(a, c)
  {
    var f :| Embeds(f, a, b);
    var g :| Embeds(g, b, c);
    var h := seq(|f|, i requires 0 <= i < |f| => g[f[i]]);
    assert Embeds(h, a, c);
  }

  /** The elements of `s` that `keep` accepts, in order. */
  function Kept<T>(s: seq<T>, keep: T -> bool): seq<T> {
    if s == [] then []
    else Kept(s[..|s| - 1], keep) + (if keep(s[|s| - 1]) then [s[|s| - 1]] else [])
  }

  lemma {:induction false} KeptOfSum<T>(a: seq<T>, b: seq<T>, keep: T -> bool)
    ensures Kept(a + b, keep) == Kept(a, keep) + Kept(b, keep)
    decreases |b|
  {
    if b == [] {
      assert a + b == a;
    } else {
      var last := |b| - 1;
      assert (a + b)[..|a + b| - 1] == a + b[..last];
      assert (a + b)[|a + b| - 1] == b[last];
      KeptOfSum(a, b[..last], keep);
    }
  }

  lemma KeptOfOne<T>(x: T, keep: T -> bool)
    ensures Kept([x], keep) == if keep(x) then [x] else []
  {
  }

  lemma KeptAround<T>(left: seq<T>, x: T, right: seq<T>, keep: T -> bool)
    ensures Kept(left + [x] + right, keep) == Kept(left, keep) + (if keep(x) then [x] else []) + Kept(right, keep)
  {
    KeptOfSum(left + [x], right, keep);
    KeptOfSum(left, [x], keep);
    KeptOfOne(x, keep);
  }

  /** Leaving out an element that is not kept changes nothing; leaving out a kept one shortens the rest by one. */
  lemma KeptOfWithout<T>(s: seq<T>, k: nat, keep: T -> bool)
    requires k < |s|
    ensures !keep(s[k]) ==> Kept(Without(s, k), keep) == Kept(s, keep)
    ensures keep(s[k]) ==> |Kept(Without(s, k), keep)| == |Kept(s, keep)| - 1
  {
    var left, right := s[..k], s[k + 1..];
    assert s == left + [s[k]] + right;
    KeptAround(left, s[k], right, keep);
    KeptOfSum(left, right, keep);
    assert Kept(left, keep) + [] == Kept(left, keep);
  }

  lemma InOrderLonger<T>(part: seq<T>, whole: seq<T>, x: T)
    requires InOrderIn(part, whole)
    ensures InOrderIn(part, whole + [x])
  {
    var at :| Embeds(at, part, whole);
    assert Embeds(at, part, whole + [x]);
  }

  lemma KeptOfLast<T>(s: seq<T>, keep: T -> bool)
    requires s != []
    ensures var init, last := s[..|s| - 1], s[|s| - 1];
            Kept(s, keep) == if keep(last) then Kept(init, keep) + [last] else Kept(init, keep)
  {
  }

  /** Filtering both sides keeps the order. */
  lemma {:induction false} KeptInOrder<T>(part: seq<T>, whole: seq<T>, keep: T -> bool)
    requires InOrderIn(part, whole)
    ensures InOrderIn(Kept(part, keep), Kept(whole, keep))
    decreases |whole|
  {
    var at :| Embeds(at, part, whole);
    if part == [] {
      assert Embeds([], Kept(part, keep), Kept(whole, keep));
      return;
    }
    var last, init := |part| - 1, |whole| - 1;
    assert at[last] <= init;
    KeptOfLast(whole, keep);
    var shorter := Kept(whole[..init], keep);
    if at[last] == init {
      assert Embeds(at[..last], part[..last], whole[..init]);
      KeptInOrder(part[..last], whole[..init], keep);
      KeptOfLast(part, keep);
      if keep(whole[init]) {
        InOrderBoth(Kept(part[..last], keep), shorter, whole[init]);
      }
    } else {
      assert Embeds(at, part, whole[..init]);
      KeptInOrder(part, whole[..init], keep);
      if keep(whole[init]) {
        InOrderLonger(Kept(part, keep), shorter, whole[init]);
      }
    }
  }

  /** Exactly one element of `s` is kept, the one at `k`. */
  ghost predicate OnlyAt<T>(s: seq<T>, keep: T -> bool, k: int) {
    0 <= k < |s| && forall j :: 0 <= j < |s| ==> (keep(s[j]) <==> j == k)
  }

  lemma {:induction false} KeptNone<T>(s: seq<T>, keep: T -> bool)
    ensures Kept(s, keep) == [] <==> forall j :: 0 <= j < |s| ==> !keep(s[j])
    decreases |s|
  {
    if s != [] {
      KeptNone(s[..|s| - 1], keep);
    }
  }

  lemma {:induction false} KeptOnly<T>(s: seq<T>, keep: T -> bool, k: int)
    requires OnlyAt(s, keep, k)
    ensures Kept(s, keep) == [s[k]]
    decreases |s|
  {
    var init := s[..|s| - 1];
    KeptOfLast(s, keep);
    if k < |init| {
      assert OnlyAt(init, keep, k);
      KeptOnly(init, keep, k);
    } else {
      KeptNone(init, keep);
    }
  }

  /** A filter leaves one element exactly when one position holds all that is kept, and leaves that one. */
  lemma {:induction false} KeptOneIsOnly<T>(s: seq<T>, keep: T -> bool)
    ensures |Kept(s, keep)| == 1 <==> exists k :: OnlyAt(s, keep, k)
    decreases |s|
  {
    if k :| OnlyAt(s, keep, k) {
      KeptOnly(s, keep, k);
    } else if |Kept(s, keep)| == 1 {
      var init := s[..|s| - 1];
      KeptOfLast(s, keep);
      if keep(s[|init|]) {
        KeptNone(init, keep);
        assert OnlyAt(s, keep, |init|);
      } else {
        KeptOneIsOnly(init, keep);
        var k :| OnlyAt(init, keep, k);
        assert OnlyAt(s, keep, k);
      }
    }
  }

  ghost predicate Distinct<T>(s: seq<T>) {
    forall i, j :: 0 <= i < j < |s| ==> s[i] != s[j]
  }

  /** The index of the first `x`, or the length. */
  function IndexOf<T(==)>(s: seq<T>, x: T): (k: nat)
    ensures k <= |s| && (k < |s| ==> s[k] == x)
    ensures forall j :: 0 <= j < k ==> s[j] != x
  {
    if s == [] || s[0] == x then 0 else 1 + IndexOf(s[1..], x)
  }

  /** A filter keeps exactly the elements it accepts. */
  lemma {:induction false} KeptMembers<T>(s: seq<T>, keep: T -> bool)
    ensures forall x :: x in Kept(s, keep) <==> x in s && keep(x)
    decreases |s|
  {
    if s != [] {
      KeptMembers(s[..|s| - 1], keep);
      KeptOfLast(s, keep);
      assert s == s[..|s| - 1] + [s[|s| - 1]];
    }
  }
}
