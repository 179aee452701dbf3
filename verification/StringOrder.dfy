/** Python's order on strings, by code point, and the sorting of names. */
module StringOrder {

  predicate Less(a: string, b: string) {
    if b == "" then false
    else if a == "" then true
    else a[0] < b[0] || (a[0] == b[0] && Less(a[1..], b[1..]))
  }

  /** The order of a `sorted` call whose key is `(rank, name)`. */
  predicate Before(rank: string -> nat, a: string, b: string) {
    rank(a) < rank(b) || (rank(a) == rank(b) && Less(a, b))
  }

  lemma {:induction false} LessIsTotal(a: string, b: string)
    ensures Less(a, b) || Less(b, a) || a == b
    ensures !(Less(a, b) && Less(b, a)) && !Less(a, a)
  {
    if a != "" && b != "" {
      LessIsTotal(a[1..], b[1..]);
      assert a == [a[0]] + a[1..] && b == [b[0]] + b[1..];
    }
    if a != "" {
      LessIsTotal(a[1..], a[1..]);
    }
  }

  /** The order of Python: a proper prefix comes first, and else the smaller character at the first difference. */
  lemma {:induction false} LessIsByFirstDifference(a: string, b: string)
    ensures Less(a, b) <==> exists k :: IsFirstDifference(a, b, k)
  {
    if b == "" {
    } else if a == "" {
      assert IsFirstDifference(a, b, 0);
    } else {
      LessIsByFirstDifference(a[1..], b[1..]);
      if a[0] == b[0] {
        if k :| IsFirstDifference(a[1..], b[1..], k) {
          assert a[..k + 1] == [a[0]] + a[1..][..k] && b[..k + 1] == [b[0]] + b[1..][..k];
          assert IsFirstDifference(a, b, k + 1);
        }
        if k :| IsFirstDifference(a, b, k) {
          assert k > 0;
          assert a[1..][..k - 1] == a[..k][1..] && b[1..][..k - 1] == b[..k][1..];
          assert IsFirstDifference(a[1..], b[1..], k - 1);
        }
      } else if a[0] < b[0] {
        assert IsFirstDifference(a, b, 0);
      } else {
        forall k ensures !IsFirstDifference(a, b, k) {
          if 0 < k <= |a| && k < |b| {
            assert a[..k][0] == a[0] && b[..k][0] == b[0];
          }
        }
      }
    }
  }

  ghost predicate IsFirstDifference(a: string, b: string, k: int) {
    0 <= k <= |a| && k < |b| && a[..k] == b[..k] && (k == |a| || a[k] < b[k])
  }

  lemma {:induction false} LessIsTransitive(a: string, b: string, c: string)
    requires Less(a, b) && Less(b, c)
    ensures Less(a, c)
  {
    if a != "" && a[0] == b[0] == c[0] {
      LessIsTransitive(a[1..], b[1..], c[1..]);
    }
  }

  lemma BeforeIsTotal(rank: string -> nat, a: string, b: string)
    ensures Before(rank, a, b) || Before(rank, b, a) || a == b
    ensures !(Before(rank, a, b) && Before(rank, b, a)) && !Before(rank, a, a)
  {
    LessIsTotal(a, b);
    LessIsTotal(a, a);
  }

  lemma BeforeIsTransitive(rank: string -> nat, a: string, b: string, c: string)
    requires Before(rank, a, b) && Before(rank, b, c)
    ensures Before(rank, a, c)
  {
    if Less(a, b) && Less(b, c) {
      LessIsTransitive(a, b, c);
    }
  }

  /** The rank that leaves the order to the names themselves. */
  function Same(name: string): nat {
    0
  }

  /** Strictly increasing, so without repetition. */
  ghost predicate Increasing(rank: string -> nat, names: seq<string>) {
    forall i, j :: 0 <= i < j < |names| ==> Before(rank, names[i], names[j])
  }

  function Insert(rank: string -> nat, name: string, names: seq<string>): seq<string> {
    if names == [] || Before(rank, name, names[0]) then [name] + names
    else if name == names[0] then names
    else [names[0]] + Insert(rank, name, names[1..])
  }

  /** `sorted` of the set of `names`. */
  function SortedSet(rank: string -> nat, names: seq<string>): seq<string> {
    if names == [] then [] else Insert(rank, names[0], SortedSet(rank, names[1..]))
  }

  lemma {:induction false} InsertInOrder(rank: string -> nat, name: string, names: seq<string>)
    requires Increasing(rank, names)
    ensures Increasing(rank, Insert(rank, name, names))
    ensures forall n :: n in Insert(rank, name, names) <==> n == name || n in names
  {
    if names == [] {
    } else if Before(rank, name, names[0]) {
      forall i | 0 <= i < |names| ensures Before(rank, name, names[i]) {
        if i > 0 {
          BeforeIsTransitive(rank, name, names[0], names[i]);
        }
      }
    } else if name != names[0] {
      BeforeIsTotal(rank, name, names[0]);
      InsertInOrder(rank, name, names[1..]);
      var rest := Insert(rank, name, names[1..]);
      forall i | 0 <= i < |rest| ensures Before(rank, names[0], rest[i]) {
        assert rest[i] in rest;
      }
    }
  }

  /** Sorting gives an increasing list of the same names. */
  lemma {:induction false} SortedSetIsSorted(rank: string -> nat, names: seq<string>)
    ensures Increasing(rank, SortedSet(rank, names))
    ensures forall n :: n in SortedSet(rank, names) <==> n in names
  {
    if names != [] {
      SortedSetIsSorted(rank, names[1..]);
      InsertInOrder(rank, names[0], SortedSet(rank, names[1..]));
    }
  }

  /** There is only one increasing list of a set of names. */
  lemma {:induction false} IncreasingIsUnique(rank: string -> nat, a: seq<string>, b: seq<string>)
    requires Increasing(rank, a) && Increasing(rank, b)
    requires forall n :: n in a <==> n in b
    ensures a == b
  {
    assert (a != [] ==> a[0] in a) && (b != [] ==> b[0] in b);
    if a == [] || b == [] {
    } else {
      assert a[0] in b && b[0] in a;
      var i :| 0 <= i < |b| && b[i] == a[0];
      var j :| 0 <= j < |a| && a[j] == b[0];
      BeforeIsTotal(rank, a[0], b[0]);
      assert a[0] == b[0];
      forall n ensures n in a[1..] <==> n in b[1..] {
        RestHasTheOthers(rank, a, n);
        RestHasTheOthers(rank, b, n);
      }
      IncreasingIsUnique(rank, a[1..], b[1..]);
      assert a == [a[0]] + a[1..] && b == [b[0]] + b[1..];
    }
  }

  lemma RestHasTheOthers(rank: string -> nat, a: seq<string>, n: string)
    requires Increasing(rank, a) && a != []
    ensures n in a[1..] <==> n in a && n != a[0]
  {
    BeforeIsTotal(rank, a[0], a[0]);
    if n in a && n != a[0] {
      var k :| 0 <= k < |a| && a[k] == n;
      assert a[1..][k - 1] == n;
    }
    if n in a[1..] {
      var k :| 0 <= k < |a[1..]| && a[1..][k] == n;
      assert a[k + 1] == n && Before(rank, a[0], a[k + 1]);
    }
  }
}
