/** Walks over derivation closures: which fixed-output derivations a target has, and whether a reported hash
    mismatch belongs to it. */
module Fod {
  import opened Common
  import opened Reachability
  import opened Text

  /** `fixed` says that some output of the derivation is of type `CAFixed`. */
  datatype Derivation = Derivation(name: string, fixed: bool, inputs: seq<string>)

  /** The derivations a store can read; reading any other path is an error. */
  type Store = map<string, Derivation>

  const UNREADABLE := "cannot read derivation"

  function InputsOf(store: Store, path: string): set<string> {
    if path in store then set i | i in store[path].inputs else {}
  }

  function InputGraph(store: Store): Graph {
    path => InputsOf(store, path)
  }

  ghost predicate InClosure(store: Store, root: string, path: string) {
    Reachable(InputGraph(store), {root}, path)
  }

  ghost predicate FixedIn(store: Store, root: string, path: string) {
    InClosure(store, root, path) && path in store && store[path].fixed
  }

  ghost predicate ClosureIsReadable(store: Store, root: string) {
    forall path :: InClosure(store, root, path) ==> path in store
  }

  // ---- The depth-first walk ----

  /** What holds whenever the walk is about to pop: the visited paths were read, and what they lead to is
      visited or pending. */
  ghost predicate Walked(store: Store, root: string, pending: seq<string>, visited: set<string>) {
    && (root in visited || root in pending)
    && (forall p :: p in visited ==> p in store && InClosure(store, root, p))
    && (forall p :: p in pending ==> InClosure(store, root, p))
    && (forall p, q :: p in visited && q in InputsOf(store, p) ==> q in visited || q in pending)
  }

  lemma WalkStarts(store: Store, root: string)
    ensures Walked(store, root, [root], {}) && InClosure(store, root, root)
  {
  }

  /** Popping a visited path. */
  lemma WalkSkips(store: Store, root: string, pending: seq<string>, visited: set<string>)
    requires Walked(store, root, pending, visited) && pending != [] && pending[|pending| - 1] in visited
    ensures Walked(store, root, pending[..|pending| - 1], visited)
  {
  }

  /** Popping an unvisited path and pushing its inputs. */
  lemma WalkVisits(store: Store, root: string, pending: seq<string>, visited: set<string>)
    requires Walked(store, root, pending, visited) && pending != [] && pending[|pending| - 1] in store
    ensures var path := pending[|pending| - 1];
            Walked(store, root, pending[..|pending| - 1] + store[path].inputs, visited + {path})
  {
    var last := |pending| - 1;
    var path := pending[last];
    assert pending == pending[..last] + [path];
    var pending' := pending[..last] + store[path].inputs;
    assert path in pending && InClosure(store, root, path);
    forall p | p in store[path].inputs ensures InClosure(store, root, p) {
      assert p in InputGraph(store)(path);
      NeighbourIsReachable(InputGraph(store), {root}, path, p);
    }
    forall p, q | p in visited + {path} && q in InputsOf(store, p) ensures q in visited + {path} || q in pending' {
      if p == path {
        assert q in store[path].inputs;
      }
    }
  }

  /** Nothing pending: exactly the closure was visited, and all of it could be read. */
  lemma WalkEnds(store: Store, root: string, visited: set<string>)
    requires Walked(store, root, [], visited)
    ensures forall p :: p in visited <==> InClosure(store, root, p)
    ensures ClosureIsReadable(store, root)
  {
    ClosedHoldsReachable(InputGraph(store), {root}, visited);
  }

  /** `fixed_output_derivations_in_closure`: it terminates on every store, also with shared inputs and cycles,
      and gives exactly the fixed-output derivations of the closure; it fails exactly when something in
      the closure cannot be read. */
  method FixedOutputDerivations(store: Store, root: string) returns (r: Result<set<string>>)
    ensures r.Ok? <==> ClosureIsReadable(store, root)
    ensures r.Ok? ==> forall p :: p in r.value <==> FixedIn(store, root, p)
  {
    var pending := [root];
    var visited: set<string> := {};
    var fixedOutput: set<string> := {};
    WalkStarts(store, root);
    while pending != []
      invariant Walked(store, root, pending, visited)
      invariant forall p :: p in fixedOutput <==> p in visited && store[p].fixed
      decreases store.Keys - visited, |pending|
    {
      var path := pending[|pending| - 1];
      assert path in pending;
      if path in visited {
        WalkSkips(store, root, pending, visited);
        pending := pending[..|pending| - 1];
      } else {
        if path !in store {
          return Err(UNREADABLE);
        }
        WalkVisits(store, root, pending, visited);
        visited := visited + {path};
        if store[path].fixed {
          fixedOutput := fixedOutput + {path};
        }
        pending := pending[..|pending| - 1] + store[path].inputs;
      }
    }
    WalkEnds(store, root, visited);
    return Ok(fixedOutput);
  }

  // ---- Whether a reported derivation belongs to the target ----

  function LastSlash(path: string): (k: nat)
    ensures k <= |path|
    ensures k > 0 ==> path[k - 1] == '/'
    ensures '/' !in path[k..]
  {
    if path == "" then 0
    else if path[|path| - 1] == '/' then |path|
    else
      var k := LastSlash(path[..|path| - 1]);
      assert path[k..] == path[..|path| - 1][k..] + [path[|path| - 1]];
      k
  }

  const SUFFIX := ".drv"

  predicate EndsWithSuffix(name: string) {
    |name| >= |SUFFIX| && name[|name| - |SUFFIX|..] == SUFFIX
  }

  lemma SuffixHasNoDash(j: nat)
    requires j < |SUFFIX|
    ensures SUFFIX[j] != '-'
  {
  }

  lemma DashBeforeSuffix(base: string)
    requires EndsWithSuffix(base) && FirstOf(base, '-') < |base|
    ensures FirstOf(base, '-') < |base| - |SUFFIX|
  {
    var from := |base| - |SUFFIX|;
    forall i | from <= i < |base| ensures base[i] != '-' {
      SuffixHasNoDash(i - from);
      assert base[i] == base[from..][i - from];
    }
  }

  function NameFromBase(base: string): Option<string> {
    var dash := FirstOf(base, '-');
    if dash == |base| || !EndsWithSuffix(base) then None
    else
      DashBeforeSuffix(base);
      Some(base[dash + 1..|base| - |SUFFIX|])
  }

  /** `derivation_name_from_path`. */
  function NameFromPath(path: Option<string>): Option<string> {
    if path.None? then None else NameFromBase(path.value[LastSlash(path.value)..])
  }

  lemma {:induction false} LastSlashOf(dir: string, base: string)
    requires '/' !in base
    ensures LastSlash(dir + "/" + base) == |dir| + 1
  {
    var path := dir + "/" + base;
    if base == "" {
      assert path[|path| - 1] == '/';
    } else {
      assert path[..|path| - 1] == dir + "/" + base[..|base| - 1];
      LastSlashOf(dir, base[..|base| - 1]);
    }
  }

  lemma NameOfBase(hash: string, name: string)
    requires '-' !in hash
    ensures NameFromBase(hash + "-" + (name + SUFFIX)) == Some(name)
  {
    var base := hash + "-" + (name + SUFFIX);
    FirstAfter(hash, '-', name + SUFFIX);
    assert base == hash + ['-'] + (name + SUFFIX);
    assert base[|base| - |SUFFIX|..] == SUFFIX;
    assert base[|hash| + 1..|base| - |SUFFIX|] == name;
  }

  /** A derivation's store path gives its name back. */
  lemma NameOfDrvPath(dir: string, hash: string, name: string)
    requires '-' !in hash && '/' !in hash && '/' !in name
    ensures NameFromPath(Some(dir + "/" + (hash + "-" + (name + ".drv")))) == Some(name)
  {
    var base := hash + "-" + (name + SUFFIX);
    LastSlashOf(dir, base);
    assert (dir + "/" + base)[|dir| + 1..] == base;
    NameOfBase(hash, name);
  }

  ghost predicate SpellsDrv(path: string, dir: string, hash: string, name: string) {
    && path == dir + (hash + "-" + (name + ".drv"))
    && '-' !in hash && '/' !in hash && '/' !in name && (dir != "" ==> dir[|dir| - 1] == '/')
  }

  lemma LastSlashAfter(dir: string, base: string)
    requires '/' !in base && (dir != "" ==> dir[|dir| - 1] == '/')
    ensures LastSlash(dir + base) == |dir| && (dir + base)[|dir|..] == base
  {
    if dir == "" {
      assert dir + base == base;
      var k := LastSlash(base);
    } else {
      assert dir + base == dir[..|dir| - 1] + "/" + base;
      LastSlashOf(dir[..|dir| - 1], base);
    }
  }

  lemma BaseIsSpelled(base: string, name: string)
    requires NameFromBase(base) == Some(name)
    ensures var hash := base[..FirstOf(base, '-')];
            base == hash + "-" + (name + SUFFIX) && '-' !in hash && ('/' !in base ==> '/' !in hash && '/' !in name)
  {
    var dash := FirstOf(base, '-');
    DashBeforeSuffix(base);
    assert base == base[..dash] + [base[dash]] + (base[dash + 1..|base| - |SUFFIX|] + base[|base| - |SUFFIX|..]);
    assert forall i :: 0 <= i < |name| ==> name[i] == base[dash + 1 + i];
  }

  /** A path has a name exactly when its last component is a text without '-', a '-', the name and `.drv`. */
  lemma NameIsBetweenDashAndSuffix(path: string, name: string)
    ensures NameFromPath(Some(path)) == Some(name) <==> exists dir, hash :: SpellsDrv(path, dir, hash, name)
  {
    if NameFromPath(Some(path)) == Some(name) {
      var k := LastSlash(path);
      BaseIsSpelled(path[k..], name);
      var hash := path[k..][..FirstOf(path[k..], '-')];
      assert path == path[..k] + (hash + "-" + (name + SUFFIX));
      assert SpellsDrv(path, path[..k], hash, name);
    }
    if dir, hash :| SpellsDrv(path, dir, hash, name) {
      LastSlashAfter(dir, hash + "-" + (name + SUFFIX));
      NameOfBase(hash, name);
    }
  }

  function NameOf(candidate: string): Option<string> {
    NameFromPath(Some(candidate))
  }

  /** `name` is the candidate's name, if its path has one. */
  predicate Namesake(store: Store, name: Option<string>, path: string) {
    path in store && name == Some(store[path].name)
  }

  /** The only derivation of the closure that bears the candidate's name is fixed-output. */
  ghost predicate OneFixedNamesake(store: Store, root: string, name: Option<string>) {
    exists p ::
      && FixedIn(store, root, p) && Namesake(store, name, p)
      && forall q :: InClosure(store, root, q) && Namesake(store, name, q) ==> q == p
  }

  ghost predicate NamesakesAreFixed(store: Store, root: string, name: Option<string>) {
    forall q :: InClosure(store, root, q) && Namesake(store, name, q) ==> store[q].fixed
  }

  /** The visited namesakes, all of them fixed-output and none of them the candidate. */
  ghost predicate Matched(store: Store, candidate: string, name: Option<string>, visited: set<string>, matches: set<string>) {
    && candidate !in visited
    && (forall p :: p in matches <==> p in visited && Namesake(store, name, p))
    && (forall p :: p in matches ==> store[p].fixed)
  }

  lemma MatchesDecide(store: Store, root: string, candidate: string, name: Option<string>, visited: set<string>, matches: set<string>)
    requires Walked(store, root, [], visited) && Matched(store, candidate, name, visited, matches)
    ensures !InClosure(store, root, candidate)
    ensures |matches| == 1 <==> OneFixedNamesake(store, root, name)
  {
    WalkEnds(store, root, visited);
    if |matches| == 1 {
      var p :| p in matches;
      assert matches == {p} by {
        assert {p} <= matches;
        SubsetOfSameSize({p}, matches);
      }
      assert FixedIn(store, root, p) && Namesake(store, name, p);
    }
    if OneFixedNamesake(store, root, name) {
      var p :| FixedIn(store, root, p) && Namesake(store, name, p)
               && forall q :: InClosure(store, root, q) && Namesake(store, name, q) ==> q == p;
      assert matches == {p};
    }
  }

  lemma SubsetOfSameSize<T>(a: set<T>, b: set<T>)
    requires a <= b && |a| == |b|
    ensures a == b
  {
    assert b == a + (b - a);
  }

  /** The answer of the walk from where it stands, with `matches` namesakes counted. */
  function AnswerFrom(store: Store, candidate: string, name: Option<string>, pending: seq<string>, visited: set<string>, matches: nat): Result<bool>
    decreases store.Keys - visited, |pending|
  {
    if pending == [] then Ok(matches == 1)
    else
      var path, rest := pending[|pending| - 1], pending[..|pending| - 1];
      if path in visited then AnswerFrom(store, candidate, name, rest, visited, matches)
      else if path !in store then Err(UNREADABLE)
      else if path == candidate then Ok(store[path].fixed)
      else if Namesake(store, name, path) && !store[path].fixed then Ok(false)
      else
        AnswerFrom(store, candidate, name, rest + store[path].inputs, visited + {path},
                   if Namesake(store, name, path) then matches + 1 else matches)
  }

  function Answer(store: Store, root: string, candidate: string): Result<bool> {
    AnswerFrom(store, candidate, NameOf(candidate), [root], {}, 0)
  }

  /** What an answer means. */
  ghost predicate AnswerIsRight(store: Store, root: string, candidate: string, name: Option<string>, r: Result<bool>) {
    && (ClosureIsReadable(store, root) ==> r.Ok?)
    && (r.Ok? && !InClosure(store, root, candidate) ==> (r.value <==> OneFixedNamesake(store, root, name)))
    && (r == Ok(true) && InClosure(store, root, candidate) ==> FixedIn(store, root, candidate))
    && (r.Ok? && FixedIn(store, root, candidate) && NamesakesAreFixed(store, root, name) ==> r.value)
  }

  /** The three ways to stop at a path of the closure. */
  lemma StopIsRight(store: Store, root: string, candidate: string, name: Option<string>, path: string)
    requires InClosure(store, root, path)
    ensures path !in store ==> AnswerIsRight(store, root, candidate, name, Err(UNREADABLE))
    ensures path in store && path == candidate ==> AnswerIsRight(store, root, candidate, name, Ok(store[path].fixed))
    ensures path in store && Namesake(store, name, path) && !store[path].fixed ==>
              AnswerIsRight(store, root, candidate, name, Ok(false))
  {
  }

  lemma MatchedGrows(store: Store, candidate: string, name: Option<string>, visited: set<string>, matches: set<string>, path: string)
    requires Matched(store, candidate, name, visited, matches) && path !in visited && path in store && path != candidate
    requires Namesake(store, name, path) ==> store[path].fixed
    ensures var matches' := if Namesake(store, name, path) then matches + {path} else matches;
            && Matched(store, candidate, name, visited + {path}, matches')
            && |matches'| == if Namesake(store, name, path) then |matches| + 1 else |matches|
  {
  }

  lemma {:induction false} AnswerFromIsRight(store: Store, root: string, candidate: string, name: Option<string>, pending: seq<string>,
                                             visited: set<string>, matches: set<string>)
    requires Walked(store, root, pending, visited) && Matched(store, candidate, name, visited, matches)
    ensures AnswerIsRight(store, root, candidate, name, AnswerFrom(store, candidate, name, pending, visited, |matches|))
    decreases store.Keys - visited, |pending|
  {
    if pending == [] {
      MatchesDecide(store, root, candidate, name, visited, matches);
    } else {
      var path, rest := pending[|pending| - 1], pending[..|pending| - 1];
      assert path in pending && InClosure(store, root, path);
      if path in visited {
        WalkSkips(store, root, pending, visited);
        AnswerFromIsRight(store, root, candidate, name, rest, visited, matches);
      } else if path !in store || path == candidate || (Namesake(store, name, path) && !store[path].fixed) {
        StopIsRight(store, root, candidate, name, path);
      } else {
        WalkVisits(store, root, pending, visited);
        MatchedGrows(store, candidate, name, visited, matches, path);
        var matches' := if Namesake(store, name, path) then matches + {path} else matches;
        AnswerFromIsRight(store, root, candidate, name, rest + store[path].inputs, visited + {path}, matches');
      }
    }
  }

  /** Whatever order the inputs are listed in, on every store: an answer about an unreachable candidate is
      the uniqueness of its fixed-output namesake; a reachable candidate is accepted only when it is
      fixed-output, and always when it is and every reachable namesake is; there is no answer only when
      something in the closure cannot be read. */
  lemma AnswersAreRight(store: Store, root: string, candidate: string)
    ensures AnswerIsRight(store, root, candidate, NameOf(candidate), Answer(store, root, candidate))
  {
    WalkStarts(store, root);
    AnswerFromIsRight(store, root, candidate, NameOf(candidate), [root], {}, {});
  }

  /** `is_fixed_output_derivation_in_closure`. */
  method IsFixedInClosure(store: Store, root: string, candidate: string) returns (r: Result<bool>)
    ensures r == Answer(store, root, candidate)
    ensures AnswerIsRight(store, root, candidate, NameOf(candidate), r)
  {
    AnswersAreRight(store, root, candidate);
    var pending := [root];
    var visited: set<string> := {};
    var name := NameOf(candidate);
    var nameMatches := 0;
    while pending != []
      invariant AnswerFrom(store, candidate, name, pending, visited, nameMatches) == Answer(store, root, candidate)
      decreases store.Keys - visited, |pending|
    {
      var path := pending[|pending| - 1];
      pending := pending[..|pending| - 1];
      if path !in visited {
        if path !in store {
          return Err(UNREADABLE);
        }
        visited := visited + {path};
        var derivation := store[path];
        if path == candidate {
          return Ok(derivation.fixed);
        }
        if name == Some(derivation.name) {
          if !derivation.fixed {
            return Ok(false);
          }
          nameMatches := nameMatches + 1;
        }
        pending := pending + derivation.inputs;
      }
    }
    return Ok(nameMatches == 1);
  }

  // ---- Mismatches ----

  datatype Mismatch = Mismatch(specified: string, got: string, drvPath: Option<string>)

  /** `mismatch_is_target_fod`, for a target whose derivation path is `rootDrv`, if it has one. */
  function IsTargetFod(store: Store, rootDrv: Option<string>, m: Mismatch): Result<bool> {
    if m.drvPath.None? then Ok(true)
    else if rootDrv.None? then Ok(false)
    else if rootDrv.value !in store then Err(UNREADABLE)
    else if store[rootDrv.value].fixed then Ok(true)
    else Answer(store, rootDrv.value, m.drvPath.value)
  }

  /** The mismatch names no derivation, or the target is fixed-output itself, or the named derivation is a
      fixed-output one of its closure, or the name it bears belongs to just one, which is fixed-output. */
  ghost predicate BelongsToTarget(store: Store, rootDrv: Option<string>, m: Mismatch) {
    m.drvPath.None? ||
    (rootDrv.Some? && rootDrv.value in store &&
     (store[rootDrv.value].fixed || FixedIn(store, rootDrv.value, m.drvPath.value)
      || OneFixedNamesake(store, rootDrv.value, NameOf(m.drvPath.value))))
  }

  lemma AcceptedMismatchBelongs(store: Store, rootDrv: Option<string>, m: Mismatch)
    ensures IsTargetFod(store, rootDrv, m) == Ok(true) ==> BelongsToTarget(store, rootDrv, m)
    ensures m.drvPath.None? ==> IsTargetFod(store, rootDrv, m) == Ok(true)
    ensures m.drvPath.Some? && rootDrv.None? ==> IsTargetFod(store, rootDrv, m) == Ok(false)
    ensures m.drvPath.Some? && rootDrv.Some? ==>
              if rootDrv.value !in store then IsTargetFod(store, rootDrv, m).Err?
              else store[rootDrv.value].fixed ==> IsTargetFod(store, rootDrv, m) == Ok(true)
  {
    if m.drvPath.Some? && rootDrv.Some? {
      AnswersAreRight(store, rootDrv.value, m.drvPath.value);
    }
  }
}
