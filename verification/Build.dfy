/** The build that repairs fixed-output hashes: `build_with_fod_update`. */
module Build {
  import opened Common
  import opened Fod
  import opened FodOrder
  import opened FodSource

  datatype Outcome =
    | Built(outputs: map<string, string>)
    | BuildFailed(error: string)
    | Crashed(error: string)

  datatype Root = Root(drvPath: Option<string>)

  /** All that the environment does during one attempt: the evaluated target, if evaluation got that far;
      how the build ended; the mismatches found in the error and in the captured log; the derivations the
      evaluation store can read; what reading the source file gives, and the literals located in it. */
  datatype Attempt = Attempt(
    root: Option<Root>,
    outcome: Outcome,
    inError: Option<Mismatch>,
    inLog: seq<Mismatch>,
    store: Store,
    source: Result<string>,
    literals: seq<Literal>)

  datatype Config = Config(updateFod: bool, hasSourceFile: bool, maxUpdates: int, dryRun: bool)

  /** One edit of the source file: what was read and what is to be written. */
  datatype Edit = Edit(before: string, after: string)

  datatype BuildResult =
    | Done(outputs: map<string, string>, updates: nat)
    | BuildError(error: string)
    | FodError(message: string)
    | Propagated(error: string)

  const TOO_MANY := "stopped after the allowed number of updates"

  function MismatchOf(a: Attempt): Option<Mismatch> {
    if a.inError.Some? then a.inError else UniqueMismatch(a.inLog)
  }

  function DrvOf(a: Attempt): Option<string> {
    match a.root case None => None case Some(r) => r.drvPath
  }

  /** Whether the mismatch is accepted as one of the target. */
  function Accepted(a: Attempt, m: Mismatch): Result<bool> {
    if m.drvPath.None? then Ok(true)
    else if a.root.None? then Ok(false)
    else IsTargetFod(a.store, DrvOf(a), m)
  }

  function EditOf(a: Attempt, m: Mismatch): Result<Edit> {
    match a.source
    case Err(e) => Err(e)
    case Ok(source) =>
      match FindLiteral(a.literals, m.specified, NameFromPath(m.drvPath))
      case Err(e) => Err(e)
      case Ok(literal) =>
        match ReplaceHash(source, literal, m.got)
        case Err(e) => Err(e)
        case Ok(text) => Ok(Edit(source, text))
  }

  /** What one attempt decides after `updates` updates: to end, or to apply an edit. */
  datatype Decision = Stop(result: BuildResult) | Apply(edit: Edit)

  function Decide(a: Attempt, c: Config, updates: nat): (d: Decision)
    ensures d.Apply? ==> updates < c.maxUpdates
    ensures d.Stop? && d.result.Done? ==> a.outcome.Built? && d.result.updates == updates
  {
    match a.outcome
    case Built(outputs) => Stop(Done(outputs, updates))
    case Crashed(e) => Stop(Propagated(e))
    case BuildFailed(e) =>
      if !c.updateFod || MismatchOf(a).None? then Stop(BuildError(e))
      else
        var m := MismatchOf(a).value;
        match Accepted(a, m)
        case Err(x) => Stop(Propagated(x))
        case Ok(accepted) =>
          if !accepted then Stop(FodError("mismatch is not of the target"))
          else if !c.hasSourceFile then Stop(FodError("requires a source file"))
          else if updates >= c.maxUpdates then Stop(FodError(TOO_MANY))
          else
            match EditOf(a, m)
            case Err(x) => Stop(FodError(x))
            case Ok(edit) => Apply(edit)
  }

  /** A whole call: how it ended, how many attempts it made, what it wrote, what it reported. */
  datatype Trace = Trace(result: BuildResult, attempts: nat, writes: seq<Edit>, reports: seq<Edit>)

  /** What a call decides after each update. */
  type Decisions = nat -> Decision

  /** No edit is applied once the updates are used up. */
  ghost predicate WithinLimit(decide: Decisions, c: Config) {
    forall u: nat :: decide(u).Apply? ==> u < c.maxUpdates
  }

  /** A result says how many updates came before it. */
  ghost predicate CountsUpdates(decide: Decisions) {
    forall u: nat :: decide(u).Stop? && decide(u).result.Done? ==> decide(u).result.updates == u
  }

  /** The rest of a call. */
  ghost function RunFrom(decide: Decisions, c: Config, updates: nat): Trace
    requires WithinLimit(decide, c)
    decreases c.maxUpdates - updates
  {
    match decide(updates)
    case Stop(result) => Trace(result, 1, [], [])
    case Apply(edit) =>
      if c.dryRun then Trace(Done(map[], updates + 1), 1, [], [edit])
      else
        var rest := RunFrom(decide, c, updates + 1);
        Trace(rest.result, 1 + rest.attempts, [edit] + rest.writes, [edit] + rest.reports)
  }

  /** The environment `env` answers the attempt after each update. */
  ghost function DecisionsOf(env: nat -> Attempt, c: Config): (decide: Decisions)
    ensures WithinLimit(decide, c) && CountsUpdates(decide)
  {
    var decide: Decisions := (u: nat) => Decide(env(u), c, u);
    assert forall u: nat :: decide(u) == Decide(env(u), c, u);
    decide
  }

  /** A whole call against an environment. */
  ghost function Run(env: nat -> Attempt, c: Config): Trace {
    RunFrom(DecisionsOf(env, c), c, 0)
  }

  /** `t` after a part of the call that made `attempts` attempts, `writes` and `reports`. */
  function After(attempts: nat, writes: seq<Edit>, reports: seq<Edit>, t: Trace): Trace {
    Trace(t.result, attempts + t.attempts, writes + t.writes, reports + t.reports)
  }

  lemma AfterOne(attempts: nat, writes: seq<Edit>, reports: seq<Edit>, edit: Edit, t: Trace)
    ensures After(attempts, writes, reports, After(1, [edit], [edit], t))
            == After(attempts + 1, writes + [edit], reports + [edit], t)
    ensures After(0, [], [], t) == t
  {
  }

  lemma RunSteps(decide: Decisions, c: Config, updates: nat)
    requires WithinLimit(decide, c)
    ensures match decide(updates)
            case Stop(result) => RunFrom(decide, c, updates) == Trace(result, 1, [], [])
            case Apply(edit) =>
              RunFrom(decide, c, updates) == if c.dryRun then Trace(Done(map[], updates + 1), 1, [], [edit])
                                             else After(1, [edit], [edit], RunFrom(decide, c, updates + 1))
  {
  }

  /** `build_with_fod_update`. */
  method BuildWithFodUpdate(env: nat -> Attempt, c: Config) returns (t: Trace)
    ensures t == Run(env, c)
  {
    ghost var decide := DecisionsOf(env, c);
    var updates, attempts: nat := 0, 0;
    var writes: seq<Edit>, reports: seq<Edit> := [], [];
    AfterOne(0, [], [], Edit("", ""), Run(env, c));
    while true
      invariant Run(env, c) == After(attempts, writes, reports, RunFrom(decide, c, updates))
      decreases c.maxUpdates - updates
    {
      var decision := OneAttempt(env(updates), c, updates);
      RunSteps(decide, c, updates);
      attempts := attempts + 1;
      if decision.Stop? {
        assert writes + [] == writes && reports + [] == reports;
        return Trace(decision.result, attempts, writes, reports);
      }
      var edit := decision.edit;
      reports := reports + [edit];
      updates := updates + 1;
      if c.dryRun {
        assert writes + [] == writes;
        return Trace(Done(map[], updates), attempts, writes, reports);
      }
      AfterOne(attempts - 1, writes, reports[..|reports| - 1], edit, RunFrom(decide, c, updates));
      writes := writes + [edit];
    }
  }

  /** The body of the loop, up to the report of an edit. */
  method OneAttempt(a: Attempt, c: Config, updates: nat) returns (d: Decision)
    ensures d == Decide(a, c, updates)
  {
    if a.outcome.Built? {
      return Stop(Done(a.outcome.outputs, updates));
    }
    if a.outcome.Crashed? {
      return Stop(Propagated(a.outcome.error));
    }
    var mismatch := a.inError;
    if mismatch.None? {
      mismatch := ExtractUnique(a.inLog);
    }
    if !c.updateFod || mismatch.None? {
      return Stop(BuildError(a.outcome.error));
    }
    var m := mismatch.value;
    if m.drvPath.Some? {
      if a.root.None? {
        return Stop(FodError("mismatch is not of the target"));
      }
      var accepted := MismatchIsTargetFod(a.store, a.root.value.drvPath, m);
      if accepted.Err? {
        return Stop(Propagated(accepted.error));
      }
      if !accepted.value {
        return Stop(FodError("mismatch is not of the target"));
      }
    }
    if !c.hasSourceFile {
      return Stop(FodError("requires a source file"));
    }
    if updates >= c.maxUpdates {
      return Stop(FodError(TOO_MANY));
    }
    var edit := EditOf(a, m);
    if edit.Err? {
      return Stop(FodError(edit.error));
    }
    return Apply(edit.value);
  }

  method MismatchIsTargetFod(store: Store, rootDrv: Option<string>, m: Mismatch) returns (r: Result<bool>)
    ensures r == IsTargetFod(store, rootDrv, m)
  {
    if m.drvPath.None? {
      return Ok(true);
    }
    if rootDrv.None? {
      return Ok(false);
    }
    if rootDrv.value !in store {
      return Err(UNREADABLE);
    }
    if store[rootDrv.value].fixed {
      return Ok(true);
    }
    r := IsFixedInClosure(store, rootDrv.value, m.drvPath.value);
  }

  function Max(a: int, b: int): int {
    if a < b then b else a
  }

  /** The mismatch of a failed attempt: the one in the error itself, and only when there is none, the first of a log
      in which no derivation is reported with two different ones. */
  ghost predicate Reports(a: Attempt, m: Mismatch) {
    if a.inError.Some? then m == a.inError.value
    else
      && a.inLog != [] && m == a.inLog[0]
      && forall i, j :: 0 <= i < |a.inLog| && 0 <= j < |a.inLog| && a.inLog[i].drvPath == a.inLog[j].drvPath ==>
                          a.inLog[i] == a.inLog[j]
  }

  lemma MismatchIsReported(a: Attempt)
    ensures MismatchOf(a).Some? <==> exists m :: Reports(a, m)
    ensures forall m :: Reports(a, m) ==> MismatchOf(a) == Some(m)
  {
    if a.inError.Some? {
      assert Reports(a, a.inError.value);
    } else if a.inLog != [] && !HasConflict(a.inLog) {
      forall i, j | 0 <= i < |a.inLog| && 0 <= j < |a.inLog| && a.inLog[i].drvPath == a.inLog[j].drvPath
        ensures a.inLog[i] == a.inLog[j]
      {
        if i > j {
          assert a.inLog[j].drvPath == a.inLog[i].drvPath;
        }
      }
      assert Reports(a, a.inLog[0]);
    }
  }

  /** An edit follows from the attempt: the build failed with a mismatch that names no derivation or belongs
      to the target, and the edit replaces the one unambiguous literal by the hash that was got. */
  ghost predicate Justified(a: Attempt, c: Config, edit: Edit) {
    && a.outcome.BuildFailed? && c.updateFod && c.hasSourceFile
    && a.source == Ok(edit.before)
    && exists m, k ::
         && Reports(a, m) && BelongsToTarget(a.store, DrvOf(a), m)
         && Unambiguous(a.literals, m.specified, NameFromPath(m.drvPath), k)
         && ReplaceHash(edit.before, a.literals[k], m.got) == Ok(edit.after)
  }

  lemma AppliedIsJustified(a: Attempt, c: Config, updates: nat)
    requires Decide(a, c, updates).Apply?
    ensures Justified(a, c, Decide(a, c, updates).edit) && updates < c.maxUpdates
  {
    var m := MismatchOf(a).value;
    MismatchIsReported(a);
    assert Reports(a, m);
    AcceptedMismatchBelongs(a.store, DrvOf(a), m);
    FindsTheUnambiguous(a.literals, m.specified, NameFromPath(m.drvPath));
  }

  ghost predicate Bounded(decide: Decisions, c: Config, updates: nat, t: Trace) {
    && t.attempts == |t.writes| + 1
    && |t.writes| <= Max(0, c.maxUpdates - updates)
    && (if c.dryRun then t.writes == [] && |t.reports| <= 1 else t.reports == t.writes)
    && (t.result.Done? ==> t.result.updates == updates + |t.reports|)
    && (forall k :: 0 <= k < |t.reports| ==> decide(updates + k) == Apply(t.reports[k]))
  }

  lemma BoundedAfterOne(decide: Decisions, c: Config, updates: nat, edit: Edit, rest: Trace)
    requires Bounded(decide, c, updates + 1, rest) && !c.dryRun && updates < c.maxUpdates
    requires decide(updates) == Apply(edit)
    ensures Bounded(decide, c, updates, After(1, [edit], [edit], rest))
  {
  }

  /** From any number of updates on. */
  lemma {:induction false} RunIsBounded(decide: Decisions, c: Config, updates: nat)
    requires WithinLimit(decide, c) && CountsUpdates(decide)
    ensures Bounded(decide, c, updates, RunFrom(decide, c, updates))
    decreases c.maxUpdates - updates
  {
    RunSteps(decide, c, updates);
    var d := decide(updates);
    if d.Apply? && !c.dryRun {
      RunIsBounded(decide, c, updates + 1);
      BoundedAfterOne(decide, c, updates, d.edit, RunFrom(decide, c, updates + 1));
    }
  }

  /** Against every environment: at most `maxUpdates` writes and one attempt more; each write follows from
      the attempt before it; a dry run writes nothing; and a build that ends normally counts exactly the
      updates it reported. */
  lemma BuildIsBoundedAndJustified(env: nat -> Attempt, c: Config)
    ensures var t := Run(env, c);
            && |t.writes| <= Max(0, c.maxUpdates) && t.attempts == |t.writes| + 1
            && (c.dryRun ==> t.writes == [])
            && (t.result.Done? ==> t.result.updates == |t.reports|)
            && (!c.dryRun ==> t.writes == t.reports)
            && (forall k :: 0 <= k < |t.reports| ==> Justified(env(k), c, t.reports[k]))
  {
    var decide := DecisionsOf(env, c);
    RunIsBounded(decide, c, 0);
    var t := Run(env, c);
    forall k | 0 <= k < |t.reports| ensures Justified(env(k), c, t.reports[k]) {
      assert decide(0 + k) == Apply(t.reports[k]);
      AppliedIsJustified(env(k), c, k);
    }
  }

  // ---- What does get repaired ----

  /** The mismatch belongs to the target in whatever order inputs are listed. */
  ghost predicate SurelyBelongs(store: Store, rootDrv: Option<string>, m: Mismatch) {
    m.drvPath.None? ||
    (rootDrv.Some? && rootDrv.value in store &&
     (store[rootDrv.value].fixed
      || (if InClosure(store, rootDrv.value, m.drvPath.value)
          then FixedIn(store, rootDrv.value, m.drvPath.value)
               && NothingStops(store, rootDrv.value, m.drvPath.value, NameOf(m.drvPath.value))
          else ClosureIsReadable(store, rootDrv.value) && OneFixedNamesake(store, rootDrv.value, NameOf(m.drvPath.value)))))
  }

  /** A failed attempt that can be repaired: one mismatch, of the target, one literal, and a safe hash. */
  ghost predicate Repairable(a: Attempt, c: Config) {
    && a.outcome.BuildFailed? && c.updateFod && c.hasSourceFile && a.source.Ok?
    && exists m, k ::
         && Reports(a, m) && SurelyBelongs(a.store, DrvOf(a), m)
         && Unambiguous(a.literals, m.specified, NameFromPath(m.drvPath), k)
         && '"' !in m.got && '\n' !in m.got
  }

  lemma SurelyIsAccepted(a: Attempt, m: Mismatch)
    requires SurelyBelongs(a.store, DrvOf(a), m)
    ensures Accepted(a, m) == Ok(true)
  {
    if m.drvPath.Some? {
      var root, drv := DrvOf(a).value, m.drvPath.value;
      AnswersAreRight(a.store, root, drv);
      if FixedIn(a.store, root, drv) {
        AcceptedInEveryOrder(a.store, root, drv);
        assert Reordered(a.store, a.store);
      }
    }
  }

  lemma RepairableIsApplied(a: Attempt, c: Config, updates: nat)
    requires Repairable(a, c)
    ensures Decide(a, c, updates).Apply? <==> updates < c.maxUpdates
  {
    MismatchIsReported(a);
    var m := MismatchOf(a).value;
    SurelyIsAccepted(a, m);
    FindsTheUnambiguous(a.literals, m.specified, NameFromPath(m.drvPath));
  }

  lemma LimitIsReported(a: Attempt, c: Config, updates: nat)
    requires Repairable(a, c) && updates >= c.maxUpdates
    ensures Decide(a, c, updates) == Stop(FodError(TOO_MANY))
  {
    MismatchIsReported(a);
    SurelyIsAccepted(a, MismatchOf(a).value);
  }

  /** What a call ends with that is to build `outputs` after `n` updates: that, if so many are allowed, and
      otherwise an error after as many as are. */
  ghost predicate EndsAt(t: Trace, outputs: map<string, string>, c: Config, updates: nat, n: nat) {
    if n == updates || n <= c.maxUpdates then t.result == Done(outputs, n) && |t.writes| == n - updates
    else t.result == FodError(TOO_MANY) && |t.writes| == Max(0, c.maxUpdates - updates)
  }

  lemma {:induction false} RunEnds(decide: Decisions, c: Config, updates: nat, n: nat, outputs: map<string, string>)
    requires WithinLimit(decide, c) && !c.dryRun && updates <= n && decide(n) == Stop(Done(outputs, n))
    requires forall u: nat :: updates <= u < n ==> if u < c.maxUpdates then decide(u).Apply? else decide(u) == Stop(FodError(TOO_MANY))
    ensures EndsAt(RunFrom(decide, c, updates), outputs, c, updates, n)
    decreases n - updates
  {
    RunSteps(decide, c, updates);
    if updates < n && updates < c.maxUpdates {
      RunEnds(decide, c, updates + 1, n, outputs);
    }
  }

  /** When the first `n` attempts can be repaired and the next one builds, the call ends with what it built
      after `n` updates if that many are allowed, and otherwise with an error and all updates used up. */
  lemma RepairableIsRepaired(env: nat -> Attempt, c: Config, n: nat)
    requires !c.dryRun && env(n).outcome.Built? && forall i :: 0 <= i < n ==> Repairable(env(i), c)
    ensures EndsAt(Run(env, c), env(n).outcome.outputs, c, 0, n)
  {
    var decide := DecisionsOf(env, c);
    forall u: nat | u < n
      ensures if u < c.maxUpdates then decide(u).Apply? else decide(u) == Stop(FodError(TOO_MANY))
    {
      RepairableIsApplied(env(u), c, u);
      if u >= c.maxUpdates {
        LimitIsReported(env(u), c, u);
      }
    }
    RunEnds(decide, c, 0, n, env(n).outcome.outputs);
  }

  /** A dry run stops at its first edit, which it reports and does not write. */
  lemma ADryRunReportsOneEdit(env: nat -> Attempt, c: Config)
    requires c.dryRun && 0 < c.maxUpdates && Repairable(env(0), c)
    ensures var t := Run(env, c);
            t.result == Done(map[], 1) && t.writes == [] && |t.reports| == 1 && t.attempts == 1 && Justified(env(0), c, t.reports[0])
  {
    RepairableIsApplied(env(0), c, 0);
    AppliedIsJustified(env(0), c, 0);
    RunSteps(DecisionsOf(env, c), c, 0);
  }

  // ---- What an attempt that is not repaired ends with ----

  /** A build ends the call with its outputs, an error that is no build failure is passed on as it is, and so is a
      build failure without a mismatch or without permission to update; with both, the failure is never
      passed on as it is. */
  lemma UnrepairedAttemptsEnd(a: Attempt, c: Config, updates: nat)
    ensures forall outputs :: a.outcome == Built(outputs) <==> Decide(a, c, updates) == Stop(Done(outputs, updates))
    ensures forall e :: a.outcome == Crashed(e) ==> Decide(a, c, updates) == Stop(Propagated(e))
    ensures forall e :: Decide(a, c, updates) == Stop(BuildError(e))
                        <==> a.outcome == BuildFailed(e) && (!c.updateFod || forall m :: !Reports(a, m))
  {
    MismatchIsReported(a);
  }

  /** A mismatch that belongs to no part of the target is refused, and so is one of the target when there is no
      source file or when its literal is ambiguous: always with an error, and never with an edit. */
  lemma RefusedMismatchesEnd(a: Attempt, c: Config, updates: nat, m: Mismatch)
    requires a.outcome.BuildFailed? && c.updateFod && Reports(a, m)
    requires !BelongsToTarget(a.store, DrvOf(a), m) || !c.hasSourceFile || updates >= c.maxUpdates || a.source.Err?
             || '"' in m.got || '\n' in m.got || forall k :: !Unambiguous(a.literals, m.specified, NameFromPath(m.drvPath), k)
    ensures var d := Decide(a, c, updates); d.Stop? && (d.result.FodError? || d.result.Propagated?)
  {
    MismatchIsReported(a);
    AcceptedMismatchBelongs(a.store, DrvOf(a), m);
    FindsTheUnambiguous(a.literals, m.specified, NameFromPath(m.drvPath));
  }

  /** Of several reasons the first in this order is given: a mismatch that names a derivation needs a target, then
      there must be a source file, then an update left, then a source that can be read. */
  lemma TheFirstReasonIsGiven(a: Attempt, c: Config, updates: nat, m: Mismatch)
    requires a.outcome.BuildFailed? && c.updateFod && Reports(a, m)
    ensures var d := Decide(a, c, updates);
            && (m.drvPath.Some? && a.root.None? ==> d == Stop(FodError("mismatch is not of the target")))
            && (SurelyBelongs(a.store, DrvOf(a), m) ==>
                  if !c.hasSourceFile then d == Stop(FodError("requires a source file"))
                  else if updates >= c.maxUpdates then d == Stop(FodError(TOO_MANY))
                  else a.source.Err? ==> d == Stop(FodError(a.source.error)))
  {
    MismatchIsReported(a);
    if SurelyBelongs(a.store, DrvOf(a), m) {
      SurelyIsAccepted(a, m);
    }
  }
}
