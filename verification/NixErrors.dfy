/** Which exception class a Nix error reaches the caller with, by each of its routes. */
module NixErrors {
  import opened Common

  /** The exception classes of the Nix family. */
  datatype Class =
    | NixError | StoreError | EvalError | HashMismatchError
    | NixTypeError | NixAssertionError | UndefinedVarError | ThrownError | InfiniteRecursionError
    | RestrictedPathError | MissingArgumentError | MissingAttributeError | ListIndexError | EvalHashMismatchError
    | ParseError | UsageError | UnimplementedError | NixSysError
    | InvalidPathError | UnsupportedError | BadStorePathError
    | BuildError | BuildHashMismatchError | OtherBuildError(name: string)

  /** `__name__`. */
  function NameOf(c: Class): string {
    match c
    case NixError => "NixError"
    case StoreError => "StoreError"
    case EvalError => "EvalError"
    case HashMismatchError => "HashMismatchError"
    case NixTypeError => "NixTypeError"
    case NixAssertionError => "NixAssertionError"
    case UndefinedVarError => "UndefinedVarError"
    case ThrownError => "ThrownError"
    case InfiniteRecursionError => "InfiniteRecursionError"
    case RestrictedPathError => "RestrictedPathError"
    case MissingArgumentError => "MissingArgumentError"
    case MissingAttributeError => "MissingAttributeError"
    case ListIndexError => "ListIndexError"
    case EvalHashMismatchError => "EvalHashMismatchError"
    case ParseError => "ParseError"
    case UsageError => "UsageError"
    case UnimplementedError => "UnimplementedError"
    case NixSysError => "NixSysError"
    case InvalidPathError => "InvalidPathError"
    case UnsupportedError => "UnsupportedError"
    case BadStorePathError => "BadStorePathError"
    case BuildError => "BuildError"
    case BuildHashMismatchError => "BuildHashMismatchError"
    case OtherBuildError(name) => name
  }

  /** `issubclass` within the family. */
  predicate IsSubclass(c: Class, base: Class) {
    || c == base
    || base == NixError
    || (base == EvalError &&
        (c.NixTypeError? || c.NixAssertionError? || c.UndefinedVarError? || c.ThrownError? || c.InfiniteRecursionError?
         || c.RestrictedPathError? || c.MissingArgumentError? || c.MissingAttributeError? || c.ListIndexError?
         || c.EvalHashMismatchError?))
    || (base == StoreError &&
        (c.InvalidPathError? || c.UnsupportedError? || c.BadStorePathError? || c.BuildError?
         || c.BuildHashMismatchError? || c.OtherBuildError?))
    || (base == BuildError && (c.BuildHashMismatchError? || c.OtherBuildError?))
    || (base == HashMismatchError && (c.EvalHashMismatchError? || c.BuildHashMismatchError?))
  }

  lemma SubclassIsTransitive(a: Class, b: Class, c: Class)
    requires IsSubclass(a, b) && IsSubclass(b, c)
    ensures IsSubclass(a, c)
  {
  }

  lemma SubclassIsAntisymmetric(a: Class, b: Class)
    requires IsSubclass(a, b) && IsSubclass(b, a)
    ensures a == b
  {
  }

  /** Subclassing is an order, as Python's is. */
  lemma SubclassIsAnOrder(a: Class, b: Class, c: Class)
    ensures IsSubclass(a, a)
    ensures IsSubclass(a, b) && IsSubclass(b, c) ==> IsSubclass(a, c)
    ensures IsSubclass(a, b) && IsSubclass(b, a) ==> a == b
  {
    if IsSubclass(a, b) && IsSubclass(b, c) {
      SubclassIsTransitive(a, b, c);
    }
    if IsSubclass(a, b) && IsSubclass(b, a) {
      SubclassIsAntisymmetric(a, b);
    }
  }

  /** The base that a class names first, and the one it names besides. */
  function FirstBase(c: Class): Class
    requires c != NixError
  {
    match c
    case StoreError | EvalError | HashMismatchError | ParseError | UsageError | UnimplementedError | NixSysError => NixError
    case InvalidPathError | UnsupportedError | BadStorePathError | BuildError => StoreError
    case BuildHashMismatchError | OtherBuildError(_) => BuildError
    case _ => EvalError
  }

  function SecondBase(c: Class): Option<Class> {
    if c.EvalHashMismatchError? || c.BuildHashMismatchError? then Some(HashMismatchError) else None
  }

  predicate FollowsBases(c: Class, base: Class) {
    || c == base
    || (c != NixError && IsSubclass(FirstBase(c), base))
    || (SecondBase(c).Some? && IsSubclass(SecondBase(c).value, base))
  }

  lemma BasesAreAbove(c: Class, base: Class)
    requires FollowsBases(c, base)
    ensures IsSubclass(c, base)
  {
    if c != NixError {
      assert IsSubclass(c, FirstBase(c));
      if IsSubclass(FirstBase(c), base) {
        SubclassIsTransitive(c, FirstBase(c), base);
      }
    }
  }

  lemma OnlyBasesAreAbove(c: Class, base: Class)
    requires IsSubclass(c, base)
    ensures FollowsBases(c, base)
  {
  }

  /** A class is a subclass of itself and of what its bases are subclasses of, and of nothing else. */
  lemma SubclassFollowsBases(c: Class, base: Class)
    ensures IsSubclass(c, base) <==>
              || c == base
              || (c != NixError && IsSubclass(FirstBase(c), base))
              || (SecondBase(c).Some? && IsSubclass(SecondBase(c).value, base))
  {
    if IsSubclass(c, base) {
      OnlyBasesAreAbove(c, base);
    }
    if FollowsBases(c, base) {
      BasesAreAbove(c, base);
    }
  }

  /** `_NIX_EXCEPTION_TYPES`. */
  const TABLE: map<string, Class> := map[
    "Error" := NixError, "EvalBaseError" := EvalError, "EvalError" := EvalError, "ParseError" := ParseError,
    "TypeError" := NixTypeError, "UndefinedVarError" := UndefinedVarError, "AssertionError" := NixAssertionError,
    "ThrownError" := ThrownError, "MissingAttributeError" := MissingAttributeError, "ListIndexError" := ListIndexError,
    "MissingArgumentError" := MissingArgumentError, "RestrictedPathError" := RestrictedPathError,
    "InfiniteRecursionError" := InfiniteRecursionError, "InvalidPath" := InvalidPathError,
    "Unsupported" := UnsupportedError, "BadStorePath" := BadStorePathError, "BuildError" := BuildError,
    "SysError" := NixSysError, "UsageError" := UsageError, "UnimplementedError" := UnimplementedError,
    "NixError" := NixError, "NixTypeError" := NixTypeError, "NixAssertionError" := NixAssertionError,
    "MissingAttribute" := MissingAttributeError, "ListIndex" := ListIndexError]

  /** The class and error type name of the first message pattern that matches, if one does. */
  type Classifier = string -> Option<(Class, string)>

  /** `_classify`. */
  function Classify(patterns: Classifier, msg: string, fallback: string): (Class, string) {
    match patterns(msg) case Some(hit) => hit case None => (NixError, fallback)
  }

  /** `refine_within`. */
  function RefineWithin(patterns: Classifier, base: Class, msg: string): (Class, string) {
    var (candidate, name) := Classify(patterns, msg, "");
    if candidate != base && IsSubclass(candidate, base)
    then (candidate, if name != "" then name else NameOf(candidate))
    else (base, NameOf(base))
  }

  /** An exception as the caller sees it: of the Nix family, or any other class the wire may carry. */
  datatype Raised = Nix(cls: Class, errorType: string, msg: string) | Other(name: string, msg: string)

  const SEPARATOR := ": "

  /** The index of the first ": ", or the length. */
  function FirstSeparator(msg: string): (k: nat)
    ensures k <= |msg|
  {
    if msg == "" then 0
    else if SEPARATOR <= msg then 0
    else 1 + FirstSeparator(msg[1..])
  }

  /** `split_type_prefix`. */
  function SplitTypePrefix(msg: string): (Option<string>, string) {
    var k := FirstSeparator(msg);
    if k + 2 > |msg| || msg[..k] !in TABLE then (None, msg) else (Some(msg[..k]), msg[k + 2..])
  }

  /** `from_response`. */
  function FromResponse(patterns: Classifier, errorType: string, msg: string): Raised {
    if errorType in TABLE then
      var (cls, name) := RefineWithin(patterns, TABLE[errorType], msg);
      Nix(cls, name, msg)
    else
      var (prefix, rest) := SplitTypePrefix(msg);
      if prefix.Some? && prefix.value in TABLE then
        var (cls, name) := RefineWithin(patterns, TABLE[prefix.value], rest);
        Nix(cls, name, rest)
      else
        var (cls, name) := Classify(patterns, msg, errorType);
        Nix(cls, name, msg)
  }

  /** `_without_type_prefix`. */
  function WithoutTypePrefix(msg: string, typeName: string): string {
    if typeName != "" && typeName + SEPARATOR <= msg then msg[|typeName| + 2..] else msg
  }

  /** The classes the wire may name: those of the Nix family, and others such as Python's own. */
  datatype WireClass = Family(cls: Class) | Foreign

  type Allowlist = map<string, WireClass>

  /** `exception_from_wire`. */
  function FromWire(patterns: Classifier, allowed: Allowlist, nixType: string, className: string, msg: string): Option<Raised> {
    if nixType != "" && nixType in TABLE then Some(FromResponse(patterns, nixType, WithoutTypePrefix(msg, nixType)))
    else if className == "" || className !in allowed then None
    else
      var text := WithoutTypePrefix(msg, className);
      match allowed[className]
      case Family(c) => (var (cls, name) := RefineWithin(patterns, c, text); Some(Nix(cls, name, text)))
      case Foreign => Some(Other(className, text))
  }

  /** The resolution of a failed call: the identity when it says something usable, else the message. */
  function Received(patterns: Classifier, allowed: Allowlist, nixType: string, className: string, msg: string): Raised {
    match FromWire(patterns, allowed, nixType, className, msg)
    case Some(r) => r
    case None => FromResponse(patterns, "Unknown", msg)
  }

  /** An exception of the engine: the names of its class and of that class's bases, nearest first. */
  datatype EngineError = EngineError(mro: seq<string>, msg: string)

  function NearestKnown(mro: seq<string>): Option<Class> {
    if mro == [] then None else if mro[0] in TABLE then Some(TABLE[mro[0]]) else NearestKnown(mro[1..])
  }

  /** `translate_nix_exception`, for an engine exception. */
  function Translate(patterns: Classifier, e: EngineError): Option<Raised> {
    match NearestKnown(e.mro)
    case None => None
    case Some(base) => (var (cls, name) := RefineWithin(patterns, base, e.msg); Some(Nix(cls, name, e.msg)))
  }

  /** The status message of the worker. */
  function StatusMessage(name: string, msg: string): string {
    name + ": " + msg
  }

  /** The same failure through the worker: with the identity detail, and for a client that cannot read it. */
  function ThroughIdentity(patterns: Classifier, allowed: Allowlist, e: EngineError): Raised
    requires e.mro != []
  {
    Received(patterns, allowed, e.mro[0], "", StatusMessage(e.mro[0], e.msg))
  }

  function ThroughPrefix(patterns: Classifier, allowed: Allowlist, e: EngineError): Raised
    requires e.mro != []
  {
    Received(patterns, allowed, "", "", StatusMessage(e.mro[0], e.msg))
  }

  lemma {:induction false} SeparatorAfterName(name: string, msg: string)
    requires ':' !in name
    ensures FirstSeparator(StatusMessage(name, msg)) == |name|
  {
    if name == "" {
      assert SEPARATOR <= SEPARATOR + msg;
      assert "" + SEPARATOR + msg == SEPARATOR + msg;
    } else {
      var text := StatusMessage(name, msg);
      assert text[0] == name[0];
      assert text[1..] == StatusMessage(name[1..], msg);
      SeparatorAfterName(name[1..], msg);
    }
  }

  /** A status message splits into the type name and the message when the name is known, and stays whole
      when it is not. */
  lemma StatusMessageSplits(name: string, msg: string)
    requires ':' !in name
    ensures SplitTypePrefix(StatusMessage(name, msg)) ==
            if name in TABLE then (Some(name), msg) else (None, StatusMessage(name, msg))
    ensures name != "" ==> WithoutTypePrefix(StatusMessage(name, msg), name) == msg
  {
    SeparatorAfterName(name, msg);
    var text := StatusMessage(name, msg);
    assert text[..|name|] == name && text[|name| + 2..] == msg;
  }

  lemma UnknownIsNotKnown()
    ensures "Unknown" !in TABLE && "" !in TABLE
  {
  }

  /** For every engine exception and every message: local translation, the typed identity and the message
      prefix give the same class, error type and message exactly when the table names the exception's own
      class. (A class that only a base is named for is translated locally and arrives unclassified.) */
  lemma RoutesAgree(patterns: Classifier, allowed: Allowlist, e: EngineError)
    requires e.mro != [] && ':' !in e.mro[0]
    ensures (Translate(patterns, e) == Some(ThroughIdentity(patterns, allowed, e))
             && Translate(patterns, e) == Some(ThroughPrefix(patterns, allowed, e)))
            <==> e.mro[0] in TABLE
  {
    var name := e.mro[0];
    UnknownIsNotKnown();
    StatusMessageSplits(name, e.msg);
    if name !in TABLE {
      assert |StatusMessage(name, e.msg)| > |e.msg|;
    }
  }

  /** By every route the class of a known type is the table's class or a subclass of it. */
  lemma RefinementOnlyNarrows(patterns: Classifier, base: Class, msg: string)
    ensures IsSubclass(RefineWithin(patterns, base, msg).0, base)
    ensures RefineWithin(patterns, base, msg).0 != base <==>
              patterns(msg).Some? && patterns(msg).value.0 != base && IsSubclass(patterns(msg).value.0, base)
  {
  }

  lemma RefiningToTheHit(patterns: Classifier, base: Class, msg: string)
    requires patterns(msg).None? || patterns(msg).value.0 == base
    ensures RefineWithin(patterns, base, msg) == (base, NameOf(base))
  {
  }

  /** Refining again changes no class. It changes the error type exactly when the pattern that narrowed the
      class reports it under another name than the class's own, as `TypeError` for `NixTypeError`. */
  lemma RefiningAgain(patterns: Classifier, base: Class, msg: string)
    ensures var (cls, name) := RefineWithin(patterns, base, msg);
            && RefineWithin(patterns, cls, msg).0 == cls
            && (RefineWithin(patterns, cls, msg).1 == name
                <==> cls == base || patterns(msg).value.1 == "" || patterns(msg).value.1 == NameOf(cls))
  {
    var cls := RefineWithin(patterns, base, msg).0;
    if cls != base {
      RefiningToTheHit(patterns, cls, msg);
    }
  }

  /** The pattern for a failed coercion narrows an evaluation error to `TypeError`; refining the result by the
      same pattern calls it `NixTypeError`. */
  lemma RefiningCanRename(msg: string)
    ensures var patterns: Classifier := _ => Some((NixTypeError, "TypeError"));
            && RefineWithin(patterns, EvalError, msg) == (NixTypeError, "TypeError")
            && RefineWithin(patterns, NixTypeError, msg) == (NixTypeError, "NixTypeError")
  {
  }

  /** A class of the allowlist survives the wire: with its own message, and narrowed at most. */
  lemma AllowedClassesSurvive(patterns: Classifier, allowed: Allowlist, name: string, msg: string)
    requires name in allowed && name != "" && ':' !in name
    ensures var r := Received(patterns, allowed, "", name, StatusMessage(name, msg));
            && r.msg == msg
            && match allowed[name]
               case Foreign => r == Other(name, msg)
               case Family(c) => r.Nix? && IsSubclass(r.cls, c) && (r.cls, r.errorType) == RefineWithin(patterns, c, msg)
  {
  }

  // ---- Which information wins ----

  lemma {:induction false} NearestKnownIs(mro: seq<string>, k: nat)
    requires k <= |mro| && forall j :: 0 <= j < k ==> mro[j] !in TABLE
    requires k < |mro| ==> mro[k] in TABLE
    ensures NearestKnown(mro) == if k < |mro| then Some(TABLE[mro[k]]) else None
  {
    if k > 0 {
      NearestKnownIs(mro[1..], k - 1);
    }
  }

  /** An engine exception is translated by the first of its classes, itself and then its bases, that the table
      names; without one it is not translated. The message is kept, and the class is narrowed at most. */
  lemma TheNearestBaseDecides(patterns: Classifier, e: EngineError, k: nat)
    requires k <= |e.mro| && (forall j :: 0 <= j < k ==> e.mro[j] !in TABLE) && (k < |e.mro| ==> e.mro[k] in TABLE)
    ensures k == |e.mro| ==> Translate(patterns, e) == None
    ensures k < |e.mro| ==>
              var r := Translate(patterns, e);
              r.Some? && r.value.Nix? && r.value.msg == e.msg && IsSubclass(r.value.cls, TABLE[e.mro[k]])
              && (patterns(e.msg).None? ==> r.value.cls == TABLE[e.mro[k]])
  {
    NearestKnownIs(e.mro, k);
  }

  /** The type that the caller was told comes before a prefix of the message, a known prefix before the patterns;
      a known prefix is taken off the message. */
  lemma TheBestInformationWins(patterns: Classifier, errorType: string, name: string, rest: string)
    requires ':' !in name
    ensures var msg := name + ": " + rest;
            var r := FromResponse(patterns, errorType, msg);
            && r.Nix?
            && (errorType in TABLE ==> r.msg == msg && IsSubclass(r.cls, TABLE[errorType]))
            && (errorType !in TABLE && name in TABLE ==> r.msg == rest && IsSubclass(r.cls, TABLE[name]))
            && (errorType !in TABLE && name !in TABLE ==>
                  r.msg == msg && (patterns(msg).None? ==> r == Nix(NixError, errorType, msg))
                  && (patterns(msg).Some? ==> (r.cls, r.errorType) == patterns(msg).value))
  {
    assert StatusMessage(name, rest) == name + ": " + rest;
    StatusMessageSplits(name, rest);
  }

  /** A class outside the family reaches the caller only as the allowed class that the worker named, and an
      identity with neither a known type nor an allowed class leaves the message alone to tell. */
  lemma OnlyAllowedClassesCross(patterns: Classifier, allowed: Allowlist, nixType: string, className: string, msg: string)
    ensures var r := Received(patterns, allowed, nixType, className, msg);
            && (r.Other? <==> nixType !in TABLE && className != "" && className in allowed && allowed[className].Foreign?)
            && (r.Other? ==> r.name == className)
            && (nixType !in TABLE && (className == "" || className !in allowed) ==> r == FromResponse(patterns, "Unknown", msg))
  {
  }
}
