/** What a CLI offers on Tab for an attribute path: the `--file` rule and the flake rule. */
module AttrCompletion {
  import opened Common
  import opened Text
  import opened StringOrder
  import opened AttrPath
  import opened AttrSelect

  predicate EndsWithDot(text: string) {
    text != "" && text[|text| - 1] == '.'
  }

  /** The names that extend `tail`, each after `lead`. */
  function Matching(names: seq<string>, lead: string, tail: string): seq<string> {
    if names == [] then []
    else (if tail <= names[0] then [lead + names[0]] else []) + Matching(names[1..], lead, tail)
  }

  lemma {:induction false} MatchingIsExact(names: seq<string>, lead: string, tail: string)
    ensures forall t :: t in Matching(names, lead, tail) <==>
                          lead <= t && t[|lead|..] in names && tail <= t[|lead|..]
  {
    if names != [] {
      MatchingIsExact(names[1..], lead, tail);
      forall t ensures t in Matching(names, lead, tail) <==>
                         lead <= t && t[|lead|..] in names && tail <= t[|lead|..] {
        assert t == lead + names[0] <==> lead <= t && t[|lead|..] == names[0];
        assert names == [names[0]] + names[1..];
      }
    }
  }

  /** `sorted` of a set of strings. */
  function Sorted(names: seq<string>): seq<string> {
    SortedSet(Same, names)
  }

  ghost predicate Alphabetical(names: seq<string>) {
    Increasing(Same, names)
  }

  lemma SortedKeepsNames(names: seq<string>)
    ensures forall t :: t in Sorted(names) <==> t in names
    ensures Alphabetical(Sorted(names))
  {
    SortedSetIsSorted(Same, names);
  }

  lemma SortedOfOne(name: string)
    ensures Sorted([name]) == [name]
  {
    SortedSetIsSorted(Same, [name]);
    IncreasingIsUnique(Same, Sorted([name]), [name]);
  }

  // ---- The --file rule ----

  /** The index of the last literal separator. */
  function LastDot(text: string): (k: Option<nat>)
    ensures k.Some? ==> k.value < |text| && text[k.value] == '.' && '.' !in text[k.value + 1..]
    ensures k.None? ==> '.' !in text
  {
    if text == "" then None
    else
      match LastDot(text[1..])
      case Some(k) => assert text[1..][k + 1..] == text[k + 2..]; Some(k + 1)
      case None => if text[0] == '.' then Some(0) else None
  }

  function FileOffers(root: Value, parts: seq<string>, head: string, tail: string): seq<string> {
    match Select(root, parts)
    case Missing(_, _) => []
    case Found(v) => Sorted(Matching(AttrNames(v), head + ".", tail))
  }

  /** `complete_file_attr_path`: the left half comes back as it was typed. */
  function CompleteFile(root: Value, prefix: string): Result<seq<string>> {
    match LastDot(prefix)
    case None => Ok(Sorted(Matching(AttrNames(root), "", prefix)))
    case Some(k) =>
      match Parse(prefix[..k])
      case Err(e) => Err(e)
      case Ok(parts) => Ok(FileOffers(root, parts, prefix[..k], prefix[k + 1..]))
  }

  predicate LastComponentIsEmpty(head: string) {
    var s := Outside(head, [], "");
    s.At? && s.current == ""
  }

  lemma SumsAgree(before: seq<string>, a: seq<string>, b: seq<string>)
    ensures before + a == before + b <==> a == b
  {
    if before + a == before + b {
      assert a == (before + a)[|before|..];
      assert b == (before + b)[|before|..];
    }
  }

  /** How the candidate for `name` after `head` and a separator parses, for every head and every name: to
      the components of the head and the name exactly when the last component of the head is not empty
      and the name is plain. (An empty name after an empty component is the one coincidence.) */
  lemma FileCandidateParses(head: string, name: string)
    requires Parse(head).Ok?
    ensures Parse(head + "." + name) == Ok(Parse(head).value + [name])
            <==> (!LastComponentIsEmpty(head) && Plain(name)) || (LastComponentIsEmpty(head) && name == "")
  {
    ParseAfterSeparator(head, name);
    ComponentsOf(head);
    PlainNamesSpellThemselves(name);
    if Parse(name).Ok? {
      var before, after := Parse(head).value, Parse(name).value;
      if LastComponentIsEmpty(head) {
        assert before + [""] + after == before + ([""] + after);
        SumsAgree(before, [""] + after, [name]);
        if [""] + after == [name] {
          assert |[""] + after| == 1 && ([""] + after)[0] == "";
        }
        if name == "" {
          assert [""] + after == [name];
        }
      } else {
        SumsAgree(before, after, [name]);
      }
    }
  }

  /** What the `--file` rule may offer after `head`, which parses to `parts`, and a separator, with `tail`
      typed. */
  ghost predicate FileCandidate(root: Value, parts: seq<string>, head: string, tail: string, c: string) {
    var s := Select(root, parts);
    s.Found? && exists name :: c == head + "." + name && name in AttrNames(s.value) && tail <= name
  }

  lemma MatchingIsByName(names: seq<string>, head: string, tail: string, c: string)
    ensures c in Matching(names, head + ".", tail) <==>
              exists name :: c == head + "." + name && name in names && tail <= name
  {
  }

  lemma FileOffersAreExact(root: Value, parts: seq<string>, head: string, tail: string)
    ensures forall c :: c in FileOffers(root, parts, head, tail) <==> FileCandidate(root, parts, head, tail, c)
    ensures Alphabetical(FileOffers(root, parts, head, tail))
  {
    if Select(root, parts).Found? {
      var names := AttrNames(Select(root, parts).value);
      SortedKeepsNames(Matching(names, head + ".", tail));
      forall c ensures c in FileOffers(root, parts, head, tail) <==> FileCandidate(root, parts, head, tail, c) {
        MatchingIsByName(names, head, tail, c);
      }
    }
  }

  /** The `--file` rule offers exactly these candidates, and fails exactly on a head that does not parse. */
  lemma FileCandidatesAreExact(root: Value, head: string, tail: string)
    requires '.' !in tail
    ensures var r := CompleteFile(root, head + "." + tail);
            && (r.Ok? <==> Parse(head).Ok?)
            && (r.Ok? ==> Alphabetical(r.value))
            && (r.Ok? ==> forall c :: c in r.value <==> FileCandidate(root, Parse(head).value, head, tail, c))
  {
    var prefix := head + "." + tail;
    assert prefix[..|head|] == head && prefix[|head| + 1..] == tail;
    LastDotIs(prefix, |head|);
    if Parse(head).Ok? {
      FileOffersAreExact(root, Parse(head).value, head, tail);
    }
  }

  lemma {:induction false} LastDotIs(text: string, k: nat)
    requires k < |text| && text[k] == '.' && '.' !in text[k + 1..]
    ensures LastDot(text) == Some(k)
  {
  }

  /** Before the first separator the names of the root are offered, and nothing fails. */
  lemma BareCandidatesAreExact(root: Value, prefix: string)
    requires '.' !in prefix
    ensures var r := CompleteFile(root, prefix);
            r.Ok? && Alphabetical(r.value)
            && forall c :: c in r.value <==> c in AttrNames(root) && prefix <= c
  {
    SortedKeepsNames(Matching(AttrNames(root), "", prefix));
    MatchingIsExact(AttrNames(root), "", prefix);
    assert forall c: string :: c[0..] == c;
  }

  /** A candidate made from a plain name resolves, to that attribute, exactly when the last component of the
      head is not empty: what is offered after `.he` or `a..he` cannot be selected. */
  lemma FileCandidateResolves(root: Value, head: string, name: string)
    requires Parse(head).Ok? && Select(root, Parse(head).value).Found?
    requires name in AttrNames(Select(root, Parse(head).value).value) && Plain(name)
    ensures Resolves(root, head + "." + name) <==> !LastComponentIsEmpty(head)
    ensures !LastComponentIsEmpty(head) ==>
              Child(Select(root, Parse(head).value).value, name) == Some(Select(root, Parse(head + "." + name).value).value)
  {
    FileCandidateParses(head, name);
    if LastComponentIsEmpty(head) {
      ParseAfterSeparator(head, name);
      ComponentsOf(head);
      PlainNamesSpellThemselves(name);
      var parts := Parse(head + "." + name).value;
      assert parts[|Parse(head).value|] == "" && "" in parts;
      if Resolves(root, head + "." + name) {
        FoundPartsAreNotEmpty(root, parts, 0);
      }
    } else {
      SelectOneMore(root, Parse(head).value, name);
    }
  }

  // ---- The flake rule ----

  /** `_split_fragment`: the finished components, and the one being typed. */
  function SplitFragment(text: string): Result<(seq<string>, string)> {
    match Parse(text)
    case Err(e) => Err(e)
    case Ok(parts) =>
      if parts != [] && !EndsWithDot(text) then Ok((parts[..|parts| - 1], parts[|parts| - 1])) else Ok((parts, ""))
  }

  function DropParts(parts: seq<string>, depth: nat): seq<string> {
    if depth <= |parts| then parts[depth..] else []
  }

  function Lead(parts: seq<string>): string {
    if Join(".", parts) == "" then "" else Join(".", parts) + "."
  }

  /** What one root of the search adds. */
  function OffersUnder(outputs: Value, prefix: string, fragment: string, mark: string): Result<seq<string>> {
    match SplitFragment(prefix + fragment)
    case Err(e) => Err(e)
    case Ok((stem, tail)) =>
      match Parse(prefix)
      case Err(e) => Err(e)
      case Ok(before) =>
        match Select(outputs, stem)
        case Missing(_, _) => Ok([])
        case Found(v) => Ok(Matching(AttrNames(v), mark + Lead(DropParts(stem, |before|)), tail))
  }

  function OffersUnderAll(outputs: Value, prefixes: seq<string>, fragment: string, mark: string): Result<seq<string>> {
    if prefixes == [] then Ok([])
    else
      match OffersUnder(outputs, prefixes[0], fragment, mark)
      case Err(e) => Err(e)
      case Ok(first) =>
        match OffersUnderAll(outputs, prefixes[1..], fragment, mark)
        case Err(e) => Err(e)
        case Ok(rest) => Ok(first + rest)
  }

  /** Whether a default resolves before one that cannot be parsed. */
  function SomeDefault(outputs: Value, defaults: seq<string>): Result<bool> {
    var i := FirstStop(outputs, defaults);
    if i == |defaults| then Ok(false) else if Parse(defaults[i]).Err? then Err(MISSING_QUOTE) else Ok(true)
  }

  function MarkOf(fragment: string): string {
    if fragment != "" && fragment[0] == '.' then "." else ""
  }

  /** The roots of the search: the prefixes of the command unless a leading dot clears them, and the top. */
  function Roots(s: Search, fragment: string): seq<string> {
    if MarkOf(fragment) != "" then [""] else s.prefixes + [""]
  }

  function CompleteFlake(outputs: Value, s: Search, fragment: string): Result<seq<string>> {
    var typed := StripDot(fragment);
    match OffersUnderAll(outputs, Roots(s, fragment), typed, MarkOf(fragment))
    case Err(e) => Err(e)
    case Ok(found) =>
      if typed != "" then Ok(Sorted(found))
      else
        match SomeDefault(outputs, s.defaults)
        case Err(e) => Err(e)
        case Ok(some) => Ok(Sorted(if some then found + [MarkOf(fragment)] else found))
  }

  function Prepended(found: seq<string>, r: Result<seq<string>>): Result<seq<string>> {
    match r case Err(e) => Err(e) case Ok(rest) => Ok(found + rest)
  }

  lemma PrependedTwice(found: seq<string>, more: seq<string>, r: Result<seq<string>>)
    ensures Prepended(found, Prepended(more, r)) == Prepended(found + more, r)
    ensures Prepended([], r) == r
  {
    if r.Ok? {
      assert found + (more + r.value) == found + more + r.value;
      assert [] + r.value == r.value;
    }
  }

  lemma OffersOfFirst(outputs: Value, prefixes: seq<string>, fragment: string, mark: string)
    requires prefixes != []
    ensures var first := OffersUnder(outputs, prefixes[0], fragment, mark);
            OffersUnderAll(outputs, prefixes, fragment, mark) ==
            if first.Err? then Err(first.error)
            else Prepended(first.value, OffersUnderAll(outputs, prefixes[1..], fragment, mark))
  {
  }

  method OffersOf(outputs: Value, prefix: string, typed: string, mark: string) returns (r: Result<seq<string>>)
    ensures r == OffersUnder(outputs, prefix, typed, mark)
  {
    var split := SplitFragment(prefix + typed);
    if split.Err? {
      return Err(split.error);
    }
    var (stem, tail) := split.value;
    var before := ParseAttrPath(prefix);
    if before.Err? {
      return Err(before.error);
    }
    var value := SelectAttrPath(outputs, stem);
    if value.Missing? {
      return Ok([]);
    }
    return Ok(Matching(AttrNames(value.value), mark + Lead(DropParts(stem, |before.value|)), tail));
  }

  /** `complete_flake_fragment`. */
  method CompleteFlakeFragment(outputs: Value, s: Search, fragment: string) returns (r: Result<seq<string>>)
    ensures r == CompleteFlake(outputs, s, fragment)
  {
    var mark, typed := "", fragment;
    if fragment != "" && fragment[0] == '.' {
      mark, typed := ".", fragment[1..];
    }
    var prefixes := if mark != "" then [""] else s.prefixes + [""];
    var found: seq<string> := [];
    ghost var all := OffersUnderAll(outputs, prefixes, typed, mark);
    PrependedTwice([], [], all);
    assert prefixes[0..] == prefixes;
    for i := 0 to |prefixes|
      invariant all == Prepended(found, OffersUnderAll(outputs, prefixes[i..], typed, mark))
    {
      OffersOfFirst(outputs, prefixes[i..], typed, mark);
      assert prefixes[i..][1..] == prefixes[i + 1..];
      var offers := OffersOf(outputs, prefixes[i], typed, mark);
      if offers.Err? {
        return Err(offers.error);
      }
      PrependedTwice(found, offers.value, OffersUnderAll(outputs, prefixes[i + 1..], typed, mark));
      found := found + offers.value;
    }
    assert found + [] == found;
    if typed == "" {
      var some := DefaultResolves(outputs, s.defaults);
      if some.Err? {
        return Err(some.error);
      }
      if some.value {
        found := found + [mark];
      }
    }
    return Ok(Sorted(found));
  }

  /** The loop over the defaults, which stops at the first that resolves. */
  method DefaultResolves(outputs: Value, defaults: seq<string>) returns (r: Result<bool>)
    ensures r == SomeDefault(outputs, defaults)
  {
    for i := 0 to |defaults|
      invariant FirstStop(outputs, defaults) >= i
    {
      var parts := ParseAttrPath(defaults[i]);
      if parts.Err? {
        return Err(MISSING_QUOTE);
      }
      var value := SelectAttrPath(outputs, parts.value);
      if value.Found? {
        return Ok(true);
      }
    }
    return Ok(false);
  }
}
