/** Selecting attributes of an evaluated value, and the search of the `nix` CLI over candidates. */
module AttrSelect {
  import opened Common
  import opened AttrPath

  /** A Nix value as far as selection sees it. Asking a leaf for its attributes is a type error. */
  datatype Value = Leaf(repr: string) | Attrs(attrs: seq<Attr>)

  datatype Attr = Attr(name: string, value: Value)

  /** A missing path says how many components did resolve and which names were there instead. */
  datatype Selection = Found(value: Value) | Missing(depth: nat, available: seq<string>)

  function NamesIn(attrs: seq<Attr>): seq<string> {
    seq(|attrs|, i requires 0 <= i < |attrs| => attrs[i].name)
  }

  function Lookup(attrs: seq<Attr>, name: string): Option<Value> {
    if attrs == [] then None
    else if attrs[0].name == name then Some(attrs[0].value)
    else Lookup(attrs[1..], name)
  }

  lemma {:induction false} LookupFinds(attrs: seq<Attr>, name: string)
    ensures Lookup(attrs, name).Some? <==> name in NamesIn(attrs)
    ensures Lookup(attrs, name).Some? ==>
              exists k :: 0 <= k < |attrs| && attrs[k] == Attr(name, Lookup(attrs, name).value)
                          && forall j :: 0 <= j < k ==> attrs[j].name != name
  {
    if attrs != [] {
      LookupFinds(attrs[1..], name);
      assert NamesIn(attrs) == [attrs[0].name] + NamesIn(attrs[1..]);
      if attrs[0].name != name && Lookup(attrs, name).Some? {
        var k :| 0 <= k < |attrs[1..]| && attrs[1..][k] == Attr(name, Lookup(attrs, name).value)
                 && forall j :: 0 <= j < k ==> attrs[1..][j].name != name;
        assert attrs[k + 1] == attrs[1..][k];
        assert forall j :: 1 <= j < k + 1 ==> attrs[j] == attrs[1..][j - 1];
      } else if attrs[0].name == name {
        assert attrs[0] == Attr(name, Lookup(attrs, name).value);
      }
    }
  }

  function Child(v: Value, name: string): Option<Value> {
    if v.Leaf? then None else Lookup(v.attrs, name)
  }

  /** `_attr_names`: a leaf has none. */
  function AttrNames(v: Value): seq<string> {
    if v.Leaf? then [] else NamesIn(v.attrs)
  }

  lemma ChildIsNamed(v: Value, name: string)
    ensures Child(v, name).Some? <==> name in AttrNames(v)
  {
    if v.Attrs? {
      LookupFinds(v.attrs, name);
    }
  }

  function SelectFrom(v: Value, parts: seq<string>, depth: nat): Selection
    decreases |parts|
  {
    if parts == [] then Found(v)
    else if parts[0] == "" || v.Leaf? then Missing(depth, [])
    else
      match Child(v, parts[0])
      case None => Missing(depth, AttrNames(v))
      case Some(w) => SelectFrom(w, parts[1..], depth + 1)
  }

  function Select(v: Value, parts: seq<string>): Selection {
    SelectFrom(v, parts, 0)
  }

  /** `select_attr_path`. */
  method SelectAttrPath(v: Value, parts: seq<string>) returns (r: Selection)
    ensures r == Select(v, parts)
  {
    var value := v;
    for depth := 0 to |parts|
      invariant SelectFrom(value, parts[depth..], depth) == Select(v, parts)
    {
      var part := parts[depth];
      if part == "" {
        return Missing(depth, []);
      }
      if value.Leaf? {
        return Missing(depth, []);
      }
      var next := Child(value, part);
      if next.None? {
        return Missing(depth, AttrNames(value));
      }
      value := next.value;
    }
    return Found(value);
  }

  /** Selecting along two lists in a row. */
  lemma {:induction false} SelectOfSum(v: Value, a: seq<string>, b: seq<string>, depth: nat)
    ensures var s := SelectFrom(v, a, depth);
            SelectFrom(v, a + b, depth) == if s.Found? then SelectFrom(s.value, b, depth + |a|) else s
    decreases |a|
  {
    if a == [] {
      assert a + b == b;
    } else if a[0] != "" && Child(v, a[0]).Some? {
      assert (a + b)[0] == a[0] && (a + b)[1..] == a[1..] + b;
      SelectOfSum(Child(v, a[0]).value, a[1..], b, depth + 1);
    } else {
      assert (a + b)[0] == a[0];
    }
  }

  /** The depth only counts. */
  lemma {:induction false} SelectAtDepth(v: Value, parts: seq<string>, d: nat, e: nat)
    ensures SelectFrom(v, parts, d).Found? <==> SelectFrom(v, parts, e).Found?
    ensures SelectFrom(v, parts, d).Found? ==> SelectFrom(v, parts, d) == SelectFrom(v, parts, e)
    decreases |parts|
  {
    if parts != [] && Child(v, parts[0]).Some? {
      SelectAtDepth(Child(v, parts[0]).value, parts[1..], d + 1, e + 1);
    }
  }

  /** One more component resolves exactly when it names an attribute of what the rest resolves to. */
  lemma SelectOneMore(v: Value, parts: seq<string>, name: string)
    ensures Select(v, parts + [name]).Found? <==>
              Select(v, parts).Found? && name != "" && name in AttrNames(Select(v, parts).value)
    ensures Select(v, parts + [name]).Found? ==>
              Child(Select(v, parts).value, name) == Some(Select(v, parts + [name]).value)
  {
    SelectOfSum(v, parts, [name], 0);
    if Select(v, parts).Found? {
      ChildIsNamed(Select(v, parts).value, name);
      assert [name][1..] == [];
    }
  }

  lemma {:induction false} FoundPartsAreNotEmpty(v: Value, parts: seq<string>, depth: nat)
    requires SelectFrom(v, parts, depth).Found?
    ensures forall p :: p in parts ==> p != ""
    decreases |parts|
  {
    if parts != [] {
      FoundPartsAreNotEmpty(Child(v, parts[0]).value, parts[1..], depth + 1);
      assert parts == [parts[0]] + parts[1..];
    }
  }

  /** The first `k` components resolve, to a value without the next one; unless that is empty, its names are
      `available`. */
  ghost predicate StopsAt(v: Value, parts: seq<string>, k: int, available: seq<string>) {
    && 0 <= k < |parts| && Select(v, parts[..k]).Found?
    && var names := AttrNames(Select(v, parts[..k]).value);
       if parts[k] == "" then available == [] else parts[k] !in names && available == names
  }

  lemma StopsLater(v: Value, parts: seq<string>, k: int, available: seq<string>)
    requires parts != [] && parts[0] != "" && Child(v, parts[0]).Some?
    requires StopsAt(Child(v, parts[0]).value, parts[1..], k, available)
    ensures StopsAt(v, parts, k + 1, available)
  {
    var w, head := Child(v, parts[0]).value, parts[1..][..k];
    assert parts[..k + 1] == [parts[0]] + head && parts[k + 1] == parts[1..][k];
    assert [parts[0]][1..] == [];
    SelectOfSum(v, [parts[0]], head, 0);
    SelectAtDepth(w, head, 0, 1);
  }

  lemma {:induction false} MissingStops(v: Value, parts: seq<string>, depth: nat)
    requires SelectFrom(v, parts, depth).Missing?
    ensures var s := SelectFrom(v, parts, depth); StopsAt(v, parts, s.depth - depth, s.available)
    decreases |parts|
  {
    ChildIsNamed(v, parts[0]);
    if parts[0] == "" || Child(v, parts[0]).None? {
      assert parts[..0] == [];
    } else {
      MissingStops(Child(v, parts[0]).value, parts[1..], depth + 1);
      StopsLater(v, parts, SelectFrom(v, parts, depth).depth - depth - 1, SelectFrom(v, parts, depth).available);
    }
  }

  /** A path that does not resolve says how many components did, and, unless the next one is empty, the names
      that were there instead. */
  lemma MissingIsExact(v: Value, parts: seq<string>)
    ensures var s := Select(v, parts); s.Missing? ==> StopsAt(v, parts, s.depth, s.available)
  {
    if Select(v, parts).Missing? {
      MissingStops(v, parts, 0);
    }
  }

  // ---- The search ----

  datatype Search = Search(prefixes: seq<string>, defaults: seq<string>)

  function StripDot(fragment: string): string {
    if fragment != "" && fragment[0] == '.' then fragment[1..] else fragment
  }

  /** `AttrPathSearch.candidates`. An absent fragment and an empty one are the same. */
  function Candidates(s: Search, fragment: string): seq<string> {
    if fragment == "" then s.defaults
    else if fragment[0] == '.' then [fragment[1..]]
    else seq(|s.prefixes|, i requires 0 <= i < |s.prefixes| => s.prefixes[i] + fragment) + [fragment]
  }

  /** What a search ends with: a value and the path that reached it; or no candidate resolves, and the names
      available where the furthest one stopped; or a candidate cannot be parsed. */
  datatype Answer = Resolved(value: Value, path: string) | NotProvided(available: seq<string>) | BadPath

  function Further(furthest: Option<Selection>, s: Selection): Option<Selection>
    requires s.Missing? && (furthest.Some? ==> furthest.value.Missing?)
  {
    if furthest.None? || s.depth > furthest.value.depth then Some(s) else furthest
  }

  function AvailableAt(furthest: Option<Selection>): seq<string>
    requires furthest.Some? ==> furthest.value.Missing?
  {
    if furthest.None? then [] else furthest.value.available
  }

  function SearchFrom(v: Value, candidates: seq<string>, furthest: Option<Selection>): Answer
    requires furthest.Some? ==> furthest.value.Missing?
    decreases |candidates|
  {
    if candidates == [] then NotProvided(AvailableAt(furthest))
    else
      match Parse(candidates[0])
      case Err(_) => BadPath
      case Ok(parts) =>
        match Select(v, parts)
        case Found(w) => Resolved(w, candidates[0])
        case Missing(_, _) => SearchFrom(v, candidates[1..], Further(furthest, Select(v, parts)))
  }

  function SelectFlake(v: Value, s: Search, fragment: string): Answer {
    if Candidates(s, fragment) == [] then Resolved(v, "") else SearchFrom(v, Candidates(s, fragment), None)
  }

  /** `select_flake_attr`. */
  method SelectFlakeAttr(v: Value, s: Search, fragment: string) returns (r: Answer)
    ensures r == SelectFlake(v, s, fragment)
  {
    var candidates := Candidates(s, fragment);
    if candidates == [] {
      return Resolved(v, "");
    }
    var furthest: Option<Selection> := None;
    for i := 0 to |candidates|
      invariant furthest.Some? ==> furthest.value.Missing?
      invariant SearchFrom(v, candidates[i..], furthest) == SearchFrom(v, candidates, None)
    {
      var parts := ParseAttrPath(candidates[i]);
      if parts.Err? {
        return BadPath;
      }
      var selected := SelectAttrPath(v, parts.value);
      if selected.Found? {
        return Resolved(selected.value, candidates[i]);
      }
      if furthest.None? || selected.depth > furthest.value.depth {
        furthest := Some(selected);
      }
    }
    return NotProvided(AvailableAt(furthest));
  }

  predicate Resolves(v: Value, path: string) {
    Parse(path).Ok? && Select(v, Parse(path).value).Found?
  }

  /** The index of the first candidate that resolves or cannot be parsed, or the number of candidates. */
  function FirstStop(v: Value, candidates: seq<string>): (i: nat)
    ensures i <= |candidates|
    ensures forall j :: 0 <= j < i ==> Parse(candidates[j]).Ok? && !Resolves(v, candidates[j])
    ensures i < |candidates| ==> Parse(candidates[i]).Err? || Resolves(v, candidates[i])
  {
    if candidates == [] then 0
    else if Parse(candidates[0]).Err? || Resolves(v, candidates[0]) then 0
    else 1 + FirstStop(v, candidates[1..])
  }

  /** The search ends at the first candidate that resolves or cannot be parsed, and finds nothing exactly
      when every candidate parses and none resolves. */
  lemma {:induction false} SearchTakesTheFirst(v: Value, candidates: seq<string>, furthest: Option<Selection>)
    requires furthest.Some? ==> furthest.value.Missing?
    ensures var i, answer := FirstStop(v, candidates), SearchFrom(v, candidates, furthest);
            if i == |candidates| then answer.NotProvided?
            else if Parse(candidates[i]).Err? then answer == BadPath
            else answer == Resolved(Select(v, Parse(candidates[i]).value).value, candidates[i])
    decreases |candidates|
  {
    if candidates != [] && Parse(candidates[0]).Ok? && !Resolves(v, candidates[0]) {
      SearchTakesTheFirst(v, candidates[1..], Further(furthest, Select(v, Parse(candidates[0]).value)));
    }
  }

  /** When every candidate parses, the search resolves exactly when one candidate does. */
  lemma SearchResolves(v: Value, candidates: seq<string>)
    requires forall j :: 0 <= j < |candidates| ==> Parse(candidates[j]).Ok?
    ensures SearchFrom(v, candidates, None).Resolved? <==> exists i :: 0 <= i < |candidates| && Resolves(v, candidates[i])
  {
    SearchTakesTheFirst(v, candidates, None);
  }

  predicate Fails(v: Value, c: string) {
    Parse(c).Ok? && Select(v, Parse(c).value).Missing?
  }

  function Failure(v: Value, c: string): (s: Selection)
    requires Fails(v, c)
    ensures s.Missing?
  {
    Select(v, Parse(c).value)
  }

  /** `best` is the failure of the candidate at `k`, and the first of the deepest among the candidates. */
  ghost predicate IsFurthestAt(v: Value, candidates: seq<string>, best: Selection, k: int) {
    && best.Missing? && 0 <= k < |candidates|
    && (forall j :: 0 <= j < |candidates| ==>
          Fails(v, candidates[j])
          && Failure(v, candidates[j]).depth <= best.depth && (j < k ==> Failure(v, candidates[j]).depth < best.depth))
    && best == Failure(v, candidates[k])
  }

  ghost predicate IsFurthest(v: Value, candidates: seq<string>, best: Selection) {
    exists k :: IsFurthestAt(v, candidates, best, k)
  }

  lemma FurthestOfOneMore(v: Value, candidates: seq<string>, c: string, furthest: Option<Selection>)
    requires furthest.None? <==> candidates == []
    requires furthest.Some? ==> IsFurthest(v, candidates, furthest.value)
    requires Parse(c).Ok? && Select(v, Parse(c).value).Missing?
    ensures IsFurthest(v, candidates + [c], Further(furthest, Select(v, Parse(c).value)).value)
  {
    var s, all := Failure(v, c), candidates + [c];
    if furthest.None? || s.depth > furthest.value.depth {
      assert IsFurthestAt(v, all, s, |candidates|);
    } else {
      var k :| IsFurthestAt(v, candidates, furthest.value, k);
      assert IsFurthestAt(v, all, furthest.value, k);
    }
  }

  /** A failed search reports the names available where the candidate that went furthest stopped. */
  lemma {:induction false} FailureReportsTheFurthest(v: Value, candidates: seq<string>, i: nat, furthest: Option<Selection>)
    requires i <= |candidates| && candidates != [] && (furthest.None? <==> i == 0)
    requires furthest.Some? ==> IsFurthest(v, candidates[..i], furthest.value)
    requires SearchFrom(v, candidates[i..], furthest).NotProvided?
    ensures exists best :: IsFurthest(v, candidates, best)
                           && SearchFrom(v, candidates[i..], furthest) == NotProvided(best.available)
    decreases |candidates| - i
  {
    if i == |candidates| {
      assert candidates[..i] == candidates;
    } else {
      var c := candidates[i];
      FurthestOfOneMore(v, candidates[..i], c, furthest);
      assert candidates[..i + 1] == candidates[..i] + [c];
      assert candidates[i..][1..] == candidates[i + 1..];
      FailureReportsTheFurthest(v, candidates, i + 1, Further(furthest, Select(v, Parse(c).value)));
    }
  }

  // ---- What the search tries first ----

  /** The path decides the search: it resolves, to its value, or cannot be parsed. */
  ghost predicate Decides(v: Value, path: string, r: Answer) {
    if Parse(path).Err? then r == BadPath
    else Select(v, Parse(path).value).Found? && r == Resolved(Select(v, Parse(path).value).value, path)
  }

  predicate Passes(v: Value, path: string) {
    Parse(path).Ok? && Select(v, Parse(path).value).Missing?
  }

  /** The first candidate that does not pass decides; when all pass, nothing is provided. */
  lemma {:induction false} FirstDecides(v: Value, candidates: seq<string>, i: nat, furthest: Option<Selection>)
    requires furthest.Some? ==> furthest.value.Missing?
    requires i <= |candidates| && forall j :: 0 <= j < i ==> Passes(v, candidates[j])
    ensures i < |candidates| && !Passes(v, candidates[i]) ==> Decides(v, candidates[i], SearchFrom(v, candidates, furthest))
    ensures i == |candidates| ==> SearchFrom(v, candidates, furthest).NotProvided?
    decreases |candidates|
  {
    if i > 0 {
      FirstDecides(v, candidates[1..], i - 1, Further(furthest, Select(v, Parse(candidates[0]).value)));
    }
  }

  /** A fragment without a leading dot is tried after each prefix of the command, in their order, and bare last:
      the first prefixed text that does not pass decides, and when all pass the bare fragment does. */
  lemma PrefixesComeFirst(v: Value, s: Search, fragment: string, i: nat)
    requires fragment != "" && fragment[0] != '.'
    requires i <= |s.prefixes| && forall j :: 0 <= j < i ==> Passes(v, s.prefixes[j] + fragment)
    ensures i < |s.prefixes| && !Passes(v, s.prefixes[i] + fragment) ==>
              Decides(v, s.prefixes[i] + fragment, SelectFlake(v, s, fragment))
    ensures i == |s.prefixes| && !Passes(v, fragment) ==> Decides(v, fragment, SelectFlake(v, s, fragment))
    ensures i == |s.prefixes| && Passes(v, fragment) ==> SelectFlake(v, s, fragment).NotProvided?
  {
    var candidates := Candidates(s, fragment);
    FirstDecides(v, candidates, i, None);
    if i == |s.prefixes| && Passes(v, fragment) {
      FirstDecides(v, candidates, i + 1, None);
    }
  }

  predicate AllParse(s: Search, fragment: string) {
    forall j :: 0 <= j < |s.prefixes| ==> Parse(s.prefixes[j] + fragment).Ok?
  }

  lemma FirstResolving(v: Value, s: Search, fragment: string) returns (i: nat)
    requires AllParse(s, fragment)
    ensures i <= |s.prefixes| && (i < |s.prefixes| ==> Resolves(v, s.prefixes[i] + fragment))
    ensures forall j :: 0 <= j < i ==> Passes(v, s.prefixes[j] + fragment)
  {
    i := 0;
    while i < |s.prefixes| && !Resolves(v, s.prefixes[i] + fragment)
      invariant i <= |s.prefixes| && forall j :: 0 <= j < i ==> Passes(v, s.prefixes[j] + fragment)
    {
      i := i + 1;
    }
  }

  /** So, when every prefixed text parses: the search answers with the `k`-th prefix exactly when that is the
      first one whose path resolves. (A prefix that occurred before, or is empty, spells another's path.) */
  lemma TheFirstPrefixWins(v: Value, s: Search, fragment: string, k: nat)
    requires fragment != "" && fragment[0] != '.' && AllParse(s, fragment)
    requires k < |s.prefixes| && s.prefixes[k] != "" && forall j :: 0 <= j < k ==> s.prefixes[j] != s.prefixes[k]
    ensures var r := SelectFlake(v, s, fragment);
            (r.Resolved? && r.path == s.prefixes[k] + fragment && Select(v, Parse(r.path).value) == Found(r.value))
            <==> (Resolves(v, s.prefixes[k] + fragment) && forall j :: 0 <= j < k ==> !Resolves(v, s.prefixes[j] + fragment))
  {
    var i := FirstResolving(v, s, fragment);
    PrefixesComeFirst(v, s, fragment, i);
    assert |s.prefixes[k] + fragment| > |fragment|;
    if i < |s.prefixes| {
      SamePrefix(s.prefixes[i], s.prefixes[k], fragment);
    }
  }

  /** And with the bare fragment exactly when no prefixed path resolves and it does. */
  lemma TheBareFragmentIsLast(v: Value, s: Search, fragment: string)
    requires fragment != "" && fragment[0] != '.' && AllParse(s, fragment)
    requires forall j :: 0 <= j < |s.prefixes| ==> s.prefixes[j] != ""
    ensures var r := SelectFlake(v, s, fragment);
            (r.Resolved? && r.path == fragment && Parse(fragment).Ok? && Select(v, Parse(fragment).value) == Found(r.value))
            <==> (Resolves(v, fragment) && forall j :: 0 <= j < |s.prefixes| ==> !Resolves(v, s.prefixes[j] + fragment))
  {
    var i := FirstResolving(v, s, fragment);
    PrefixesComeFirst(v, s, fragment, i);
    if i < |s.prefixes| {
      assert |s.prefixes[i] + fragment| > |fragment|;
    }
  }

  lemma SamePrefix(a: string, b: string, fragment: string)
    ensures a + fragment == b + fragment ==> a == b
  {
    if a + fragment == b + fragment {
      assert |a| == |b|;
      assert a == (a + fragment)[..|a|] && b == (b + fragment)[..|b|];
    }
  }

  /** After a leading dot only the rest is tried, from the top of the flake. */
  lemma ADotClearsThePrefixes(v: Value, s: Search, rest: string)
    ensures var r := SelectFlake(v, s, "." + rest);
            if Passes(v, rest) then r.NotProvided? else Decides(v, rest, r)
  {
    assert ("." + rest)[1..] == rest;
    FirstDecides(v, [rest], 0, None);
    if Passes(v, rest) {
      FirstDecides(v, [rest], 1, None);
    }
  }

  /** An empty fragment stands for the defaults of the command, in their order, and for the whole flake when it
      has none. */
  lemma TheFirstDefaultWins(v: Value, s: Search, i: nat)
    requires i <= |s.defaults| && forall j :: 0 <= j < i ==> Passes(v, s.defaults[j])
    ensures i < |s.defaults| && !Passes(v, s.defaults[i]) ==> Decides(v, s.defaults[i], SelectFlake(v, s, ""))
    ensures i == |s.defaults| > 0 ==> SelectFlake(v, s, "").NotProvided?
    ensures s.defaults == [] ==> SelectFlake(v, s, "") == Resolved(v, "")
  {
    FirstDecides(v, s.defaults, i, None);
  }
}
