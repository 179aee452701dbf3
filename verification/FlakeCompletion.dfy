/** What the flake completion offers, and that the search of the same command can select it. */
module FlakeCompletion {
  import opened Common
  import opened Text
  import opened AttrPath
  import opened AttrSelect
  import opened AttrCompletion

  /** A prefix as the commands write them: empty, or balanced and ended by a separator. */
  predicate DottedPrefix(prefix: string) {
    prefix == "" || (Parse(prefix).Ok? && EndsWithDot(prefix))
  }

  predicate DottedSearch(s: Search) {
    forall i :: 0 <= i < |s.prefixes| ==> DottedPrefix(s.prefixes[i])
  }

  /** Nothing but quotation marks, and at least one. */
  predicate OnlyQuotes(fragment: string) {
    fragment != "" && forall i :: 0 <= i < |fragment| ==> fragment[i] == '"'
  }

  lemma {:induction false} QuotesOfSum(a: string, b: string)
    ensures Quotes(a + b) == Quotes(a) + Quotes(b)
    decreases |a|
  {
    if a == "" {
      assert a + b == b;
    } else {
      assert (a + b)[0] == a[0] && (a + b)[1..] == a[1..] + b;
      QuotesOfSum(a[1..], b);
    }
  }

  /** After a dotted prefix a text parses to the components of both, in a row. */
  lemma ParseAfterPrefix(prefix: string, text: string)
    requires DottedPrefix(prefix)
    ensures Parse(prefix).Ok? && (Parse(prefix).value == [] <==> prefix == "")
    ensures Parse(prefix + text).Ok? <==> Parse(text).Ok?
    ensures Parse(text).Ok? ==> Parse(prefix + text).value == Parse(prefix).value + Parse(text).value
  {
    if prefix == "" {
      assert prefix + text == text;
      if Parse(text).Ok? {
        assert [] + Parse(text).value == Parse(text).value;
      }
    } else {
      var head := prefix[..|prefix| - 1];
      assert prefix == head + "." + "" && prefix == head + ".";
      QuotesOfSum(head, ".");
      assert "."[1..] == "";
      ParseFailsOnOddQuotes(prefix);
      ParseFailsOnOddQuotes(head);
      ParseAfterSeparator(head, "");
      ParseAfterSeparator(head, text);
      assert prefix + text == head + "." + text;
      assert Components(head) + [] == Components(head);
    }
  }

  lemma {:induction false} ScanKeepsSomething(text: string, parts: seq<string>, current: string)
    ensures var s := Outside(text, parts, current);
            s.At? ==> |s.parts| >= |parts| && (|s.parts| == |parts| ==> |s.current| >= |current|)
    ensures var s := Inside(text, parts, current);
            s.At? ==> |s.parts| >= |parts| && (|s.parts| == |parts| ==> |s.current| >= |current|)
    decreases |text|
  {
    if text != "" {
      ScanKeepsSomething(text[1..], parts, current);
      ScanKeepsSomething(text[1..], parts, current + [text[0]]);
      ScanKeepsSomething(text[1..], parts + [current], "");
    }
  }

  /** A text that parses to nothing is empty or holds quotation marks only. */
  lemma {:induction false} ParsesToNothing(text: string, inside: bool)
    ensures !inside && Outside(text, [], "") == At([], "") ==> text == "" || OnlyQuotes(text)
    ensures inside && Inside(text, [], "") == At([], "") ==> OnlyQuotes(text)
    decreases |text|
  {
    if text != "" {
      ScanKeepsSomething(text[1..], [], "" + [text[0]]);
      ScanKeepsSomething(text[1..], [] + [""], "");
      if text[0] == '"' {
        ParsesToNothing(text[1..], !inside);
      }
    }
  }

  lemma {:induction false} OnlyQuotesParseToNothing(text: string, inside: bool)
    requires text == "" || OnlyQuotes(text)
    ensures !inside && Quotes(text) % 2 == 0 ==> Outside(text, [], "") == At([], "")
    ensures inside && Quotes(text) % 2 == 1 ==> Inside(text, [], "") == At([], "")
    decreases |text|
  {
    if text != "" {
      assert text[1..] == "" || OnlyQuotes(text[1..]);
      OnlyQuotesParseToNothing(text[1..], !inside);
    }
  }

  /** Under a dotted prefix the fragment splits as it does alone, exactly unless the prefix is there and the
      fragment holds quotation marks only. */
  lemma SplitAfterPrefix(prefix: string, fragment: string)
    requires DottedPrefix(prefix) && Parse(fragment).Ok?
    ensures var (stem, tail) := SplitFragment(fragment).value;
            SplitFragment(prefix + fragment) == Ok((Parse(prefix).value + stem, tail))
            <==> prefix == "" || !OnlyQuotes(fragment)
  {
    ParseAfterPrefix(prefix, fragment);
    var parts, before := Parse(fragment).value, Parse(prefix).value;
    if OnlyQuotes(fragment) {
      ParseFailsOnOddQuotes(fragment);
      OnlyQuotesParseToNothing(fragment, false);
      assert before + [] == before;
      assert (prefix + fragment)[|prefix + fragment| - 1] == fragment[|fragment| - 1];
    } else if fragment == "" {
      assert prefix + fragment == prefix;
      assert before + parts == before;
    } else if !EndsWithDot(fragment) {
      ParsesToNothing(fragment, false);
      assert parts != [];
      var all := before + parts;
      assert all[..|all| - 1] == before + parts[..|parts| - 1];
      assert (prefix + fragment)[|prefix + fragment| - 1] == fragment[|fragment| - 1];
    } else {
      assert (prefix + fragment)[|prefix + fragment| - 1] == '.';
    }
  }

  /** A path under one root: its stem resolves there, to a value that has the name, which extends what is
      being typed. */
  ghost predicate PathUnder(outputs: Value, prefix: string, stem: seq<string>, tail: string, name: string) {
    && Parse(prefix).Ok?
    && var s := Select(outputs, Parse(prefix).value + stem);
       s.Found? && name in AttrNames(s.value) && tail <= name
  }

  lemma StemIsNamed(outputs: Value, before: seq<string>, stem: seq<string>)
    requires Select(outputs, before + stem).Found?
    ensures forall i :: 0 <= i < |stem| ==> stem[i] != ""
  {
    FoundPartsAreNotEmpty(outputs, before + stem, 0);
    forall i | 0 <= i < |stem| ensures stem[i] in before + stem {
      assert stem[i] == (before + stem)[|before| + i];
    }
  }

  /** The whole path resolves unless the name is empty, which no selection accepts. */
  lemma PathResolves(outputs: Value, prefix: string, stem: seq<string>, tail: string, name: string)
    requires PathUnder(outputs, prefix, stem, tail, name)
    ensures Select(outputs, Parse(prefix).value + (stem + [name])).Found? <==> name != ""
    ensures forall p :: p in stem ==> p != ""
  {
    var before := Parse(prefix).value;
    assert before + (stem + [name]) == before + stem + [name];
    SelectOneMore(outputs, before + stem, name);
    StemIsNamed(outputs, before, stem);
  }

  lemma {:induction false} JoinOneMore(stem: seq<string>, name: string)
    requires forall i :: 0 <= i < |stem| ==> stem[i] != ""
    ensures Join(".", stem + [name]) == Lead(stem) + name
    ensures stem != [] ==> Join(".", stem) != ""
    decreases |stem|
  {
    if stem == [] {
      assert stem + [name] == [name];
    } else if |stem| == 1 {
      assert (stem + [name])[1..] == [name] && (stem + [name])[0] == stem[0];
    } else {
      assert (stem + [name])[1..] == stem[1..] + [name] && (stem + [name])[0] == stem[0];
      JoinOneMore(stem[1..], name);
      assert stem[0] + "." + (Join(".", stem[1..]) + "." + name) == stem[0] + "." + Join(".", stem[1..]) + "." + name;
    }
  }

  /** The text `t` spells a path under one root. */
  ghost predicate OfferedUnder(outputs: Value, prefix: string, stem: seq<string>, tail: string, mark: string, t: string) {
    exists name :: PathUnder(outputs, prefix, stem, tail, name) && t == mark + Join(".", stem + [name])
  }

  /** Below a found root, a path is spelled by its lead and its last name. */
  lemma PathSpelling(outputs: Value, before: seq<string>, stem: seq<string>, mark: string, name: string)
    requires Select(outputs, before + stem).Found?
    ensures mark + Join(".", stem + [name]) == mark + Lead(stem) + name
  {
    StemIsNamed(outputs, before, stem);
    JoinOneMore(stem, name);
    assert mark + (Lead(stem) + name) == mark + Lead(stem) + name;
  }

  /** The texts made from the names of a found set are the paths under the root. */
  lemma MatchingSpellsPaths(outputs: Value, prefix: string, stem: seq<string>, tail: string, mark: string, t: string)
    requires Parse(prefix).Ok? && Select(outputs, Parse(prefix).value + stem).Found?
    ensures t in Matching(AttrNames(Select(outputs, Parse(prefix).value + stem).value), mark + Lead(stem), tail)
            <==> OfferedUnder(outputs, prefix, stem, tail, mark, t)
  {
    var before := Parse(prefix).value;
    var names, lead := AttrNames(Select(outputs, before + stem).value), mark + Lead(stem);
    MatchingIsExact(names, lead, tail);
    if t in Matching(names, lead, tail) {
      PathSpelling(outputs, before, stem, mark, t[|lead|..]);
      assert t == lead + t[|lead|..];
    }
    if name :| PathUnder(outputs, prefix, stem, tail, name) && t == mark + Join(".", stem + [name]) {
      PathSpelling(outputs, before, stem, mark, name);
      assert t[|lead|..] == name;
    }
  }

  /** One root offers exactly the paths under it. */
  lemma OffersUnderIsExact(outputs: Value, prefix: string, fragment: string, mark: string)
    requires DottedPrefix(prefix) && Parse(fragment).Ok? && (prefix == "" || !OnlyQuotes(fragment))
    ensures var r := OffersUnder(outputs, prefix, fragment, mark);
            var (stem, tail) := SplitFragment(fragment).value;
            r.Ok? && forall t :: t in r.value <==> OfferedUnder(outputs, prefix, stem, tail, mark, t)
  {
    SplitAfterPrefix(prefix, fragment);
    ParseAfterPrefix(prefix, "");
    var (stem, tail) := SplitFragment(fragment).value;
    var before := Parse(prefix).value;
    assert DropParts(before + stem, |before|) == stem;
    if Select(outputs, before + stem).Found? {
      var r := OffersUnder(outputs, prefix, fragment, mark);
      forall t ensures t in r.value <==> OfferedUnder(outputs, prefix, stem, tail, mark, t) {
        MatchingSpellsPaths(outputs, prefix, stem, tail, mark, t);
      }
    }
  }

  // ---- The whole answer ----

  ghost predicate OfferedUnderSome(outputs: Value, prefixes: seq<string>, stem: seq<string>, tail: string, mark: string, t: string) {
    exists i :: 0 <= i < |prefixes| && OfferedUnder(outputs, prefixes[i], stem, tail, mark, t)
  }

  /** Under every one of the roots the fragment splits as it does alone. */
  predicate AllSplit(prefixes: seq<string>, fragment: string) {
    OnlyQuotes(fragment) ==> forall i :: 0 <= i < |prefixes| ==> prefixes[i] == ""
  }

  lemma {:induction false} OffersUnderAllIsUnion(outputs: Value, prefixes: seq<string>, fragment: string, mark: string)
    requires Parse(fragment).Ok? && AllSplit(prefixes, fragment)
    requires forall i :: 0 <= i < |prefixes| ==> DottedPrefix(prefixes[i])
    ensures var r := OffersUnderAll(outputs, prefixes, fragment, mark);
            var (stem, tail) := SplitFragment(fragment).value;
            r.Ok? && forall t :: t in r.value <==> OfferedUnderSome(outputs, prefixes, stem, tail, mark, t)
    decreases |prefixes|
  {
    var (stem, tail) := SplitFragment(fragment).value;
    if prefixes != [] {
      OffersUnderIsExact(outputs, prefixes[0], fragment, mark);
      OffersUnderAllIsUnion(outputs, prefixes[1..], fragment, mark);
      var r := OffersUnderAll(outputs, prefixes, fragment, mark);
      forall t ensures t in r.value <==> OfferedUnderSome(outputs, prefixes, stem, tail, mark, t) {
        if OfferedUnderSome(outputs, prefixes[1..], stem, tail, mark, t) {
          var i :| 0 <= i < |prefixes[1..]| && OfferedUnder(outputs, prefixes[1..][i], stem, tail, mark, t);
          assert prefixes[i + 1] == prefixes[1..][i];
        }
        if OfferedUnderSome(outputs, prefixes, stem, tail, mark, t) {
          var i :| 0 <= i < |prefixes| && OfferedUnder(outputs, prefixes[i], stem, tail, mark, t);
          assert i > 0 ==> prefixes[i] == prefixes[1..][i - 1];
        }
      }
    }
  }

  /** Some default of the command resolves, and those before it are parsed and do not. */
  ghost predicate DefaultOffered(outputs: Value, s: Search) {
    exists i :: 0 <= i < |s.defaults| && Resolves(outputs, s.defaults[i]) && forall j :: 0 <= j < i ==> Passes(outputs, s.defaults[j])
  }

  /** Some default cannot be parsed, and those before it are parsed and do not resolve. */
  ghost predicate DefaultFails(outputs: Value, s: Search) {
    exists i :: 0 <= i < |s.defaults| && Parse(s.defaults[i]).Err? && forall j :: 0 <= j < i ==> Passes(outputs, s.defaults[j])
  }

  lemma DefaultsDecide(outputs: Value, s: Search)
    ensures SomeDefault(outputs, s.defaults) == Ok(true) <==> DefaultOffered(outputs, s)
    ensures SomeDefault(outputs, s.defaults).Err? <==> DefaultFails(outputs, s)
  {
    var i := FirstStop(outputs, s.defaults);
    assert forall j :: 0 <= j < i ==> Passes(outputs, s.defaults[j]);
  }

  lemma RootsAreDotted(s: Search, fragment: string)
    requires DottedSearch(s)
    ensures forall i :: 0 <= i < |Roots(s, fragment)| ==> DottedPrefix(Roots(s, fragment)[i])
  {
  }

  /** The text `t` spells a path that extends the fragment under one of the roots. */
  ghost predicate OfferedBySplit(outputs: Value, s: Search, fragment: string, t: string)
    requires Parse(StripDot(fragment)).Ok?
  {
    var (stem, tail) := SplitFragment(StripDot(fragment)).value;
    OfferedUnderSome(outputs, Roots(s, fragment), stem, tail, MarkOf(fragment), t)
  }

  /** What is typed is offered itself: it is empty and a default resolves. */
  ghost predicate OfferedItself(outputs: Value, s: Search, fragment: string, t: string) {
    StripDot(fragment) == "" && DefaultOffered(outputs, s) && t == MarkOf(fragment)
  }

  lemma CompletionBySplit(outputs: Value, s: Search, fragment: string)
    requires DottedSearch(s) && Parse(StripDot(fragment)).Ok? && AllSplit(Roots(s, fragment), StripDot(fragment))
    ensures var r := CompleteFlake(outputs, s, fragment);
            && (r.Err? <==> StripDot(fragment) == "" && DefaultFails(outputs, s))
            && (r.Ok? ==> forall t ::
                  t in r.value <==> OfferedBySplit(outputs, s, fragment, t) || OfferedItself(outputs, s, fragment, t))
  {
    var typed, mark := StripDot(fragment), MarkOf(fragment);
    RootsAreDotted(s, fragment);
    OffersUnderAllIsUnion(outputs, Roots(s, fragment), typed, mark);
    var found := OffersUnderAll(outputs, Roots(s, fragment), typed, mark).value;
    SortedKeepsNames(found);
    SortedKeepsNames(found + [mark]);
    DefaultsDecide(outputs, s);
  }

  /** What that asks of a caller: not to type quotation marks alone where the command has a prefix. After a
      leading dot, which clears the prefixes, the fragment splits whatever it holds. */
  lemma FragmentSplits(s: Search, fragment: string)
    ensures AllSplit(Roots(s, fragment), StripDot(fragment))
            <==> (OnlyQuotes(fragment) ==> forall i :: 0 <= i < |s.prefixes| ==> s.prefixes[i] == "")
  {
    if MarkOf(fragment) == "" {
      assert forall i :: 0 <= i < |s.prefixes| ==> Roots(s, fragment)[i] == s.prefixes[i];
    }
  }

  /** The finished components of a text and the one being typed: a text that ends in a separator, or holds no
      component, types an empty one after all of its own, and any other text types its last one. */
  ghost predicate IsTyped(text: string, stem: seq<string>, tail: string) {
    && Parse(text).Ok?
    && if text != "" && text[|text| - 1] != '.' && Parse(text).value != [] then stem + [tail] == Parse(text).value
       else stem == Parse(text).value && tail == ""
  }

  lemma SplitIsTyped(text: string, stem: seq<string>, tail: string)
    ensures IsTyped(text, stem, tail) <==> SplitFragment(text) == Ok((stem, tail))
  {
    if IsTyped(text, stem, tail) && stem + [tail] == Parse(text).value {
      assert Parse(text).value[..|stem|] == stem && Parse(text).value[|stem|] == tail;
    }
  }

  /** The text `t` spells, after `mark`, a path that extends what is typed within its last component, under the
      root that `prefix` names. */
  ghost predicate Extends(outputs: Value, prefix: string, typed: string, mark: string, t: string) {
    exists stem, tail, name ::
      IsTyped(typed, stem, tail) && PathUnder(outputs, prefix, stem, tail, name) && t == mark + Join(".", stem + [name])
  }

  /** What may be offered: after a leading dot the paths from the top of the flake, each with a dot before it, and
      else the paths under each prefix of the command and from the top. */
  ghost predicate Offered(outputs: Value, s: Search, fragment: string, t: string) {
    if fragment != "" && fragment[0] == '.' then Extends(outputs, "", fragment[1..], ".", t)
    else exists prefix :: (prefix == "" || prefix in s.prefixes) && Extends(outputs, prefix, fragment, "", t)
  }

  lemma ExtendsIsOfferedUnder(outputs: Value, prefix: string, typed: string, mark: string, t: string)
    requires Parse(typed).Ok?
    ensures var (stem, tail) := SplitFragment(typed).value;
            Extends(outputs, prefix, typed, mark, t) <==> OfferedUnder(outputs, prefix, stem, tail, mark, t)
  {
    var (stem, tail) := SplitFragment(typed).value;
    SplitIsTyped(typed, stem, tail);
    if stem', tail', name :|
      IsTyped(typed, stem', tail') && PathUnder(outputs, prefix, stem', tail', name) && t == mark + Join(".", stem' + [name])
    {
      SplitIsTyped(typed, stem', tail');
    }
  }

  lemma RootsAre(s: Search, fragment: string, prefix: string)
    ensures prefix in Roots(s, fragment)
            <==> prefix == "" || ((fragment == "" || fragment[0] != '.') && prefix in s.prefixes)
  {
  }

  lemma SomeRoot(outputs: Value, prefixes: seq<string>, stem: seq<string>, tail: string, mark: string, t: string)
    ensures OfferedUnderSome(outputs, prefixes, stem, tail, mark, t)
            <==> exists prefix :: prefix in prefixes && OfferedUnder(outputs, prefix, stem, tail, mark, t)
  {
    if prefix :| prefix in prefixes && OfferedUnder(outputs, prefix, stem, tail, mark, t) {
      var i :| 0 <= i < |prefixes| && prefixes[i] == prefix;
    }
  }

  lemma OfferedIsBySplit(outputs: Value, s: Search, fragment: string, t: string)
    requires Parse(StripDot(fragment)).Ok?
    ensures Offered(outputs, s, fragment, t) <==> OfferedBySplit(outputs, s, fragment, t)
  {
    var typed, mark := StripDot(fragment), MarkOf(fragment);
    var (stem, tail) := SplitFragment(typed).value;
    SomeRoot(outputs, Roots(s, fragment), stem, tail, mark, t);
    forall prefix
      ensures prefix in Roots(s, fragment) && OfferedUnder(outputs, prefix, stem, tail, mark, t)
              <==> (prefix == "" || ((fragment == "" || fragment[0] != '.') && prefix in s.prefixes))
                   && Extends(outputs, prefix, typed, mark, t)
    {
      RootsAre(s, fragment, prefix);
      ExtendsIsOfferedUnder(outputs, prefix, typed, mark, t);
    }
  }

  lemma NothingTyped(fragment: string)
    ensures StripDot(fragment) == "" <==> fragment == "" || fragment == "."
    ensures StripDot(fragment) == "" ==> MarkOf(fragment) == fragment
  {
    if fragment != "" && fragment[0] == '.' {
      assert fragment == "." + fragment[1..];
    }
  }

  /** What the flake completion answers, on every value and for every fragment that parses, but for quotation
      marks alone where the command has a prefix: exactly the paths that extend it within its last component;
      and the fragment itself when nothing is typed and a default resolves. So every such path is offered. */
  lemma CompletionIsExact(outputs: Value, s: Search, fragment: string)
    requires DottedSearch(s) && Parse(StripDot(fragment)).Ok?
    requires OnlyQuotes(fragment) ==> forall i :: 0 <= i < |s.prefixes| ==> s.prefixes[i] == ""
    ensures var r := CompleteFlake(outputs, s, fragment);
            && (r.Err? <==> (fragment == "" || fragment == ".") && DefaultFails(outputs, s))
            && (r.Ok? ==> forall t :: t in r.value <==>
                  Offered(outputs, s, fragment, t) || (t == fragment && (fragment == "" || fragment == ".") && DefaultOffered(outputs, s)))
  {
    FragmentSplits(s, fragment);
    CompletionBySplit(outputs, s, fragment);
    NothingTyped(fragment);
    forall t ensures Offered(outputs, s, fragment, t) <==> OfferedBySplit(outputs, s, fragment, t) {
      OfferedIsBySplit(outputs, s, fragment, t);
    }
  }

  // ---- What an offer means to the search ----

  predicate PlainPath(parts: seq<string>) {
    forall p :: p in parts ==> Plain(p)
  }

  lemma PlainnessOfOneMore(stem: seq<string>, name: string)
    requires forall p :: p in stem ==> p != ""
    ensures var parts := stem + [name];
            PlainPath(parts)
            <==> (forall p :: p in parts ==> '.' !in p && NoQuote(p)) && parts[|parts| - 1] != ""
  {
    var parts := stem + [name];
    assert name in parts && forall p :: p in parts <==> p in stem || p == name;
  }

  /** The text that the search makes from an offer and the root it stems from parses to the path offered
      exactly when every component after the root is a plain name. */
  lemma OfferSpellsItsPath(outputs: Value, prefix: string, stem: seq<string>, tail: string, name: string)
    requires DottedPrefix(prefix) && PathUnder(outputs, prefix, stem, tail, name)
    ensures Parse(prefix + Join(".", stem + [name])) == Ok(Parse(prefix).value + (stem + [name]))
            <==> PlainPath(stem + [name])
  {
    var parts, text := stem + [name], Join(".", stem + [name]);
    PathResolves(outputs, prefix, stem, tail, name);
    JoinRoundTrips(parts);
    ParseAfterPrefix(prefix, text);
    PlainnessOfOneMore(stem, name);
    if Parse(text).Ok? {
      SumsAgree(Parse(prefix).value, Parse(text).value, parts);
    }
  }

  lemma {:induction false} PlainJoinStarts(parts: seq<string>)
    requires parts != [] && PlainPath(parts)
    ensures Parse(Join(".", parts)) == Ok(parts) && Join(".", parts) != "" && Join(".", parts)[0] != '.'
  {
    assert Plain(parts[0]) && Plain(parts[|parts| - 1]);
    JoinParses(parts);
  }

  /** A plain path that is offered resolves through the search that offered it. */
  lemma PlainPathResolves(outputs: Value, s: Search, fragment: string, prefix: string, parts: seq<string>)
    requires DottedSearch(s) && prefix in Roots(s, fragment) && parts != [] && PlainPath(parts)
    requires DottedPrefix(prefix) && Parse(prefix).Ok? && Select(outputs, Parse(prefix).value + parts).Found?
    ensures SelectFlake(outputs, s, MarkOf(fragment) + Join(".", parts)).Resolved?
  {
    PlainJoinStarts(parts);
    ParseAfterPrefix(prefix, Join(".", parts));
    var t := MarkOf(fragment) + Join(".", parts);
    var candidates := Candidates(s, t);
    if MarkOf(fragment) == "." {
      assert t[1..] == Join(".", parts) == prefix + Join(".", parts);
      assert Resolves(outputs, candidates[0]);
    } else {
      assert t == Join(".", parts);
      forall j | 0 <= j < |s.prefixes| ensures Parse(s.prefixes[j] + t).Ok? {
        ParseAfterPrefix(s.prefixes[j], t);
      }
      var i :| 0 <= i < |Roots(s, fragment)| && Roots(s, fragment)[i] == prefix;
      assert candidates[i] == prefix + t;
    }
    SearchResolves(outputs, candidates);
  }

  /** The text `t` spells a plain path that extends the fragment under one of the roots. */
  ghost predicate PlainlyOffered(outputs: Value, s: Search, fragment: string, t: string)
    requires Parse(StripDot(fragment)).Ok?
  {
    var (stem, tail) := SplitFragment(StripDot(fragment)).value;
    exists prefix, name ::
      && prefix in Roots(s, fragment) && PathUnder(outputs, prefix, stem, tail, name)
      && PlainPath(stem + [name]) && t == MarkOf(fragment) + Join(".", stem + [name])
  }

  /** Every plain path offered, and the empty fragment when it is, the search of the same command selects:
      leading dots and the empty fragment included. */
  lemma PlainOfferResolves(outputs: Value, s: Search, fragment: string, t: string)
    requires DottedSearch(s) && Parse(StripDot(fragment)).Ok?
    requires PlainlyOffered(outputs, s, fragment, t) || OfferedItself(outputs, s, fragment, t)
    ensures SelectFlake(outputs, s, t).Resolved?
  {
    if PlainlyOffered(outputs, s, fragment, t) {
      var (stem, tail) := SplitFragment(StripDot(fragment)).value;
      var prefix, name :|
        && prefix in Roots(s, fragment) && PathUnder(outputs, prefix, stem, tail, name)
        && PlainPath(stem + [name]) && t == MarkOf(fragment) + Join(".", stem + [name]);
      assert name in stem + [name];
      PathResolves(outputs, prefix, stem, tail, name);
      RootsAreDotted(s, fragment);
      PlainPathResolves(outputs, s, fragment, prefix, stem + [name]);
    } else if MarkOf(fragment) == "." {
      assert t == "." && t[1..] == "";
      assert Candidates(s, t) == [""];
      assert Resolves(outputs, "");
      SearchTakesTheFirst(outputs, [""], None);
    } else {
      SearchTakesTheFirst(outputs, s.defaults, None);
    }
  }

  /** Every path that extends the fragment is plain, whatever other names the value has. */
  ghost predicate OffersArePlain(outputs: Value, s: Search, fragment: string)
    requires Parse(StripDot(fragment)).Ok?
  {
    var (stem, tail) := SplitFragment(StripDot(fragment)).value;
    forall prefix, name :: prefix in Roots(s, fragment) && PathUnder(outputs, prefix, stem, tail, name) ==> PlainPath(stem + [name])
  }

  /** When the paths offered are plain, every fragment that the completion offers resolves. */
  lemma EveryOfferResolves(outputs: Value, s: Search, fragment: string, t: string)
    requires DottedSearch(s) && Parse(StripDot(fragment)).Ok? && AllSplit(Roots(s, fragment), StripDot(fragment))
    requires OffersArePlain(outputs, s, fragment)
    requires CompleteFlake(outputs, s, fragment).Ok? && t in CompleteFlake(outputs, s, fragment).value
    ensures SelectFlake(outputs, s, t).Resolved?
  {
    CompletionBySplit(outputs, s, fragment);
    if OfferedBySplit(outputs, s, fragment, t) {
      var (stem, tail) := SplitFragment(StripDot(fragment)).value;
      var i :| 0 <= i < |Roots(s, fragment)| && OfferedUnder(outputs, Roots(s, fragment)[i], stem, tail, MarkOf(fragment), t);
      assert Roots(s, fragment)[i] in Roots(s, fragment);
      assert PlainlyOffered(outputs, s, fragment, t);
    }
    PlainOfferResolves(outputs, s, fragment, t);
  }

  /** The top of the flake is always a root, so an answer means that the fragment parses. */
  lemma {:induction false} CompletionParses(outputs: Value, s: Search, fragment: string)
    requires CompleteFlake(outputs, s, fragment).Ok?
    ensures Parse(StripDot(fragment)).Ok?
  {
    OffersParse(outputs, Roots(s, fragment), StripDot(fragment), MarkOf(fragment));
  }

  lemma {:induction false} OffersParse(outputs: Value, prefixes: seq<string>, typed: string, mark: string)
    requires prefixes != [] && prefixes[|prefixes| - 1] == "" && OffersUnderAll(outputs, prefixes, typed, mark).Ok?
    ensures Parse(typed).Ok?
    decreases |prefixes|
  {
    if |prefixes| == 1 {
      assert "" + typed == typed;
    } else {
      OffersParse(outputs, prefixes[1..], typed, mark);
    }
  }

  // ---- Names that are not plain ----

  /** The outputs `{ name = leaf; }`. */
  function OneOutput(name: string): Value {
    Attrs([Attr(name, Leaf(""))])
  }

  lemma OneOutputSelects(name: string, parts: seq<string>)
    ensures Select(OneOutput(name), parts) == Found(Leaf("")) <==> name != "" && parts == [name]
  {
    var attrs := OneOutput(name).attrs;
    assert attrs[1..] == [];
    if parts != [] && parts[0] != "" {
      assert Lookup(attrs, parts[0]) == if parts[0] == name then Some(Leaf("")) else None;
      assert parts == [parts[0]] + parts[1..];
      assert Child(OneOutput(name), parts[0]) == Lookup(attrs, parts[0]);
      if parts[0] == name {
        assert Select(OneOutput(name), parts) == SelectFrom(Leaf(""), parts[1..], 1);
      }
    }
  }

  lemma OneOutputIsOffered(name: string)
    ensures CompleteFlake(OneOutput(name), Search([], []), "") == Ok([name])
  {
    var v, s := OneOutput(name), Search([], []);
    assert AttrNames(v) == [name] && [name][1..] == [];
    assert Lead(DropParts([], 0)) == "" && "" + name == name;
    assert Matching([name], "", "") == [name];
    assert Parse("") == Ok([]) && "" + "" == "";
    assert OffersUnder(v, "", "", "") == Ok([name]);
    OffersOfFirst(v, [""], "", "");
    assert [name] + [] == [name];
    assert Roots(s, "") == [""] && OffersUnderAll(v, [""], "", "") == Ok([name]);
    assert SomeDefault(v, s.defaults) == Ok(false);
    SortedOfOne(name);
  }

  /** For every name, plain or not: in a flake whose only output it is, it is offered for the empty fragment;
      and the search takes the offer to that output exactly when the name is plain. */
  lemma ANameIsSelectedIffPlain(name: string)
    ensures var v, s := OneOutput(name), Search([], []);
            && CompleteFlake(v, s, "") == Ok([name])
            && (SelectFlake(v, s, name).Resolved? && SelectFlake(v, s, name).value == Leaf("") <==> Plain(name))
  {
    OneOutputIsOffered(name);
    if name != "" {
      var v, s := OneOutput(name), Search([], []);
      var c := if name[0] == '.' then name[1..] else name;
      assert Candidates(s, name) == [c];
      OneCandidate(v, c, Leaf(""));
      PlainNamesSpellThemselves(name);
      ParsedIsNoLonger(c);
      assert Size([name]) == |name|;
      if Parse(c).Ok? {
        OneOutputSelects(name, Parse(c).value);
      }
    }
  }

  lemma OneCandidate(v: Value, c: string, w: Value)
    ensures var answer := SearchFrom(v, [c], None);
            answer.Resolved? && answer.value == w <==> Parse(c).Ok? && Select(v, Parse(c).value) == Found(w)
  {
    SearchTakesTheFirst(v, [c], None);
  }

  // ---- Quotation marks alone ----

  /** The outputs `{ p = { x = { }; }; }`. */
  function SmallFlake(): Value {
    Attrs([Attr("p", Attrs([Attr("x", Attrs([]))]))])
  }

  lemma DottedExample()
    ensures Parse("p.x.") == Ok(["p", "x"])
  {
    JoinParses(["p", "x"]);
    assert ["p", "x"][1..] == ["x"];
    assert Join(".", ["p", "x"]) == "p.x";
    ParseAfterSeparator("p.x", "");
    ComponentsOf("p.x");
    ScanPlain("p", [], "");
    assert "p.x"[1..] == ".x" && ".x"[1..] == "x" && "x"[1..] == "";
    assert "p.x" + "." + "" == "p.x.";
    assert ["p", "x"] + [] == ["p", "x"];
  }

  lemma QuotesTakeThePrefix(fragment: string)
    requires OnlyQuotes(fragment) && Parse(fragment).Ok?
    ensures SplitFragment("p.x." + fragment) == Ok((["p"], "x"))
    ensures Parse(fragment) == Ok([])
  {
    DottedExample();
    ParseFailsOnOddQuotes(fragment);
    OnlyQuotesParseToNothing(fragment, false);
    ParseAfterPrefix("p.x.", fragment);
    assert ["p", "x"] + [] == ["p", "x"];
    assert ["p", "x"][..1] == ["p"];
    var text := "p.x." + fragment;
    assert text[|text| - 1] == fragment[|fragment| - 1];
  }

  lemma SmallFlakeSelects()
    ensures Select(SmallFlake(), ["p"]) == Found(Attrs([Attr("x", Attrs([]))]))
    ensures AttrNames(Attrs([Attr("x", Attrs([]))])) == ["x"]
    ensures Matching(["x"], "", "x") == ["x"]
    ensures Select(SmallFlake(), ["p", "x", "x"]).Missing? && Select(SmallFlake(), ["x"]).Missing?
  {
    var inner := [Attr("x", Attrs([]))];
    assert Lookup(SmallFlake().attrs, "p") == Some(Attrs(inner));
    assert ["p"][1..] == [];
    assert ["p", "x", "x"][1..] == ["x", "x"] && ["x", "x"][1..] == ["x"];
    assert Lookup(inner, "x") == Some(Attrs([]));
    assert NamesIn(inner) == ["x"];
    assert ["x"][1..] == [] && "" + "x" == "x" && "x" <= "x";
    assert SmallFlake().attrs[1..] == [];
  }

  lemma XIsNotProvided(s: Search)
    requires s == Search(["p.x."], [])
    ensures SelectFlake(SmallFlake(), s, "x").NotProvided?
  {
    SmallFlakeSelects();
    XParses();
    var candidates := Candidates(s, "x");
    assert candidates == ["p.x." + "x", "x"];
    SearchTakesTheFirst(SmallFlake(), candidates, None);
  }

  lemma XParses()
    ensures Parse("x") == Ok(["x"]) && Parse("p.x." + "x") == Ok(["p", "x", "x"])
  {
    ScanPlain("x", [], "");
    assert "" + "x" == "x" && [] + ["x"] == ["x"];
    DottedExample();
    ParseAfterPrefix("p.x.", "x");
    assert ["p", "x"] + ["x"] == ["p", "x", "x"];
  }

  lemma QuotesOfferX(fragment: string)
    requires OnlyQuotes(fragment) && Parse(fragment).Ok?
    ensures OffersUnder(SmallFlake(), "p.x.", fragment, "") == Ok(["x"])
    ensures OffersUnder(SmallFlake(), "", fragment, "").Ok?
  {
    DottedExample();
    QuotesTakeThePrefix(fragment);
    SmallFlakeSelects();
    assert "" + Lead(DropParts(["p"], 2)) == "";
    assert "" + fragment == fragment;
  }

  lemma QuotesOfferXFirst(fragment: string)
    requires OnlyQuotes(fragment) && Parse(fragment).Ok?
    ensures var r := OffersUnderAll(SmallFlake(), ["p.x.", ""], fragment, "");
            r.Ok? && r.value != [] && r.value[0] == "x"
  {
    QuotesOfferX(fragment);
    assert ["p.x.", ""][1..] == [""] && [""][1..] == [];
    OffersOfFirst(SmallFlake(), ["p.x.", ""], fragment, "");
    OffersOfFirst(SmallFlake(), [""], fragment, "");
  }

  /** For each fragment of quotation marks alone that parses there is a flake and a search for which the
      completion offers a name that the search cannot select: the split takes the last component of the
      prefix for the one being typed. */
  lemma QuotesAloneMisleadCompletion(fragment: string)
    requires OnlyQuotes(fragment) && Parse(fragment).Ok?
    ensures var s := Search(["p.x."], []);
            && DottedSearch(s)
            && CompleteFlake(SmallFlake(), s, fragment).Ok? && "x" in CompleteFlake(SmallFlake(), s, fragment).value
            && SelectFlake(SmallFlake(), s, "x").NotProvided?
  {
    var s := Search(["p.x."], []);
    XIsNotProvided(s);
    DottedExample();
    QuotesOfferXFirst(fragment);
    assert Roots(s, fragment) == ["p.x.", ""];
    SortedKeepsNames(OffersUnderAll(SmallFlake(), ["p.x.", ""], fragment, "").value);
  }
}
