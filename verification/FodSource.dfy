/** Which hash literal of a source file a mismatch may replace, and the mismatch a log reports. */
module FodSource {
  import opened Common
  import opened Sequences
  import opened Fod

  /** One updatable hash binding; the span covers its whole value. */
  datatype Literal = Literal(value: string, start: nat, end: nat, derivationName: Option<string>)

  const NO_LITERAL := "no hash binding found"
  const AMBIGUOUS := "multiple hash literals found"
  const UNSAFE := "the computed hash is not safe to insert"

  function HasValue(value: string): Literal -> bool {
    (literal: Literal) => literal.value == value
  }

  function IsBoundTo(name: string): Literal -> bool {
    (literal: Literal) => literal.derivationName == Some(name)
  }

  /** `find_fod_hash_literal`, on the candidates the parser located. */
  function FindLiteral(candidates: seq<Literal>, specified: string, name: Option<string>): Result<Literal> {
    var exact := Kept(candidates, HasValue(specified));
    if |exact| == 1 then Ok(exact[0])
    else if name.Some? && |Kept(candidates, IsBoundTo(name.value))| == 1 then Ok(Kept(candidates, IsBoundTo(name.value))[0])
    else if |candidates| == 1 then Ok(candidates[0])
    else if candidates == [] then Err(NO_LITERAL)
    else Err(AMBIGUOUS)
  }

  /** The candidate at `k` is unambiguous: the only one with the specified value; or, when that does not
      decide, the only one bound to the named derivation; or, when that does not either, the only one. */
  ghost predicate Unambiguous(candidates: seq<Literal>, specified: string, name: Option<string>, k: int) {
    if exists i :: OnlyAt(candidates, HasValue(specified), i) then OnlyAt(candidates, HasValue(specified), k)
    else if name.Some? && exists i :: OnlyAt(candidates, IsBoundTo(name.value), i) then OnlyAt(candidates, IsBoundTo(name.value), k)
    else |candidates| == 1 && k == 0
  }

  /** A literal is found exactly when one candidate is unambiguous, and then it is that one; without any candidate
      the error says so. */
  lemma FindsTheUnambiguous(candidates: seq<Literal>, specified: string, name: Option<string>)
    ensures FindLiteral(candidates, specified, name).Ok? <==> exists k :: Unambiguous(candidates, specified, name, k)
    ensures forall k :: Unambiguous(candidates, specified, name, k) ==>
              0 <= k < |candidates| && FindLiteral(candidates, specified, name) == Ok(candidates[k])
    ensures FindLiteral(candidates, specified, name).Err? ==>
              FindLiteral(candidates, specified, name).error == if candidates == [] then NO_LITERAL else AMBIGUOUS
  {
    KeptOneIsOnly(candidates, HasValue(specified));
    if i :| OnlyAt(candidates, HasValue(specified), i) {
      KeptOnly(candidates, HasValue(specified), i);
      assert Unambiguous(candidates, specified, name, i);
    } else if name.Some? {
      KeptOneIsOnly(candidates, IsBoundTo(name.value));
      if i :| OnlyAt(candidates, IsBoundTo(name.value), i) {
        KeptOnly(candidates, IsBoundTo(name.value), i);
        assert Unambiguous(candidates, specified, name, i);
      } else if |candidates| == 1 {
        assert Unambiguous(candidates, specified, name, 0);
      }
    } else if |candidates| == 1 {
      assert Unambiguous(candidates, specified, name, 0);
    }
  }

  function Upto(s: string, n: nat): string {
    if n <= |s| then s[..n] else s
  }

  function From(s: string, n: nat): string {
    if n <= |s| then s[n..] else ""
  }

  /** `replace_fod_hash`, on the encoded text. */
  function ReplaceHash(source: string, literal: Literal, got: string): Result<string> {
    if '"' in got || '\n' in got then Err(UNSAFE)
    else Ok(Upto(source, literal.start) + "\"" + got + "\"" + From(source, literal.end))
  }

  function InQuotes(value: string): string {
    "\"" + value + "\""
  }

  /** For every literal that lies in the source, a quoted string or a symbol: the replacement is refused
      exactly for an unsafe hash; else the new text holds the quoted hash where the literal starts, and
      everything before and after the literal is what it was. So putting the text of a quoted literal
      back where the hash stands restores the source. */
  lemma ReplacementIsLocal(source: string, literal: Literal, got: string)
    requires literal.start <= literal.end <= |source|
    ensures var r := ReplaceHash(source, literal, got);
            && (r.Ok? <==> '"' !in got && '\n' !in got)
            && (r.Ok? ==>
                  && |r.value| == |source| - (literal.end - literal.start) + |InQuotes(got)|
                  && r.value[..literal.start] == source[..literal.start]
                  && r.value[literal.start..literal.start + |InQuotes(got)|] == InQuotes(got)
                  && r.value[literal.start + |InQuotes(got)|..] == source[literal.end..])
    ensures var r, updated := ReplaceHash(source, literal, got), literal.(value := got, end := literal.start + |got| + 2);
            r.Ok? && source[literal.start..literal.end] == InQuotes(literal.value)
            && '"' !in literal.value && '\n' !in literal.value ==>
              ReplaceHash(r.value, updated, literal.value) == Ok(source)
  {
    var before, after := source[..literal.start], source[literal.end..];
    assert before + "\"" + got + "\"" + after == before + InQuotes(got) + after;
    assert source == before + source[literal.start..literal.end] + after;
    assert before + "\"" + literal.value + "\"" + after == before + InQuotes(literal.value) + after;
  }

  // ---- The mismatch of a log ----

  /** Some derivation is reported with two different mismatches. */
  predicate HasConflict(found: seq<Mismatch>) {
    exists i, j :: 0 <= i < j < |found| && found[i].drvPath == found[j].drvPath && found[i] != found[j]
  }

  /** The first mismatch of a log without conflicts. */
  function UniqueMismatch(found: seq<Mismatch>): Option<Mismatch> {
    if found == [] || HasConflict(found) then None else Some(found[0])
  }

  /** The groups `extract_unique_fod_hash_mismatch` makes: one for each derivation, in log order. */
  ghost predicate Grouped(found: seq<Mismatch>, groups: map<Option<string>, seq<Mismatch>>, order: seq<Option<string>>) {
    && (forall k :: k in groups <==> k in order)
    && (forall k :: k in groups ==> groups[k] != [])
    && (forall k, m :: k in groups && m in groups[k] ==> m in found && m.drvPath == k)
    && (forall m :: m in found ==> m.drvPath in groups && m in groups[m.drvPath])
    && (found == [] ==> order == [])
    && (found != [] ==> order != [] && order[0] == found[0].drvPath && groups[order[0]][0] == found[0])
  }

  lemma GroupedGrows(found: seq<Mismatch>, groups: map<Option<string>, seq<Mismatch>>, order: seq<Option<string>>, m: Mismatch)
    requires Grouped(found, groups, order)
    ensures var k := m.drvPath;
            if k in groups then Grouped(found + [m], groups[k := groups[k] + [m]], order)
            else Grouped(found + [m], groups[k := [m]], order + [k])
  {
  }

  lemma ConflictInGroup(found: seq<Mismatch>, groups: map<Option<string>, seq<Mismatch>>, order: seq<Option<string>>, k: Option<string>)
    requires Grouped(found, groups, order) && k in groups
    requires exists m :: m in groups[k] && m != groups[k][0]
    ensures HasConflict(found)
  {
  }

  method UniformGroup(items: seq<Mismatch>) returns (uniform: bool)
    requires items != []
    ensures uniform <==> forall m :: m in items ==> m == items[0]
  {
    for i := 1 to |items|
      invariant forall j :: 0 <= j < i ==> items[j] == items[0]
    {
      if items[i] != items[0] {
        assert items[i] in items;
        return false;
      }
    }
    return true;
  }

  /** `extract_unique_fod_hash_mismatch`, on the mismatches that the log messages hold. */
  method ExtractUnique(found: seq<Mismatch>) returns (r: Option<Mismatch>)
    ensures r == UniqueMismatch(found)
  {
    var groups: map<Option<string>, seq<Mismatch>> := map[];
    var order: seq<Option<string>> := [];
    for i := 0 to |found|
      invariant Grouped(found[..i], groups, order)
    {
      var m := found[i];
      GroupedGrows(found[..i], groups, order, m);
      assert found[..i + 1] == found[..i] + [m];
      if m.drvPath in groups {
        groups := groups[m.drvPath := groups[m.drvPath] + [m]];
      } else {
        groups, order := groups[m.drvPath := [m]], order + [m.drvPath];
      }
    }
    assert found[..|found|] == found;
    if order == [] {
      return None;
    }
    for i := 0 to |order|
      invariant forall j, m :: 0 <= j < i && m in groups[order[j]] ==> m == groups[order[j]][0]
    {
      var uniform := UniformGroup(groups[order[i]]);
      if !uniform {
        ConflictInGroup(found, groups, order, order[i]);
        return None;
      }
    }
    NoConflict(found, groups, order);
    return Some(groups[order[0]][0]);
  }

  lemma NoConflict(found: seq<Mismatch>, groups: map<Option<string>, seq<Mismatch>>, order: seq<Option<string>>)
    requires Grouped(found, groups, order) && order != []
    requires forall j, m :: 0 <= j < |order| && m in groups[order[j]] ==> m == groups[order[j]][0]
    ensures found != [] && !HasConflict(found)
  {
  }
}
