/** nix.conf text: how settings are written, and how a file and a value are read back. */
module NixConf {
  import opened Common
  import opened Sequences
  import opened Text

  /** The characters `str.splitlines` breaks a text at. */
  predicate IsBreak(c: char) {
    var n := c as int;
    10 <= n <= 13 || 28 <= n <= 30 || n == 133 || 8232 <= n <= 8233
  }

  /** The characters `str.strip` and `str.split` treat as blank. Every line break is one. */
  predicate IsBlank(c: char) {
    var n := c as int;
    IsBreak(c) || n == 9 || 31 <= n <= 32 || n == 160 || n == 5760 || 8192 <= n <= 8202 || n == 8239 || n == 8287 || n == 12288
  }

  predicate NoBreak(text: string) {
    forall i :: 0 <= i < |text| ==> !IsBreak(text[i])
  }

  predicate NoBlank(text: string) {
    forall i :: 0 <= i < |text| ==> !IsBlank(text[i])
  }

  predicate IsSolid(c: char) {
    !IsBlank(c)
  }

  predicate Stripped(text: string) {
    text != "" ==> IsSolid(text[0]) && IsSolid(text[|text| - 1])
  }

  /** `str.strip`. */
  function Strip(text: string): string {
    var from, to := FirstWhere(text, IsSolid), LastWhere(text, IsSolid);
    if from < to then text[from..to] else ""
  }

  lemma StripIsClean(text: string)
    ensures Stripped(Strip(text))
    ensures Stripped(text) ==> Strip(text) == text
    ensures NoBreak(text) ==> NoBreak(Strip(text))
  {
  }

  /** `str.split` without arguments. */
  function Words(text: string): seq<string>
    decreases |text|
  {
    if text == "" then []
    else if IsBlank(text[0]) then Words(text[1..])
    else
      var k := FirstWhere(text, IsBlank);
      [text[..k]] + Words(text[k..])
  }

  /** `str.splitlines`, except that it also gives the empty lines inside "\r\n" and after a last break,
      which every reader below skips. */
  function Lines(text: string): seq<string>
    decreases |text|
  {
    var k := FirstWhere(text, IsBreak);
    if k == |text| then [text] else [text[..k]] + Lines(text[k + 1..])
  }

  predicate SolidWord(w: string) {
    w != "" && NoBlank(w)
  }

  lemma {:induction false} WordsAreSolid(text: string)
    ensures forall i :: 0 <= i < |Words(text)| ==> SolidWord(Words(text)[i])
    decreases |text|
  {
    if text != "" {
      if IsBlank(text[0]) {
        WordsAreSolid(text[1..]);
      } else {
        WordsAreSolid(text[FirstWhere(text, IsBlank)..]);
      }
    }
  }

  lemma {:induction false} WordsOfJoin(words: seq<string>)
    requires forall i :: 0 <= i < |words| ==> SolidWord(words[i])
    ensures Words(Join(" ", words)) == words
    decreases |words|
  {
    if words != [] {
      var text := Join(" ", words);
      FirstWhereIs(text, IsBlank, |words[0]|);
      assert text[..|words[0]|] == words[0];
      assert words == [words[0]] + words[1..];
      if |words| == 1 {
        assert text[|words[0]|..] == "";
      } else {
        WordsOfJoin(words[1..]);
        assert text[|words[0]|..] == " " + Join(" ", words[1..]);
        assert (" " + Join(" ", words[1..]))[1..] == Join(" ", words[1..]);
      }
    }
  }

  lemma {:induction false} LinesHaveNoBreak(text: string)
    ensures forall i :: 0 <= i < |Lines(text)| ==> NoBreak(Lines(text)[i])
    decreases |text|
  {
    var k := FirstWhere(text, IsBreak);
    if k < |text| {
      LinesHaveNoBreak(text[k + 1..]);
    }
  }

  lemma {:induction false} LinesOfJoin(lines: seq<string>)
    requires lines != [] && forall i :: 0 <= i < |lines| ==> NoBreak(lines[i])
    ensures Lines(Join("\n", lines)) == lines
    decreases |lines|
  {
    var text := Join("\n", lines);
    FirstWhereIs(text, IsBreak, |lines[0]|);
    assert text[..|lines[0]|] == lines[0];
    assert lines == [lines[0]] + lines[1..];
    if |lines| > 1 {
      LinesOfJoin(lines[1..]);
      assert text[|lines[0]| + 1..] == Join("\n", lines[1..]);
    }
  }

  // ---- One value ----

  datatype Value =
    | Flag(flag: bool)
    | Plain(text: string)
    | ListOf(items: seq<string>)
    | DictOf(entries: seq<Entry<string>>)

  function Assignment(e: Entry<string>): string {
    e.key + "=" + e.value
  }

  function Assignments(entries: seq<Entry<string>>): seq<string> {
    seq(|entries|, i requires 0 <= i < |entries| => Assignment(entries[i]))
  }

  /** `_render_value`. A number is its text. */
  function Render(v: Value): string {
    match v
    case Flag(b) => if b then "true" else "false"
    case Plain(text) => text
    case ListOf(items) => Join(" ", items)
    case DictOf(entries) => Join(" ", Assignments(entries))
  }

  const NO_PAIR := "expected key=value pairs separated by spaces"

  function ReadPairs(words: seq<string>): Result<map<string, string>> {
    if words == [] then Ok(map[])
    else
      match ReadPairs(words[..|words| - 1])
      case Err(e) => Err(e)
      case Ok(m) =>
        var last := words[|words| - 1];
        var k := FirstOf(last, '=');
        if k == |last| then Err(NO_PAIR) else Ok(m[last[..k] := last[k + 1..]])
  }

  lemma {:induction false} ReadPairsPrefix(words: seq<string>, i: nat)
    requires i <= |words|
    ensures ReadPairs(words[..i]).Err? ==> ReadPairs(words) == ReadPairs(words[..i])
    decreases |words| - i
  {
    if i < |words| {
      assert words[..i + 1][..i] == words[..i];
      ReadPairsPrefix(words, i + 1);
    } else {
      assert words[..i] == words;
    }
  }

  /** `_parse_nix_conf_value` for a dict field. */
  method ParseDict(text: string) returns (r: Result<map<string, string>>)
    ensures r == ReadPairs(Words(text))
  {
    var words := Words(text);
    var parsed: map<string, string> := map[];
    for i := 0 to |words|
      invariant ReadPairs(words[..i]) == Ok(parsed)
    {
      assert words[..i + 1][..i] == words[..i];
      var word := words[i];
      var k := FirstOf(word, '=');
      if k == |word| {
        ReadPairsPrefix(words, i + 1);
        return Err(NO_PAIR);
      }
      parsed := parsed[word[..k] := word[k + 1..]];
    }
    assert words[..|words|] == words;
    return Ok(parsed);
  }

  /** A list comes back from its text exactly when its items are not empty and hold no blanks. */
  lemma ListRoundTrips(items: seq<string>)
    ensures Words(Render(ListOf(items))) == items <==> forall i :: 0 <= i < |items| ==> SolidWord(items[i])
  {
    if forall i :: 0 <= i < |items| ==> SolidWord(items[i]) {
      WordsOfJoin(items);
    } else {
      WordsAreSolid(Join(" ", items));
    }
  }

  predicate DistinctKeys(entries: seq<Entry<string>>) {
    forall i, j :: 0 <= i < j < |entries| ==> entries[i].key != entries[j].key
  }

  predicate SolidEntry(e: Entry<string>) {
    NoBlank(e.key) && NoBlank(e.value) && '=' !in e.key
  }

  lemma {:induction false} PairsOfAssignments(entries: seq<Entry<string>>)
    requires DistinctKeys(entries) && forall i :: 0 <= i < |entries| ==> '=' !in entries[i].key
    ensures ReadPairs(Assignments(entries)) == Ok(AsMap(entries))
    decreases |entries|
  {
    if entries != [] {
      var init, last := entries[..|entries| - 1], entries[|entries| - 1];
      PairsOfAssignments(init);
      assert Assignments(entries)[..|entries| - 1] == Assignments(init);
      FirstAfter(last.key, '=', last.value);
      assert last.key + ['='] + last.value == Assignment(last);
      AsMapOfMore(init, last);
      assert entries == init + [last];
    } else {
      assert AsMap(entries) == map[];
    }
  }

  lemma AsMapOfMore(init: seq<Entry<string>>, last: Entry<string>)
    requires last.key !in KeysOf(init)
    ensures AsMap(init + [last]) == AsMap(init)[last.key := last.value]
  {
    var all := init + [last];
    assert KeysOf(all) == KeysOf(init) + [last.key];
    forall k | k in KeysOf(init) ensures Get(all, k) == Get(init, k) {
      FindInPrefix(init, last, k);
    }
    assert forall j :: 0 <= j < |init| ==> all[j].key == KeysOf(init)[j];
  }

  lemma {:induction false} FindInPrefix(init: seq<Entry<string>>, last: Entry<string>, k: string)
    requires k in KeysOf(init)
    ensures k in KeysOf(init + [last]) && Find(init + [last], k) == Find(init, k)
  {
    assert KeysOf(init + [last]) == KeysOf(init) + [last.key];
    if init[0].key != k {
      assert KeysOf(init) == [init[0].key] + KeysOf(init[1..]);
      assert (init + [last])[1..] == init[1..] + [last];
      FindInPrefix(init[1..], last, k);
    }
  }

  lemma {:induction false} PairsAreSolid(words: seq<string>)
    requires forall i :: 0 <= i < |words| ==> SolidWord(words[i])
    ensures ReadPairs(words).Ok? ==>
              forall k :: k in ReadPairs(words).value ==>
                NoBlank(k) && '=' !in k && NoBlank(ReadPairs(words).value[k])
    decreases |words|
  {
    if words != [] {
      PairsAreSolid(words[..|words| - 1]);
    }
  }

  lemma ReadDictIsSolid(text: string, entries: seq<Entry<string>>)
    requires DistinctKeys(entries) && ReadPairs(Words(text)) == Ok(AsMap(entries))
    ensures forall i :: 0 <= i < |entries| ==> SolidEntry(entries[i])
  {
    WordsAreSolid(text);
    PairsAreSolid(Words(text));
    forall i | 0 <= i < |entries| ensures SolidEntry(entries[i]) {
      EntryIsInMap(entries, i);
    }
  }

  /** A dict comes back from its text exactly when its keys and values hold no blanks and its keys no '='. */
  lemma DictRoundTrips(entries: seq<Entry<string>>)
    requires DistinctKeys(entries)
    ensures ReadPairs(Words(Render(DictOf(entries)))) == Ok(AsMap(entries))
            <==> forall i :: 0 <= i < |entries| ==> SolidEntry(entries[i])
  {
    if forall i :: 0 <= i < |entries| ==> SolidEntry(entries[i]) {
      WordsOfJoin(Assignments(entries));
      PairsOfAssignments(entries);
    } else if ReadPairs(Words(Render(DictOf(entries)))) == Ok(AsMap(entries)) {
      ReadDictIsSolid(Render(DictOf(entries)), entries);
    }
  }

  lemma EntryIsInMap(entries: seq<Entry<string>>, i: nat)
    requires DistinctKeys(entries) && i < |entries|
    ensures entries[i].key in AsMap(entries) && AsMap(entries)[entries[i].key] == entries[i].value
  {
    assert KeysOf(entries)[i] == entries[i].key;
    var j := Find(entries, entries[i].key);
    assert i == j;
  }

  // ---- A file ----

  /** A field of a settings model; `problem` says why this Nix version does not know it. */
  datatype Field = Field(key: string, value: Option<Value>, problem: Option<string>)

  /** `_iter_set`: unset fields are left out, and so is a value that renders to nothing without being a text. */
  function IterSet(fields: seq<Field>): Result<seq<Entry<string>>> {
    if fields == [] then Ok([])
    else
      var f := fields[0];
      if f.value.None? then IterSet(fields[1..])
      else if f.problem.Some? then Err(f.problem.value)
      else
        match IterSet(fields[1..])
        case Err(e) => Err(e)
        case Ok(rest) =>
          var text := Render(f.value.value);
          if text == "" && !f.value.value.Plain? then Ok(rest) else Ok([Entry(f.key, text)] + rest)
  }

  /** A container without items, or a list of one empty item: it leaves no text. */
  predicate IsBare(v: Value) {
    match v
    case Flag(_) => false
    case Plain(_) => false
    case ListOf(items) => items == [] || items == [""]
    case DictOf(entries) => entries == []
  }

  lemma BareRendersToNothing(v: Value)
    ensures IsBare(v) <==> Render(v) == "" && !v.Plain?
  {
    if v.DictOf? && v.entries != [] {
      assert Assignments(v.entries)[0] == v.entries[0].key + "=" + v.entries[0].value;
      assert |Assignments(v.entries)[0]| > 0;
    }
  }

  /** How each kind of value is spelled: a flag as one of two words, a text as it is, a container by its items or
      its `key=value` pairs with one blank between. */
  ghost predicate Spells(text: string, v: Value) {
    match v
    case Flag(b) => ReadFlag(text) == Some(b)
    case Plain(t) => text == t
    case ListOf(items) => text == Join(" ", items)
    case DictOf(entries) =>
      exists pairs :: |pairs| == |entries| && text == Join(" ", pairs)
                      && forall i :: 0 <= i < |pairs| ==> pairs[i] == entries[i].key + "=" + entries[i].value
  }

  lemma RenderSpells(v: Value)
    ensures Spells(Render(v), v)
    ensures forall text :: Spells(text, v) ==> text == Render(v)
  {
    if v.DictOf? {
      var pairs := Assignments(v.entries);
      assert forall i :: 0 <= i < |pairs| ==> pairs[i] == v.entries[i].key + "=" + v.entries[i].value;
      forall text | Spells(text, v) ensures text == Render(v) {
        var ps :| |ps| == |v.entries| && text == Join(" ", ps)
                  && forall i :: 0 <= i < |ps| ==> ps[i] == v.entries[i].key + "=" + v.entries[i].value;
        assert ps == pairs;
      }
    }
  }

  predicate Written(f: Field) {
    f.value.Some? && !IsBare(f.value.value)
  }

  /** The entry that a written field makes. */
  ghost predicate EntryOf(e: Entry<string>, f: Field) {
    Written(f) && e.key == f.key && Spells(e.value, f.value.value)
  }

  lemma IterSetStep(fields: seq<Field>)
    requires fields != []
    ensures var f, rest, r := fields[0], IterSet(fields[1..]), IterSet(fields);
            if f.value.Some? && f.problem.Some? then r.Err?
            else if rest.Err? then r.Err?
            else if Written(f) then r.Ok? && |r.value| == |rest.value| + 1 && EntryOf(r.value[0], f) && r.value[1..] == rest.value
            else r == rest
  {
    var f := fields[0];
    if f.value.Some? {
      BareRendersToNothing(f.value.value);
      RenderSpells(f.value.value);
    }
  }

  /** The entries are those of the fields, one for each and in their order. */
  ghost predicate EntriesOf(entries: seq<Entry<string>>, fields: seq<Field>) {
    |entries| == |fields| && forall i :: 0 <= i < |fields| ==> EntryOf(entries[i], fields[i])
  }

  lemma EntriesOfOneMore(e: Entry<string>, f: Field, entries: seq<Entry<string>>, fields: seq<Field>)
    requires EntryOf(e, f) && EntriesOf(entries, fields)
    ensures EntriesOf([e] + entries, [f] + fields)
  {
  }

  lemma KeptOfFirst(f: Field, rest: seq<Field>)
    ensures Kept([f] + rest, Written) == if Written(f) then [f] + Kept(rest, Written) else Kept(rest, Written)
  {
    KeptOfSum([f], rest, Written);
    KeptOfOne(f, Written);
    assert [] + Kept(rest, Written) == Kept(rest, Written);
  }

  /** Rendering the fields fails exactly when a set field is not known to this Nix version; otherwise the
      entries are those of the written fields, in their order. */
  lemma {:induction false} IterSetIsExact(fields: seq<Field>)
    ensures IterSet(fields).Err? <==> exists i :: 0 <= i < |fields| && fields[i].value.Some? && fields[i].problem.Some?
    ensures IterSet(fields).Ok? ==> EntriesOf(IterSet(fields).value, Kept(fields, Written))
  {
    if fields != [] {
      var rest := fields[1..];
      IterSetIsExact(rest);
      IterSetStep(fields);
      assert fields == [fields[0]] + rest;
      KeptOfFirst(fields[0], rest);
      if IterSet(fields).Ok? && Written(fields[0]) {
        var r := IterSet(fields).value;
        EntriesOfOneMore(r[0], fields[0], IterSet(rest).value, Kept(rest, Written));
        assert r == [r[0]] + r[1..];
      }
    }
  }

  predicate DistinctFields(fields: seq<Field>) {
    forall i, j :: 0 <= i < j < |fields| ==> fields[i].key != fields[j].key
  }

  lemma {:induction false} KeptFieldsAreDistinct(fields: seq<Field>)
    requires DistinctFields(fields)
    ensures DistinctFields(Kept(fields, Written))
    decreases |fields|
  {
    if fields != [] {
      var init := fields[..|fields| - 1];
      KeptFieldsAreDistinct(init);
      KeptMembers(init, Written);
      KeptOfLast(fields, Written);
      var kept := Kept(init, Written);
      forall i | 0 <= i < |kept| ensures kept[i].key != fields[|init|].key {
        assert kept[i] in kept && kept[i] in init;
      }
    }
  }

  /** When each field has its own key, so has each entry. */
  lemma EntriesAreDistinct(fields: seq<Field>)
    requires DistinctFields(fields) && IterSet(fields).Ok?
    ensures DistinctKeys(IterSet(fields).value)
  {
    IterSetIsExact(fields);
    KeptFieldsAreDistinct(fields);
  }

  function SettingLine(e: Entry<string>): string {
    e.key + " = " + e.value
  }

  function SettingLines(entries: seq<Entry<string>>): seq<string> {
    seq(|entries|, i requires 0 <= i < |entries| => SettingLine(entries[i]))
  }

  /** `to_nix_config`. */
  function ToNixConfig(entries: seq<Entry<string>>): string {
    Join("\n", SettingLines(entries))
  }

  const BAD_LINE := "invalid nix.conf setting line"

  datatype Line = Skipped | Setting(key: string, value: string) | Bad

  function ReadLine(line: string): Line {
    ReadText(Strip(line))
  }

  function ReadText(text: string): Line {
    if text == "" || text[0] == '#' then Skipped
    else
      var k := FirstOf(text, '=');
      if k == |text| then Bad else Setting(Strip(text[..k]), Strip(text[k + 1..]))
  }

  function ReadLines(lines: seq<string>): Result<map<string, string>> {
    if lines == [] then Ok(map[])
    else
      match ReadLines(lines[..|lines| - 1])
      case Err(e) => Err(e)
      case Ok(m) =>
        match ReadLine(lines[|lines| - 1])
        case Skipped => Ok(m)
        case Setting(key, value) => Ok(m[key := value])
        case Bad => Err(BAD_LINE)
  }

  lemma {:induction false} ReadLinesPrefix(lines: seq<string>, i: nat)
    requires i <= |lines|
    ensures ReadLines(lines[..i]).Err? ==> ReadLines(lines) == ReadLines(lines[..i])
    decreases |lines| - i
  {
    if i < |lines| {
      assert lines[..i + 1][..i] == lines[..i];
      ReadLinesPrefix(lines, i + 1);
    } else {
      assert lines[..i] == lines;
    }
  }

  lemma ReadLinesOneMore(lines: seq<string>, i: nat)
    requires i < |lines| && ReadLines(lines[..i]).Ok?
    ensures ReadLines(lines[..i + 1]) ==
            match ReadLine(lines[i])
            case Skipped => ReadLines(lines[..i])
            case Setting(key, value) => Ok(ReadLines(lines[..i]).value[key := value])
            case Bad => Err(BAD_LINE)
  {
    assert lines[..i + 1][..i] == lines[..i];
  }

  /** One pass of the loop of `_parse_nix_conf`. */
  method ReadOneLine(line: string) returns (r: Line)
    ensures r == ReadLine(line)
  {
    var stripped := Strip(line);
    if stripped == "" || stripped[0] == '#' {
      return Skipped;
    }
    var k := FirstOf(stripped, '=');
    if k == |stripped| {
      return Bad;
    }
    return Setting(Strip(stripped[..k]), Strip(stripped[k + 1..]));
  }

  /** `_parse_nix_conf`. */
  method ParseNixConf(text: string) returns (r: Result<map<string, string>>)
    ensures r == ReadLines(Lines(text))
  {
    var lines := Lines(text);
    var raw: map<string, string> := map[];
    for i := 0 to |lines|
      invariant ReadLines(lines[..i]) == Ok(raw)
    {
      ReadLinesOneMore(lines, i);
      var line := ReadOneLine(lines[i]);
      match line {
        case Skipped =>
        case Setting(key, value) =>
          raw := raw[key := value];
        case Bad =>
          ReadLinesPrefix(lines, i + 1);
          return Err(BAD_LINE);
      }
    }
    assert lines[..|lines|] == lines;
    return Ok(raw);
  }

  predicate CleanKey(key: string) {
    NoBreak(key) && Stripped(key) && '=' !in key && (key != "" ==> key[0] != '#')
  }

  predicate CleanEntry(e: Entry<string>) {
    CleanKey(e.key) && NoBreak(e.value) && Stripped(e.value)
  }

  lemma StripIs(text: string, from: nat, to: nat)
    requires from <= to <= |text|
    requires (forall i :: 0 <= i < from ==> IsBlank(text[i])) && (forall i :: to <= i < |text| ==> IsBlank(text[i]))
    requires from < to ==> IsSolid(text[from]) && IsSolid(text[to - 1])
    ensures Strip(text) == text[from..to]
  {
  }

  /** The two sides of the '=' that stripping the line of a setting leaves. */
  function LeftOf(e: Entry<string>): string {
    if e.key == "" then "" else e.key + " "
  }

  function RightOf(e: Entry<string>): string {
    if e.value == "" then "" else " " + e.value
  }

  /** A text between two blank margins. */
  lemma MarginsStrip(before: string, middle: string, after: string)
    requires (forall i :: 0 <= i < |before| ==> IsBlank(before[i])) && (forall i :: 0 <= i < |after| ==> IsBlank(after[i]))
    requires Stripped(middle)
    ensures Strip(before + middle + after) == middle
  {
    var text := before + middle + after;
    assert forall i :: |before| + |middle| <= i < |text| ==> text[i] == after[i - |before| - |middle|];
    StripIs(text, |before|, |before| + |middle|);
    assert text[|before|..|before| + |middle|] == middle;
  }

  lemma SettingLineStrips(e: Entry<string>)
    requires CleanEntry(e)
    ensures Strip(SettingLine(e)) == LeftOf(e) + ['='] + RightOf(e)
  {
    var middle := LeftOf(e) + ['='] + RightOf(e);
    var before, after := if e.key == "" then " " else "", if e.value == "" then " " else "";
    SettingLineParts(e);
    MiddleIsStripped(e);
    MarginsStrip(before, middle, after);
  }

  lemma SettingLineParts(e: Entry<string>)
    ensures SettingLine(e) ==
            (if e.key == "" then " " else "") + (LeftOf(e) + ['='] + RightOf(e)) + (if e.value == "" then " " else "")
  {
    assert " = " == " " + ['='] + " ";
    assert e.key == "" ==> e.key + " = " == " = ";
    assert e.value == "" ==> " = " + e.value == " = ";
  }

  lemma MiddleIsStripped(e: Entry<string>)
    requires Stripped(e.key) && Stripped(e.value)
    ensures Stripped(LeftOf(e) + ['='] + RightOf(e))
  {
    var middle := LeftOf(e) + ['='] + RightOf(e);
    assert middle[0] == (if e.key == "" then '=' else e.key[0]);
    assert middle[|middle| - 1] == (if e.value == "" then '=' else e.value[|e.value| - 1]);
  }

  lemma SidesStrip(e: Entry<string>)
    requires CleanEntry(e)
    ensures Strip(LeftOf(e)) == e.key && Strip(RightOf(e)) == e.value && '=' !in LeftOf(e)
  {
    var after, before := if e.key == "" then "" else " ", if e.value == "" then "" else " ";
    MarginsStrip("", e.key, after);
    assert LeftOf(e) == "" + e.key + after;
    MarginsStrip(before, e.value, "");
    assert RightOf(e) == before + e.value + "";
  }

  lemma SettingTextReads(e: Entry<string>)
    requires CleanEntry(e)
    ensures ReadText(LeftOf(e) + ['='] + RightOf(e)) == Setting(e.key, e.value)
  {
    SidesStrip(e);
    FirstAfter(LeftOf(e), '=', RightOf(e));
    assert (LeftOf(e) + ['='] + RightOf(e))[0] != '#';
  }

  lemma SettingLineHasNoBreak(e: Entry<string>)
    requires NoBreak(e.key) && NoBreak(e.value)
    ensures NoBreak(SettingLine(e))
  {
  }

  /** A clean setting is read from the line it is written as. */
  lemma LineRoundTrips(e: Entry<string>)
    requires CleanEntry(e)
    ensures ReadLine(SettingLine(e)) == Setting(e.key, e.value) && NoBreak(SettingLine(e))
  {
    SettingLineStrips(e);
    SettingTextReads(e);
    SettingLineHasNoBreak(e);
  }

  lemma ReadOneMore(lines: seq<string>, line: string, e: Entry<string>, m: map<string, string>)
    requires ReadLines(lines) == Ok(m) && ReadLine(line) == Setting(e.key, e.value)
    ensures ReadLines(lines + [line]) == Ok(m[e.key := e.value])
  {
    assert (lines + [line])[..|lines + [line]| - 1] == lines;
  }

  lemma LinesOneMore(init: seq<Entry<string>>, last: Entry<string>, m: map<string, string>)
    requires ReadLines(SettingLines(init)) == Ok(m) && CleanEntry(last)
    ensures ReadLines(SettingLines(init + [last])) == Ok(m[last.key := last.value])
  {
    LineRoundTrips(last);
    ReadOneMore(SettingLines(init), SettingLine(last), last, m);
    assert SettingLines(init + [last]) == SettingLines(init) + [SettingLine(last)];
  }

  lemma {:induction false} LinesRoundTrip(entries: seq<Entry<string>>)
    requires DistinctKeys(entries) && forall i :: 0 <= i < |entries| ==> CleanEntry(entries[i])
    ensures ReadLines(SettingLines(entries)) == Ok(AsMap(entries))
    decreases |entries|
  {
    if entries == [] {
      assert AsMap(entries) == map[];
    } else {
      var init, last := entries[..|entries| - 1], entries[|entries| - 1];
      assert entries == init + [last];
      LinesRoundTrip(init);
      assert CleanEntry(last);
      LastIsNew(entries);
      LinesOneMore(init, last, AsMap(init));
      AsMapOfMore(init, last);
    }
  }

  lemma LastIsNew(entries: seq<Entry<string>>)
    requires DistinctKeys(entries) && entries != []
    ensures entries[|entries| - 1].key !in KeysOf(entries[..|entries| - 1])
  {
  }

  /** Stripping a text that starts with no blank keeps its first character, and adds none. */
  lemma StripKeepsStart(text: string, c: char)
    ensures c !in text ==> c !in Strip(text)
    ensures text != "" && IsSolid(text[0]) ==> Strip(text) != "" && Strip(text)[0] == text[0]
  {
    if text != "" && IsSolid(text[0]) {
      FirstWhereIs(text, IsSolid, 0);
    }
  }

  lemma TextIsClean(text: string)
    requires NoBreak(text) && Stripped(text) && ReadText(text).Setting?
    ensures CleanEntry(Entry(ReadText(text).key, ReadText(text).value))
  {
    var k := FirstOf(text, '=');
    StripIsClean(text[..k]);
    StripIsClean(text[k + 1..]);
    StripKeepsStart(text[..k], '=');
  }

  lemma KeyIsClean(line: string)
    requires NoBreak(line) && ReadLine(line).Setting?
    ensures CleanEntry(Entry(ReadLine(line).key, ReadLine(line).value))
  {
    StripIsClean(line);
    TextIsClean(Strip(line));
  }

  lemma {:induction false} MapIsClean(lines: seq<string>)
    requires forall i :: 0 <= i < |lines| ==> NoBreak(lines[i])
    ensures ReadLines(lines).Ok? ==> forall k :: k in ReadLines(lines).value ==> CleanEntry(Entry(k, ReadLines(lines).value[k]))
    decreases |lines|
  {
    if lines != [] {
      MapIsClean(lines[..|lines| - 1]);
      if ReadLine(lines[|lines| - 1]).Setting? {
        KeyIsClean(lines[|lines| - 1]);
      }
    }
  }

  /** Reading the text that `to_nix_config` writes recovers the settings exactly when no key or value holds
      a line break or an outer blank, no key holds '=' and none starts with '#'. */
  lemma FileRoundTrips(entries: seq<Entry<string>>)
    requires DistinctKeys(entries)
    ensures ReadLines(Lines(ToNixConfig(entries))) == Ok(AsMap(entries))
            <==> forall i :: 0 <= i < |entries| ==> CleanEntry(entries[i])
  {
    var text := ToNixConfig(entries);
    if forall i :: 0 <= i < |entries| ==> CleanEntry(entries[i]) {
      if entries == [] {
        assert Lines(text) == [""] && ReadLine("") == Skipped;
        assert [""][..0] == [] && AsMap(entries) == map[];
      } else {
        forall i | 0 <= i < |entries| ensures NoBreak(SettingLine(entries[i])) {
          LineRoundTrips(entries[i]);
        }
        LinesOfJoin(SettingLines(entries));
        LinesRoundTrip(entries);
      }
    } else if ReadLines(Lines(text)) == Ok(AsMap(entries)) {
      var i :| 0 <= i < |entries| && !CleanEntry(entries[i]);
      LinesHaveNoBreak(text);
      MapIsClean(Lines(text));
      EntryIsInMap(entries, i);
    }
  }

  lemma {:induction false} SolidWordsJoinClean(words: seq<string>)
    requires forall i :: 0 <= i < |words| ==> SolidWord(words[i])
    ensures NoBreak(Join(" ", words)) && Stripped(Join(" ", words)) && (words != [] ==> Join(" ", words) != "")
    decreases |words|
  {
    if |words| > 1 {
      SolidWordsJoinClean(words[1..]);
    }
  }

  lemma CleanValueRendersClean(v: Value)
    requires CleanValue(v)
    ensures NoBreak(Render(v)) && Stripped(Render(v))
  {
    if v.ListOf? {
      SolidWordsJoinClean(v.items);
    } else if v.DictOf? {
      SolidWordsJoinClean(Assignments(v.entries));
    }
  }

  /** The two words of a flag. */
  function ReadFlag(text: string): Option<bool> {
    if text == "true" then Some(true) else if text == "false" then Some(false) else None
  }

  /** The text gives the value back, as its field reads it. */
  ghost predicate ReadsBack(v: Value, text: string) {
    match v
    case Flag(b) => ReadFlag(text) == Some(b)
    case Plain(t) => text == t
    case ListOf(items) => Words(text) == items
    case DictOf(entries) => ReadPairs(Words(text)) == Ok(AsMap(entries))
  }

  /** A value that survives its own text and a line of the file. */
  predicate CleanValue(v: Value) {
    match v
    case Flag(_) => true
    case Plain(text) => NoBreak(text) && Stripped(text)
    case ListOf(items) => forall i :: 0 <= i < |items| ==> SolidWord(items[i])
    case DictOf(entries) => forall i :: 0 <= i < |entries| ==> SolidEntry(entries[i])
  }

  predicate IsDict(v: Value) {
    v.DictOf? ==> DistinctKeys(v.entries)
  }

  lemma CleanValueReadsBack(v: Value)
    requires IsDict(v) && CleanValue(v)
    ensures ReadsBack(v, Render(v))
  {
    if v.ListOf? {
      ListRoundTrips(v.items);
    } else if v.DictOf? {
      DictRoundTrips(v.entries);
    }
  }

  lemma ReadBackIsClean(v: Value, text: string)
    requires IsDict(v) && ReadsBack(v, text) && NoBreak(text) && Stripped(text)
    ensures CleanValue(v)
  {
    if v.ListOf? {
      WordsAreSolid(text);
    } else if v.DictOf? {
      ReadDictIsSolid(text, v.entries);
    }
  }

  /** Fields of one model: each key once, and the keys of a dict field too. */
  ghost predicate FieldsOk(fields: seq<Field>) {
    && DistinctFields(fields)
    && (forall i :: 0 <= i < |fields| && fields[i].value.Some? ==> IsDict(fields[i].value.value))
  }

  /** What was read are the written fields, and each gives its value back. */
  ghost predicate Recovered(fields: seq<Field>, r: Result<map<string, string>>) {
    && r.Ok?
    && (forall k :: k in r.value ==> exists i :: 0 <= i < |fields| && Written(fields[i]) && fields[i].key == k)
    && (forall i :: 0 <= i < |fields| && Written(fields[i]) ==>
          fields[i].key in r.value && ReadsBack(fields[i].value.value, r.value[fields[i].key]))
  }

  predicate CleanField(f: Field)
    requires f.value.Some?
  {
    CleanKey(f.key) && CleanValue(f.value.value)
  }

  ghost predicate AllClean(fields: seq<Field>) {
    forall i :: 0 <= i < |fields| && Written(fields[i]) ==> CleanField(fields[i])
  }

  /** Each entry comes from a written field and spells its value. */
  lemma EntryHasField(fields: seq<Field>, j: nat) returns (i: nat)
    requires IterSet(fields).Ok? && j < |IterSet(fields).value|
    ensures i < |fields| && Written(fields[i]) && IterSet(fields).value[j] == Entry(fields[i].key, Render(fields[i].value.value))
  {
    IterSetIsExact(fields);
    KeptMembers(fields, Written);
    var f := Kept(fields, Written)[j];
    assert f in Kept(fields, Written);
    i :| 0 <= i < |fields| && fields[i] == f;
    RenderSpells(f.value.value);
  }

  lemma FieldHasEntry(fields: seq<Field>, i: nat) returns (j: nat)
    requires IterSet(fields).Ok? && i < |fields| && Written(fields[i])
    ensures j < |IterSet(fields).value| && IterSet(fields).value[j] == Entry(fields[i].key, Render(fields[i].value.value))
  {
    IterSetIsExact(fields);
    KeptMembers(fields, Written);
    assert fields[i] in Kept(fields, Written);
    j :| 0 <= j < |Kept(fields, Written)| && Kept(fields, Written)[j] == fields[i];
    RenderSpells(fields[i].value.value);
  }

  lemma CleanFieldsAreRead(fields: seq<Field>)
    requires FieldsOk(fields) && IterSet(fields).Ok? && AllClean(fields)
    ensures var entries := IterSet(fields).value;
            DistinctKeys(entries) && ReadLines(Lines(ToNixConfig(entries))) == Ok(AsMap(entries))
  {
    EntriesAreDistinct(fields);
    var entries := IterSet(fields).value;
    forall j | 0 <= j < |entries| ensures CleanEntry(entries[j]) {
      var i := EntryHasField(fields, j);
      CleanValueRendersClean(fields[i].value.value);
    }
    FileRoundTrips(entries);
  }

  lemma CleanFieldsAreRecovered(fields: seq<Field>)
    requires FieldsOk(fields) && IterSet(fields).Ok? && AllClean(fields)
    ensures Recovered(fields, ReadLines(Lines(ToNixConfig(IterSet(fields).value))))
  {
    CleanFieldsAreRead(fields);
    var entries := IterSet(fields).value;
    var m := AsMap(entries);
    forall k | k in m ensures exists i :: 0 <= i < |fields| && Written(fields[i]) && fields[i].key == k {
      var i := EntryHasField(fields, Find(entries, k));
    }
    forall i | 0 <= i < |fields| && Written(fields[i])
      ensures fields[i].key in m && ReadsBack(fields[i].value.value, m[fields[i].key])
    {
      var j := FieldHasEntry(fields, i);
      EntryIsInMap(entries, j);
      CleanValueReadsBack(fields[i].value.value);
    }
  }

  /** From the fields of a model to the file and back: every written field gives its value back, and nothing
      else is read, exactly when their keys and values are clean. */
  lemma SettingsRoundTrip(fields: seq<Field>)
    requires FieldsOk(fields) && IterSet(fields).Ok?
    ensures Recovered(fields, ReadLines(Lines(ToNixConfig(IterSet(fields).value)))) <==> AllClean(fields)
  {
    var lines := Lines(ToNixConfig(IterSet(fields).value));
    if AllClean(fields) {
      CleanFieldsAreRecovered(fields);
    }
    if Recovered(fields, ReadLines(lines)) {
      LinesHaveNoBreak(ToNixConfig(IterSet(fields).value));
      MapIsClean(lines);
      forall i | 0 <= i < |fields| && Written(fields[i]) ensures CleanField(fields[i]) {
        var text := ReadLines(lines).value[fields[i].key];
        assert CleanEntry(Entry(fields[i].key, text));
        ReadBackIsClean(fields[i].value.value, text);
      }
    }
  }

  // ---- What a file looks like ----

  /** A file is one line `key = value` for each entry. */
  lemma AFileIsItsLines(e: Entry<string>, rest: seq<Entry<string>>)
    ensures ToNixConfig([]) == "" && ToNixConfig([e]) == e.key + " = " + e.value
    ensures rest != [] ==> ToNixConfig([e] + rest) == e.key + " = " + e.value + "\n" + ToNixConfig(rest)
  {
    assert SettingLines([e]) == [SettingLine(e)];
    assert SettingLines([e] + rest) == [SettingLine(e)] + SettingLines(rest);
  }

  /** A line is skipped when it is blank or a comment, refused when it has no '=', and else split at its first '='
      into a key and a value, both without outer blanks. */
  lemma ALineIsRead(line: string)
    ensures var text := Strip(line);
            && (ReadLine(line).Skipped? <==> text == "" || text[0] == '#')
            && (ReadLine(line).Bad? <==> text != "" && text[0] != '#' && '=' !in text)
            && (forall left, right :: text == left + ['='] + right && '=' !in left && text[0] != '#' ==>
                  ReadLine(line) == Setting(Strip(left), Strip(right)))
  {
    var text := Strip(line);
    FirstOfNone(text, '=');
    forall left: string, right: string | text == left + ['='] + right && '=' !in left && text[0] != '#'
      ensures ReadLine(line) == Setting(Strip(left), Strip(right))
    {
      FirstAfter(left, '=', right);
    }
  }

  function Reads(lines: seq<string>): seq<Line> {
    seq(|lines|, i requires 0 <= i < |lines| => ReadLine(lines[i]))
  }

  predicate Sets(line: Line, key: string) {
    line.Setting? && line.key == key
  }

  /** The last line that sets `key` sets it to `value`. */
  ghost predicate SetLast(seen: seq<Line>, key: string, value: string) {
    exists i :: SetAt(seen, i, key, value)
  }

  ghost predicate SetAt(seen: seq<Line>, i: int, key: string, value: string) {
    0 <= i < |seen| && seen[i] == Setting(key, value) && forall j :: i < j < |seen| ==> !Sets(seen[j], key)
  }

  lemma SetLastOneMore(init: seq<Line>, last: Line, key: string, value: string)
    ensures SetLast(init + [last], key, value) <==>
              last == Setting(key, value) || (SetLast(init, key, value) && !Sets(last, key))
  {
    var all := init + [last];
    assert all[|init|] == last && forall j :: 0 <= j < |init| ==> init[j] == all[j];
    if last == Setting(key, value) {
      assert SetAt(all, |init|, key, value);
    }
    if i :| SetAt(init, i, key, value) && !Sets(last, key) {
      assert SetAt(all, i, key, value);
    }
    if i :| SetAt(all, i, key, value) && i < |init| {
      assert SetAt(init, i, key, value);
    }
  }

  /** Every setting of the map has the value that the last line for it gives, and no other is in the map. */
  ghost predicate HoldsLast(m: map<string, string>, seen: seq<Line>) {
    forall key, value :: (key in m && m[key] == value) <==> SetLast(seen, key, value)
  }

  lemma HoldsLastOneMore(m: map<string, string>, seen: seq<Line>, last: Line)
    requires HoldsLast(m, seen)
    ensures HoldsLast(if last.Setting? then m[last.key := last.value] else m, seen + [last])
  {
    var m' := if last.Setting? then m[last.key := last.value] else m;
    forall key, value ensures (key in m' && m'[key] == value) <==> SetLast(seen + [last], key, value) {
      SetLastOneMore(seen, last, key, value);
    }
  }

  lemma ReadLinesAppend(init: seq<string>, last: string)
    ensures ReadLines(init + [last]) ==
            if ReadLines(init).Err? then ReadLines(init)
            else
              var line := ReadLine(last);
              if line.Bad? then Err(BAD_LINE)
              else Ok(if line.Setting? then ReadLines(init).value[line.key := line.value] else ReadLines(init).value)
  {
    assert (init + [last])[..|init|] == init;
  }

  ghost predicate SomeBad(seen: seq<Line>) {
    exists i :: 0 <= i < |seen| && seen[i].Bad?
  }

  lemma SomeBadOneMore(seen: seq<Line>, last: Line)
    ensures SomeBad(seen + [last]) <==> SomeBad(seen) || last.Bad?
  {
    var all := seen + [last];
    assert all[|seen|] == last;
    if i :| 0 <= i < |seen| && seen[i].Bad? {
      assert all[i].Bad?;
    }
  }

  lemma ReadsAppend(init: seq<string>, last: string)
    ensures Reads(init + [last]) == Reads(init) + [ReadLine(last)]
  {
  }

  /** A file is refused exactly when a line is; otherwise a setting has the value that the last line for it
      gives. */
  lemma {:induction false} AFileIsRead(lines: seq<string>)
    ensures ReadLines(lines).Err? <==> SomeBad(Reads(lines))
    ensures ReadLines(lines).Ok? ==> HoldsLast(ReadLines(lines).value, Reads(lines))
    decreases |lines|
  {
    if lines == [] {
      assert HoldsLast(map[], []);
    } else {
      var init, last := lines[..|lines| - 1], lines[|lines| - 1];
      assert lines == init + [last];
      AFileIsRead(init);
      FileGoesOn(init, last);
    }
  }

  lemma FileGoesOn(init: seq<string>, last: string)
    requires ReadLines(init).Err? <==> SomeBad(Reads(init))
    requires ReadLines(init).Ok? ==> HoldsLast(ReadLines(init).value, Reads(init))
    ensures ReadLines(init + [last]).Err? <==> SomeBad(Reads(init + [last]))
    ensures ReadLines(init + [last]).Ok? ==> HoldsLast(ReadLines(init + [last]).value, Reads(init + [last]))
  {
    ReadLinesAppend(init, last);
    ReadsAppend(init, last);
    SomeBadOneMore(Reads(init), ReadLine(last));
    if ReadLines(init).Ok? {
      HoldsLastOneMore(ReadLines(init).value, Reads(init), ReadLine(last));
    }
  }

  // ---- What a dict looks like ----

  /** One word of a dict: a pair, or refused. */
  function PairOf(word: string): Line {
    var k := FirstOf(word, '=');
    if k == |word| then Bad else Setting(word[..k], word[k + 1..])
  }

  /** A word is refused when it has no '=', and else split at its first '='. */
  lemma AWordIsAPair(word: string)
    ensures !PairOf(word).Skipped? && (PairOf(word).Bad? <==> '=' !in word)
    ensures forall left, right :: word == left + ['='] + right && '=' !in left ==> PairOf(word) == Setting(left, right)
  {
    FirstOfNone(word, '=');
    forall left: string, right: string | word == left + ['='] + right && '=' !in left
      ensures PairOf(word) == Setting(left, right)
    {
      FirstAfter(left, '=', right);
    }
  }

  function PairsOf(words: seq<string>): seq<Line> {
    seq(|words|, i requires 0 <= i < |words| => PairOf(words[i]))
  }

  lemma PairsAppend(init: seq<string>, last: string)
    ensures PairsOf(init + [last]) == PairsOf(init) + [PairOf(last)]
    ensures ReadPairs(init + [last]) ==
            if ReadPairs(init).Err? then ReadPairs(init)
            else if PairOf(last).Bad? then Err(NO_PAIR)
            else Ok(ReadPairs(init).value[PairOf(last).key := PairOf(last).value])
  {
    assert (init + [last])[..|init|] == init;
  }

  /** A dict is refused exactly when a word of it is; otherwise a key has the value that the last pair for it
      gives. */
  lemma {:induction false} ADictIsRead(words: seq<string>)
    ensures ReadPairs(words).Err? <==> SomeBad(PairsOf(words))
    ensures ReadPairs(words).Ok? ==> HoldsLast(ReadPairs(words).value, PairsOf(words))
    decreases |words|
  {
    if words == [] {
      assert HoldsLast(map[], []);
    } else {
      var init, last := words[..|words| - 1], words[|words| - 1];
      assert words == init + [last];
      ADictIsRead(init);
      PairsAppend(init, last);
      SomeBadOneMore(PairsOf(init), PairOf(last));
      if ReadPairs(init).Ok? {
        HoldsLastOneMore(ReadPairs(init).value, PairsOf(init), PairOf(last));
      }
    }
  }
}
