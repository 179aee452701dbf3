/** The attribute-path language of the CLIs: `parse_attr_path`. */
module AttrPath {
  import opened Common
  import opened Text

  const MISSING_QUOTE := "missing closing quote in selection path"

  /** Where a scan stands: the finished components and the one being read. */
  datatype Scan = Unclosed | At(parts: seq<string>, current: string)

  /** Reading `text` outside quotation marks. */
  function Outside(text: string, parts: seq<string>, current: string): Scan
    decreases |text|
  {
    if text == "" then At(parts, current)
    else if text[0] == '.' then Outside(text[1..], parts + [current], "")
    else if text[0] == '"' then Inside(text[1..], parts, current)
    else Outside(text[1..], parts, current + [text[0]])
  }

  /** Reading `text` after an opening quotation mark. */
  function Inside(text: string, parts: seq<string>, current: string): Scan
    decreases |text|
  {
    if text == "" then Unclosed
    else if text[0] == '"' then Outside(text[1..], parts, current)
    else Inside(text[1..], parts, current + [text[0]])
  }

  /** A last component that holds no character is no component. */
  function Closed(parts: seq<string>, current: string): seq<string> {
    if current == "" then parts else parts + [current]
  }

  function Parse(text: string): Result<seq<string>> {
    match Outside(text, [], "")
    case Unclosed => Err(MISSING_QUOTE)
    case At(parts, current) => Ok(Closed(parts, current))
  }

  /** `parse_attr_path`. */
  method ParseAttrPath(text: string) returns (r: Result<seq<string>>)
    ensures r == Parse(text)
  {
    var parts: seq<string> := [];
    var current := "";
    var index := 0;
    while index < |text|
      invariant 0 <= index <= |text|
      invariant Outside(text[index..], parts, current) == Outside(text, [], "")
    {
      var c := text[index];
      if c == '.' {
        parts := parts + [current];
        current := "";
      } else if c == '"' {
        index := index + 1;
        while true
          invariant 0 <= index <= |text|
          invariant Inside(text[index..], parts, current) == Outside(text, [], "")
          decreases |text| - index
        {
          if index == |text| {
            return Err(MISSING_QUOTE);
          }
          if text[index] == '"' {
            break;
          }
          current := current + [text[index]];
          index := index + 1;
        }
      } else {
        current := current + [c];
      }
      index := index + 1;
    }
    if current != "" {
      parts := parts + [current];
    }
    return Ok(parts);
  }

  // ---- Failure ----

  function Quotes(text: string): nat {
    if text == "" then 0 else Quotes(text[1..]) + if text[0] == '"' then 1 else 0
  }

  lemma {:induction false} ScanClosesEvenly(text: string, parts: seq<string>, current: string)
    ensures Outside(text, parts, current).Unclosed? <==> Quotes(text) % 2 == 1
    ensures Inside(text, parts, current).Unclosed? <==> Quotes(text) % 2 == 0
    decreases |text|
  {
    if text != "" {
      ScanClosesEvenly(text[1..], parts, current);
      ScanClosesEvenly(text[1..], parts, current + [text[0]]);
      ScanClosesEvenly(text[1..], parts + [current], "");
    }
  }

  /** A path is refused exactly when it holds an odd number of quotation marks. */
  lemma ParseFailsOnOddQuotes(text: string)
    ensures Parse(text).Err? <==> Quotes(text) % 2 == 1
  {
    ScanClosesEvenly(text, [], "");
  }

  // ---- Concatenation ----

  lemma {:induction false} ScanOfSum(a: string, b: string, parts: seq<string>, current: string)
    ensures var s := Outside(a, parts, current);
            s.At? ==> Outside(a + b, parts, current) == Outside(b, s.parts, s.current)
    ensures var s := Inside(a, parts, current);
            s.At? ==> Inside(a + b, parts, current) == Outside(b, s.parts, s.current)
    decreases |a|
  {
    if a == "" {
      assert a + b == b;
    } else {
      assert (a + b)[0] == a[0] && (a + b)[1..] == a[1..] + b;
      ScanOfSum(a[1..], b, parts, current);
      ScanOfSum(a[1..], b, parts, current + [a[0]]);
      ScanOfSum(a[1..], b, parts + [current], "");
    }
  }

  /** Starting with finished components only puts them in front. */
  lemma {:induction false} ScanPrefixes(text: string, before: seq<string>, parts: seq<string>, current: string)
    ensures Outside(text, before + parts, current) ==
            (match Outside(text, parts, current) case Unclosed => Unclosed case At(ps, c) => At(before + ps, c))
    ensures Inside(text, before + parts, current) ==
            (match Inside(text, parts, current) case Unclosed => Unclosed case At(ps, c) => At(before + ps, c))
    decreases |text|
  {
    if text != "" {
      ScanPrefixes(text[1..], before, parts, current);
      ScanPrefixes(text[1..], before, parts, current + [text[0]]);
      ScanPrefixes(text[1..], before, parts + [current], "");
      assert before + parts + [current] == before + (parts + [current]);
    }
  }

  /** The components of a balanced text that a separator follows: its last one counts even when empty. */
  function Components(text: string): seq<string>
    requires Parse(text).Ok?
  {
    var s := Outside(text, [], "");
    s.parts + [s.current]
  }

  /** Parsing distributes over a separator that follows a balanced text. */
  lemma ParseAfterSeparator(head: string, tail: string)
    requires Parse(head).Ok?
    ensures Parse(head + "." + tail) ==
            match Parse(tail) case Err(e) => Err(e) case Ok(ps) => Ok(Components(head) + ps)
  {
    var s := Outside(head, [], "");
    assert head + "." + tail == head + ("." + tail);
    ScanOfSum(head, "." + tail, [], "");
    assert ("." + tail)[1..] == tail;
    ScanPrefixes(tail, Components(head), [], "");
    assert Components(head) + [] == Components(head);
    match Outside(tail, [], "")
    case Unclosed =>
    case At(ps, c) =>
      assert Components(head) + ps + [c] == Components(head) + (ps + [c]);
  }

  /** The components of `head` before a separator are those it parses to, plus an empty one exactly when
      its last component is empty. */
  lemma ComponentsOf(head: string)
    requires Parse(head).Ok?
    ensures Components(head) == Parse(head).value <==> Outside(head, [], "").current != ""
    ensures Outside(head, [], "").current == "" ==> Components(head) == Parse(head).value + [""]
  {
  }

  // ---- Round trips ----

  predicate NoQuote(text: string) {
    '"' !in text
  }

  /** A name that is its own spelling: not empty, without separators and quotation marks. */
  predicate Plain(name: string) {
    name != "" && '.' !in name && NoQuote(name)
  }

  function Quoted(parts: seq<string>): seq<string> {
    seq(|parts|, i requires 0 <= i < |parts| => "\"" + parts[i] + "\"")
  }

  /** The spelling that can name anything: every component in quotation marks. */
  function Spell(parts: seq<string>): string {
    Join(".", Quoted(parts))
  }

  lemma {:induction false} ScanQuotedName(name: string, rest: string, parts: seq<string>, current: string)
    requires NoQuote(name)
    ensures Inside(name + "\"" + rest, parts, current) == Outside(rest, parts, current + name)
    decreases |name|
  {
    var text := name + "\"" + rest;
    if name == "" {
      assert text[1..] == rest && current + name == current;
    } else {
      assert text[0] == name[0] && text[1..] == name[1..] + "\"" + rest;
      ScanQuotedName(name[1..], rest, parts, current + [name[0]]);
      assert current + [name[0]] + name[1..] == current + name;
    }
  }

  lemma QuotedNameScans(name: string)
    requires NoQuote(name)
    ensures Outside("\"" + name + "\"", [], "") == At([], name)
    ensures Parse("\"" + name + "\"").Ok? && Components("\"" + name + "\"") == [name]
  {
    var text := "\"" + name + "\"";
    assert text[1..] == name + "\"" + "";
    ScanQuotedName(name, "", [], "");
    assert "" + name == name;
  }

  lemma {:induction false} SpellingParses(parts: seq<string>)
    requires forall p :: p in parts ==> NoQuote(p)
    ensures Parse(Spell(parts)) == Ok(if parts != [] && parts[|parts| - 1] == "" then parts[..|parts| - 1] else parts)
    decreases |parts|
  {
    if parts == [] {
    } else {
      var first := "\"" + parts[0] + "\"";
      QuotedNameScans(parts[0]);
      assert Quoted(parts)[1..] == Quoted(parts[1..]);
      if |parts| == 1 {
        assert parts == [parts[0]] && parts[..0] == [];
        assert [] + [parts[0]] == [parts[0]];
      } else {
        SpellingParses(parts[1..]);
        ParseAfterSeparator(first, Spell(parts[1..]));
        assert Spell(parts) == first + "." + Spell(parts[1..]);
        assert parts == [parts[0]] + parts[1..];
        assert parts[..|parts| - 1] == [parts[0]] + parts[1..][..|parts| - 2];
      }
    }
  }

  /** No component that the parser gives holds a quotation mark. */
  lemma {:induction false} ScanDropsQuotes(text: string, parts: seq<string>, current: string)
    requires NoQuote(current) && forall p :: p in parts ==> NoQuote(p)
    ensures Outside(text, parts, current).At? ==>
              NoQuote(Outside(text, parts, current).current) && forall p :: p in Outside(text, parts, current).parts ==> NoQuote(p)
    ensures Inside(text, parts, current).At? ==>
              NoQuote(Inside(text, parts, current).current) && forall p :: p in Inside(text, parts, current).parts ==> NoQuote(p)
    decreases |text|
  {
    if text != "" {
      ScanDropsQuotes(text[1..], parts, current);
      ScanDropsQuotes(text[1..], parts + [current], "");
      if text[0] != '"' {
        ScanDropsQuotes(text[1..], parts, current + [text[0]]);
      }
    }
  }

  /** Exactly the component lists without quotation marks whose last component is not empty are recovered
      from their quoted, dot-joined spelling. */
  lemma SpellingRoundTrips(parts: seq<string>)
    ensures Parse(Spell(parts)) == Ok(parts)
            <==> (forall p :: p in parts ==> NoQuote(p)) && (parts != [] ==> parts[|parts| - 1] != "")
  {
    if forall p :: p in parts ==> NoQuote(p) {
      SpellingParses(parts);
    } else if Parse(Spell(parts)).Ok? {
      ScanDropsQuotes(Spell(parts), [], "");
      var p :| p in parts && !NoQuote(p);
      assert p !in Parse(Spell(parts)).value;
    }
  }

  lemma {:induction false} ScanPlain(name: string, parts: seq<string>, current: string)
    requires '.' !in name && NoQuote(name)
    ensures Outside(name, parts, current) == At(parts, current + name)
    decreases |name|
  {
    if name == "" {
      assert current + name == current;
    } else {
      ScanPlain(name[1..], parts, current + [name[0]]);
      assert current + [name[0]] + name[1..] == current + name;
    }
  }

  // ---- Paths spelled without quotation marks ----

  function Dots(text: string): nat {
    if text == "" then 0 else Dots(text[1..]) + if text[0] == '.' then 1 else 0
  }

  function Size(parts: seq<string>): nat {
    if parts == [] then 0 else |parts[0]| + Size(parts[1..])
  }

  function DotsIn(parts: seq<string>): nat {
    if parts == [] then 0 else Dots(parts[0]) + DotsIn(parts[1..])
  }

  lemma {:induction false} DotsOfSum(a: string, b: string)
    ensures Dots(a + b) == Dots(a) + Dots(b)
    decreases |a|
  {
    if a == "" {
      assert a + b == b;
    } else {
      assert (a + b)[1..] == a[1..] + b;
      DotsOfSum(a[1..], b);
    }
  }

  lemma {:induction false} SizeOfOneMore(parts: seq<string>, part: string)
    ensures Size(parts + [part]) == Size(parts) + |part|
  {
    if parts != [] {
      assert (parts + [part])[1..] == parts[1..] + [part];
      SizeOfOneMore(parts[1..], part);
    }
  }

  lemma {:induction false} NoDots(text: string)
    ensures Dots(text) == 0 <==> '.' !in text
  {
    if text != "" {
      NoDots(text[1..]);
    }
  }

  lemma {:induction false} NoDotsIn(parts: seq<string>)
    ensures DotsIn(parts) == 0 <==> forall p :: p in parts ==> '.' !in p
  {
    if parts != [] {
      NoDots(parts[0]);
      NoDotsIn(parts[1..]);
      assert parts == [parts[0]] + parts[1..];
    }
  }

  /** No character is read twice. */
  lemma {:induction false} ScanIsNoLonger(text: string, parts: seq<string>, current: string)
    ensures var s := Outside(text, parts, current);
            s.At? ==> Size(s.parts) + |s.current| <= Size(parts) + |current| + |text|
    ensures var s := Inside(text, parts, current);
            s.At? ==> Size(s.parts) + |s.current| <= Size(parts) + |current| + |text|
    decreases |text|
  {
    if text != "" {
      ScanIsNoLonger(text[1..], parts, current);
      ScanIsNoLonger(text[1..], parts, current + [text[0]]);
      ScanIsNoLonger(text[1..], parts + [current], "");
      SizeOfOneMore(parts, current);
    }
  }

  lemma ParsedIsNoLonger(text: string)
    ensures Parse(text).Ok? ==> Size(Parse(text).value) <= |text|
  {
    ScanIsNoLonger(text, [], "");
    var s := Outside(text, [], "");
    if s.At? {
      SizeOfOneMore(s.parts, s.current);
    }
  }

  /** Without quotation marks every separator ends a component, and every other character is read. */
  lemma {:induction false} ScanCounts(text: string, parts: seq<string>, current: string)
    requires NoQuote(text)
    ensures var s := Outside(text, parts, current);
            s.At? && |s.parts| == |parts| + Dots(text)
            && Size(s.parts) + |s.current| + Dots(text) == Size(parts) + |current| + |text|
    decreases |text|
  {
    if text != "" {
      if text[0] == '.' {
        ScanCounts(text[1..], parts + [current], "");
        SizeOfOneMore(parts, current);
      } else {
        ScanCounts(text[1..], parts, current + [text[0]]);
      }
    }
  }

  lemma {:induction false} JoinCounts(parts: seq<string>)
    requires parts != [] && forall p :: p in parts ==> NoQuote(p)
    ensures var text := Join(".", parts);
            NoQuote(text) && Dots(text) == DotsIn(parts) + |parts| - 1 && |text| == Size(parts) + |parts| - 1
    decreases |parts|
  {
    assert parts == [parts[0]] + parts[1..];
    assert NoQuote(parts[0]);
    if |parts| > 1 {
      var rest := Join(".", parts[1..]);
      JoinCounts(parts[1..]);
      DotsOfSum(parts[0] + ".", rest);
      DotsOfSum(parts[0], ".");
    }
  }

  lemma {:induction false} JoinParses(parts: seq<string>)
    requires forall p :: p in parts ==> '.' !in p && NoQuote(p)
    requires parts != [] ==> parts[|parts| - 1] != ""
    ensures Parse(Join(".", parts)) == Ok(parts)
    decreases |parts|
  {
    if parts != [] {
      ScanPlain(parts[0], [], "");
      assert "" + parts[0] == parts[0] && [] + [parts[0]] == [parts[0]];
      assert parts == [parts[0]] + parts[1..];
      if |parts| == 1 {
        assert parts == [parts[0]];
      } else {
        JoinParses(parts[1..]);
        ParseAfterSeparator(parts[0], Join(".", parts[1..]));
      }
    }
  }

  /** Exactly the component lists without separators and quotation marks whose last component is not empty are
      recovered from the text that joins them by separators. */
  lemma JoinRoundTrips(parts: seq<string>)
    ensures Parse(Join(".", parts)) == Ok(parts)
            <==> (forall p :: p in parts ==> '.' !in p && NoQuote(p)) && (parts != [] ==> parts[|parts| - 1] != "")
  {
    if (forall p :: p in parts ==> '.' !in p && NoQuote(p)) && (parts != [] ==> parts[|parts| - 1] != "") {
      JoinParses(parts);
    } else if Parse(Join(".", parts)) == Ok(parts) {
      var text := Join(".", parts);
      var s := Outside(text, [], "");
      ScanDropsQuotes(text, [], "");
      JoinCounts(parts);
      ScanCounts(text, [], "");
      SizeOfOneMore(s.parts, s.current);
      NoDotsIn(parts);
    }
  }

  /** Exactly the plain names, and no others, are spelled by themselves. */
  lemma PlainNamesSpellThemselves(name: string)
    ensures Parse(name) == Ok([name]) <==> Plain(name)
  {
    JoinRoundTrips([name]);
  }
}
