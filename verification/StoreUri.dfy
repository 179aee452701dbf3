/** The store URI a configuration renders to: escaping, query, and how it reads back. Texts stand for their
    UTF-8 bytes, one character for each byte. */
module StoreUri {
  import opened Common
  import opened StringOrder
  import opened Text

  const QUERY_SAFE := "/:"
  const AUTHORITY_SAFE := "/:@[]"
  const HEX := "0123456789ABCDEF"

  predicate IsBytes(text: string) {
    forall i :: 0 <= i < |text| ==> text[i] as int < 256
  }

  predicate Unreserved(c: char) {
    'A' <= c <= 'Z' || 'a' <= c <= 'z' || '0' <= c <= '9' || c == '_' || c == '.' || c == '-' || c == '~'
  }

  function Escape(c: char): (e: string)
    requires c as int < 256
    ensures |e| == 3 && e[0] == '%'
  {
    "%" + [HEX[c as int / 16]] + [HEX[c as int % 16]]
  }

  /** `urllib.parse.quote`. */
  function Quote(text: string, safe: string): string
    requires IsBytes(text)
  {
    if text == "" then ""
    else (if Unreserved(text[0]) || text[0] in safe then [text[0]] else Escape(text[0])) + Quote(text[1..], safe)
  }

  function HexValue(c: char): Option<nat> {
    if '0' <= c <= '9' then Some(c as int - '0' as int)
    else if 'A' <= c <= 'F' then Some(c as int - 'A' as int + 10)
    else if 'a' <= c <= 'f' then Some(c as int - 'a' as int + 10)
    else None
  }

  /** `urllib.parse.unquote`, which is the decoding of section 2.1 of RFC 3986. */
  function Unquote(text: string): string
    decreases |text|
  {
    if text == "" then ""
    else if text[0] == '%' && |text| >= 3 && HexValue(text[1]).Some? && HexValue(text[2]).Some? then
      [(16 * HexValue(text[1]).value + HexValue(text[2]).value) as char] + Unquote(text[3..])
    else [text[0]] + Unquote(text[1..])
  }

  lemma EscapeDecodes(c: char, rest: string)
    requires c as int < 256
    ensures Unquote(Escape(c) + rest) == [c] + Unquote(rest)
  {
    var hi, lo := c as int / 16, c as int % 16;
    HexDigits(hi);
    HexDigits(lo);
    var text := Escape(c) + rest;
    assert text[1] == HEX[hi] && text[2] == HEX[lo] && text[3..] == rest;
    assert 16 * hi + lo == c as int;
  }

  lemma HexDigits(n: nat)
    requires n < 16
    ensures HexValue(HEX[n]) == Some(n)
  {
  }

  /** Percent-decoding gives back every text, whatever is left unescaped, as long as '%' is not. */
  lemma {:induction false} UnquoteOfQuote(text: string, safe: string)
    requires IsBytes(text) && '%' !in safe
    ensures Unquote(Quote(text, safe)) == text
  {
    if text != "" {
      UnquoteOfQuote(text[1..], safe);
      if Unreserved(text[0]) || text[0] in safe {
        assert ([text[0]] + Quote(text[1..], safe))[1..] == Quote(text[1..], safe);
      } else {
        EscapeDecodes(text[0], Quote(text[1..], safe));
      }
      assert text == [text[0]] + text[1..];
    }
  }

  /** Only unreserved and safe characters, and the parts of an escape, are in an escaped text. */
  lemma {:induction false} QuoteHidesDelimiters(text: string, safe: string, c: char)
    requires IsBytes(text) && !Unreserved(c) && c !in safe && c != '%'
    ensures c !in Quote(text, safe)
  {
    if text != "" {
      QuoteHidesDelimiters(text[1..], safe, c);
      assert c !in HEX;
    }
  }

  // ---- The raw URI ----

  type Params = seq<Entry<string>>

  function Pair(params: Params, key: string): string
    requires key in KeysOf(params) && IsBytes(Get(params, key))
  {
    key + "=" + Quote(Get(params, key), QUERY_SAFE)
  }

  predicate ParamsOk(params: Params) {
    forall k :: k in KeysOf(params) ==> IsBytes(Get(params, k)) && '&' !in k && '=' !in k
  }

  function SortedKeys(params: Params): (keys: seq<string>)
    ensures forall k :: k in keys <==> k in KeysOf(params)
    ensures Increasing(Same, keys)
  {
    SortedSetIsSorted(Same, KeysOf(params));
    SortedSet(Same, KeysOf(params))
  }

  function Pairs(params: Params, keys: seq<string>): seq<string>
    requires forall i :: 0 <= i < |keys| ==> keys[i] in KeysOf(params) && IsBytes(Get(params, keys[i]))
  {
    seq(|keys|, i requires 0 <= i < |keys| => Pair(params, keys[i]))
  }

  /** `_render_raw`, from the scheme, the authority and the parameters of a configuration. */
  function RenderRaw(scheme: string, authority: string, params: Params): string
    requires IsBytes(authority) && ParamsOk(params)
  {
    var query := Join("&", Pairs(params, SortedKeys(params)));
    var base := scheme + "://" + Quote(authority, AUTHORITY_SAFE);
    if query == "" then base else base + "?" + query
  }

  /** A URI read back: the base before the first '?', the pairs of the query at each '&', each split at its
      first '=', and the authority and the values decoded. */
  datatype Reference = Reference(scheme: string, authority: string, params: map<string, string>)

  function ReadPairs(pairs: seq<string>): map<string, string> {
    if pairs == [] then map[]
    else
      var last := pairs[|pairs| - 1];
      var k := FirstOf(last, '=');
      ReadPairs(pairs[..|pairs| - 1])[last[..k] := Unquote(if k < |last| then last[k + 1..] else "")]
  }

  function ReadUri(uri: string): Reference {
    var q := FirstOf(uri, '?');
    var base := uri[..q];
    var s := FirstOf(base, ':');
    Reference(base[..s],
              Unquote(if s + 3 <= |base| then base[s + 3..] else ""),
              if q == |uri| then map[] else ReadPairs(Split(uri[q + 1..], '&')))
  }

  lemma PairReads(params: Params, key: string)
    requires ParamsOk(params) && key in KeysOf(params)
    ensures '&' !in Pair(params, key) && Pair(params, key) != ""
    ensures var p := Pair(params, key);
            var k := FirstOf(p, '=');
            k == |key| && p[..k] == key && Unquote(p[k + 1..]) == Get(params, key)
  {
    var value := Quote(Get(params, key), QUERY_SAFE);
    QuoteHidesDelimiters(Get(params, key), QUERY_SAFE, '&');
    UnquoteOfQuote(Get(params, key), QUERY_SAFE);
    FirstAfter(key, '=', value);
    assert key + ['='] + value == Pair(params, key);
  }

  function ValuesOf(params: Params, keys: seq<string>): map<string, string>
    requires forall i :: 0 <= i < |keys| ==> keys[i] in KeysOf(params)
  {
    map k | k in keys :: Get(params, k)
  }

  lemma ValuesOfOneMore(params: Params, keys: seq<string>, key: string)
    requires forall i :: 0 <= i < |keys| ==> keys[i] in KeysOf(params)
    requires key in KeysOf(params)
    ensures ValuesOf(params, keys + [key]) == ValuesOf(params, keys)[key := Get(params, key)]
  {
  }

  lemma PairsOfOneMore(params: Params, keys: seq<string>, key: string)
    requires ParamsOk(params) && (forall i :: 0 <= i < |keys| ==> keys[i] in KeysOf(params)) && key in KeysOf(params)
    ensures ReadPairs(Pairs(params, keys + [key])) == ReadPairs(Pairs(params, keys))[key := Get(params, key)]
  {
    var pairs := Pairs(params, keys + [key]);
    PairReads(params, key);
    assert pairs[..|pairs| - 1] == Pairs(params, keys);
  }

  lemma {:induction false} PairsRead(params: Params, keys: seq<string>)
    requires ParamsOk(params) && (forall i :: 0 <= i < |keys| ==> keys[i] in KeysOf(params))
    ensures ReadPairs(Pairs(params, keys)) == ValuesOf(params, keys)
    decreases |keys|
  {
    if keys != [] {
      var init, last := keys[..|keys| - 1], keys[|keys| - 1];
      PairsRead(params, init);
      PairsOfOneMore(params, init, last);
      ValuesOfOneMore(params, init, last);
      assert keys == init + [last];
    }
  }

  lemma QueryReads(params: Params)
    requires ParamsOk(params)
    ensures var pairs := Pairs(params, SortedKeys(params));
            && (Join("&", pairs) == "" <==> KeysOf(params) == [])
            && (KeysOf(params) != [] ==> ReadPairs(Split(Join("&", pairs), '&')) == AsMap(params))
  {
    var keys := SortedKeys(params);
    var pairs := Pairs(params, keys);
    forall i | 0 <= i < |pairs| ensures '&' !in pairs[i] && pairs[i] != "" {
      PairReads(params, keys[i]);
    }
    if KeysOf(params) == [] {
      assert keys == [];
    } else {
      assert KeysOf(params)[0] in keys;
      SplitOfJoin(pairs, '&');
      PairsRead(params, keys);
      assert AsMap(params) == ValuesOf(params, keys);
    }
  }

  /** For every scheme without ':' and '?', every authority and every parameter map whose keys hold no '&'
      and no '=': the raw URI splits back into exactly these. */
  lemma RawUriReadsBack(scheme: string, authority: string, params: Params)
    requires IsBytes(authority) && ParamsOk(params) && ':' !in scheme && '?' !in scheme
    ensures ReadUri(RenderRaw(scheme, authority, params)) == Reference(scheme, authority, AsMap(params))
  {
    QueryReads(params);
    var escaped := Quote(authority, AUTHORITY_SAFE);
    QuoteHidesDelimiters(authority, AUTHORITY_SAFE, '?');
    UnquoteOfQuote(authority, AUTHORITY_SAFE);
    var base := scheme + "://" + escaped;
    var query := Join("&", Pairs(params, SortedKeys(params)));
    assert base == scheme + [':'] + ("//" + escaped);
    FirstAfter(scheme, ':', "//" + escaped);
    assert base[|scheme| + 3..] == escaped;
    assert '?' !in base;
    FirstOfNone(base, '?');
    FirstAfter(base, '?', query);
    if KeysOf(params) == [] {
      assert base[..|base|] == base;
      assert AsMap(params) == map[];
    } else {
      assert base + ['?'] + query == base + "?" + query;
    }
  }

  /** Rendering is injective: one URI comes from one scheme, one authority and one parameter map. */
  lemma RenderingIsInjective(s1: string, a1: string, p1: Params, s2: string, a2: string, p2: Params)
    requires IsBytes(a1) && ParamsOk(p1) && ':' !in s1 && '?' !in s1
    requires IsBytes(a2) && ParamsOk(p2) && ':' !in s2 && '?' !in s2
    ensures RenderRaw(s1, a1, p1) == RenderRaw(s2, a2, p2) <==> s1 == s2 && a1 == a2 && AsMap(p1) == AsMap(p2)
  {
    RawUriReadsBack(s1, a1, p1);
    RawUriReadsBack(s2, a2, p2);
    if s1 == s2 && a1 == a2 && AsMap(p1) == AsMap(p2) {
      RenderingIgnoresOrder(s1, a1, p1, p2);
    }
  }

  /** The order the parameters were set in does not show. */
  lemma RenderingIgnoresOrder(scheme: string, authority: string, p: Params, q: Params)
    requires IsBytes(authority) && ParamsOk(p) && ParamsOk(q) && AsMap(p) == AsMap(q)
    ensures RenderRaw(scheme, authority, p) == RenderRaw(scheme, authority, q)
  {
    forall k ensures k in KeysOf(p) <==> k in KeysOf(q) {
      assert k in KeysOf(p) <==> k in AsMap(p);
      assert k in KeysOf(q) <==> k in AsMap(q);
    }
    IncreasingIsUnique(Same, SortedKeys(p), SortedKeys(q));
    var keys := SortedKeys(p);
    forall i | 0 <= i < |keys| ensures Get(p, keys[i]) == Get(q, keys[i]) {
      assert AsMap(p)[keys[i]] == AsMap(q)[keys[i]];
    }
    assert Pairs(p, keys) == Pairs(q, keys);
  }

  // ---- The fields of a store model ----

  datatype AuthorityField = NoAuthority | OptionalAuthority | RequiredAuthority

  /** What a store type says about its URI: its own scheme, whether a field may name another one, and its
      authority field. */
  datatype StoreModel = StoreModel(ownScheme: string, hasSchemeField: bool, authorityField: AuthorityField)

  datatype Fields = Fields(scheme: Option<string>, authority: Option<string>)

  predicate FieldsFit(m: StoreModel, f: Fields) {
    && (f.scheme.Some? ==> m.hasSchemeField && ':' !in f.scheme.value && '?' !in f.scheme.value)
    && (f.authority.Some? ==> !m.authorityField.NoAuthority? && IsBytes(f.authority.value))
    && (m.authorityField.RequiredAuthority? ==> f.authority.Some?)
  }

  /** `_base`: an unset or empty scheme is the type's own, and an unset authority is empty. */
  function SchemeOf(m: StoreModel, f: Fields): string {
    if f.scheme.Some? && f.scheme.value != "" then f.scheme.value else m.ownScheme
  }

  function AuthorityOf(f: Fields): string {
    f.authority.GetOr("")
  }

  /** `parse`, from the reference read back to the fields of the model. */
  function FieldsFrom(m: StoreModel, r: Reference): Fields {
    Fields(
      if m.hasSchemeField && r.scheme != m.ownScheme then Some(r.scheme) else None,
      if m.authorityField.RequiredAuthority? || (m.authorityField.OptionalAuthority? && r.authority != "")
      then Some(r.authority) else None)
  }

  /** A configuration comes back with equal fields exactly when it does not name its own scheme or an empty
      one, and does not set an optional authority to the empty text. */
  lemma FieldsRoundTrip(m: StoreModel, f: Fields, params: Params)
    requires FieldsFit(m, f) && ParamsOk(params) && ':' !in m.ownScheme && '?' !in m.ownScheme && m.ownScheme != ""
    ensures var r := ReadUri(RenderRaw(SchemeOf(m, f), AuthorityOf(f), params));
            && r.params == AsMap(params)
            && (FieldsFrom(m, r) == f <==>
                  f.scheme != Some(m.ownScheme) && f.scheme != Some("")
                  && (m.authorityField.OptionalAuthority? ==> f.authority != Some("")))
  {
    RawUriReadsBack(SchemeOf(m, f), AuthorityOf(f), params);
  }

  // ---- What a URI looks like ----

  predicate Readable(text: string, safe: string) {
    forall i :: 0 <= i < |text| ==> (Unreserved(text[i]) || text[i] in safe) && text[i] as int < 256
  }

  /** Unreserved and safe characters stay as they are; any other becomes '%' and two upper-case digits. */
  lemma {:induction false} ReadableTextStays(text: string, safe: string)
    requires Readable(text, safe)
    ensures IsBytes(text) && Quote(text, safe) == text
  {
    if text != "" {
      ReadableTextStays(text[1..], safe);
      assert text == [text[0]] + text[1..];
    }
  }

  lemma EscapesAreUpperCase()
    ensures Escape(' ') == "%20" && Escape('%') == "%25" && Escape('?') == "%3F" && Escape('&') == "%26"
  {
    assert HEX[2] == '2' && HEX[0] == '0' && HEX[5] == '5' && HEX[3] == '3' && HEX[15] == 'F' && HEX[6] == '6';
  }

  lemma OneSortedKey(key: string, value: string)
    ensures SortedKeys([Entry(key, value)]) == [key] && KeysOf([Entry(key, value)]) == [key]
  {
    IncreasingIsUnique(Same, SortedKeys([Entry(key, value)]), [key]);
  }

  /** The raw URI of readable parts: the scheme, "://", the authority, and after a '?' the pairs `key=value`. */
  lemma ReadableUri(scheme: string, authority: string, key: string, value: string)
    requires Readable(authority, AUTHORITY_SAFE) && Readable(value, QUERY_SAFE)
    ensures IsBytes(authority) && RenderRaw(scheme, authority, []) == scheme + "://" + authority
    ensures '&' !in key && '=' !in key ==>
              var params := [Entry(key, value)];
              ParamsOk(params) && RenderRaw(scheme, authority, params) == scheme + "://" + authority + "?" + key + "=" + value
  {
    ReadableTextStays(authority, AUTHORITY_SAFE);
    ReadableTextStays(value, QUERY_SAFE);
    assert SortedKeys([]) == [] by {
      IncreasingIsUnique(Same, SortedKeys([]), []);
    }
    if '&' !in key && '=' !in key {
      var params := [Entry(key, value)];
      OneSortedKey(key, value);
      assert Get(params, key) == value;
      assert Pairs(params, [key]) == [key + "=" + value];
      assert scheme + "://" + authority + "?" + (key + "=" + value) == scheme + "://" + authority + "?" + key + "=" + value;
    }
  }

  lemma TwoSortedKeys(k1: string, v1: string, k2: string, v2: string)
    requires Less(k1, k2)
    ensures SortedKeys([Entry(k1, v1), Entry(k2, v2)]) == [k1, k2] && SortedKeys([Entry(k2, v2), Entry(k1, v1)]) == [k1, k2]
  {
    assert KeysOf([Entry(k1, v1), Entry(k2, v2)]) == [k1, k2] && KeysOf([Entry(k2, v2), Entry(k1, v1)]) == [k2, k1];
    IncreasingIsUnique(Same, SortedKeys([Entry(k1, v1), Entry(k2, v2)]), [k1, k2]);
    IncreasingIsUnique(Same, SortedKeys([Entry(k2, v2), Entry(k1, v1)]), [k1, k2]);
  }

  lemma TwoPairs(k1: string, v1: string, k2: string, v2: string)
    requires Readable(v1, QUERY_SAFE) && Readable(v2, QUERY_SAFE) && k1 != k2
    requires '&' !in k1 && '=' !in k1 && '&' !in k2 && '=' !in k2
    ensures var params := [Entry(k2, v2), Entry(k1, v1)];
            ParamsOk(params) && k1 in KeysOf(params) && k2 in KeysOf(params)
            && Pairs(params, [k1, k2]) == [k1 + "=" + v1, k2 + "=" + v2]
  {
    var params := [Entry(k2, v2), Entry(k1, v1)];
    ReadableTextStays(v1, QUERY_SAFE);
    ReadableTextStays(v2, QUERY_SAFE);
    assert KeysOf(params) == [k2, k1];
    assert Get(params, k1) == v1 && Get(params, k2) == v2;
  }

  /** Two pairs stand in the order of their keys, with '&' between. */
  lemma TwoReadablePairs(scheme: string, k1: string, v1: string, k2: string, v2: string)
    requires Readable(v1, QUERY_SAFE) && Readable(v2, QUERY_SAFE) && Less(k1, k2)
    requires '&' !in k1 && '=' !in k1 && '&' !in k2 && '=' !in k2
    ensures var params := [Entry(k2, v2), Entry(k1, v1)];
            ParamsOk(params) && RenderRaw(scheme, "", params) == scheme + "://" + "?" + ((k1 + "=" + v1) + "&" + (k2 + "=" + v2))
  {
    var params := [Entry(k2, v2), Entry(k1, v1)];
    BeforeIsTotal(Same, k1, k1);
    TwoPairs(k1, v1, k2, v2);
    TwoSortedKeys(k1, v1, k2, v2);
    var pairs := [k1 + "=" + v1, k2 + "=" + v2];
    assert pairs[1..] == [pairs[1]];
    assert Join("&", pairs) == pairs[0] + "&" + pairs[1];
    assert pairs[0] + "&" + pairs[1] == (k1 + "=" + v1) + "&" + (k2 + "=" + v2);
    assert scheme + "://" + Quote("", AUTHORITY_SAFE) == scheme + "://";
  }
}
