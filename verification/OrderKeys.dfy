/** The key order of rendered workflow documents: `order_keys`. */
module OrderKeys {
  import opened Common
  import opened Sequences
  import opened StringOrder

  /** A JSON document as Python holds it: a mapping keeps the order its entries were added in. */
  datatype Doc = Scalar(repr: string) | Items(items: seq<Doc>) | Mapping(entries: seq<Entry<Doc>>)

  const KEY_ORDER: seq<string> := [
    "name", "on", "id", "uses", "run", "runs-on", "needs", "if", "with", "permissions", "concurrency",
    "defaults", "strategy", "env", "outputs", "timeout-minutes", "steps", "jobs"]

  /** The position in `KEY_ORDER`, and the length of that list for any other key. */
  function KeyRank(key: string): nat {
    IndexOf(KEY_ORDER, key)
  }

  lemma SortedKeysAreKeys(entries: seq<Entry<Doc>>)
    ensures forall k :: k in SortedSet(KeyRank, KeysOf(entries)) <==> k in KeysOf(entries)
    ensures Increasing(KeyRank, SortedSet(KeyRank, KeysOf(entries)))
  {
    SortedSetIsSorted(KeyRank, KeysOf(entries));
  }

  /** `order_keys`. */
  function Order(d: Doc): Doc {
    match d
    case Scalar(_) => d
    case Items(items) => Items(seq(|items|, i requires 0 <= i < |items| => Order(items[i])))
    case Mapping(entries) =>
      var keys := SortedSet(KeyRank, KeysOf(entries));
      SortedKeysAreKeys(entries);
      Mapping(seq(|keys|, i requires 0 <= i < |keys| => Entry(keys[i], Order(entries[Find(entries, keys[i])].value))))
  }

  /** The document without the order of its mappings. */
  datatype Tree = Atom(repr: string) | Row(items: seq<Tree>) | Table(entries: map<string, Tree>)

  ghost function Denote(d: Doc): Tree {
    match d
    case Scalar(repr) => Atom(repr)
    case Items(items) => Row(seq(|items|, i requires 0 <= i < |items| => Denote(items[i])))
    case Mapping(entries) =>
      Table(map k | k in KeysOf(entries) :: Denote(entries[Find(entries, k)].value))
  }

  /** Every mapping, at every depth, lists its keys by rank and then by name, each once. */
  ghost predicate InKeyOrder(d: Doc) {
    match d
    case Scalar(_) => true
    case Items(items) => forall i :: 0 <= i < |items| ==> InKeyOrder(items[i])
    case Mapping(entries) =>
      && Increasing(KeyRank, KeysOf(entries))
      && forall i :: 0 <= i < |entries| ==> InKeyOrder(entries[i].value)
  }

  lemma {:induction false} OrderedKeys(entries: seq<Entry<Doc>>)
    ensures KeysOf(Order(Mapping(entries)).entries) == SortedSet(KeyRank, KeysOf(entries))
  {
  }

  /** In a list with each key once, looking a key up finds its only entry. */
  lemma FindIsUnique(entries: seq<Entry<Doc>>, i: nat)
    requires i < |entries| && Increasing(KeyRank, KeysOf(entries))
    ensures KeysOf(entries)[i] == entries[i].key && entries[i].key in KeysOf(entries)
    ensures Find(entries, entries[i].key) == i
  {
    assert KeysOf(entries)[i] == entries[i].key;
    var j := Find(entries, entries[i].key);
    assert KeysOf(entries)[j] == entries[j].key;
    BeforeIsTotal(KeyRank, entries[i].key, entries[i].key);
  }

  /** The result means the same document. */
  lemma {:induction false} OrderKeepsMeaning(d: Doc)
    ensures Denote(Order(d)) == Denote(d)
  {
    match d
    case Scalar(_) =>
    case Items(items) =>
      forall i | 0 <= i < |items| ensures Denote(Order(items[i])) == Denote(items[i]) {
        OrderKeepsMeaning(items[i]);
      }
      assert Denote(Order(d)).items == Denote(d).items;
    case Mapping(entries) =>
      SortedKeysAreKeys(entries);
      OrderedKeys(entries);
      var sorted := Order(d).entries;
      forall k | k in KeysOf(entries)
        ensures k in KeysOf(sorted) && Denote(sorted[Find(sorted, k)].value) == Denote(entries[Find(entries, k)].value)
      {
        var i := Find(sorted, k);
        assert sorted[i].key == k;
        assert sorted[i].value == Order(entries[Find(entries, k)].value);
        OrderKeepsMeaning(entries[Find(entries, k)].value);
      }
      assert Denote(Order(d)).entries == Denote(d).entries;
  }

  lemma {:induction false} OrderIsInKeyOrder(d: Doc)
    ensures InKeyOrder(Order(d))
  {
    match d
    case Scalar(_) =>
    case Items(items) =>
      forall i | 0 <= i < |items| ensures InKeyOrder(Order(items[i])) {
        OrderIsInKeyOrder(items[i]);
      }
    case Mapping(entries) =>
      SortedKeysAreKeys(entries);
      OrderedKeys(entries);
      forall i | 0 <= i < |Order(d).entries| ensures InKeyOrder(Order(d).entries[i].value) {
        OrderIsInKeyOrder(entries[Find(entries, Order(d).entries[i].key)].value);
      }
  }

  /** Documents in key order are equal as soon as they mean the same: the order leaves no choice. */
  lemma {:induction false} KeyOrderIsUnique(a: Doc, b: Doc)
    requires InKeyOrder(a) && InKeyOrder(b) && Denote(a) == Denote(b)
    ensures a == b
  {
    match a
    case Scalar(_) =>
    case Items(items) =>
      assert |items| == |Denote(a).items| == |b.items|;
      forall i | 0 <= i < |items| ensures items[i] == b.items[i] {
        assert Denote(items[i]) == Denote(a).items[i] == Denote(b).items[i] == Denote(b.items[i]);
        KeyOrderIsUnique(items[i], b.items[i]);
      }
    case Mapping(entries) =>
      var other := b.entries;
      forall k ensures k in KeysOf(entries) <==> k in KeysOf(other) {
        assert k in KeysOf(entries) <==> k in Denote(a).entries;
        assert k in KeysOf(other) <==> k in Denote(b).entries;
      }
      IncreasingIsUnique(KeyRank, KeysOf(entries), KeysOf(other));
      assert |entries| == |KeysOf(entries)| == |other|;
      forall i | 0 <= i < |entries| ensures entries[i] == other[i] {
        FindIsUnique(entries, i);
        FindIsUnique(other, i);
        var k := entries[i].key;
        assert Denote(entries[i].value) == Denote(a).entries[k] == Denote(b).entries[k] == Denote(other[i].value);
        KeyOrderIsUnique(entries[i].value, other[i].value);
      }
  }

  /** The canonical form: two documents are ordered into the same tree exactly when they are equal up to
      the order of mappings at any depth; ordering again changes nothing. */
  lemma OrderIsCanonical(a: Doc, b: Doc)
    ensures Order(a) == Order(b) <==> Denote(a) == Denote(b)
    ensures Order(Order(a)) == Order(a)
    ensures InKeyOrder(a) <==> Order(a) == a
  {
    OrderKeepsMeaning(a);
    OrderKeepsMeaning(b);
    OrderKeepsMeaning(Order(a));
    OrderIsInKeyOrder(a);
    OrderIsInKeyOrder(b);
    OrderIsInKeyOrder(Order(a));
    if Denote(a) == Denote(b) {
      KeyOrderIsUnique(Order(a), Order(b));
    }
    KeyOrderIsUnique(Order(Order(a)), Order(a));
    if InKeyOrder(a) {
      KeyOrderIsUnique(Order(a), a);
    }
  }

  /** A listed key comes before every key that is listed later or not at all. */
  lemma ListedKeysComeFirst(i: nat, key: string)
    requires i < |KEY_ORDER|
    ensures KeyRank(KEY_ORDER[i]) == i
    ensures key !in KEY_ORDER ==> KeyRank(key) == |KEY_ORDER| && Before(KeyRank, KEY_ORDER[i], key)
  {
    KeysAreDistinct();
  }

  /** No listed key is one of the earlier ones. */
  lemma KeyIsNew(i: nat)
    requires i < |KEY_ORDER|
    ensures forall j :: 0 <= j < i ==> KEY_ORDER[j] != KEY_ORDER[i]
  {
    var key := KEY_ORDER[i];
    assert |key| >= 2;
  }

  lemma KeysAreDistinct()
    ensures Distinct(KEY_ORDER)
  {
    forall i, j | 0 <= i < j < |KEY_ORDER| ensures KEY_ORDER[i] != KEY_ORDER[j] {
      KeyIsNew(j);
    }
  }
}
