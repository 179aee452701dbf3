/** Small datatypes and facts the other modules share. */
module Common {

  datatype Option<+T> = None | Some(value: T) {
    function GetOr(default: T): T {
      match this case Some(v) => v case None => default
    }
  }

  datatype Result<+T> = Ok(value: T) | Err(error: string)

  /** A member of a non-empty set, for the loops that visit a set in no particular order. */
  lemma Member<T>(s: set<T>) returns (x: T)
    requires s != {}
    ensures x in s
  {
    x :| x in s;
  }

  // ---- Python dicts, in the order their entries were added ----

  datatype Entry<V> = Entry(key: string, value: V)

  function KeysOf<V>(entries: seq<Entry<V>>): seq<string> {
    seq(|entries|, i requires 0 <= i < |entries| => entries[i].key)
  }

  /** The index of the first entry with this key. */
  function Find<V>(entries: seq<Entry<V>>, key: string): (i: nat)
    requires key in KeysOf(entries)
    ensures i < |entries| && entries[i].key == key
  {
    if entries[0].key == key then 0
    else
      assert KeysOf(entries) == [entries[0].key] + KeysOf(entries[1..]);
      1 + Find(entries[1..], key)
  }

  function Get<V>(entries: seq<Entry<V>>, key: string): V
    requires key in KeysOf(entries)
  {
    entries[Find(entries, key)].value
  }

  /** The dict without the order of its entries. */
  function AsMap<V>(entries: seq<Entry<V>>): map<string, V> {
    map k | k in KeysOf(entries) :: Get(entries, k)
  }
}
