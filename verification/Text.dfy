/** Joining and splitting texts. */
module Text {

  function Join(separator: string, parts: seq<string>): string {
    if parts == [] then ""
    else if |parts| == 1 then parts[0]
    else parts[0] + separator + Join(separator, parts[1..])
  }

  /** The index of the first `c`, or the length. */
  function FirstOf(text: string, c: char): (k: nat)
    ensures k <= |text| && c !in text[..k]
    ensures k < |text| ==> text[k] == c
  {
    if text == "" || text[0] == c then 0
    else
      assert text[..1 + FirstOf(text[1..], c)] == [text[0]] + text[1..][..FirstOf(text[1..], c)];
      1 + FirstOf(text[1..], c)
  }

  function Split(text: string, c: char): seq<string>
    decreases |text|
  {
    var k := FirstOf(text, c);
    if k == |text| then [text] else [text[..k]] + Split(text[k + 1..], c)
  }

  lemma {:induction false} FirstAfter(head: string, c: char, tail: string)
    requires c !in head
    ensures FirstOf(head + [c] + tail, c) == |head|
    ensures (head + [c] + tail)[..|head|] == head && (head + [c] + tail)[|head| + 1..] == tail
    decreases |head|
  {
    if head != "" {
      assert (head + [c] + tail)[1..] == head[1..] + [c] + tail;
      FirstAfter(head[1..], c, tail);
    }
  }

  lemma {:induction false} FirstOfNone(text: string, c: char)
    ensures c !in text <==> FirstOf(text, c) == |text|
    decreases |text|
  {
  }

  /** Splitting undoes joining when no part holds the separator. */
  lemma {:induction false} SplitOfJoin(parts: seq<string>, c: char)
    requires parts != [] && forall i :: 0 <= i < |parts| ==> c !in parts[i]
    ensures Split(Join([c], parts), c) == parts
    decreases |parts|
  {
    if |parts| == 1 {
      FirstOfNone(parts[0], c);
      assert parts == [parts[0]];
    } else {
      var rest := Join([c], parts[1..]);
      SplitOfJoin(parts[1..], c);
      FirstAfter(parts[0], c, rest);
      assert parts == [parts[0]] + parts[1..];
    }
  }

  /** The index of the first character of a kind, or the length. */
  function FirstWhere(text: string, kind: char -> bool): (k: nat)
    ensures k <= |text| && forall i :: 0 <= i < k ==> !kind(text[i])
    ensures k < |text| ==> kind(text[k])
  {
    if text == "" || kind(text[0]) then 0 else 1 + FirstWhere(text[1..], kind)
  }

  /** The index after the last character of a kind, or 0. */
  function LastWhere(text: string, kind: char -> bool): (k: nat)
    ensures k <= |text| && forall i :: k <= i < |text| ==> !kind(text[i])
    ensures k > 0 ==> kind(text[k - 1])
  {
    if text == "" then 0
    else if kind(text[|text| - 1]) then |text|
    else LastWhere(text[..|text| - 1], kind)
  }

  lemma FirstWhereIs(text: string, kind: char -> bool, k: nat)
    requires k <= |text| && (forall i :: 0 <= i < k ==> !kind(text[i])) && (k < |text| ==> kind(text[k]))
    ensures FirstWhere(text, kind) == k
  {
  }
}
