/** Sequence helpers shared by the tokenizer, the line grouper and the layouts. */
module Seqs {

  /** The parts concatenated in order. */
  function Flatten<T>(parts: seq<seq<T>>): seq<T>
  {
    if |parts| == 0 then [] else Flatten(parts[..|parts| - 1]) + parts[|parts| - 1]
  }

  lemma {:induction false} FlattenCons<T>(p: seq<T>, parts: seq<seq<T>>)
    ensures Flatten([p] + parts) == p + Flatten(parts)
    decreases |parts|
  {
    if |parts| > 0 {
      var n := |parts|;
      FlattenCons(p, parts[..n - 1]);
      assert ([p] + parts)[..n] == [p] + parts[..n - 1];
    }
  }

  /** Every member of a part is a member of the flattened sequence. */
  lemma {:induction false} FlattenMember<T>(parts: seq<seq<T>>, k: nat, x: T)
    requires k < |parts| && x in parts[k]
    ensures x in Flatten(parts)
    decreases |parts|
  {
    var n := |parts| - 1;
    if k < n {
      FlattenMember(parts[..n], k, x);
    }
  }

  /** A sequence is its prefix before i, its element at i and its suffix after i. */
  lemma SplitAt<T>(s: seq<T>, i: nat)
    requires i < |s|
    ensures s == s[..i] + [s[i]] + s[i + 1..]
  {
  }

  /** Appending a part of one element appends that element. */
  lemma FlattenPush<T>(parts: seq<seq<T>>, x: T)
    ensures Flatten(parts + [[x]]) == Flatten(parts) + [x]
  {
    assert (parts + [[x]])[..|parts|] == parts;
  }

  /** Extending the last part by one element appends that element. */
  lemma FlattenExtendLast<T>(parts: seq<seq<T>>, x: T)
    requires parts != []
    ensures var m := |parts| - 1;
      Flatten(parts[..m] + [parts[m] + [x]]) == Flatten(parts) + [x]
  {
    var m := |parts| - 1;
    assert (parts[..m] + [parts[m] + [x]])[..m] == parts[..m];
  }
}
