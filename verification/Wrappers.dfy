/** Shared by the other modules. */
module Wrappers {
  /** Where the C++ code returns NULL or a value. */
  datatype Option<+T> = None | Some(value: T)

  function Min(a: int, b: int): int {
    if a < b then a else b
  }

  ghost predicate Ascending(at: seq<nat>) {
    forall k, l :: 0 <= k < l < |at| ==> at[k] < at[l]
  }

  lemma AscendingFrom(i: nat, rest: seq<nat>)
    requires Ascending(rest) && forall k: nat :: k in rest ==> i < k
    ensures Ascending([i] + rest)
  {
    assert forall k :: 0 <= k < |rest| ==> rest[k] in rest;
  }

  lemma AscendingThen(at: seq<nat>, n: nat)
    requires Ascending(at) && forall k: nat :: k in at ==> k < n
    ensures Ascending(at + [n])
  {
    assert forall k :: 0 <= k < |at| ==> at[k] in at;
  }

  lemma SuffixIs<T>(a: seq<T>, b: seq<T>, whole: seq<T>)
    requires whole == a + b
    ensures whole[|a|..] == b
  {
  }

  lemma Assoc<T>(a: seq<T>, b: seq<T>, c: seq<T>)
    ensures a + (b + c) == (a + b) + c
  {
  }

  /** whole is a followed by b. */
  predicate Joins<T(==)>(a: seq<T>, b: seq<T>, whole: seq<T>) {
    if |a| == 0 then b == whole else a + b == whole
  }

  lemma JoinsMore<T>(a: seq<T>, part: seq<T>, b: seq<T>, whole: seq<T>)
    requires Joins(a, part + b, whole)
    ensures Joins(a + part, b, whole)
  {
    Assoc(a, part, b);
  }

  lemma JoinsAll<T>(a: seq<T>, whole: seq<T>)
    requires Joins(a, [], whole)
    ensures a == whole
  {
  }
}
