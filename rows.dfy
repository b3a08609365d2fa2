/** Catalog items as the grid sees them, and the subsequence relation that
    says a list keeps only elements of another list, in their order. */
module Rows {
  import opened Wrappers

  /** An item is a record of named fields; each value is the field's string
      form, and a field that is absent, `null` or `undefined` has no key. */
  type Item = map<string, string>

  /** `item[key]`: the field's string form, or None when the item lacks it. */
  function Get(item: Item, key: string): Option<string>
  {
    if key in item then Some(item[key]) else None
  }

  /** `a` is obtained from `b` by dropping some elements. */
  predicate IsSubsequence<T(==)>(a: seq<T>, b: seq<T>)
    decreases |b|
  {
    a == [] ||
    (b != [] && ((a[0] == b[0] && IsSubsequence(a[1..], b[1..])) || IsSubsequence(a, b[1..])))
  }

  /** A subsequence is no longer than the list it comes from and holds only its elements. */
  lemma {:induction false} SubsequenceElements<T>(a: seq<T>, b: seq<T>)
    requires IsSubsequence(a, b)
    ensures |a| <= |b|
    ensures forall x :: x in a ==> x in b
    decreases |b|
  {
    if a != [] {
      if a[0] == b[0] && IsSubsequence(a[1..], b[1..]) {
        SubsequenceElements(a[1..], b[1..]);
        forall x | x in a ensures x in b {
          if x != a[0] { assert x in a[1..]; }
        }
      } else {
        SubsequenceElements(a, b[1..]);
      }
    }
  }

  /** Every list is a subsequence of itself. */
  lemma {:induction false} SubsequenceReflexive<T>(a: seq<T>)
    ensures IsSubsequence(a, a)
  {
    if a != [] {
      SubsequenceReflexive(a[1..]);
    }
  }
}
