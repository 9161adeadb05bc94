/**
 * Facts about slicing and concatenating sequences, stated once for any
 * element type so that the models of records and timelines can cite them.
 */
module SeqFacts {
  /** A sequence is its prefix, its `k`th element and its suffix. */
  lemma SplitAt<T>(s: seq<T>, k: nat)
    requires k < |s|
    ensures s == s[..k] + [s[k]] + s[k + 1..]
  {
  }

  /** Dropping the last element of a non-empty right operand. */
  lemma DropLast<T>(a: seq<T>, b: seq<T>)
    requires |b| > 0
    ensures (a + b)[..|a + b| - 1] == a + b[..|b| - 1]
    ensures (a + b)[|a + b| - 1] == b[|b| - 1]
  {
  }

  /** The last element split off a non-empty sequence. */
  lemma Snoc<T>(s: seq<T>)
    requires |s| > 0
    ensures s == s[..|s| - 1] + [s[|s| - 1]]
  {
  }

  /** `init + [x]` without its last element is `init`. */
  lemma InitOfSnoc<T>(init: seq<T>, x: T)
    ensures (init + [x])[..|init|] == init
    ensures |init + [x]| - 1 == |init| && (init + [x])[|init|] == x
  {
  }

  lemma AppendNil<T>(a: seq<T>)
    ensures a + [] == a
  {
  }

  lemma AppendAssoc<T>(a: seq<T>, b: seq<T>, c: seq<T>)
    ensures (a + b) + c == a + (b + c)
  {
  }
}
