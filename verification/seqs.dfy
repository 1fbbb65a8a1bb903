// Facts about sequences that the models use, stated once over any element type.

module Seqs {
  /** Cutting a sequence at `k` and gluing the pieces gives it back. */
  lemma CutRejoins<T>(xs: seq<T>, k: nat)
    requires k <= |xs|
    ensures xs[..k] + xs[k..] == xs
  {
  }

  /** The head and tail of a concatenation whose left part is not empty. */
  lemma ConsAppend<T>(a: seq<T>, b: seq<T>)
    requires a != []
    ensures (a + b)[0] == a[0]
    ensures (a + b)[1..] == a[1..] + b
  {
  }

  lemma EmptyJoins<T>(x: seq<T>)
    ensures [] + x == x
  {
  }

  lemma Associate<T>(x: seq<T>, y: seq<T>, z: seq<T>)
    ensures x + (y + z) == (x + y) + z
  {
  }
}
