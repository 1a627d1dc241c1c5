/**
  Small facts about sequence concatenation, kept apart so that each is
  proved in a context of its own.
*/
module SeqFacts {
  lemma AppendAssoc<T>(x: seq<T>, y: seq<T>, z: seq<T>)
    ensures (x + y) + z == x + (y + z)
  {
  }

  lemma PrefixAndLast<T>(w: seq<T>)
    requires |w| > 0
    ensures w[..|w| - 1] + [w[|w| - 1]] == w
  {
  }

  /** Dropping the last element of a + b, b non-empty, drops the last element of b. */
  lemma AppendDropLast<T>(a: seq<T>, b: seq<T>)
    requires |b| > 0
    ensures (a + b)[..|a + b| - 1] == a + b[..|b| - 1]
    ensures (a + b)[|a + b| - 1] == b[|b| - 1]
  {
  }
}
