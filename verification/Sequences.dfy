/** Splitting and regrouping concatenations. */
module Sequences {
  lemma SplitLast<T>(s: seq<T>)
    requires s != []
    ensures s == s[..|s| - 1] + [s[|s| - 1]]
  {}

  lemma SplitFirst<T>(s: seq<T>)
    requires s != []
    ensures s == [s[0]] + s[1..]
  {}

  lemma Associate<T>(a: seq<T>, b: seq<T>, c: seq<T>)
    ensures a + (b + c) == (a + b) + c
  {}
}
