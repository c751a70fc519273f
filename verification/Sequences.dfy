/** What both halves of the project need of sequences. */
module Sequences {

  ghost predicate Occurs<T>(s: seq<T>, x: T) {
    exists i | 0 <= i < |s| :: s[i] == x
  }

  lemma AppendAssociates<T>(a: seq<T>, b: seq<T>, c: seq<T>)
    ensures (a + b) + c == a + (b + c)
  {
  }
}
