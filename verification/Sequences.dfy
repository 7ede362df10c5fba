/** Laws of concatenation, named so that proofs can say which one they use. */
module Sequences {
  lemma {:induction false} Associative<T>(x: seq<T>, y: seq<T>, z: seq<T>)
    ensures x + (y + z) == (x + y) + z
  {}

  lemma {:induction false} Unit<T>(x: seq<T>)
    ensures [] + x == x == x + []
  {}

  lemma {:induction false} HeadAndTail<T>(x: seq<T>)
    requires x != []
    ensures [x[0]] + x[1..] == x
  {}

  lemma {:induction false} DropFirst<T>(x: seq<T>, y: seq<T>)
    requires x != []
    ensures (x + y)[0] == x[0] && (x + y)[1..] == x[1..] + y
  {}

  lemma {:induction false} TakeApart<T>(x: seq<T>, y: seq<T>)
    ensures (x + y)[..|x|] == x && (x + y)[|x|..] == y
  {}
}
