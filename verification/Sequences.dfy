/** Facts about sequences that several modules share. */
module Sequences {

  lemma Assoc<T>(a: seq<T>, b: seq<T>, c: seq<T>)
    ensures (a + b) + c == a + (b + c)
  {}

  /** What the batches hold, one after the other. */
  function Flatten<T>(batches: seq<seq<T>>): seq<T> {
    if batches == [] then [] else batches[0] + Flatten(batches[1..])
  }

  lemma {:induction false} FlattenHas<T>(batches: seq<seq<T>>, b: nat, x: T)
    requires b < |batches| && x in batches[b]
    ensures x in Flatten(batches)
  {
    if b == 0 {
    } else {
      FlattenHas(batches[1..], b - 1, x);
    }
  }
}
