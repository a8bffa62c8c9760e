/** What the other modules need of concatenation. */
module Sequences {

  lemma Associate<T>(a: seq<T>, b: seq<T>, c: seq<T>)
    ensures a + (b + c) == a + b + c
  {
  }

  lemma TakeSnoc<T>(s: seq<T>, n: nat)
    requires n < |s|
    ensures s[..n] + [s[n]] == s[..n + 1]
  {
  }

  /** The next element of `more` goes behind `done`. */
  lemma AppendNext<T>(done: seq<T>, more: seq<T>, n: nat)
    requires n < |more|
    ensures done + more[..n] + [more[n]] == done + more[..n + 1]
  {
  }

  function Flatten<T>(parts: seq<seq<T>>): seq<T> {
    if parts == [] then [] else parts[0] + Flatten(parts[1..])
  }
}
