/** Small sequence functions that several modules share. */
module Sequences {

  /** One position taken out; positions outside the sequence take out nothing. */
  function Spliced<A>(a: seq<A>, i: nat): seq<A> {
    if i < |a| then a[..i] + a[i + 1..] else a
  }

  function SetOf(ids: seq<nat>): set<nat> {
    set id | id in ids
  }
}
