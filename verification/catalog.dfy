/** The event catalog both services draw from on every timer tick, and the
    random choice of one of its entries. The two services declare the same
    five strings in the same order. */
module Catalog {

  const Events: seq<string> :=
    ["A dragon appears!", "You find a hidden door.", "A mimic attacks!",
     "The ground shakes...", "A Goblin appears!"]

  /** `Math.floor(u * n)` for a draw `u` of `Math.random()`, which lies in
      [0, 1): always a valid index into a catalog of `n` entries. */
  function RandomIndex(u: real, n: nat): (i: nat)
    requires 0.0 <= u < 1.0 && n > 0
    ensures i < n
  {
    assert u * n as real < n as real by {
      assert (1.0 - u) * n as real > 0.0;
    }
    (u * n as real).Floor
  }

  /** No entry is excluded from generation: the draw `i / n` selects index `i`. */
  lemma EveryIndexDrawable(i: nat, n: nat)
    requires i < n
    ensures RandomIndex(i as real / n as real, n) == i
  {
    assert (i as real / n as real) * n as real == i as real;
  }

  /** The event published on a tick whose random draw is `u`. */
  function Pick(u: real): (e: string)
    requires 0.0 <= u < 1.0
    ensures e in Events
  {
    Events[RandomIndex(u, |Events|)]
  }

  /** Every event of a publication history is a catalog entry, stated one
      element at a time so that the solver unfolds it only on demand. */
  predicate AllInCatalog(es: seq<string>)
    decreases |es|
  {
    es == [] || (es[0] in Events && AllInCatalog(es[1..]))
  }

  /** The recursive statement agrees with the membership quantifier. */
  lemma {:induction false} AllInCatalogIff(es: seq<string>)
    ensures AllInCatalog(es) <==> forall e | e in es :: e in Events
    decreases |es|
  {
    if es != [] {
      AllInCatalogIff(es[1..]);
      assert forall e | e in es :: e == es[0] || e in es[1..];
    }
  }

  /** A history of catalog events stays one when a pick is appended. */
  lemma AllInCatalogAppend(es: seq<string>, u: real)
    requires 0.0 <= u < 1.0 && AllInCatalog(es)
    ensures AllInCatalog(es + [Pick(u)])
  {
    AllInCatalogIff(es);
    AllInCatalogIff(es + [Pick(u)]);
  }
}
