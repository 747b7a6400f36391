/**
 Linear probing over a table of addresses in which nothing is ever removed: the facts
 about probe chains that map.c relies on, alone and under concurrency.
 */
module OpenAddressing {

  // An empty slot holds NULL.
  const NULL: nat := 0

  type Hash = (nat, nat) -> nat

  // The source reduces a mixed address modulo the capacity; any function will do.
  ghost predicate IsHash(hash: Hash) {
    forall a, cap :: cap > 0 ==> hash(a, cap) < cap
  }

  // The n-th slot a probe visits that starts at h.
  function Slot(h: nat, n: nat, cap: nat): (r: nat)
    requires h < cap && n < cap
    ensures r < cap
  {
    if h + n < cap then h + n else h + n - cap
  }

  // When a probe that starts at h visits slot p.
  function Visit(h: nat, p: nat, cap: nat): (r: nat)
    requires h < cap && p < cap
    ensures r < cap && Slot(h, r, cap) == p
  {
    if p >= h then p - h else p + cap - h
  }

  // The step i = (i + 1) % capacity.
  lemma NextSlot(h: nat, n: nat, cap: nat)
    requires h < cap && n + 1 < cap
    ensures Slot(h, n + 1, cap) == (Slot(h, n, cap) + 1) % cap
  {
  }

  // ---------------------------------------------------------------- chains

  // A probe for a has seen its first n slots taken by other addresses.
  ghost predicate Passed(hash: Hash, t: seq<nat>, a: nat, n: nat)
    requires IsHash(hash)
  {
    n <= |t| && forall k :: 0 <= k < n ==> t[Slot(hash(a, |t|), k, |t|)] !in {NULL, a}
  }

  // Every address is where its probe gets to without meeting an empty slot, or
  // itself.
  ghost predicate Chained(hash: Hash, t: seq<nat>)
    requires IsHash(hash)
  {
    forall p :: 0 <= p < |t| && t[p] != NULL ==> Passed(hash, t, t[p], Visit(hash(t[p], |t|), p, |t|))
  }

  ghost predicate NoDuplicates(t: seq<nat>) {
    forall p, q :: 0 <= p < q < |t| && t[p] != NULL ==> t[p] != t[q]
  }

  // Unbroken chains leave no room for a duplicate.
  lemma ChainedIsDistinct(hash: Hash, t: seq<nat>)
    requires IsHash(hash) && Chained(hash, t)
    ensures NoDuplicates(t)
  {
  }

  // An address that a probe has passed by is nowhere when the probe meets an empty
  // slot, and adding it there keeps every chain.
  lemma PlaceKeepsChains(hash: Hash, t: seq<nat>, a: nat, n: nat)
    requires IsHash(hash) && Chained(hash, t) && Passed(hash, t, a, n) && n < |t| && a != NULL
    requires t[Slot(hash(a, |t|), n, |t|)] == NULL
    ensures a !in t && Chained(hash, t[Slot(hash(a, |t|), n, |t|) := a])
  {
  }

  // What a probe has passed by stays as it was when an empty slot is filled.
  lemma PassedStays(hash: Hash, t: seq<nat>, i: nat, a: nat, b: nat, n: nat)
    requires IsHash(hash) && Passed(hash, t, b, n) && i < |t| && t[i] == NULL && a != NULL
    ensures Passed(hash, t[i := a], b, n)
  {
  }

  // ---------------------------------------------------------------- counting

  function Taken(t: seq<nat>): (r: nat)
    ensures r <= |t|
  {
    if |t| == 0 then 0 else Taken(t[..|t| - 1]) + if t[|t| - 1] == NULL then 0 else 1
  }

  lemma {:induction false} PlaceTakesOne(t: seq<nat>, i: nat, a: nat)
    requires i < |t| && t[i] == NULL && a != NULL
    ensures Taken(t[i := a]) == Taken(t) + 1
  {
    var n := |t| - 1;
    if i == n {
      assert t[i := a][..n] == t[..n];
    } else {
      PlaceTakesOne(t[..n], i, a);
      assert t[i := a][..n] == t[..n][i := a];
    }
  }

  lemma {:induction false} EmptyTakesNone(t: seq<nat>)
    requires forall i :: 0 <= i < |t| ==> t[i] == NULL
    ensures Taken(t) == 0
  {
    if |t| > 0 {
      EmptyTakesNone(t[..|t| - 1]);
    }
  }

  lemma {:induction false} FullTakesAll(t: seq<nat>)
    requires forall i :: 0 <= i < |t| ==> t[i] != NULL
    ensures Taken(t) == |t|
  {
    if |t| > 0 {
      FullTakesAll(t[..|t| - 1]);
    }
  }

  // A probe that has passed by every slot has met a full table.
  lemma PassedAllIsFull(hash: Hash, t: seq<nat>, a: nat)
    requires IsHash(hash) && Passed(hash, t, a, |t|) && |t| > 0
    ensures Taken(t) == |t|
  {
    forall p | 0 <= p < |t| ensures t[p] != NULL {
      assert t[Slot(hash(a, |t|), Visit(hash(a, |t|), p, |t|), |t|)] != NULL;
    }
    FullTakesAll(t);
  }

  // Distinct addresses out of a set take no more slots than the set has members.
  lemma {:induction false} DistinctTakesAtMost(t: seq<nat>, s: set<nat>)
    requires NoDuplicates(t) && forall p :: 0 <= p < |t| && t[p] != NULL ==> t[p] in s
    ensures Taken(t) <= |s|
  {
    if |t| > 0 {
      var front, last := t[..|t| - 1], t[|t| - 1];
      assert NoDuplicates(front);
      if last == NULL {
        DistinctTakesAtMost(front, s);
      } else {
        DistinctTakesAtMost(front, s - {last});
      }
    }
  }
}
