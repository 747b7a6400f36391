/**
 What becomes of the ring when epochs are machine words: which comparisons of epoch.c
 and which slots are still right once epochs have wrapped around.
 */
module Wrapping {
  import opened Bits
  import opened Timeline
  import opened Timestamp
  import opened EpochRing

  // yarn_timestamp_comp on the words orders the epochs.
  predicate Ordered(w: nat, x: int, y: int)
    requires w >= 2
  {
    Comp(w, Truncate(w, x), Truncate(w, y)) == Sign(x - y)
  }

  lemma {:induction false} RingIsSmall(w: nat, max: nat)
    requires IsWordSize(w) && max <= w / 2
    ensures max + 1 <= Quarter(w)
  {
    Pow2Mono(6, w - 2);
    assert Pow2(6) == 64;
  }

  // Every comparison epoch.c makes is right on wrapped epochs: of the stop bound with
  // first, of the bound and of next with any epoch of the window, be it one more than
  // an epoch that stops or the start of a rollback, of next with the bound, and of the
  // epochs that a rollback goes through with next.
  lemma ComparisonsSurviveWrapping(w: nat, max: nat, l: Line)
    requires IsWordSize(w) && max <= w / 2 && Ring(max, l) && StopBound(max, l)
    ensures Ordered(w, l.stop, l.first) && Ordered(w, l.next, l.stop)
    ensures forall x: nat :: l.first <= x <= l.first + max ==>
              Ordered(w, l.stop, x) && Ordered(w, l.next, x) && Ordered(w, x, l.next)
  {
    RingIsSmall(w, max);
    CompOrdersNearbyStamps(w, l.stop, l.first);
    CompOrdersNearbyStamps(w, l.next, l.stop);
    forall x: nat | l.first <= x <= l.first + max
      ensures Ordered(w, l.stop, x) && Ordered(w, l.next, x) && Ordered(w, x, l.next)
    {
      CompOrdersNearbyStamps(w, l.stop, x);
      CompOrdersNearbyStamps(w, l.next, x);
      CompOrdersNearbyStamps(w, x, l.next);
    }
  }

  // ---------------------------------------------------------------- the length of the ring

  ghost predicate PowerOfTwo(n: nat) {
    exists k: nat :: n == Pow2(k)
  }

  lemma {:induction false} PowersDivide(a: nat, b: nat)
    requires a <= b
    ensures Pow2(b) % Pow2(a) == 0
  {
    if a < b {
      PowersDivide(a, b - 1);
      var q := Pow2(b - 1) / Pow2(a);
      assert Pow2(b - 1) == q * Pow2(a) + 0;
      assert Pow2(b) == (2 * q) * Pow2(a) + 0;
      IntModUnique(Pow2(b), Pow2(a), 2 * q, 0);
    } else {
      IntModUnique(Pow2(a), Pow2(a), 1, 0);
    }
  }

  lemma {:induction false} DivisorOfPower(k: nat, d: nat, q: nat)
    requires d * q == Pow2(k)
    ensures PowerOfTwo(d)
    decreases k
  {
    if k == 0 {
      assert d == 1 == Pow2(0);
    } else if q % 2 == 0 {
      HalfProduct(d, q);
      DivisorOfPower(k - 1, d, q / 2);
    } else if d % 2 == 0 {
      HalfProduct(q, d);
      DivisorOfPower(k - 1, d / 2, q);
      var j: nat :| d / 2 == Pow2(j);
      assert d == Pow2(j + 1);
    } else {
      OddProduct(d, q);
    }
  }

  lemma HalfProduct(x: nat, y: nat)
    requires y % 2 == 0
    ensures x * y == 2 * (x * (y / 2))
  {
    assert y == 2 * (y / 2);
  }

  lemma OddProduct(x: nat, y: nat)
    requires x % 2 == 1 && y % 2 == 1
    ensures (x * y) % 2 == 1
  {
    var a, b := x / 2, y / 2;
    assert x * y == 2 * (2 * a * b + a + b) + 1;
  }

  lemma DividesIff(w: nat, k: nat, d: nat)
    requires d > 0
    ensures d == Pow2(k) && k <= w ==> Pow2(w) % d == 0
    ensures Pow2(w) % d == 0 ==> PowerOfTwo(d)
  {
    if d == Pow2(k) && k <= w {
      PowersDivide(k, w);
    }
    var q := Pow2(w) / d;
    assert Pow2(w) == d * q + Pow2(w) % d;
    if Pow2(w) % d == 0 {
      DivisorOfPower(w, d, q);
    }
  }

  lemma PowerBelow(k: nat, b: nat)
    requires Pow2(k) < Pow2(b)
    ensures k < b
  {
    if b <= k {
      Pow2Mono(b, k);
    }
  }

  lemma DoubleIsPowerIff(n: nat)
    requires n > 0
    ensures PowerOfTwo(2 * n) <==> PowerOfTwo(n)
  {
    if PowerOfTwo(n) {
      var k: nat :| n == Pow2(k);
      assert 2 * n == Pow2(k + 1);
    }
    if PowerOfTwo(2 * n) {
      var k: nat :| 2 * n == Pow2(k);
      assert k > 0 && n == Pow2(k - 1);
    }
  }

  // The ring keeps its slots when epochs wrap around exactly if the pool is so large
  // that half a word bounds the ring, or its size is a power of two.
  lemma PoolKeepsItsSlotsIff(w: nat, poolSize: nat)
    requires IsWordSize(w) && poolSize > 0
    ensures SlotsAgree(w, EpochMax(w, poolSize)) <==> w / 2 <= 2 * poolSize || PowerOfTwo(poolSize)
  {
    var m := EpochMax(w, poolSize);
    assert Pow2(6) == 64;
    SlotsSurviveWrapping(w, m);
    if w / 2 <= 2 * poolSize {
      HalfWordDivides(w);
    } else {
      DoubleIsPowerIff(poolSize);
      DividesIff(w, 0, m);
      if PowerOfTwo(m) {
        var k: nat :| m == Pow2(k);
        PowerBelow(k, 6);
        DividesIff(w, k, m);
      }
    }
  }

  lemma HalfWordDivides(w: nat)
    requires IsWordSize(w)
    ensures Pow2(w) % (w / 2) == 0
  {
    assert Pow2(4) == 16 && Pow2(5) == 32;
    PowersDivide(if w == 32 then 4 else 5, w);
  }

  // Six workers get twelve slots, and those do not survive.
  lemma SixWorkersLoseTheirSlots(w: nat)
    requires IsWordSize(w)
    ensures EpochMax(w, 6) == 12 && !SlotsAgree(w, EpochMax(w, 6))
  {
    PoolKeepsItsSlotsIff(w, 6);
    if k: nat :| 6 == Pow2(k) {
      assert Pow2(3) == 8 && Pow2(2) == 4;
      if k >= 3 {
        Pow2Mono(3, k);
      } else {
        Pow2Mono(k, 2);
      }
    }
  }
}
