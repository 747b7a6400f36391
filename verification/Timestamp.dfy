/**
 Comparing time stamps that wrap around: timestamp.h.

 Epochs and last-commit stamps are unbounded in the rest of the model. Here they
 are cut down to words, and the theorems say how far apart two of them may be for
 the quadrant comparison to still order them.
 */
module Timestamp {
  import opened Bits

  // Unsigned conversion of an integer to a word, -1 included.
  function Truncate(w: nat, x: int): Word {
    x % Pow2(w)
  }

  // YARN_TIMESTAMP_FLAG_MASK, for a word of at least two bits.
  function FlagMask(w: nat): Word
    requires w >= 2
  {
    Shl(w, 3, w - 2)
  }

  // yarn_timestamp_comp
  function Comp(w: nat, a: Word, b: Word): int
    requires w >= 2
  {
    if a == b then 0
    else
      var aMask := And(a, FlagMask(w));
      var bMask := And(b, FlagMask(w));
      if aMask == bMask then if a < b then -1 else 1
      else if aMask == 0 then if bMask == FlagMask(w) then 1 else -1
      else if bMask == 0 then if aMask == FlagMask(w) then -1 else 1
      else if aMask < bMask then -1 else 1
  }

  function Sign(x: int): int {
    if x < 0 then -1 else if x == 0 then 0 else 1
  }

  // One quarter of the word's range.
  function Quarter(w: nat): nat
    requires w >= 2
  {
    Pow2(w - 2)
  }

  // ---------------------------------------------------------------- quadrants

  lemma {:induction false} BitsAbove(q: nat, k: nat, r: nat, i: nat)
    requires r < Pow2(k)
    ensures Bit(q * Pow2(k) + r, i) <==> if i < k then Bit(r, i) else Bit(q, i - k)
  {
    if k == 0 {
      assert r == 0;
    } else {
      assert q * Pow2(k) == 2 * (q * Pow2(k - 1));
      if i > 0 {
        assert (q * Pow2(k) + r) / 2 == q * Pow2(k - 1) + r / 2;
        BitsAbove(q, k - 1, r / 2, i - 1);
      }
    }
  }

  lemma QuadrantBits(q: nat, i: nat)
    requires q < 4
    ensures Bit(q, i) ==> i < 2
  {
    assert Pow2(2) == 4;
    if Bit(q, i) {
      HighBitBelow(q, 2, i);
    }
  }

  lemma FlagMaskIsTopQuadrant(w: nat)
    requires w >= 2
    ensures FlagMask(w) == 3 * Quarter(w)
  {
    assert Pow2(w) == 2 * Pow2(w - 1) == 4 * Pow2(w - 2);
    ModUnique(3 * Pow2(w - 2), Pow2(w), 0, 3 * Pow2(w - 2));
  }

  // Masking with the flag keeps the quadrant a word lies in.
  lemma MaskIsQuadrant(w: nat, q: nat, r: nat)
    requires w >= 2 && q < 4 && r < Quarter(w)
    ensures And(q * Quarter(w) + r, FlagMask(w)) == q * Quarter(w)
  {
    var k := w - 2;
    var a := q * Pow2(k) + r;
    FlagMaskIsTopQuadrant(w);
    forall i: nat ensures Bit(And(a, FlagMask(w)), i) == Bit(q * Pow2(k), i) {
      BitwiseBits((x, y) => x && y, a, FlagMask(w), i);
      BitsAbove(q, k, r, i);
      BitsAbove(q, k, 0, i);
      BitsAbove(3, k, 0, i);
      ZeroBits(i);
      if i >= k {
        QuadrantBits(q, i - k);
        assert Bit(3, 0) && Bit(3, 1);
      }
    }
    SameBits(And(a, FlagMask(w)), q * Pow2(k));
  }

  // Every integer is a quadrant number and a rest; the word keeps the quadrant
  // number modulo four.
  lemma Split(w: nat, x: int) returns (q: int, r: nat)
    requires w >= 2
    ensures x == q * Quarter(w) + r && r < Quarter(w)
    ensures Truncate(w, x) == (q % 4) * Quarter(w) + r
  {
    var n := Quarter(w);
    q, r := x / n, x % n;
    assert x == q * n + r by {
      assert x == n * (x / n) + x % n;
    }
    var h, m := q / 4, q % 4;
    Regroup(n, h, m);
    assert Pow2(w) == 2 * Pow2(w - 1) == 4 * n;
    TimesGrows(n, m, 4);
    IntModUnique(x, 4 * n, h, m * n + r);
  }

  lemma Regroup(n: nat, h: int, m: nat)
    ensures (4 * h + m) * n == h * (4 * n) + m * n
    ensures m * n >= 0
  {
  }

  lemma IntModUnique(x: int, p: nat, q: int, r: nat)
    requires p > 0 && x == q * p + r && r < p
    ensures x % p == r
  {
    var q', r' := x / p, x % p;
    assert x == q' * p + r' by {
      assert x == p * (x / p) + x % p;
    }
    QuotientUnique(p, q, r, q', r');
  }

  // The four branches on the flag bits, as an order on quadrant numbers.
  function QuadrantOrder(qa: nat, qb: nat): int {
    if qa == 0 then if qb == 3 then 1 else -1
    else if qb == 0 then if qa == 3 then -1 else 1
    else Sign(qa - qb)
  }

  lemma NeighbourQuadrants(qa: int, qb: int)
    requires -1 <= qa - qb <= 1
    ensures qa % 4 == qb % 4 <==> qa == qb
    ensures qa != qb ==> QuadrantOrder(qa % 4, qb % 4) == Sign(qa - qb)
  {
  }

  lemma CompOfQuadrants(w: nat, qa: nat, ra: nat, qb: nat, rb: nat)
    requires w >= 2 && qa < 4 && qb < 4 && ra < Quarter(w) && rb < Quarter(w)
    ensures Comp(w, qa * Quarter(w) + ra, qb * Quarter(w) + rb) ==
            if qa == qb then Sign(ra - rb) else QuadrantOrder(qa, qb)
  {
    var n := Quarter(w);
    FlagMaskIsTopQuadrant(w);
    MaskIsQuadrant(w, qa, ra);
    MaskIsQuadrant(w, qb, rb);
    if qa < qb {
      TimesGrows(n, qa, qb);
    } else if qb < qa {
      TimesGrows(n, qb, qa);
    }
  }

  lemma QuadrantGap(n: nat, qa: int, ra: nat, qb: int, rb: nat)
    requires ra < n && rb < n
    requires 0 - n <= (qa * n + ra) - (qb * n + rb) <= n
    ensures -1 <= qa - qb <= 1
    ensures qa == qb + 1 ==> qa * n + ra > qb * n + rb
    ensures qb == qa + 1 ==> qa * n + ra < qb * n + rb
  {
    if qa > qb {
      TimesGrows(n, qb, qa);
      if qa > qb + 1 {
        TimesGrows(n, qb + 1, qa);
        TimesGrows(n, qb, qb + 1);
      }
    } else if qb > qa {
      TimesGrows(n, qa, qb);
      if qb > qa + 1 {
        TimesGrows(n, qa + 1, qb);
        TimesGrows(n, qa, qa + 1);
      }
    }
  }

  // ---------------------------------------------------------------- main results

  // Stamps at most a quarter of the range apart are ordered correctly, however
  // often either has wrapped.
  lemma CompOrdersNearbyStamps(w: nat, a: int, b: int)
    requires w >= 2
    requires 0 - Quarter(w) <= a - b <= Quarter(w)
    ensures Comp(w, Truncate(w, a), Truncate(w, b)) == Sign(a - b)
  {
    var qa, ra := Split(w, a);
    var qb, rb := Split(w, b);
    QuadrantGap(Quarter(w), qa, ra, qb, rb);
    NeighbourQuadrants(qa, qb);
    CompOfQuadrants(w, qa % 4, ra, qb % 4, rb);
  }

  // One step further apart and it can fail, on any word size.
  lemma CompBoundIsTight(w: nat)
    requires w >= 2
    ensures var a, b := 4 * Quarter(w), 3 * Quarter(w) - 1;
            && a - b == Quarter(w) + 1
            && Comp(w, Truncate(w, a), Truncate(w, b)) != Sign(a - b)
  {
    var n := Quarter(w);
    assert Pow2(w) == 2 * Pow2(w - 1) == 4 * n;
    IntModUnique(4 * n, 4 * n, 1, 0);
    IntModUnique(3 * n - 1, 4 * n, 0, 3 * n - 1);
    assert 3 * n - 1 == 2 * n + (n - 1);
    CompOfQuadrants(w, 0, 0, 2, n - 1);
  }

  // The bound is exact: it is the largest distance at which every pair is ordered.
  lemma CompExactBound(w: nat, d: nat)
    requires w >= 2
    ensures (forall a: int, b: int :: 0 - d <= a - b <= d ==> Comp(w, Truncate(w, a), Truncate(w, b)) == Sign(a - b))
            <==> d <= Quarter(w)
  {
    if d <= Quarter(w) {
      forall a: int, b: int | 0 - d <= a - b <= d
        ensures Comp(w, Truncate(w, a), Truncate(w, b)) == Sign(a - b)
      {
        CompOrdersNearbyStamps(w, a, b);
      }
    } else {
      CompBoundIsTight(w);
      var a, b := 4 * Quarter(w), 3 * Quarter(w) - 1;
      assert 0 - d <= a - b <= d;
    }
  }

  lemma ModOfMod(e: nat, p: nat, k: nat, max: nat)
    requires max > 0 && p > 0 && p == k * max
    ensures (e % p) % max == e % max
  {
    var h, r := e / p, e % p;
    assert e == h * p + r;
    var j, t := r / max, r % max;
    assert r == j * max + t;
    Collect(h, k, j, max);
    IntModUnique(e, max, h * k + j, t);
  }

  lemma Collect(h: nat, k: nat, j: nat, max: nat)
    ensures h * (k * max) + j * max == (h * k + j) * max
  {
  }

  ghost predicate SlotsAgree(w: nat, max: nat)
    requires max > 0
  {
    forall e: nat :: Index(Truncate(w, e), max) == Index(e, max)
  }

  lemma DivisorKeepsSlots(w: nat, max: nat)
    requires max > 0 && Pow2(w) % max == 0
    ensures SlotsAgree(w, max)
  {
    var p := Pow2(w);
    var k := p / max;
    assert p == k * max;
    forall e: nat ensures Index(Truncate(w, e), max) == Index(e, max) {
      IndexIsMod(e, max);
      IndexIsMod(Truncate(w, e), max);
      ModOfMod(e, p, k, max);
    }
  }

  // The slot of a wrapped epoch is the slot of the epoch itself, for every epoch,
  // exactly when the ring size divides the range of a word.
  lemma SlotsSurviveWrapping(w: nat, max: nat)
    requires max > 0
    ensures SlotsAgree(w, max) <==> Pow2(w) % max == 0
  {
    if Pow2(w) % max == 0 {
      DivisorKeepsSlots(w, max);
    } else {
      IntModUnique(Pow2(w), Pow2(w), 1, 0);
      IndexIsMod(Pow2(w), max);
      assert Index(Truncate(w, Pow2(w)), max) != Index(Pow2(w), max);
    }
  }

  // ---------------------------------------------------------------- commit stamps

  // yarn_dep_commit and load_from_wbuf compare an epoch with the last commit to an
  // address, which may lie any distance behind. That an epoch above the stamp is taken
  // for newer is certain exactly up to a quarter of the range.
  lemma NewerIsSeenIff(w: nat, d: nat)
    requires w >= 2
    ensures (forall e: int, last: int :: last < e <= last + d ==> Comp(w, Truncate(w, e), Truncate(w, last)) > 0)
            <==> d <= Quarter(w)
  {
    if d <= Quarter(w) {
      forall e: int, last: int | last < e <= last + d
        ensures Comp(w, Truncate(w, e), Truncate(w, last)) > 0
      {
        CompOrdersNearbyStamps(w, e, last);
      }
    } else {
      CompBoundIsTight(w);
      var e, last := 4 * Quarter(w), 3 * Quarter(w) - 1;
      assert last < e <= last + d;
    }
  }

  // The stamp of an address that was never committed to is -1. An epoch is taken for
  // newer than that exactly in the first quarter of every round of the range; the
  // first store to an address by any other epoch is lost when it commits.
  lemma FirstStoreIsSeenIff(w: nat, e: nat)
    requires w >= 2
    ensures Comp(w, Truncate(w, e), Truncate(w, -1)) > 0 <==> Truncate(w, e) < Quarter(w)
  {
    var n := Quarter(w);
    var q, r := Split(w, e);
    TruncateMinusOne(w);
    CompOfQuadrants(w, q % 4, r, 3, n - 1);
    FirstQuadrant(n, q % 4, r);
  }

  lemma TruncateMinusOne(w: nat)
    requires w >= 2
    ensures Truncate(w, -1) == 3 * Quarter(w) + (Quarter(w) - 1)
  {
    var n := Quarter(w);
    var p, u := Split(w, -1);
    QuotientUnique(n, p, u, -1, n - 1);
  }

  lemma FirstQuadrant(n: nat, q: nat, r: nat)
    requires r < n
    ensures q * n + r < n <==> q == 0
  {
    if q > 0 {
      TimesGrows(n, 0, q);
    }
  }
}
