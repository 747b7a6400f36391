/**
 Machine words and the bit tricks of bits.h.

 A word is a natural number below 2^w, where w is the word size (32 or 64, as
 YARN_WORD_64 decides). Its bits are read off by `Bit`, and the C operators are
 defined on the numbers, so that every claim about a mask is a claim about bits.
 */
module Bits {

  type Word = nat

  function Pow2(k: nat): (r: nat)
    ensures r > 0
  {
    if k == 0 then 1 else 2 * Pow2(k - 1)
  }

  predicate Bit(v: Word, i: nat) {
    if i == 0 then v % 2 == 1 else Bit(v / 2, i - 1)
  }

  // The word sizes the source is built for.
  predicate IsWordSize(w: nat) {
    w == 32 || w == 64
  }

  // A bitwise operator given by its truth table.
  function Bitwise(f: (bool, bool) -> bool, a: Word, b: Word): Word
    requires !f(false, false)
    decreases a + b
  {
    if a == 0 && b == 0 then 0
    else 2 * Bitwise(f, a / 2, b / 2) + if f(a % 2 == 1, b % 2 == 1) then 1 else 0
  }

  function And(a: Word, b: Word): Word {
    Bitwise((x, y) => x && y, a, b)
  }

  function Or(a: Word, b: Word): Word {
    Bitwise((x, y) => x || y, a, b)
  }

  function Xor(a: Word, b: Word): Word {
    Bitwise((x, y) => x != y, a, b)
  }

  // ~a on w bits.
  function Not(w: nat, a: Word): Word
    requires a < Pow2(w)
  {
    Pow2(w) - 1 - a
  }

  function Shr(a: Word, k: nat): Word {
    if k == 0 then a else Shr(a / 2, k - 1)
  }

  // a << k on w bits: what is pushed out is lost.
  function Shl(w: nat, a: Word, k: nat): Word {
    (a * Pow2(k)) % Pow2(w)
  }

  // YARN_BIT_INDEX. Written as a recursion so that proofs about slots do not
  // need non-linear arithmetic; IndexIsMod says it is the C remainder.
  function Index(value: nat, max: nat): (r: nat)
    requires max > 0
    ensures r < max
  {
    if value < max then value else Index(value - max, max)
  }

  // YARN_BIT_MASK, YARN_BIT_SET and YARN_BIT_CLEAR. The shifts are by less than
  // the word size, so nothing is lost.
  function Mask(index: nat, max: nat): Word
    requires max > 0
  {
    Pow2(Index(index, max))
  }

  function SetBit(word: Word, index: nat, max: nat): Word
    requires max > 0
  {
    Or(word, Mask(index, max))
  }

  function ClearBit(w: nat, word: Word, index: nat, max: nat): Word
    requires 0 < max <= w
  {
    Pow2Below(Index(index, max), w);
    And(word, Not(w, Mask(index, max)))
  }

  // yarn_bit_mask_range
  function MaskRange(w: nat, first: nat, second: nat, max: nat): Word
    requires 0 < max <= w
  {
    var a := Pow2(Index(first, max));
    var b := Pow2(Index(second, max));
    var c := Xor(a - 1, b - 1);
    Pow2Below(Index(first, max), w);
    Pow2Below(Index(second, max), w);
    BitwiseBound((x, y) => x != y, a - 1, b - 1, w);
    if a != b then
      if a < b then c else Not(w, c)
    else
      if first >= second then c else Not(w, c)
  }

  // log_tables_256, laid out by the YARN_BIT_LT rows. ByteBounds shows that the
  // index is always that of one of its 256 entries.
  function LogTable(t: nat): nat {
    if t < 2 then 0 else if t < 4 then 1 else if t < 8 then 2 else if t < 16 then 3
    else if t < 32 then 4 else if t < 64 then 5 else if t < 128 then 6 else 7
  }

  // The line yarn_bit_log2 repeats for each half word, with t = (v >> k) >> 8.
  function ByteLog(v: Word, k: nat): nat {
    if Shr(Shr(v, k), 8) != 0 then k + 8 + LogTable(Shr(Shr(v, k), 8)) else k + LogTable(Shr(v, k))
  }

  // yarn_bit_log2
  function Log2(w: nat, v: Word): nat {
    if w == 64 && Shr(v, 48) != 0 then ByteLog(v, 48)
    else if w == 64 && Shr(v, 32) != 0 then ByteLog(v, 32)
    else if Shr(v, 16) != 0 then ByteLog(v, 16)
    else ByteLog(v, 0)
  }

  // yarn_bit_pack and the two halves yarn_bit_unpack returns.
  function Pack(w: nat, a: Word, b: Word): Word {
    Or(And(a, Pow2(w / 2) - 1), Shl(w, b, w / 2))
  }

  function UnpackLow(w: nat, v: Word): Word {
    And(v, Pow2(w / 2) - 1)
  }

  function UnpackHigh(w: nat, v: Word): Word {
    Shr(v, w / 2)
  }

  ghost predicate HighestBit(v: Word, r: nat) {
    Bit(v, r) && forall i :: i > r ==> !Bit(v, i)
  }

  ghost predicate LowClear(v: Word, k: nat) {
    forall i: nat :: i < k ==> !Bit(v, i)
  }

  ghost predicate LowestBit(v: Word, r: nat) {
    Bit(v, r) && LowClear(v, r)
  }

  // ---------------------------------------------------------------- bits of the operators

  lemma {:induction false} Pow2Mono(a: nat, b: nat)
    requires a < b
    ensures Pow2(a) < Pow2(b)
  {
    if a + 1 < b {
      Pow2Mono(a, b - 1);
    }
  }

  lemma Pow2Below(i: nat, w: nat)
    requires i < w
    ensures Pow2(i) < Pow2(w)
  {
  }

  lemma {:induction false} ZeroBits(i: nat)
    ensures !Bit(0, i)
  {
    if i > 0 {
      ZeroBits(i - 1);
    }
  }

  lemma {:induction false} BitwiseBits(f: (bool, bool) -> bool, a: Word, b: Word, i: nat)
    requires !f(false, false)
    ensures Bit(Bitwise(f, a, b), i) == f(Bit(a, i), Bit(b, i))
    decreases a + b
  {
    if a == 0 && b == 0 {
      ZeroBits(i);
    } else if i > 0 {
      var r := Bitwise(f, a, b);
      assert r / 2 == Bitwise(f, a / 2, b / 2);
      BitwiseBits(f, a / 2, b / 2, i - 1);
    }
  }

  lemma {:induction false} BitwiseBound(f: (bool, bool) -> bool, a: Word, b: Word, n: nat)
    requires !f(false, false) && a < Pow2(n) && b < Pow2(n)
    ensures Bitwise(f, a, b) < Pow2(n)
    decreases n
  {
    if n > 0 {
      BitwiseBound(f, a / 2, b / 2, n - 1);
    }
  }

  lemma {:induction false} AndBound(a: Word, b: Word, n: nat)
    requires a < Pow2(n)
    ensures And(a, b) < Pow2(n)
  {
    if And(a, b) >= Pow2(n) {
      var i := BitAbove(And(a, b), n);
      BitwiseBits((x, y) => x && y, a, b, i);
      HighBitBelow(a, n, i);
    }
  }

  lemma {:induction false} BitAbove(v: Word, n: nat) returns (i: nat)
    requires v >= Pow2(n)
    ensures i >= n && Bit(v, i)
  {
    if n == 0 {
      i := SomeBit(v);
    } else {
      var j := BitAbove(v / 2, n - 1);
      i := j + 1;
    }
  }

  lemma {:induction false} PowBits(k: nat, i: nat)
    ensures Bit(Pow2(k), i) <==> i == k
    ensures Bit(Pow2(k) - 1, i) <==> i < k
  {
    if k == 0 {
      ZeroBits(i);
      if i > 0 {
        ZeroBits(i - 1);
        assert Pow2(k) / 2 == 0;
      }
    } else if i > 0 {
      assert Pow2(k) / 2 == Pow2(k - 1) && (Pow2(k) - 1) / 2 == Pow2(k - 1) - 1;
      PowBits(k - 1, i - 1);
    }
  }

  lemma {:induction false} NotBits(w: nat, a: Word, i: nat)
    requires a < Pow2(w)
    ensures Bit(Not(w, a), i) <==> i < w && !Bit(a, i)
  {
    if w == 0 {
      ZeroBits(i);
    } else if i > 0 {
      assert Not(w, a) / 2 == Not(w - 1, a / 2);
      NotBits(w - 1, a / 2, i - 1);
    }
  }

  lemma {:induction false} ShrBits(v: Word, k: nat, i: nat)
    ensures Bit(Shr(v, k), i) == Bit(v, i + k)
  {
    if k > 0 {
      ShrBits(v / 2, k - 1, i);
    }
  }

  lemma {:induction false} ShrBelow(v: Word, k: nat, n: nat)
    requires v < Pow2(n + k)
    ensures Shr(v, k) < Pow2(n)
  {
    if k > 0 {
      ShrBelow(v / 2, k - 1, n);
    }
  }

  lemma {:induction false} ShrShr(v: Word, j: nat, k: nat)
    ensures Shr(Shr(v, j), k) == Shr(v, j + k)
  {
    if j > 0 {
      ShrShr(v / 2, j - 1, k);
    }
  }

  lemma {:induction false} ShrZero(v: Word, k: nat)
    ensures Shr(v, k) == 0 <==> v < Pow2(k)
  {
    if k > 0 {
      ShrZero(v / 2, k - 1);
    }
  }

  lemma Pow2Of8()
    ensures Pow2(8) == 256
  {
  }

  // The table is only ever asked about a byte.
  lemma ByteBounds(v: Word, k: nat)
    requires v < Pow2(k + 16)
    ensures Shr(Shr(v, k), 8) < 256
    ensures Shr(Shr(v, k), 8) == 0 ==> Shr(v, k) < 256
  {
    Pow2Of8();
    ShrBelow(v, k, 16);
    ShrBelow(Shr(v, k), 8, 8);
    ShrZero(Shr(v, k), 8);
  }

  // ---------------------------------------------------------------- the searches

  lemma {:induction false} TopBit(v: Word, k: nat)
    requires Pow2(k) <= v < Pow2(k + 1)
    ensures HighestBit(v, k)
  {
    if k == 0 {
      forall i | i > 0 ensures !Bit(v, i) {
        ZeroBits(i - 1);
      }
    } else {
      TopBit(v / 2, k - 1);
      forall i | i > k ensures !Bit(v, i) {
        assert !Bit(v / 2, i - 1);
      }
    }
  }

  lemma LogTableHighest(t: nat)
    requires 0 < t < 256
    ensures HighestBit(t, LogTable(t))
  {
    assert Pow2(1) == 2 && Pow2(2) == 4 && Pow2(3) == 8 && Pow2(4) == 16;
    assert Pow2(5) == 32 && Pow2(6) == 64 && Pow2(7) == 128 && Pow2(8) == 256;
    TopBit(t, LogTable(t));
  }

  lemma HighestShifted(v: Word, k: nat, r: nat)
    requires HighestBit(Shr(v, k), r)
    ensures HighestBit(v, r + k)
  {
    ShrBits(v, k, r);
    forall i | i > r + k ensures !Bit(v, i) {
      ShrBits(v, k, i - k);
      assert !Bit(Shr(v, k), i - k);
    }
  }

  lemma ByteLogHighest(v: Word, k: nat)
    requires 0 < Shr(v, k) && v < Pow2(k + 16)
    ensures HighestBit(v, ByteLog(v, k))
  {
    ByteBounds(v, k);
    if Shr(Shr(v, k), 8) != 0 {
      LogTableHighest(Shr(Shr(v, k), 8));
      HighestShifted(Shr(v, k), 8, LogTable(Shr(Shr(v, k), 8)));
      HighestShifted(v, k, 8 + LogTable(Shr(Shr(v, k), 8)));
    } else {
      LogTableHighest(Shr(v, k));
      HighestShifted(v, k, LogTable(Shr(v, k)));
    }
  }

  lemma LowHalfWord(v: Word) returns (k: nat)
    requires 0 < v < Pow2(32)
    ensures k == if Shr(v, 16) != 0 then 16 else 0
    ensures 0 < Shr(v, k) && v < Pow2(k + 16)
  {
    if Shr(v, 16) != 0 {
      return 16;
    }
    ShrZero(v, 16);
    k := 0;
  }

  // The half word that holds the highest bit is the one the cascade settles on.
  lemma Log2HalfWord(w: nat, v: Word) returns (k: nat)
    requires IsWordSize(w) && 0 < v < Pow2(w)
    ensures Log2(w, v) == ByteLog(v, k)
    ensures 0 < Shr(v, k) && v < Pow2(k + 16)
  {
    if w == 64 && Shr(v, 48) != 0 {
      return 48;
    }
    ShrZero(v, 48);
    if w == 64 && Shr(v, 32) != 0 {
      return 32;
    }
    ShrZero(v, 32);
    k := LowHalfWord(v);
  }

  // yarn_bit_log2 finds the highest bit that is set, on either word size.
  lemma Log2IsHighest(w: nat, v: Word)
    requires IsWordSize(w) && 0 < v < Pow2(w)
    ensures HighestBit(v, Log2(w, v))
    ensures Log2(w, v) < w
  {
    var k := Log2HalfWord(w, v);
    ByteLogHighest(v, k);
    HighBitBelow(v, w, Log2(w, v));
  }

  lemma {:induction false} HighBitBelow(v: Word, w: nat, i: nat)
    requires v < Pow2(w) && Bit(v, i)
    ensures i < w
  {
    if w == 0 {
      ZeroBits(i);
    } else if i > 0 {
      HighBitBelow(v / 2, w - 1, i - 1);
    }
  }

  lemma {:induction false} SomeBit(v: Word) returns (i: nat)
    requires v > 0
    ensures LowestBit(v, i)
  {
    if v % 2 == 1 {
      i := 0;
    } else {
      var j := SomeBit(v / 2);
      i := j + 1;
      forall k | 0 <= k < i ensures !Bit(v, k) {
        if k > 0 {
          assert !Bit(v / 2, k - 1);
        }
      }
    }
  }

  lemma AndLowZero(v: Word, k: nat)
    ensures And(v, Pow2(k) - 1) == 0 <==> LowClear(v, k)
  {
    var m := And(v, Pow2(k) - 1);
    forall i: nat ensures Bit(m, i) <==> Bit(v, i) && i < k {
      BitwiseBits((x, y) => x && y, v, Pow2(k) - 1, i);
      PowBits(k, i);
    }
    if m == 0 {
      forall i | 0 <= i < k ensures !Bit(v, i) {
        ZeroBits(i);
        assert !Bit(m, i);
      }
    } else {
      var i := SomeBit(m);
      assert Bit(m, i);
      assert 0 <= i < k && Bit(v, i);
    }
  }

  // One `if ((v & mask) == 0) v >>= k` step of yarn_bit_trailing_zeros.
  lemma LowestShifted(v: Word, k: nat, t: nat)
    requires LowestBit(v, t)
    ensures And(v, Pow2(k) - 1) == 0 <==> k <= t
    ensures k <= t ==> LowestBit(Shr(v, k), t - k)
  {
    AndLowZero(v, k);
    assert t < k ==> Bit(v, t);
    if k <= t {
      ShrBits(v, k, t - k);
      forall i | 0 <= i < t - k ensures !Bit(Shr(v, k), i) {
        ShrBits(v, k, i);
      }
    }
  }

  lemma {:induction false} ShrOfZero(k: nat)
    ensures Shr(0, k) == 0
  {
    if k > 0 {
      ShrOfZero(k - 1);
    }
  }

  lemma {:induction false} LowestUnique(v: Word, s: nat, t: nat)
    requires LowestBit(v, s) && LowestBit(v, t)
    ensures s == t
  {
  }

  // yarn_bit_trailing_zeros. On zero it returns the word size less one, as the
  // source's own note says.
  method TrailingZeros(w: nat, word: Word) returns (c: nat)
    requires IsWordSize(w) && word < Pow2(w)
    ensures word > 0 ==> LowestBit(word, c) && c < w
    ensures word == 0 ==> c == w - 1
  {
    ghost var t := 0;
    if word > 0 {
      t := SomeBit(word);
      HighBitBelow(word, w, t);
    }
    var v := word;
    if v % 2 == 1 {
      LowestUnique(word, t, 0);
      return 0;
    }
    c := 1;
    if w == 64 {
      v, c := ShiftIfClear(v, c, 32, t);
    }
    v, c := ShiftIfClear(v, c, 16, t);
    v, c := ShiftIfClear(v, c, 8, t);
    v, c := ShiftIfClear(v, c, 4, t);
    v, c := ShiftIfClear(v, c, 2, t);
    c := c - v % 2;
    if word > 0 {
      if v % 2 == 1 {
        LowestUnique(v, t + 1 - (c + 1), 0);
      }
    }
  }

  // The test and shift the source repeats with k = 32, 16, 8, 4 and 2.
  method ShiftIfClear(v: Word, c: nat, k: nat, ghost t: nat) returns (v': Word, c': nat)
    requires c >= 1
    requires v > 0 ==> t + 1 >= c && LowestBit(v, t + 1 - c)
    ensures v == 0 ==> v' == 0 && c' == c + k
    ensures v > 0 ==> v' > 0 && c' >= c && t + 1 >= c' && LowestBit(v', t + 1 - c')
    ensures v > 0 ==> c' == if t + 1 - c >= k then c + k else c
  {
    v', c' := v, c;
    if v > 0 {
      LowestShifted(v, k, t + 1 - c);
    } else {
      AndLowZero(v, k);
      ShrOfZero(k);
      forall i | 0 <= i < k ensures !Bit(v, i) {
        ZeroBits(i);
      }
    }
    if And(v, Pow2(k) - 1) == 0 {
      v', c' := Shr(v, k), c + k;
      if v > 0 && v' == 0 {
        ZeroBits(t + 1 - c');
      }
    }
  }

  // ---------------------------------------------------------------- ranges and packing

  // What yarn_bit_mask_range selects: the bits from first's slot up to second's,
  // wrapping past the top of the word when second's slot is the lower one. Equal
  // slots mean an empty range, or a full one when first is the smaller value.
  lemma MaskRangeBits(w: nat, first: nat, second: nat, max: nat, i: nat)
    requires 0 < max <= w && i < w
    ensures var lo, hi := Index(first, max), Index(second, max);
            Bit(MaskRange(w, first, second, max), i) <==>
              if lo < hi then lo <= i < hi
              else if hi < lo then !(hi <= i < lo)
              else first < second
  {
    var lo, hi := Index(first, max), Index(second, max);
    var a, b := Pow2(lo), Pow2(hi);
    var c := Xor(a - 1, b - 1);
    BitwiseBits((x, y) => x != y, a - 1, b - 1, i);
    PowBits(lo, i);
    PowBits(hi, i);
    Pow2Below(lo, w);
    Pow2Below(hi, w);
    BitwiseBound((x, y) => x != y, a - 1, b - 1, w);
    NotBits(w, c, i);
    if lo < hi {
      Pow2Mono(lo, hi);
    } else if hi < lo {
      Pow2Mono(hi, lo);
    }
  }

  lemma MaskRangeBound(w: nat, first: nat, second: nat, max: nat)
    requires 0 < max <= w
    ensures MaskRange(w, first, second, max) < Pow2(w)
  {
    Pow2Below(Index(first, max), w);
    Pow2Below(Index(second, max), w);
    BitwiseBound((x, y) => x != y, Pow2(Index(first, max)) - 1, Pow2(Index(second, max)) - 1, w);
  }

  lemma {:induction false} SameBits(a: Word, b: Word)
    requires forall i: nat :: Bit(a, i) == Bit(b, i)
    ensures a == b
    decreases a + b
  {
    assert Bit(a, 0) == Bit(b, 0);
    if a + b > 0 {
      forall i: nat ensures Bit(a / 2, i) == Bit(b / 2, i) {
        assert Bit(a, i + 1) == Bit(b, i + 1);
      }
      SameBits(a / 2, b / 2);
    }
  }

  lemma {:induction false} TruncBits(x: Word, w: nat, i: nat)
    ensures Bit(x % Pow2(w), i) <==> i < w && Bit(x, i)
  {
    if w == 0 {
      ZeroBits(i);
    } else {
      TruncHalf(x, Pow2(w - 1));
      if i > 0 {
        TruncBits(x / 2, w - 1, i - 1);
      }
    }
  }

  lemma TruncHalf(x: nat, p: nat)
    requires p > 0
    ensures (x % (2 * p)) / 2 == (x / 2) % p
    ensures (x % (2 * p)) % 2 == x % 2
  {
    var q, r := x / (2 * p), x % (2 * p);
    assert x == q * (2 * p) + r;
    assert q * (2 * p) == 2 * (q * p);
    assert x / 2 == q * p + r / 2;
    ModUnique(x / 2, p, q, r / 2);
  }

  lemma ModUnique(x: nat, p: nat, q: nat, r: nat)
    requires p > 0 && x == q * p + r && r < p
    ensures x % p == r && x / p == q
  {
    var q', r' := x / p, x % p;
    assert x == q' * p + r' && 0 <= r' < p;
    QuotientUnique(p, q, r, q', r');
  }

  lemma {:induction false} TimesGrows(p: nat, x: int, y: int)
    requires x < y
    ensures x * p + p <= y * p
    decreases y - x
  {
    if x + 1 < y {
      TimesGrows(p, x + 1, y);
    }
  }

  lemma QuotientUnique(p: nat, q: int, r: nat, q': int, r': nat)
    requires r < p && r' < p && q * p + r == q' * p + r'
    ensures q == q' && r == r'
  {
    if q > q' {
      TimesGrows(p, q', q);
    } else if q < q' {
      TimesGrows(p, q, q');
    }
  }

  lemma {:induction false} ShiftedBits(b: Word, k: nat, i: nat)
    ensures Bit(b * Pow2(k), i) <==> i >= k && Bit(b, i - k)
  {
    if k > 0 {
      assert b * Pow2(k) == 2 * (b * Pow2(k - 1));
      if i > 0 {
        ShiftedBits(b, k - 1, i - 1);
      }
    }
  }

  lemma PackBits(w: nat, a: Word, b: Word, i: nat)
    ensures Bit(Pack(w, a, b), i) <==>
              if i < w / 2 then Bit(a, i) else i < w && Bit(b, i - w / 2)
  {
    var h := w / 2;
    BitwiseBits((x, y) => x || y, And(a, Pow2(h) - 1), Shl(w, b, h), i);
    BitwiseBits((x, y) => x && y, a, Pow2(h) - 1, i);
    PowBits(h, i);
    TruncBits(b * Pow2(h), w, i);
    ShiftedBits(b, h, i);
  }

  lemma UnpackBits(w: nat, v: Word, i: nat)
    ensures Bit(UnpackLow(w, v), i) <==> i < w / 2 && Bit(v, i)
    ensures Bit(UnpackHigh(w, v), i) <==> Bit(v, i + w / 2)
  {
    BitwiseBits((x, y) => x && y, v, Pow2(w / 2) - 1, i);
    PowBits(w / 2, i);
    ShrBits(v, w / 2, i);
  }

  // Two half words survive being packed into one word.
  lemma PackRoundTrip(w: nat, a: Word, b: Word)
    requires w % 2 == 0 && a < Pow2(w / 2) && b < Pow2(w / 2)
    ensures UnpackLow(w, Pack(w, a, b)) == a
    ensures UnpackHigh(w, Pack(w, a, b)) == b
  {
    var p := Pack(w, a, b);
    forall i: nat ensures Bit(UnpackLow(w, p), i) == Bit(a, i) && Bit(UnpackHigh(w, p), i) == Bit(b, i) {
      UnpackBits(w, p, i);
      PackBits(w, a, b, i);
      PackBits(w, a, b, i + w / 2);
      if Bit(a, i) {
        HighBitBelow(a, w / 2, i);
      }
      if Bit(b, i) {
        HighBitBelow(b, w / 2, i);
      }
    }
    SameBits(UnpackLow(w, p), a);
    SameBits(UnpackHigh(w, p), b);
  }

  lemma UnpackZero(w: nat)
    ensures UnpackLow(w, 0) == 0 && UnpackHigh(w, 0) == 0
    ensures forall i: nat :: !Bit(0, i)
  {
    forall i: nat ensures !Bit(0, i) {
      ZeroBits(i);
    }
    forall i: nat ensures Bit(UnpackLow(w, 0), i) == Bit(0, i) && Bit(UnpackHigh(w, 0), i) == Bit(0, i) {
      UnpackBits(w, 0, i);
    }
    SameBits(UnpackLow(w, 0), 0);
    SameBits(UnpackHigh(w, 0), 0);
  }

  // YARN_BIT_SET and YARN_BIT_CLEAR touch the one bit they name.
  lemma SetClearBits(w: nat, word: Word, index: nat, max: nat, i: nat)
    requires 0 < max <= w
    ensures Bit(SetBit(word, index, max), i) <==> Bit(word, i) || i == Index(index, max)
    ensures i < w ==> (Bit(ClearBit(w, word, index, max), i) <==> Bit(word, i) && i != Index(index, max))
  {
    var m := Mask(index, max);
    PowBits(Index(index, max), i);
    Pow2Below(Index(index, max), w);
    BitwiseBits((x, y) => x || y, word, m, i);
    BitwiseBits((x, y) => x && y, word, Not(w, m), i);
    NotBits(w, m, i);
  }

  // Testing one bit, as in (flags & mask) == 0.
  lemma TestBit(word: Word, index: nat, max: nat)
    requires max > 0
    ensures And(word, Mask(index, max)) != 0 <==> Bit(word, Index(index, max))
  {
    var i := Index(index, max);
    var r := And(word, Mask(index, max));
    BitwiseBits((x, y) => x && y, word, Mask(index, max), i);
    PowBits(i, i);
    if r == 0 {
      ZeroBits(i);
    } else {
      var j := SomeBit(r);
      BitwiseBits((x, y) => x && y, word, Mask(index, max), j);
      PowBits(i, j);
    }
  }

  lemma SetClearBound(w: nat, word: Word, index: nat, max: nat)
    requires 0 < max <= w && word < Pow2(max)
    ensures SetBit(word, index, max) < Pow2(max)
    ensures ClearBit(w, word, index, max) < Pow2(max)
  {
    Pow2Below(Index(index, max), max);
    Pow2Below(Index(index, max), w);
    BitwiseBound((x, y) => x || y, word, Mask(index, max), max);
    AndBound(word, Not(w, Mask(index, max)), max);
  }

  // ---------------------------------------------------------------- slots of the ring

  lemma {:induction false} IndexIsMod(value: nat, max: nat)
    requires max > 0
    ensures Index(value, max) == value % max
  {
    if value < max {
      ModUnique(value, max, 0, value);
    } else {
      IndexIsMod(value - max, max);
      var q, r := (value - max) / max, (value - max) % max;
      assert value - max == q * max + r;
      assert value == (q + 1) * max + r;
      ModUnique(value, max, q + 1, r);
    }
  }

  // Moving k slots on from a value moves its index k slots on, around the ring.
  lemma {:induction false} IndexStep(value: nat, k: nat, max: nat)
    requires max > 0 && k <= max
    ensures Index(value + k, max) ==
            if Index(value, max) + k < max then Index(value, max) + k else Index(value, max) + k - max
  {
    if value >= max {
      IndexStep(value - max, k, max);
    }
  }

  // No two values of a window of max share a slot.
  lemma IndexInjective(max: nat, x: nat, y: nat)
    requires max > 0 && Index(x, max) == Index(y, max)
    requires x <= y < x + max
    ensures x == y
  {
  }

  lemma WindowInjective(max: nat, first: nat)
    requires max > 0
    ensures forall x: nat, y: nat ::
              first <= x < first + max && first <= y < first + max && Index(x, max) == Index(y, max) ==> x == y
  {
    forall x: nat, y: nat | first <= x < first + max && first <= y < first + max && Index(x, max) == Index(y, max)
      ensures x == y
    {
      if x <= y {
        IndexInjective(max, x, y);
      } else {
        IndexInjective(max, y, x);
      }
    }
  }
}
