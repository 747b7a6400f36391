/**
 The two searches dependency.c makes in the packed flags of an address: the latest
 writer a load may read from, and the earliest reader a store invalidates. Both
 turn a window of epochs into one or two bit masks over the ring of slots, pick an
 end bit, and turn the slot back into an epoch.
 */
module Search {
  import opened Bits

  // The epoch has its bit in flags and is not masked out by the rollback bits.
  ghost predicate Flagged(flags: Word, rollback: Word, max: nat, x: nat)
    requires max > 0
  {
    Bit(flags, Index(x, max)) && !Bit(rollback, Index(x, max))
  }

  // index_to_epoch_after
  function IndexToEpochAfter(base: nat, index: nat, max: nat): nat
    requires max > 0
  {
    var baseIndex := Index(base, max);
    if baseIndex <= index then base + (index - baseIndex) else base + (max - baseIndex) + index
  }

  // index_to_epoch_before. The C result wraps when it would be negative, which
  // FindWriter shows it never is.
  function IndexToEpochBefore(base: nat, index: nat, max: nat): int
    requires max > 0
  {
    var baseIndex := Index(base, max);
    if baseIndex >= index then base - (baseIndex - index) else base - baseIndex - (max - index)
  }

  // The bits of (flags & ~rollback) & mask_range(lo, hi).
  ghost predicate Selects(w: nat, flags: Word, rollback: Word, lo: nat, hi: nat, r: Word)
  {
    r < Pow2(w) && forall i: nat :: Bit(r, i) <==> Bit(flags, i) && !Bit(rollback, i) && lo <= i < hi
  }

  // Masks the flags with the slots from first's to second's; the source uses it on
  // epochs whose slots are in order, and on the two ends of a wrapped window.
  method Select(w: nat, flags: Word, rollback: Word, first: nat, second: nat, max: nat, ghost hi: nat)
    returns (r: Word)
    requires 0 < max <= w && flags < Pow2(max) && rollback < Pow2(w)
    requires hi == if Index(first, max) < Index(second, max) then Index(second, max)
                   else if first < second || Index(first, max) > 0 then max
                   else 0
    requires Index(first, max) < Index(second, max) || Index(second, max) == 0
    ensures Selects(w, flags, rollback, Index(first, max), hi, r)
  {
    var live := And(flags, Not(w, rollback));
    var mask := MaskRange(w, first, second, max);
    r := And(live, mask);
    if max < w {
      Pow2Mono(max, w);
    }
    BitwiseBound((x, y) => x && y, flags, Not(w, rollback), w);
    MaskRangeBound(w, first, second, max);
    BitwiseBound((x, y) => x && y, live, mask, w);
    forall i: nat
      ensures Bit(r, i) <==> Bit(flags, i) && !Bit(rollback, i) && Index(first, max) <= i < hi
    {
      BitwiseBits((x, y) => x && y, live, mask, i);
      BitwiseBits((x, y) => x && y, flags, Not(w, rollback), i);
      NotBits(w, rollback, i);
      if Bit(flags, i) {
        HighBitBelow(flags, max, i);
        MaskRangeBits(w, first, second, max, i);
      }
    }
  }

  lemma SelectedZero(w: nat, flags: Word, rollback: Word, lo: nat, hi: nat, r: Word)
    requires Selects(w, flags, rollback, lo, hi, r)
    ensures r == 0 ==> NoneIn(flags, rollback, lo, hi)
  {
    if r == 0 {
      forall i: nat | lo <= i < hi ensures !(Bit(flags, i) && !Bit(rollback, i)) {
        ZeroBits(i);
        assert !Bit(r, i);
      }
    }
  }

  // The epoch of the window [first, first + max) that lives in slot i.
  function SlotEpoch(first: nat, max: nat, i: nat): nat
    requires i < max
  {
    if i >= Index(first, max) then first + (i - Index(first, max)) else first + (i + max - Index(first, max))
  }

  lemma SlotEpochInverse(first: nat, max: nat, i: nat, x: nat)
    requires i < max && first <= x < first + max
    ensures first <= SlotEpoch(first, max, i) < first + max
    ensures Index(SlotEpoch(first, max, i), max) == i
    ensures SlotEpoch(first, max, Index(x, max)) == x
  {
    IndexStep(first, SlotEpoch(first, max, i) - first, max);
    IndexStep(first, x - first, max);
  }

  lemma BeforeIsSlotEpoch(first: nat, epoch: nat, max: nat, i: nat)
    requires i < max && first <= SlotEpoch(first, max, i) <= epoch < first + max
    ensures IndexToEpochBefore(epoch, i, max) == SlotEpoch(first, max, i)
  {
    var y := SlotEpoch(first, max, i);
    SlotEpochInverse(first, max, i, y);
    IndexStep(y, epoch - y, max);
  }

  lemma AfterIsSlotEpoch(first: nat, epoch: nat, max: nat, i: nat)
    requires i < max && first == epoch + 1 && SlotEpoch(first, max, i) < epoch + max
    ensures IndexToEpochAfter(epoch, i, max) == SlotEpoch(first, max, i)
  {
    var y := SlotEpoch(first, max, i);
    SlotEpochInverse(first, max, i, y);
    IndexStep(epoch, y - epoch, max);
  }

  // The window [first, last) read off in slots: one stretch of bits, or two with
  // the later epochs in the low one.
  lemma WindowSlots(first: nat, last: nat, max: nat, x: nat)
    requires first < last <= first + max && first <= x < first + max
    ensures var lo, hi, i := Index(first, max), Index(last, max), Index(x, max);
            if lo < hi then x < last <==> lo <= i < hi
            else x < last <==> lo <= i || i < hi
  {
  }

  // r selects flagged epochs of the window [first, last), all of them on one side
  // of every flagged epoch it leaves out, with the slots in epoch order.
  ghost predicate Picks(first: nat, last: nat, max: nat, flags: Word, rollback: Word, r: Word, latest: bool)
    requires max > 0
  {
    && (forall i: nat :: Bit(r, i) ==>
          i < max && first <= SlotEpoch(first, max, i) < last && Flagged(flags, rollback, max, SlotEpoch(first, max, i)))
    && (forall i: nat, j: nat :: i < j && Bit(r, i) && Bit(r, j) ==>
          SlotEpoch(first, max, i) < SlotEpoch(first, max, j))
    && (forall x: nat :: first <= x < last && Flagged(flags, rollback, max, x) ==>
          Bit(r, Index(x, max)) ||
          (r != 0 && forall i: nat ::
            Bit(r, i) ==> if latest then x < SlotEpoch(first, max, i) else SlotEpoch(first, max, i) < x))
  }

  lemma SelectedPicks(w: nat, first: nat, last: nat, max: nat, flags: Word, rollback: Word,
                      lo: nat, hi: nat, r: Word, latest: bool)
    requires first < last <= first + max && flags < Pow2(max) && Selects(w, flags, rollback, lo, hi, r)
    requires var a, b := Index(first, max), Index(last, max);
             || (a < b && lo == a && hi == b)
             || (b <= a && lo == 0 && hi == b && (if latest then r != 0 else NoneIn(flags, rollback, a, max)))
             || (b <= a && lo == a && hi == max && (if latest then NoneIn(flags, rollback, 0, b) else r != 0))
    ensures Picks(first, last, max, flags, rollback, r, latest)
  {
    forall i: nat | Bit(r, i)
      ensures i < max && first <= SlotEpoch(first, max, i) < last
      ensures Flagged(flags, rollback, max, SlotEpoch(first, max, i))
    {
      HighBitBelow(flags, max, i);
      SlotEpochInverse(first, max, i, first);
      WindowSlots(first, last, max, SlotEpoch(first, max, i));
    }
    forall x: nat | first <= x < last && Flagged(flags, rollback, max, x) && !Bit(r, Index(x, max))
      ensures r != 0 && forall i: nat :: Bit(r, i) ==>
                if latest then x < SlotEpoch(first, max, i) else SlotEpoch(first, max, i) < x
    {
      WindowSlots(first, last, max, x);
      SlotEpochInverse(first, max, Index(x, max), x);
    }
  }

  ghost predicate NoneIn(flags: Word, rollback: Word, lo: nat, hi: nat) {
    forall i: nat :: lo <= i < hi ==> !(Bit(flags, i) && !Bit(rollback, i))
  }

  // The masks of load_from_wbuf, over the window [first, epoch + 1).
  method MaskWriters(w: nat, writeFlags: Word, rollback: Word, first: nat, epoch: nat, max: nat)
    returns (masked: Word)
    requires 0 < max <= w && writeFlags < Pow2(max) && rollback < Pow2(w)
    requires first <= epoch < first + max
    ensures masked < Pow2(w) && Picks(first, epoch + 1, max, writeFlags, rollback, masked, true)
  {
    var firstIndex := Index(first, max);
    var lastIndex := Index(epoch + 1, max);
    ghost var lo, hi: nat;
    if firstIndex < lastIndex {
      lo, hi := firstIndex, lastIndex;
      masked := Select(w, writeFlags, rollback, first, epoch + 1, max, hi);
    } else {
      lo, hi := 0, lastIndex;
      masked := Select(w, writeFlags, rollback, 0, lastIndex, max, hi);
      if masked == 0 {
        SelectedZero(w, writeFlags, rollback, lo, hi, masked);
        lo, hi := firstIndex, max;
        masked := Select(w, writeFlags, rollback, firstIndex, max, max, hi);
      }
    }
    SelectedPicks(w, first, epoch + 1, max, writeFlags, rollback, lo, hi, masked, true);
  }

  // The masks of dep_violation_check, over the window [first, last).
  method MaskReaders(w: nat, readFlags: Word, rollback: Word, first: nat, last: nat, max: nat)
    returns (flags: Word)
    requires 0 < max <= w && readFlags < Pow2(max) && rollback < Pow2(w)
    requires first < last < first + max
    ensures flags < Pow2(w) && Picks(first, last, max, readFlags, rollback, flags, false)
  {
    var firstIndex := Index(first, max);
    var lastIndex := Index(last, max);
    ghost var lo, hi: nat;
    if firstIndex < lastIndex {
      lo, hi := firstIndex, lastIndex;
      flags := Select(w, readFlags, rollback, first, last, max, hi);
    } else {
      lo, hi := firstIndex, max;
      flags := Select(w, readFlags, rollback, firstIndex, max, max, hi);
      if flags == 0 {
        SelectedZero(w, readFlags, rollback, lo, hi, flags);
        lo, hi := 0, lastIndex;
        flags := Select(w, readFlags, rollback, 0, lastIndex, max, hi);
      }
    }
    SelectedPicks(w, first, last, max, readFlags, rollback, lo, hi, flags, false);
  }

  // The mask and log2 part of load_from_wbuf: the latest flagged epoch of
  // [first, epoch], or none.
  method FindWriter(w: nat, writeFlags: Word, rollback: Word, first: nat, epoch: nat, max: nat)
    returns (found: bool, index: nat, at: nat)
    requires IsWordSize(w) && 0 < max <= w && writeFlags < Pow2(max) && rollback < Pow2(w)
    requires first <= epoch < first + max
    ensures found ==> first <= at <= epoch && index == Index(at, max) && Flagged(writeFlags, rollback, max, at)
    ensures found ==> forall x: nat :: at < x <= epoch ==> !Flagged(writeFlags, rollback, max, x)
    ensures !found ==> forall x: nat :: first <= x <= epoch ==> !Flagged(writeFlags, rollback, max, x)
  {
    var masked := MaskWriters(w, writeFlags, rollback, first, epoch, max);
    if masked == 0 {
      forall i: nat ensures !Bit(masked, i) {
        ZeroBits(i);
      }
      return false, 0, 0;
    }
    Log2IsHighest(w, masked);
    found, index := true, Log2(w, masked);
    assert Bit(masked, index);
    BeforeIsSlotEpoch(first, epoch, max, index);
    SlotEpochInverse(first, max, index, first);
    at := IndexToEpochBefore(epoch, index, max);
    forall x: nat | at < x <= epoch ensures !Flagged(writeFlags, rollback, max, x) {
      SlotEpochInverse(first, max, Index(x, max), x);
      var i := Index(x, max);
      assert Bit(masked, i) ==> i <= index;
    }
  }

  // The mask and trailing_zeros part of dep_violation_check: the earliest flagged
  // epoch strictly between epoch and last, or none.
  method FindReader(w: nat, readFlags: Word, rollback: Word, epoch: nat, last: nat, max: nat)
    returns (found: bool, at: nat)
    requires IsWordSize(w) && 0 < max <= w && readFlags < Pow2(max) && rollback < Pow2(w)
    requires last <= epoch + max
    ensures found ==> epoch < at < last && Flagged(readFlags, rollback, max, at)
    ensures found ==> forall x: nat :: epoch < x < at ==> !Flagged(readFlags, rollback, max, x)
    ensures !found ==> forall x: nat :: epoch < x < last ==> !Flagged(readFlags, rollback, max, x)
  {
    var first := epoch + 1;
    if first >= last {
      return false, 0;
    }
    var flags := MaskReaders(w, readFlags, rollback, first, last, max);
    if flags == 0 {
      forall i: nat ensures !Bit(flags, i) {
        ZeroBits(i);
      }
      return false, 0;
    }
    var index := TrailingZeros(w, flags);
    assert Bit(flags, index);
    AfterIsSlotEpoch(first, epoch, max, index);
    SlotEpochInverse(first, max, index, first);
    found, at := true, IndexToEpochAfter(epoch, index, max);
    forall x: nat | epoch < x < at ensures !Flagged(readFlags, rollback, max, x) {
      SlotEpochInverse(first, max, Index(x, max), x);
      var i := Index(x, max);
      assert Bit(flags, i) ==> index <= i;
    }
  }
}
