/**
 An entry of the dependency map: what dependency.c keeps about one address. The read
 and write flags of all slots share one word; a compare-and-swap loop goes round
 once here, and module Handshake looks at the flags one compare-and-swap at a time.
 */
module AddrInfos {
  import opened Bits
  import opened Serial
  import opened Tracking

  // struct addr_info
  class AddrInfo {
    const addr: Addr
    var flags: Word
    var lastCommit: int
    var writeBuffer: seq<Value>
    var infoList: seq<AddrInfo?>

    ghost predicate Shaped(w: nat, max: nat)
      reads this`flags, this`writeBuffer, this`infoList
    {
      && IsWordSize(w) && 0 < max <= w / 2
      && |writeBuffer| == max && |infoList| == max
      && UnpackLow(w, flags) < Pow2(max) && UnpackHigh(w, flags) < Pow2(max)
    }

    ghost function View(w: nat): Tracking.View
      reads this`flags, this`lastCommit, this`writeBuffer
    {
      Tracking.View(UnpackLow(w, flags), UnpackHigh(w, flags), lastCommit, writeBuffer)
    }

    // Is the info touched by the epoch in slot i?
    ghost predicate InSlot(w: nat, i: nat)
      reads this`flags
    {
      Bit(UnpackLow(w, flags), i) || Bit(UnpackHigh(w, flags), i)
    }

    twostate predicate SameView()
      reads this`flags, this`lastCommit, this`writeBuffer
    {
      flags == old(flags) && lastCommit == old(lastCommit) && writeBuffer == old(writeBuffer)
    }

    // addr_info_construct
    constructor (a: Addr, w: nat, max: nat)
      requires IsWordSize(w) && 0 < max <= w / 2
      ensures addr == a && Shaped(w, max)
      ensures View(w) == Tracking.View(0, 0, -1, writeBuffer)
      ensures forall i: nat :: !InSlot(w, i)
    {
      addr := a;
      flags := 0;
      lastCommit := -1;
      writeBuffer := seq(max, _ => 0);
      infoList := seq(max, _ => null);
      new;
      UnpackZero(w);
    }

    // The test of info_list_push_if_new.
    method IsNew(w: nat, max: nat, e: nat) returns (r: bool)
      requires max > 0
      ensures r <==> !InSlot(w, Index(e, max))
    {
      var readFlags, writeFlags := UnpackLow(w, flags), UnpackHigh(w, flags);
      TestBit(readFlags, e, max);
      TestBit(writeFlags, e, max);
      r := And(readFlags, Mask(e, max)) == 0 && And(writeFlags, Mask(e, max)) == 0;
    }

    // The test of yarn_dep_commit: the epoch wrote here, and nothing newer was
    // committed.
    method IsNewer(w: nat, max: nat, e: nat) returns (r: bool)
      requires max > 0
      ensures r <==> Bit(UnpackHigh(w, flags), Index(e, max)) && e > lastCommit
    {
      var writeFlags := UnpackHigh(w, flags);
      TestBit(writeFlags, e, max);
      r := And(writeFlags, Mask(e, max)) != 0 && e > lastCommit;
    }

    // markedread_flag
    method SetReadFlag(w: nat, max: nat, e: nat) returns (f: Word)
      requires Shaped(w, max)
      modifies this`flags
      ensures Shaped(w, max) && f == flags
      ensures OneSlot(max, old(View(w)), View(w), Index(e, max))
      ensures Bit(UnpackLow(w, flags), Index(e, max))
      ensures UnpackHigh(w, flags) == old(UnpackHigh(w, flags))
    {
      var readFlags, writeFlags := UnpackLow(w, flags), UnpackHigh(w, flags);
      TestBit(readFlags, e, max);
      if And(readFlags, Mask(e, max)) != 0 {
        return flags;
      }
      FlagBits(w, max, readFlags, writeFlags, e);
      flags := Pack(w, Or(readFlags, Mask(e, max)), writeFlags);
      f := flags;
    }

    // markedwrite_flag
    method SetWriteFlag(w: nat, max: nat, e: nat) returns (f: Word)
      requires Shaped(w, max)
      modifies this`flags
      ensures Shaped(w, max) && f == flags
      ensures OneSlot(max, old(View(w)), View(w), Index(e, max))
      ensures Bit(UnpackHigh(w, flags), Index(e, max))
      ensures UnpackLow(w, flags) == old(UnpackLow(w, flags))
    {
      var readFlags, writeFlags := UnpackLow(w, flags), UnpackHigh(w, flags);
      TestBit(writeFlags, e, max);
      if And(writeFlags, Mask(e, max)) != 0 {
        return flags;
      }
      FlagBits(w, max, writeFlags, readFlags, e);
      flags := Pack(w, readFlags, Or(writeFlags, Mask(e, max)));
      f := flags;
    }

    // store_to_wbuf
    method Store(w: nat, max: nat, e: nat, v: Value) returns (f: Word)
      requires Shaped(w, max)
      modifies this`flags, this`writeBuffer
      ensures Shaped(w, max) && f == flags
      ensures OneSlot(max, old(View(w)), View(w), Index(e, max))
      ensures Bit(UnpackHigh(w, flags), Index(e, max)) && writeBuffer[Index(e, max)] == v
      ensures UnpackLow(w, flags) == old(UnpackLow(w, flags))
    {
      writeBuffer := writeBuffer[Index(e, max) := v];
      f := SetWriteFlag(w, max, e);
    }

    // clear_flags
    method ClearFlags(w: nat, max: nat, e: nat)
      requires Shaped(w, max)
      modifies this`flags
      ensures Shaped(w, max)
      ensures OneSlot(max, old(View(w)), View(w), Index(e, max))
      ensures !InSlot(w, Index(e, max))
    {
      var readFlags, writeFlags := UnpackLow(w, flags), UnpackHigh(w, flags);
      FlagBits(w, max, readFlags, writeFlags, e);
      FlagBits(w, max, writeFlags, readFlags, e);
      flags := Pack(w, ClearBit(w, readFlags, e, max), ClearBit(w, writeFlags, e, max));
    }

    // The stamp of yarn_dep_commit and its clear_flags.
    method Retire(w: nat, max: nat, e: nat, newer: bool)
      requires Shaped(w, max)
      modifies this`flags, this`lastCommit
      ensures Shaped(w, max) && lastCommit == if newer then e else old(lastCommit)
      ensures OneSlot(max, old(View(w)), View(w), Index(e, max))
      ensures !InSlot(w, Index(e, max))
    {
      if newer {
        lastCommit := e;
      }
      ClearFlags(w, max, e);
    }
  }

  // The words that setting or clearing one bit leaves, and that packing them loses
  // nothing.
  lemma FlagBits(w: nat, max: nat, one: Word, other: Word, e: nat)
    requires IsWordSize(w) && 0 < max <= w / 2 && one < Pow2(max) && other < Pow2(max)
    ensures var marked, clear := Or(one, Mask(e, max)), ClearBit(w, one, e, max);
            && marked < Pow2(max) && clear < Pow2(max)
            && UnpackLow(w, Pack(w, marked, other)) == marked && UnpackHigh(w, Pack(w, marked, other)) == other
            && UnpackLow(w, Pack(w, other, marked)) == other && UnpackHigh(w, Pack(w, other, marked)) == marked
            && (forall x: Word :: x < Pow2(max) ==>
                  UnpackLow(w, Pack(w, clear, x)) == clear && UnpackHigh(w, Pack(w, clear, x)) == x)
            && (forall j: nat :: j < max ==> (Bit(marked, j) <==> Bit(one, j) || j == Index(e, max)))
            && (forall j: nat :: j < max ==> (Bit(clear, j) <==> Bit(one, j) && j != Index(e, max)))
  {
    var marked, clear := Or(one, Mask(e, max)), ClearBit(w, one, e, max);
    SetClearBound(w, one, e, max);
    assert marked == SetBit(one, e, max);
    if max < w / 2 {
      Pow2Mono(max, w / 2);
    }
    PackRoundTrip(w, marked, other);
    PackRoundTrip(w, other, marked);
    forall x: Word | x < Pow2(max)
      ensures UnpackLow(w, Pack(w, clear, x)) == clear && UnpackHigh(w, Pack(w, clear, x)) == x
    {
      PackRoundTrip(w, clear, x);
    }
    forall j: nat | j < max
      ensures Bit(marked, j) <==> Bit(one, j) || j == Index(e, max)
      ensures Bit(clear, j) <==> Bit(one, j) && j != Index(e, max)
    {
      SetClearBits(w, one, e, max, j);
    }
  }
}
