/**
 How the packed flags, buffers and stamps that dependency.c keeps per address stand
 for what the step machine keeps per epoch.
 */
module Tracking {
  import opened Bits
  import opened Serial
  import opened Timeline
  import opened Speculation
  import opened Search

  // A struct addr_info with its flags unpacked.
  datatype View = View(readWord: Word, writeWord: Word, lastCommit: int, buffer: seq<Value>)

  type Views = map<Addr, View>

  predicate ReadBit(v: Views, a: Addr, i: nat) {
    a in v && Bit(v[a].readWord, i)
  }

  predicate WriteBit(v: Views, a: Addr, i: nat) {
    a in v && Bit(v[a].writeWord, i)
  }

  predicate Loaded(s: State, e: nat, a: Addr) {
    e < |s.runs| && a in s.runs[e].loaded
  }

  predicate Buffered(s: State, e: nat, a: Addr) {
    e < |s.runs| && a in s.runs[e].stored
  }

  predicate InWindow(max: nat, s: State, e: nat) {
    s.line.first <= e < s.line.first + max
  }

  // The bits of an address are those of the epochs in the window, each in its slot.
  ghost predicate BitsTrack(max: nat, s: State, v: Views)
    requires max > 0
  {
    && (forall a, e: nat :: InWindow(max, s, e) ==>
          (ReadBit(v, a, Index(e, max)) <==> Loaded(s, e, a)))
    && (forall a, e: nat :: InWindow(max, s, e) ==>
          (WriteBit(v, a, Index(e, max)) <==> Buffered(s, e, a)))
  }

  ghost predicate Shapes(max: nat, s: State, v: Views) {
    && |s.runs| == |s.line.marks| && |s.mem| == |s.lastCommit|
    && forall a :: a in v ==>
         && a < |s.mem| && |v[a].buffer| == max
         && v[a].readWord < Pow2(max) && v[a].writeWord < Pow2(max)
  }

  ghost predicate ValuesTrack(max: nat, s: State, v: Views)
    requires max > 0 && Shapes(max, s, v)
  {
    && (forall a, e: nat :: a in v && InWindow(max, s, e) && Buffered(s, e, a) ==>
          v[a].buffer[Index(e, max)] == s.runs[e].stored[a])
    && (forall a :: 0 <= a < |s.mem| ==> s.lastCommit[a] == if a in v then v[a].lastCommit else -1)
  }

  // A committed epoch has no flags left, so its slot is ready for another.
  ghost predicate CommittedClean(s: State)
    requires |s.runs| == |s.line.marks|
  {
    forall e :: 0 <= e < |s.runs| && StatusOf(s, e) == Commit ==> s.runs[e].loaded == {} && s.runs[e].stored == map[]
  }

  ghost predicate Tracks(max: nat, s: State, v: Views) {
    && max > 0 && Shapes(max, s, v) && Ring(max, s.line)
    && BitsTrack(max, s, v) && ValuesTrack(max, s, v) && CommittedClean(s)
  }

  // ---------------------------------------------------------------- updates at one address and slot

  // One epoch's flags at one address change, and with them one bit of the words.
  ghost predicate Elsewhere(s: State, s': State, e: nat, a: Addr) {
    && s'.line == s.line && |s'.runs| == |s.runs| && e < |s.runs|
    && (forall x :: 0 <= x < |s.runs| && x != e ==> s'.runs[x] == s.runs[x])
    && (forall b :: b != a ==> (b in s'.runs[e].loaded <==> b in s.runs[e].loaded))
    && (forall b :: b != a ==> (b in s'.runs[e].stored <==> b in s.runs[e].stored))
    && (forall b :: b != a && b in s.runs[e].stored ==> s'.runs[e].stored[b] == s.runs[e].stored[b])
  }

  ghost predicate OneSlot(max: nat, was: View, now: View, i: nat) {
    && now.readWord < Pow2(max) && now.writeWord < Pow2(max)
    && |was.buffer| == |now.buffer| == max
    && (forall j: nat :: j < max && j != i ==>
          (Bit(now.readWord, j) <==> Bit(was.readWord, j)) &&
          (Bit(now.writeWord, j) <==> Bit(was.writeWord, j)) &&
          now.buffer[j] == was.buffer[j])
  }

  lemma UpdateBits(max: nat, s: State, s': State, v: Views, e: nat, a: Addr, n: View)
    requires max > 0 && BitsTrack(max, s, v) && InWindow(max, s, e) && a in v
    requires Elsewhere(s, s', e, a) && OneSlot(max, v[a], n, Index(e, max))
    requires Bit(n.readWord, Index(e, max)) <==> a in s'.runs[e].loaded
    requires Bit(n.writeWord, Index(e, max)) <==> a in s'.runs[e].stored
    ensures BitsTrack(max, s', v[a := n])
  {
    var v' := v[a := n];
    WindowInjective(max, s.line.first);
    forall b, x: nat | InWindow(max, s', x)
      ensures ReadBit(v', b, Index(x, max)) <==> Loaded(s', x, b)
      ensures WriteBit(v', b, Index(x, max)) <==> Buffered(s', x, b)
    {
      assert ReadBit(v, b, Index(x, max)) <==> Loaded(s, x, b);
      assert WriteBit(v, b, Index(x, max)) <==> Buffered(s, x, b);
    }
  }

  lemma UpdateValues(max: nat, s: State, s': State, v: Views, e: nat, a: Addr, n: View)
    requires max > 0 && Shapes(max, s, v) && ValuesTrack(max, s, v) && InWindow(max, s, e) && a in v
    requires Elsewhere(s, s', e, a) && OneSlot(max, v[a], n, Index(e, max))
    requires a in s'.runs[e].stored ==> n.buffer[Index(e, max)] == s'.runs[e].stored[a]
    requires |s'.mem| == |s.mem| && |s'.lastCommit| == |s.lastCommit|
    requires n.lastCommit == s'.lastCommit[a]
    requires forall b :: 0 <= b < |s.mem| && b != a ==> s'.lastCommit[b] == s.lastCommit[b]
    ensures Shapes(max, s', v[a := n]) && ValuesTrack(max, s', v[a := n])
  {
    var v' := v[a := n];
    WindowInjective(max, s.line.first);
    forall b, x: nat | b in v' && InWindow(max, s', x) && Buffered(s', x, b)
      ensures v'[b].buffer[Index(x, max)] == s'.runs[x].stored[b]
    {
      if b != a {
        assert Buffered(s, x, b);
      } else if x != e {
        assert Buffered(s, x, a);
      }
    }
  }

  // The common part of a load, a store before its violation check, and the clearing
  // of flags by a commit or a rollback.
  lemma UpdateTracks(max: nat, s: State, s': State, v: Views, e: nat, a: Addr, n: View)
    requires Tracks(max, s, v) && InWindow(max, s, e) && a in v
    requires Elsewhere(s, s', e, a) && OneSlot(max, v[a], n, Index(e, max))
    requires Bit(n.readWord, Index(e, max)) <==> a in s'.runs[e].loaded
    requires Bit(n.writeWord, Index(e, max)) <==> a in s'.runs[e].stored
    requires a in s'.runs[e].stored ==> n.buffer[Index(e, max)] == s'.runs[e].stored[a]
    requires |s'.mem| == |s.mem| && |s'.lastCommit| == |s.lastCommit| && n.lastCommit == s'.lastCommit[a]
    requires forall b :: 0 <= b < |s.mem| && b != a ==> s'.lastCommit[b] == s.lastCommit[b]
    requires StatusOf(s, e) != Commit
    ensures Tracks(max, s', v[a := n])
  {
    UpdateBits(max, s, s', v, e, a, n);
    UpdateValues(max, s, s', v, e, a, n);
  }

  // A fresh info, not yet flagged by anyone.
  lemma InsertTracks(max: nat, s: State, v: Views, a: Addr, n: View)
    requires Tracks(max, s, v) && a !in v && a < |s.mem|
    requires n.readWord == 0 && n.writeWord == 0 && n.lastCommit == -1 && |n.buffer| == max
    ensures Tracks(max, s, v[a := n])
  {
    var v' := v[a := n];
    forall i: nat ensures !Bit(0, i) {
      ZeroBits(i);
    }
    forall b, x: nat | InWindow(max, s, x)
      ensures ReadBit(v', b, Index(x, max)) <==> Loaded(s, x, b)
      ensures WriteBit(v', b, Index(x, max)) <==> Buffered(s, x, b)
    {
      assert ReadBit(v, b, Index(x, max)) <==> Loaded(s, x, b);
      assert WriteBit(v, b, Index(x, max)) <==> Buffered(s, x, b);
    }
    assert forall b, x: nat :: b in v && InWindow(max, s, x) && Buffered(s, x, b) ==> v'[b] == v[b];
  }

  // ---------------------------------------------------------------- changes of the timeline

  // The line moves, the flags do not: marks may change, and epochs below first drop
  // out of the window once they are committed.
  lemma LineTracks(max: nat, s: State, s': State, v: Views)
    requires Tracks(max, s, v) && Ring(max, s'.line) && |s'.line.marks| == |s'.runs|
    requires s'.mem == s.mem && s'.lastCommit == s.lastCommit
    requires s.line.first <= s'.line.first <= |s.runs| <= |s'.runs|
    requires forall x :: 0 <= x < |s.runs| ==> s'.runs[x].loaded == s.runs[x].loaded && s'.runs[x].stored == s.runs[x].stored
    requires forall x :: |s.runs| <= x < |s'.runs| ==> s'.runs[x].loaded == {} && s'.runs[x].stored == map[]
    requires forall x :: 0 <= x < |s'.runs| && StatusOf(s', x) == Commit ==>
               s'.runs[x].loaded == {} && s'.runs[x].stored == map[]
    requires forall x :: s.line.first <= x < s'.line.first ==> StatusOf(s', x) == Commit
    ensures Tracks(max, s', v)
  {
    forall a, x: nat | InWindow(max, s', x)
      ensures ReadBit(v, a, Index(x, max)) <==> Loaded(s', x, a)
      ensures WriteBit(v, a, Index(x, max)) <==> Buffered(s', x, a)
    {
      var y: nat := if x < s.line.first + max then x else x - max;
      IndexStep(y, if y == x then 0 else max, max);
      assert InWindow(max, s, y) && Index(y, max) == Index(x, max);
      assert ReadBit(v, a, Index(y, max)) <==> Loaded(s, y, a);
      assert WriteBit(v, a, Index(y, max)) <==> Buffered(s, y, a);
    }
    forall a, x: nat | a in v && InWindow(max, s', x) && Buffered(s', x, a)
      ensures v[a].buffer[Index(x, max)] == s'.runs[x].stored[a]
    {
      assert x < |s.runs|;
      assert InWindow(max, s, x) && Buffered(s, x, a);
    }
  }

  // ---------------------------------------------------------------- the searches

  // In the window, being flagged in the write word and not masked is what the step
  // machine calls offering a value.
  lemma FlaggedIsOffer(max: nat, s: State, v: Views, rollback: Word, a: Addr, x: nat)
    requires Tracks(max, s, v) && a in v && InWindow(max, s, x)
    requires Bit(rollback, Index(x, max)) <==> At(s.line, x).masked
    ensures Flagged(v[a].writeWord, rollback, max, x) <==> Offers(s, x, a)
    ensures Flagged(v[a].readWord, rollback, max, x) <==> Exposed(s, x, a)
  {
    assert WriteBit(v, a, Index(x, max)) <==> Buffered(s, x, a);
    assert ReadBit(v, a, Index(x, max)) <==> Loaded(s, x, a);
  }

  // The latest offer of [first, e] is the one LatestWriter finds, and so on down to
  // the value.
  lemma FoundWriter(max: nat, s: State, v: Views, e: nat, a: Addr, found: bool, at: nat)
    requires Tracks(max, s, v) && a in v && s.line.first <= e
    requires found ==> s.line.first <= at <= e && Offers(s, at, a) && forall x: nat :: at < x <= e ==> !Offers(s, x, a)
    requires !found ==> forall x: nat :: s.line.first <= x <= e ==> !Offers(s, x, a)
    ensures LatestWriter(s, e, a) == if found then Some(at) else None
  {
  }

  lemma FoundReader(s: State, e: nat, a: Addr, found: bool, at: nat)
    requires found ==> e < at < s.line.next && Exposed(s, at, a) && forall x: nat :: e < x < at ==> !Exposed(s, x, a)
    requires !found ==> forall x: nat :: e < x < s.line.next ==> !Exposed(s, x, a)
    ensures EarliestReader(s, e + 1, a) == if found then Some(at) else None
  {
  }
}
