/**
 The ring of epochs of epoch.c, with its cursors, statuses, rollback bits and stop
 bound. Every operation is proved to do to the ring what the timeline says.

 An operation is one atomic step, so a compare-and-swap loop goes round once and
 the locks are not modelled. Where the source waits on a condition variable, the
 operation reports that it has to wait.
 */
module EpochRing {
  import opened Bits
  import opened Timeline

  // yarn_epoch_max
  function EpochMax(w: nat, poolSize: nat): nat {
    if poolSize * 2 < w / 2 then poolSize * 2 else w / 2
  }

  datatype NextResult = Wait | Over | Issued(epoch: nat, was: Status)

  // The ring holds the marks of the epochs from first to first + max, each in its
  // own slot, and the rollback word their masks.
  ghost predicate Mirrors(max: nat, l: Line, st: seq<Status>, flag: Word)
    requires max > 0
  {
    && |st| == max && flag < Pow2(max)
    && forall e: nat :: l.first <= e < l.first + max ==>
         st[Index(e, max)] == At(l, e).status && (Bit(flag, Index(e, max)) <==> At(l, e).masked)
  }

  // Changing one slot changes one epoch of the window.
  lemma MirrorOne(max: nat, l: Line, l': Line, st: seq<Status>, flag: Word, flag': Word, e: nat)
    requires max > 0 && Mirrors(max, l, st, flag) && flag' < Pow2(max)
    requires l'.first == l.first <= e < l.first + max
    requires forall x: nat :: x != e ==> At(l', x) == At(l, x)
    requires forall i: nat :: i < max ==>
               (Bit(flag', i) <==> if i == Index(e, max) then At(l', e).masked else Bit(flag, i))
    ensures Mirrors(max, l', st[Index(e, max) := At(l', e).status], flag')
  {
    WindowInjective(max, l.first);
  }

  // A slot whose epoch is committed is ready for the epoch one round later.
  lemma MirrorAdvance(max: nat, l: Line, st: seq<Status>, flag: Word)
    requires max > 0 && Mirrors(max, l, st, flag)
    requires At(l, l.first) == FRESH && At(l, l.first + max) == FRESH
    ensures Mirrors(max, l.(first := l.first + 1), st, flag)
  {
  }

  class Epochs {
    const wordSize: nat
    const max: nat
    var first: nat
    var next: nat
    var nextCommit: nat
    var stop: int
    var rollbackFlag: Word
    const status: array<Status>
    ghost var line: Line

    // The cursors, slots and bits are those of the timeline.
    ghost predicate Stands()
      reads this, status
    {
      && IsWordSize(wordSize) && 0 < max <= wordSize / 2 && status.Length == max
      && first == line.first && next == line.next && nextCommit == line.nextCommit && stop == line.stop
      && Mirrors(max, line, status[..], rollbackFlag)
    }

    ghost predicate Valid()
      reads this, status
    {
      Stands() && Ring(max, line) && StopBound(max, line) && FinishedUnmasked(line)
    }

    // yarn_epoch_init and yarn_epoch_reset
    constructor (w: nat, poolSize: nat)
      requires IsWordSize(w) && poolSize > 0
      ensures Valid() && wordSize == w && max == EpochMax(w, poolSize) && fresh(status)
      ensures line == Start()
    {
      wordSize := w;
      max := EpochMax(w, poolSize);
      first, next, nextCommit, stop, rollbackFlag := 0, 0, 0, -1, 0;
      status := new Status[EpochMax(w, poolSize)](_ => Commit);
      line := Start();
      new;
      forall e: nat ensures !Bit(0, e) {
        ZeroBits(e);
      }
    }

    method IsStopSet() returns (r: bool)
      requires Valid()
      ensures r == StopSet(line)
    {
      r := stop >= first;
    }

    // The ring has caught up with its own tail: next is not first but has its slot.
    method TailReached() returns (r: bool)
      requires Valid()
      ensures r <==> line.next == line.first + max
    {
      WindowInjective(max, first);
      IndexStep(first, next - first, max);
      r := next != first && Index(next, max) == Index(first, max);
    }

    // yarn_epoch_next and inc_epoch_next. It hands out the next epoch exactly when
    // its slot is free and it lies below the stop bound, reports the end exactly
    // when everything below the bound is committed, and waits otherwise.
    method Next() returns (r: NextResult)
      requires Valid()
      modifies this, status
      ensures Valid()
      ensures r == if CanIssue(max, old(line)) then Issued(old(line).next, At(old(line), old(line).next).status)
                   else if Finished(max, old(line)) then Over
                   else Wait
      ensures r.Issued? <==>
                && old(next) < old(first) + max && old(status[..])[Index(old(next), max)] != Pending
                && (old(stop) >= old(first) ==> old(next) < old(stop))
      ensures r.Over? <==>
                && old(first) == old(stop) <= old(next) < old(first) + max
                && old(status[..])[Index(old(next), max)] != Pending
      ensures line == if r.Issued? then Issue(old(line)) else old(line)
      ensures r.Issued? ==> r.was == Commit || r.was == Rollback
    {
      var full := TailReached();
      if full {
        return Wait;
      }
      var i := Index(next, max);
      if status[i] == Pending {
        return Wait;
      }
      var stopSet := IsStopSet();
      if stopSet && next >= stop {
        return if stop == first then Over else Wait;
      }
      IssueKeepsRing(max, line);
      MirrorOne(max, line, Issue(line), status[..], rollbackFlag, rollbackFlag, next);
      r := Issued(next, status[i]);
      next := next + 1;
      line := Issue(line);
      status[i] := Executing;
      assert status[..] == old(status[..])[i := Executing];
    }

    // yarn_epoch_rollback_done. Timeline.UnmaskKeepsMasksIff says when the rollback
    // bits are right afterwards.
    method RollbackDone(e: nat)
      requires Valid() && line.first <= e < |line.marks|
      modifies this`rollbackFlag, this`line
      ensures Valid() && line == Unmask(old(line), e)
    {
      UnmaskKeepsRing(max, line, e);
      SetClearBound(wordSize, rollbackFlag, e, max);
      forall i: nat | i < max
        ensures Bit(ClearBit(wordSize, rollbackFlag, e, max), i) <==> Bit(rollbackFlag, i) && i != Index(e, max)
      {
        SetClearBits(wordSize, rollbackFlag, e, max, i);
      }
      ghost var l' := Unmask(line, e);
      MirrorOne(max, line, l', status[..], rollbackFlag, ClearBit(wordSize, rollbackFlag, e, max), e);
      rollbackFlag := ClearBit(wordSize, rollbackFlag, e, max);
      line := l';
      assert status[..][Index(e, max) := At(l', e).status] == status[..];
    }

    // yarn_epoch_stop
    method Stop(e: nat)
      requires Valid() && line.nextCommit <= e < |line.marks|
      modifies this`stop, this`line
      ensures Valid() && line == StopAt(old(line), e)
    {
      StopKeepsRing(max, line, e);
      var stopSet := IsStopSet();
      if !(stopSet && stop < e + 1) {
        stop := e + 1;
      }
      line := StopAt(line, e);
      assert forall x: nat :: At(line, x) == At(old(line), x);
    }

    // yarn_epoch_set_done
    method SetDone(e: nat)
      requires Valid() && line.first <= e < |line.marks|
      requires line.marks[e] == Mark(Executing, false) || line.marks[e].status == Pending
      modifies status, this`line
      ensures Valid() && line == Timeline.SetDone(old(line), e)
    {
      SetDoneKeepsRing(max, line, e);
      ghost var l' := Timeline.SetDone(line, e);
      MirrorOne(max, line, l', status[..], rollbackFlag, rollbackFlag, e);
      var i := Index(e, max);
      var newStatus := if status[i] == Executing then Done else Rollback;
      status[i] := newStatus;
      line := l';
      assert status[..] == old(status[..])[i := l'.marks[e].status];
    }

    // yarn_epoch_get_next_commit
    method GetNextCommit() returns (ok: bool, e: nat)
      requires Valid()
      modifies this`nextCommit, this`line
      ensures Valid()
      ensures ok == CanClaim(old(line)) && e == old(line).nextCommit
      ensures line == if ok then Claim(old(line)) else old(line)
    {
      e := nextCommit;
      if nextCommit == next || status[Index(nextCommit, max)] != Done {
        return false, e;
      }
      var stopSet := IsStopSet();
      if stopSet && stop == nextCommit {
        return false, e;
      }
      ClaimKeepsRing(max, line);
      ok := true;
      nextCommit := nextCommit + 1;
      line := Claim(line);
      assert forall x: nat :: At(line, x) == At(old(line), x);
    }

    // set_rollback_status and set_rollback_flag for one epoch. The two together are
    // what RolledBack does to its mark.
    method RollbackOne(e: nat, ghost l: Line)
      requires status.Length == max && 0 < max <= wordSize && l.first <= e < l.first + max && e < |l.marks|
      requires Mirrors(max, l, status[..], rollbackFlag)
      modifies this`rollbackFlag, status
      ensures Mirrors(max, l.(marks := l.marks[e := RolledBack(l.marks[e])]), status[..], rollbackFlag)
    {
      var i := Index(e, max);
      ghost var l' := l.(marks := l.marks[e := RolledBack(l.marks[e])]);
      SetClearBound(wordSize, rollbackFlag, e, max);
      forall j: nat | j < max
        ensures Bit(SetBit(rollbackFlag, e, max), j) <==> Bit(rollbackFlag, j) || j == i
      {
        SetClearBits(wordSize, rollbackFlag, e, max, j);
      }
      match status[i] {
        case Executing =>
          MirrorOne(max, l, l', status[..], rollbackFlag, SetBit(rollbackFlag, e, max), e);
          status[i] := Pending;
          rollbackFlag := SetBit(rollbackFlag, e, max);
        case Done =>
          MirrorOne(max, l, l', status[..], rollbackFlag, SetBit(rollbackFlag, e, max), e);
          status[i] := Rollback;
          rollbackFlag := SetBit(rollbackFlag, e, max);
        case _ =>
          MirrorOne(max, l, l', status[..], rollbackFlag, rollbackFlag, e);
      }
      assert status[..] == old(status[..])[i := l'.marks[e].status];
    }

    // The loop of yarn_epoch_do_rollback.
    method RollbackSlots(start: nat)
      requires Stands() && line.first <= start && line.next <= |line.marks| && line.next <= line.first + max
      modifies this`rollbackFlag, status
      ensures Mirrors(max, line.(marks := Timeline.DoRollback(line, start).marks), status[..], rollbackFlag)
    {
      var epoch := start;
      ghost var l := line;
      while epoch < next
        invariant start <= epoch && (epoch <= next || epoch == start)
        invariant l == line.(marks := l.marks) && |l.marks| == |line.marks|
        invariant forall x :: 0 <= x < |l.marks| ==>
                    l.marks[x] == if start <= x < epoch && x < next then RolledBack(line.marks[x]) else line.marks[x]
        invariant Mirrors(max, l, status[..], rollbackFlag)
      {
        RollbackOne(epoch, l);
        l := l.(marks := l.marks[epoch := RolledBack(l.marks[epoch])]);
        epoch := epoch + 1;
      }
      assert l.marks == Timeline.DoRollback(line, start).marks;
    }

    // yarn_epoch_do_rollback. Its caller only asks for epochs that have not been
    // claimed for commit, as Coherence.RollbackSparesTheOldest shows.
    method DoRollback(start: nat)
      requires Valid() && line.first <= start
      modifies this, status
      ensures Stands() && line == Timeline.DoRollback(old(line), start)
      ensures Valid() <==> old(line).nextCommit <= start
    {
      RollbackKeepsRingIff(max, line, start);
      RollbackKeepsFinished(line, start);
      RollbackSlots(start);
      // rollback_next
      if next > start {
        next := start;
      }
      // rollback_stop
      if stop >= first && stop > start {
        stop := first - 1;
      }
      ghost var l' := Timeline.DoRollback(line, start);
      assert forall x: nat :: At(l', x) == At(line.(marks := l'.marks), x);
      line := l';
    }

    // The loop of yarn_epoch_commit_done, which moves first over committed epochs.
    method MoveFirst(ghost l: Line)
      requires 0 < max && status.Length == max && Mirrors(max, l, status[..], rollbackFlag) && FinishedUnmasked(l)
      requires first == l.first <= l.nextCommit == nextCommit && |l.marks| <= l.first + max
      modifies this`first
      ensures first == AdvanceFirst(l).first && Mirrors(max, AdvanceFirst(l), status[..], rollbackFlag)
    {
      AdvanceFirstEffect(l);
      ghost var m := l;
      while true
        invariant first == m.first <= m.nextCommit && m == l.(first := m.first) && l.first <= m.first
        invariant AdvanceFirst(m) == AdvanceFirst(l) && nextCommit == m.nextCommit
        invariant Mirrors(max, m, status[..], rollbackFlag)
        decreases nextCommit - first
      {
        if first == nextCommit {
          break;
        }
        if status[Index(first, max)] != Commit {
          break;
        }
        MirrorAdvance(max, m, status[..], rollbackFlag);
        m := m.(first := m.first + 1);
        first := first + 1;
      }
    }

    // yarn_epoch_commit_done
    method CommitDone(e: nat)
      requires Valid() && line.first <= e < line.nextCommit && line.marks[e].status == Done
      modifies this, status
      ensures Valid() && line == Timeline.CommitDone(old(line), e)
    {
      CommitDoneEffect(max, line, e);
      ghost var l1 := line.(marks := line.marks[e := line.marks[e].(status := Commit)]);
      MirrorOne(max, line, l1, status[..], rollbackFlag, rollbackFlag, e);
      status[Index(e, max)] := Commit;
      assert status[..] == old(status[..])[Index(e, max) := Commit];
      MoveFirst(l1);
      AdvanceFirstEffect(l1);
      // update_stop
      if stop < first {
        stop := first - 1;
      }
      line := UpdateStop(AdvanceFirst(l1));
      assert forall x: nat :: At(line, x) == At(l1, x);
    }
  }
}
