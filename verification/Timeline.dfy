/**
 The speculative timeline: what each operation of epoch.c does, told by epoch.

 Epochs are numbered without bound. A mark is kept for every epoch that was ever
 issued; an epoch without one is a fresh entry, ready for use. Where the source
 keeps a ring of max entries, class Epochs shows that the ring holds exactly the
 marks of the epochs from first to first + max.
 */
module Timeline {

  // enum yarn_epoch_status
  datatype Status = Executing | Done | Pending | Rollback | Commit

  // masked is the epoch's bit in g_rollback_flag.
  datatype Mark = Mark(status: Status, masked: bool)

  datatype Line = Line(first: nat, nextCommit: nat, next: nat, stop: int, marks: seq<Mark>)

  const FRESH := Mark(Commit, false)

  function At(l: Line, e: nat): Mark {
    if e < |l.marks| then l.marks[e] else FRESH
  }

  // yarn_epoch_reset
  function Start(): Line {
    Line(0, 0, 0, -1, [])
  }

  predicate StopSet(l: Line) {
    l.stop >= l.first
  }

  // ---------------------------------------------------------------- yarn_epoch_next

  // Neither of the two reasons to wait for a slot holds.
  predicate SlotFree(max: nat, l: Line) {
    l.next < l.first + max && At(l, l.next).status != Pending
  }

  predicate CanIssue(max: nat, l: Line) {
    SlotFree(max, l) && !(StopSet(l) && l.next >= l.stop)
  }

  // The case in which yarn_epoch_next returns false.
  predicate Finished(max: nat, l: Line) {
    SlotFree(max, l) && StopSet(l) && l.next >= l.stop && l.stop == l.first
  }

  function Issue(l: Line): Line
    requires l.next <= |l.marks|
  {
    var m := Mark(Executing, At(l, l.next).masked);
    l.(next := l.next + 1,
       marks := if l.next < |l.marks| then l.marks[l.next := m] else l.marks + [m])
  }

  // yarn_epoch_rollback_done
  function Unmask(l: Line, e: nat): Line
    requires e < |l.marks|
  {
    l.(marks := l.marks[e := l.marks[e].(masked := false)])
  }

  // ---------------------------------------------------------------- stopping

  // yarn_epoch_stop
  function StopAt(l: Line, e: nat): Line {
    if StopSet(l) && l.stop < e + 1 then l else l.(stop := e + 1)
  }

  // rollback_stop
  function RollbackStop(l: Line, start: nat): Line {
    if StopSet(l) && l.stop > start then l.(stop := l.first - 1) else l
  }

  // update_stop
  function UpdateStop(l: Line): Line {
    if StopSet(l) then l else l.(stop := l.first - 1)
  }

  // ---------------------------------------------------------------- rolling back

  // set_rollback_status and set_rollback_flag
  function RolledBack(m: Mark): Mark {
    match m.status
    case Executing => Mark(Pending, true)
    case Done => Mark(Rollback, true)
    case _ => m
  }

  // yarn_epoch_do_rollback
  function DoRollback(l: Line, start: nat): Line {
    RollbackStop(
      l.(next := if l.next <= start then l.next else start,
         marks := seq(|l.marks|, e requires 0 <= e < |l.marks| =>
                    if start <= e < l.next then RolledBack(l.marks[e]) else l.marks[e])),
      start)
  }

  // yarn_epoch_set_done
  function SetDone(l: Line, e: nat): Line
    requires e < |l.marks| && (l.marks[e].status == Executing || l.marks[e].status == Pending)
  {
    l.(marks := l.marks[e := l.marks[e].(status := if l.marks[e].status == Executing then Done else Rollback)])
  }

  // ---------------------------------------------------------------- committing

  // yarn_epoch_get_next_commit
  predicate CanClaim(l: Line) {
    l.nextCommit < l.next && At(l, l.nextCommit).status == Done && !(StopSet(l) && l.stop == l.nextCommit)
  }

  function Claim(l: Line): Line {
    l.(nextCommit := l.nextCommit + 1)
  }

  function AdvanceFirst(l: Line): Line
    requires l.first <= l.nextCommit
    decreases l.nextCommit - l.first
  {
    if l.first != l.nextCommit && At(l, l.first).status == Commit
    then AdvanceFirst(l.(first := l.first + 1))
    else l
  }

  // yarn_epoch_commit_done
  function CommitDone(l: Line, c: nat): Line
    requires c < |l.marks| && l.first <= l.nextCommit
  {
    UpdateStop(AdvanceFirst(l.(marks := l.marks[c := l.marks[c].(status := Commit)])))
  }

  // ---------------------------------------------------------------- the ring invariant

  // What the cursors and statuses are like between operations.
  ghost predicate Ring(max: nat, l: Line) {
    && l.first <= l.nextCommit <= l.next <= |l.marks| <= l.first + max
    && (forall e :: 0 <= e < l.first ==> l.marks[e].status == Commit)
    && (forall e :: l.first <= e < l.nextCommit ==> l.marks[e].status == Done || l.marks[e].status == Commit)
    && (forall e :: l.nextCommit <= e < l.next ==> l.marks[e].status == Executing || l.marks[e].status == Done)
    && (forall e :: l.next <= e < |l.marks| ==> l.marks[e].status == Pending || l.marks[e].status == Rollback)
    && (l.first < l.nextCommit ==> l.marks[l.first].status == Done)
  }

  // The rollback bits: set on everything rolled back, clear on everything done.
  // An executing epoch keeps its bit until yarn_epoch_rollback_done.
  ghost predicate Masks(l: Line) {
    forall e :: 0 <= e < |l.marks| ==>
      match l.marks[e].status
      case Executing => true
      case Done => !l.marks[e].masked
      case Commit => !l.marks[e].masked
      case _ => l.marks[e].masked
  }

  // The part of this that does not depend on when the bits are cleared.
  ghost predicate FinishedUnmasked(l: Line) {
    forall e :: 0 <= e < |l.marks| && (l.marks[e].status == Done || l.marks[e].status == Commit) ==> !l.marks[e].masked
  }

  // The stop bound is parked just below first or lies above everything handed out
  // for commit.
  ghost predicate StopBound(max: nat, l: Line) {
    l.stop == l.first - 1 || l.nextCommit <= l.stop <= l.first + max
  }

  lemma StartRing(max: nat)
    ensures Ring(max, Start()) && Masks(Start()) && StopBound(max, Start())
  {
  }

  // Before an epoch is handed out its slot is free for it: the assertion on the
  // old status in yarn_epoch_next always holds, and an epoch is only issued again
  // after its previous execution was set done.
  lemma IssueKeepsRing(max: nat, l: Line)
    requires Ring(max, l) && CanIssue(max, l)
    ensures At(l, l.next).status == Commit || At(l, l.next).status == Rollback
    ensures l.next < |l.marks| <==> At(l, l.next).status == Rollback
    ensures Ring(max, Issue(l))
    ensures StopBound(max, l) ==> StopBound(max, Issue(l))
    ensures Masks(l) ==> Masks(Issue(l))
    ensures FinishedUnmasked(l) ==> FinishedUnmasked(Issue(l))
  {
  }

  lemma RollbackKeepsRing(max: nat, l: Line, start: nat)
    requires Ring(max, l) && StopBound(max, l) && l.nextCommit <= start
    ensures Ring(max, DoRollback(l, start)) && StopBound(max, DoRollback(l, start))
    ensures Masks(l) ==> Masks(DoRollback(l, start))
  {
  }

  lemma RollbackKeepsFinished(l: Line, start: nat)
    requires FinishedUnmasked(l)
    ensures FinishedUnmasked(DoRollback(l, start))
  {
  }

  // A rollback that starts at a claimed epoch is the one thing that breaks the ring.
  lemma RollbackKeepsRingIff(max: nat, l: Line, start: nat)
    requires Ring(max, l) && StopBound(max, l) && l.first <= start
    ensures Ring(max, DoRollback(l, start)) && StopBound(max, DoRollback(l, start)) <==> l.nextCommit <= start
  {
    if l.nextCommit <= start {
      RollbackKeepsRing(max, l, start);
    }
  }

  // What a rollback does to every epoch, and that it commits none.
  lemma RollbackMarks(max: nat, l: Line, start: nat)
    requires Ring(max, l) && l.nextCommit <= start < l.next
    ensures var l' := DoRollback(l, start);
            && l'.next == start && l'.first == l.first && l'.nextCommit == l.nextCommit && |l'.marks| == |l.marks|
            && (forall x :: 0 <= x < |l.marks| ==>
                  l'.marks[x] == if start <= x < l.next then RolledBack(l.marks[x]) else l.marks[x])
            && (forall x :: 0 <= x < |l.marks| && l'.marks[x].status == Commit ==>
                  x < l.nextCommit && l.marks[x].status == Commit)
  {
  }

  lemma SetDoneKeepsRing(max: nat, l: Line, e: nat)
    requires Ring(max, l) && e < |l.marks| && (l.marks[e].status == Executing || l.marks[e].status == Pending)
    ensures Ring(max, SetDone(l, e))
    ensures StopBound(max, l) ==> StopBound(max, SetDone(l, e))
    ensures Masks(l) && (l.marks[e].status == Executing ==> !l.marks[e].masked) ==> Masks(SetDone(l, e))
    ensures FinishedUnmasked(l) && (l.marks[e].status == Executing ==> !l.marks[e].masked) ==> FinishedUnmasked(SetDone(l, e))
  {
  }

  lemma StopKeepsRing(max: nat, l: Line, e: nat)
    requires Ring(max, l) && StopBound(max, l) && l.nextCommit <= e < |l.marks|
    ensures Ring(max, StopAt(l, e)) && StopBound(max, StopAt(l, e))
  {
  }

  lemma ClaimKeepsRing(max: nat, l: Line)
    requires Ring(max, l) && StopBound(max, l) && CanClaim(l)
    ensures Ring(max, Claim(l)) && StopBound(max, Claim(l))
  {
  }

  lemma {:induction false} AdvanceFirstEffect(l: Line)
    requires l.first <= l.nextCommit
    ensures var r := AdvanceFirst(l);
            && r == l.(first := r.first)
            && l.first <= r.first <= l.nextCommit
            && (forall e :: l.first <= e < r.first ==> At(l, e).status == Commit)
            && (r.first < l.nextCommit ==> At(l, r.first).status != Commit)
    decreases l.nextCommit - l.first
  {
    if l.first != l.nextCommit && At(l, l.first).status == Commit {
      var l1 := l.(first := l.first + 1);
      AdvanceFirstEffect(l1);
      assert forall e: nat :: At(l1, e) == At(l, e);
    }
  }

  lemma CommitDoneEffect(max: nat, l: Line, c: nat)
    requires Ring(max, l) && StopBound(max, l) && l.first <= c < l.nextCommit && l.marks[c].status == Done
    ensures var r := CommitDone(l, c);
            && Ring(max, r) && StopBound(max, r)
            && r.nextCommit == l.nextCommit && r.next == l.next && l.first <= r.first
            && r.marks == l.marks[c := l.marks[c].(status := Commit)]
            && (StopSet(r) <==> StopSet(l)) && (StopSet(l) ==> r.stop == l.stop)
            && (Masks(l) ==> Masks(r)) && (FinishedUnmasked(l) ==> FinishedUnmasked(r))
  {
    var l1 := l.(marks := l.marks[c := l.marks[c].(status := Commit)]);
    AdvanceFirstEffect(l1);
    var r := AdvanceFirst(l1);
    assert forall e :: l.first <= e < r.first ==> At(l1, e) == l1.marks[e];
  }

  lemma UnmaskKeepsRing(max: nat, l: Line, e: nat)
    requires Ring(max, l) && StopBound(max, l) && e < |l.marks|
    ensures Ring(max, Unmask(l, e)) && StopBound(max, Unmask(l, e))
    ensures FinishedUnmasked(l) ==> FinishedUnmasked(Unmask(l, e))
  {
  }

  // yarn_epoch_rollback_done leaves the rollback bits right exactly when the epoch
  // is still executing. If it was rolled back again since yarn_epoch_next, its bit
  // was set a second time and this clears it.
  lemma UnmaskKeepsMasksIff(max: nat, l: Line, e: nat)
    requires Ring(max, l) && Masks(l) && l.first <= e < |l.marks|
    requires l.marks[e].status == Executing || l.marks[e].status == Pending
    ensures Masks(Unmask(l, e)) <==> l.marks[e].status == Executing
  {
    var l' := Unmask(l, e);
    assert l'.marks[e] == l.marks[e].(masked := false);
    assert forall x :: 0 <= x < |l.marks| && x != e ==> l'.marks[x] == l.marks[x];
  }

  // Two epochs in flight never share a slot, so no operation on one disturbs the
  // entry of another.
  lemma InFlightWithinWindow(max: nat, l: Line, x: nat, y: nat)
    requires Ring(max, l) && l.first <= x < |l.marks| && l.first <= y < |l.marks|
    ensures x < y + max && y < x + max
  {
  }
}
