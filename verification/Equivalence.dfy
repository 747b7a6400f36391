/**
 What a run of the runtime as a whole guarantees: memory is what the sequential
 loop leaves, the loop ends where the sequential loop breaks, and no epoch is
 started over without bound.
 */
module Equivalence {
  import opened Serial
  import opened Timeline
  import opened Speculation
  import opened Coherence

  // ---------------------------------------------------------------- logs follow the program

  predicate Returned(a: Action) {
    a == Continue || a == Break
  }

  ghost predicate EpochFollows(p: Iteration, r: Run, st: Status) {
    && Follows(p, r.log)
    && (r.broke ==> p(r.log) == Break)
    && (Over(st) ==> Returned(p(r.log)) && (p(r.log) == Break ==> r.broke))
  }

  // What a worker has logged is what the program does, and it is done with an
  // epoch only when the iteration has returned and a break has been announced.
  ghost predicate FollowsProgram(P: Program, s: State) {
    forall e :: 0 <= e < |s.runs| ==> EpochFollows(P(e), s.runs[e], StatusOf(s, e))
  }

  lemma AppendFollows(p: Iteration, log: seq<Event>, ev: Event)
    requires Follows(p, log)
    requires match p(log)
             case Load(a) => ev.Read? && ev.a == a
             case Store(a, v) => ev == Write(a, v)
             case _ => false
    ensures Follows(p, log + [ev])
  {
  }

  lemma StepKeepsOthersFollowing(P: Program, s: State, t: Step, s': State)
    requires FollowsProgram(P, s) && Effect(s, t, s')
    requires t.e < |s'.runs| && EpochFollows(P(t.e), s'.runs[t.e], StatusOf(s', t.e))
    ensures FollowsProgram(P, s')
  {
  }

  lemma OwnAccessFollows(c: Config, s: State, t: Step)
    requires Base(c.max, s, c.mem0) && CanStep(c, s, t) && (t.LoadStep? || t.StoreStep?)
    requires EpochFollows(c.P(t.e), s.runs[t.e], StatusOf(s, t.e))
    ensures var s' := Apply(c.max, s, t); t.e < |s'.runs| && EpochFollows(c.P(t.e), s'.runs[t.e], StatusOf(s', t.e))
  {
    if t.LoadStep? {
      AppendFollows(c.P(t.e), s.runs[t.e].log, Read(t.a, LoadValue(s, t.e, t.a)));
    } else {
      AppendFollows(c.P(t.e), s.runs[t.e].log, Write(t.a, t.v));
      StepEffect(c.max, s, t);
    }
  }

  lemma OwnEpochFollows(c: Config, s: State, t: Step)
    requires Base(c.max, s, c.mem0) && CanStep(c, s, t) && !t.LoadStep? && !t.StoreStep?
    requires t.e < |s.runs| ==> EpochFollows(c.P(t.e), s.runs[t.e], StatusOf(s, t.e))
    ensures var s' := Apply(c.max, s, t); t.e < |s'.runs| && EpochFollows(c.P(t.e), s'.runs[t.e], StatusOf(s', t.e))
  {
  }

  lemma StepFollows(c: Config, s: State, t: Step)
    requires Base(c.max, s, c.mem0) && FollowsProgram(c.P, s) && CanStep(c, s, t)
    ensures FollowsProgram(c.P, Apply(c.max, s, t))
  {
    StepEffect(c.max, s, t);
    if t.LoadStep? || t.StoreStep? {
      OwnAccessFollows(c, s, t);
    } else {
      OwnEpochFollows(c, s, t);
    }
    StepKeepsOthersFollowing(c.P, s, t, Apply(c.max, s, t));
  }

  lemma {:induction false} ReachableFollows(c: Config, steps: seq<Step>)
    requires After(c, steps).Some?
    ensures FollowsProgram(c.P, After(c, steps).value)
  {
    if |steps| > 0 {
      var before := steps[..|steps| - 1];
      ReachableBase(c, before);
      ReachableFollows(c, before);
      StepFollows(c, After(c, before).value, steps[|steps| - 1]);
    }
  }

  // ---------------------------------------------------------------- serial equivalence

  // An epoch handed out for commit ran the program to its end, on the overlay of
  // those below it, and if it broke nothing above it was handed out.
  ghost predicate RanToItsEnd(c: Config, s: State, e: nat)
    requires e < |s.runs|
  {
    var ret := c.P(e)(s.runs[e].log);
    && Returned(ret)
    && IterationEnds(c.P, e, Overlay(s.runs, c.mem0, e), Overlay(s.runs, c.mem0, e + 1), ret)
    && (ret == Break <==> s.runs[e].broke)
    && (ret == Break ==> e + 1 == s.line.nextCommit)
  }

  ghost predicate AllRan(c: Config, s: State) {
    s.line.nextCommit <= |s.runs| && forall e :: 0 <= e < s.line.nextCommit ==> RanToItsEnd(c, s, e)
  }

  lemma ClaimedRanToItsEnd(c: Config, s: State, e: nat)
    requires Inv(c.max, s, c.mem0) && FollowsProgram(c.P, s) && e < s.line.nextCommit
    ensures RanToItsEnd(c, s, e)
  {
    assert EpochFollows(c.P(e), s.runs[e], StatusOf(s, e));
    FinishedLogEnds(c.P(e), s.runs[e].log, Overlay(s.runs, c.mem0, e));
  }

  lemma {:induction false} IterationsChain(c: Config, s: State, n: nat)
    requires n <= s.line.nextCommit && AllRan(c, s)
    ensures n < s.line.nextCommit ==> RunsThrough(c.P, c.mem0, n, Overlay(s.runs, c.mem0, n))
    ensures LoopPrefix(c.P, c.mem0, n, Overlay(s.runs, c.mem0, n))
    ensures n > 0 && s.runs[n - 1].broke ==> LoopExit(c.P, c.mem0, n, Overlay(s.runs, c.mem0, n))
  {
    if n > 0 {
      IterationsChain(c, s, n - 1);
      assert RanToItsEnd(c, s, n - 1);
      OneMoreIteration(c.P, c.mem0, n - 1, Overlay(s.runs, c.mem0, n - 1), Overlay(s.runs, c.mem0, n),
                       c.P(n - 1)(s.runs[n - 1].log));
    }
  }

  lemma AllClaimedRan(c: Config, s: State)
    requires Inv(c.max, s, c.mem0) && FollowsProgram(c.P, s)
    ensures AllRan(c, s)
  {
    forall e | 0 <= e < s.line.nextCommit ensures RanToItsEnd(c, s, e) {
      ClaimedRanToItsEnd(c, s, e);
    }
  }

  lemma OneMoreIteration(P: Program, m0: Memory, i: nat, k: Memory, m: Memory, ret: Action)
    requires RunsThrough(P, m0, i, k) && IterationEnds(P, i, k, m, ret) && Returned(ret)
    ensures ret == Continue ==> RunsThrough(P, m0, i + 1, m)
    ensures ret == Break ==> LoopExit(P, m0, i + 1, m)
  {
  }

  // Once no flag of a claimed epoch is left, memory is the overlay of the claimed
  // epochs.
  lemma CommittedMemory(max: nat, s: State, mem0: Memory)
    requires Inv(max, s, mem0)
    requires forall e :: 0 <= e < s.line.nextCommit ==> s.runs[e].stored == map[]
    ensures s.mem == Overlay(s.runs, mem0, s.line.nextCommit)
  {
    forall a: nat | a < |s.mem| ensures s.mem[a] == Overlay(s.runs, mem0, s.line.nextCommit)[a] {
      UnwrittenSince(s, mem0, s.line.nextCommit, a);
    }
  }

  lemma {:induction false} UnwrittenSince(s: State, mem0: Memory, n: nat, a: Addr)
    requires |s.mem| == |s.lastCommit| == |mem0| && a < |s.mem| && n <= s.line.nextCommit <= |s.runs|
    requires LastCommits(s, mem0) && StoresArrive(s) && s.lastCommit[a] < n
    requires forall e :: 0 <= e < s.line.nextCommit ==> s.runs[e].stored == map[]
    ensures s.mem[a] == Overlay(s.runs, mem0, n)[a]
  {
    if n > 0 && s.lastCommit[a] != n - 1 {
      UnwrittenSince(s, mem0, n - 1, a);
      assert a !in Written(s.runs[n - 1].log);
    }
  }

  // Serial equivalence. In a run whose rollback bits are cleared in time, whenever
  // everything handed out for commit has been written
  // back, by however many workers and in whatever order, memory is what the
  // sequential loop has after as many iterations.
  lemma SerialEquivalence(c: Config, steps: seq<Step>, s: State)
    requires After(c, steps) == Some(s) && AllClearsInTime(c, steps)
    requires forall e :: s.line.first <= e < s.line.nextCommit && e < |s.runs| ==> s.runs[e].stored == map[]
    ensures LoopPrefix(c.P, c.mem0, s.line.nextCommit, s.mem)
  {
    ReachableInv(c, steps);
    ReachableFollows(c, steps);
    forall e | 0 <= e < s.line.nextCommit ensures s.runs[e].stored == map[] {
      assert e < s.line.first ==> StatusOf(s, e) == Commit;
    }
    CommittedMemory(c.max, s, c.mem0);
    AllClaimedRan(c, s);
    IterationsChain(c, s, s.line.nextCommit);
  }

  // No stale read survives: in every state of such a run the values a live epoch has
  // logged are those it would read running alone after the epochs below it, as
  // they stand now.
  lemma NoStaleReadSurvives(c: Config, steps: seq<Step>, s: State, e: nat)
    requires After(c, steps) == Some(s) && AllClearsInTime(c, steps) && e < s.line.next
    ensures e < |s.runs|
    ensures SerialSteps(c.P(e), Overlay(s.runs, c.mem0, e), |s.runs[e].log|).log == s.runs[e].log
  {
    ReachableInv(c, steps);
    ReachableFollows(c, steps);
    ConsistentIsSerial(c.P(e), s.runs[e].log, Overlay(s.runs, c.mem0, e));
  }

  // ---------------------------------------------------------------- where the loop ends

  // Under StopsInTime the stop bound is one past the lowest live or committed epoch
  // that broke, and parked just below first when there is none.
  ghost predicate StopIsExact(s: State) {
    if StopSet(s.line) then
      exists b :: 0 <= b < s.line.next && b < |s.runs| && LowestBreak(s, b) && s.line.stop == b + 1
    else
      s.line.stop == s.line.first - 1 && forall e :: 0 <= e < s.line.next && e < |s.runs| ==> !s.runs[e].broke
  }

  ghost predicate LowestBreak(s: State, b: nat) {
    b < |s.runs| && s.runs[b].broke && forall e :: 0 <= e < b ==> !s.runs[e].broke
  }

  lemma ExactIffEarned(max: nat, s: State, mem0: Memory)
    requires Base(max, s, mem0)
    ensures StopIsExact(s) <==> StopIsEarned(s)
  {
    if StopSet(s.line) && StopIsEarned(s) {
      var e :| 0 <= e < s.line.next && e < |s.runs| && s.runs[e].broke && s.line.stop == e + 1;
      assert LowestBreak(s, e);
    }
  }

  // A stop by an epoch that is still executing, or while a stop is already set,
  // keeps the bound exact; any other one breaks it.
  lemma StopKeepsExactIff(max: nat, s: State, mem0: Memory, e: nat)
    requires Base(max, s, mem0) && StopIsExact(s) && Enabled(max, s, StopStep(e))
    ensures StopIsExact(Apply(max, s, StopStep(e))) <==> StatusOf(s, e) == Executing || StopSet(s.line)
  {
    var s' := Apply(max, s, StopStep(e));
    StepKeepsBase(max, s, mem0, StopStep(e));
    ExactIffEarned(max, s, mem0);
    ExactIffEarned(max, s', mem0);
    assert s'.runs[e].broke;
    assert forall x :: 0 <= x < |s.runs| && x != e ==> s'.runs[x] == s.runs[x];
    if StatusOf(s, e) == Executing || StopSet(s.line) {
      EarnedStop(max, s, mem0, e);
    } else {
      assert e >= s.line.next;
      assert s'.line.stop == e + 1;
      assert !StopIsEarned(s');
    }
  }

  lemma EarnedStop(max: nat, s: State, mem0: Memory, e: nat)
    requires Base(max, s, mem0) && StopIsEarned(s) && Enabled(max, s, StopStep(e))
    requires StatusOf(s, e) == Executing || StopSet(s.line)
    ensures StopIsEarned(Apply(max, s, StopStep(e)))
  {
    var s' := Apply(max, s, StopStep(e));
    assert forall x :: 0 <= x < |s.runs| && x != e ==> s'.runs[x] == s.runs[x];
    if StopSet(s.line) {
      var b :| 0 <= b < s.line.next && b < |s.runs| && s.runs[b].broke && s.line.stop == b + 1;
      assert s'.runs[b].broke;
    }
    assert s'.runs[e].broke;
  }

  lemma OtherStepsKeepEarned(s: State, t: Step, s': State)
    requires StopIsEarned(s) && Effect(s, t, s') && !t.StopStep?
    requires t.IssueStep? || s'.runs[t.e].broke == s.runs[t.e].broke
    ensures StopIsEarned(s')
  {
  }

  lemma StepKeepsExact(c: Config, s: State, t: Step)
    requires Base(c.max, s, c.mem0) && StopIsExact(s) && CanStep(c, s, t) && StopsInTime(s, t)
    ensures StopIsExact(Apply(c.max, s, t))
  {
    var s' := Apply(c.max, s, t);
    ExactIffEarned(c.max, s, c.mem0);
    if t.StopStep? {
      EarnedStop(c.max, s, c.mem0, t.e);
    } else {
      StepEffect(c.max, s, t);
      if !t.IssueStep? {
        BreaksKept(c.max, s, t);
      }
      OtherStepsKeepEarned(s, t, s');
    }
    StepKeepsBase(c.max, s, c.mem0, t);
    ExactIffEarned(c.max, s', c.mem0);
  }

  // Exact stop bound: in every run whose stops are made in time.
  lemma {:induction false} ReachableStopIsExact(c: Config, steps: seq<Step>)
    requires After(c, steps).Some? && AllStopsInTime(c, steps)
    ensures StopIsExact(After(c, steps).value)
  {
    if |steps| > 0 {
      var before, t := steps[..|steps| - 1], steps[|steps| - 1];
      ReachableBase(c, before);
      ReachableStopIsExact(c, before);
      StepKeepsExact(c, After(c, before).value, t);
    }
  }

  // When an epoch is handed out: the ring has room for it, its last execution has
  // been set done, and it lies below the stop bound, which in a run whose stops are
  // made in time means that no epoch below it has broken.
  lemma HandedOutIff(c: Config, steps: seq<Step>, s: State)
    requires After(c, steps) == Some(s)
    ensures s.line.next <= |s.runs|
    ensures forall e: nat :: Enabled(c.max, s, IssueStep(e)) <==>
              && e == s.line.next < s.line.first + c.max && StatusOf(s, e) != Pending
              && (s.line.stop >= s.line.first ==> e < s.line.stop)
    ensures AllStopsInTime(c, steps) ==>
              forall e: nat :: Enabled(c.max, s, IssueStep(e)) <==>
                && e == s.line.next < s.line.first + c.max && StatusOf(s, e) != Pending
                && forall x :: 0 <= x < e ==> !s.runs[x].broke
  {
    ReachableBase(c, steps);
    if AllStopsInTime(c, steps) {
      ReachableStopIsExact(c, steps);
      if StopSet(s.line) {
        var b :| 0 <= b < s.line.next && b < |s.runs| && LowestBreak(s, b) && s.line.stop == b + 1;
        assert s.runs[b].broke;
      }
    }
  }

  lemma StopBlocks(max: nat, s: State, e: nat)
    requires StopBound(max, s.line) && StopSet(s.line) && e >= s.line.stop
    ensures e >= s.line.nextCommit && !Enabled(max, s, ClaimStep(e))
  {
  }

  // Nothing at or past the stop bound is ever handed out for commit.
  lemma NothingClaimedPastTheStop(c: Config, steps: seq<Step>, s: State, e: nat)
    requires After(c, steps) == Some(s) && StopSet(s.line) && e >= s.line.stop
    ensures e >= s.line.nextCommit
    ensures !Enabled(c.max, s, ClaimStep(e))
  {
    ReachableBase(c, steps);
    StopBlocks(c.max, s, e);
  }

  // Exact loop exit. When yarn_epoch_next returns false the committed epochs are
  // exactly those below the stop bound, the sequential loop breaks in the last of
  // them, and memory is what it leaves behind.
  lemma LoopEndsWhereSerialBreaks(c: Config, steps: seq<Step>, s: State)
    requires After(c, steps) == Some(s) && AllClearsInTime(c, steps) && AllStopsInTime(c, steps)
    requires Finished(c.max, s.line)
    ensures s.line.first == s.line.nextCommit == s.line.stop
    ensures forall e :: 0 <= e < |s.runs| ==> (StatusOf(s, e) == Commit <==> e < s.line.stop)
    ensures LoopExit(c.P, c.mem0, s.line.nextCommit, s.mem)
  {
    ReachableInv(c, steps);
    ReachableFollows(c, steps);
    ReachableStopIsExact(c, steps);
    FinishedIsExit(c, s);
  }

  lemma FinishedStatuses(max: nat, s: State, mem0: Memory)
    requires Inv(max, s, mem0) && Finished(max, s.line)
    ensures s.line.first == s.line.nextCommit == s.line.stop
    ensures forall e :: 0 <= e < |s.runs| ==> (StatusOf(s, e) == Commit <==> e < s.line.stop)
    ensures forall e :: 0 <= e < s.line.nextCommit ==> s.runs[e].stored == map[]
  {
  }

  lemma FinishedIsExit(c: Config, s: State)
    requires Inv(c.max, s, c.mem0) && FollowsProgram(c.P, s) && StopIsExact(s) && Finished(c.max, s.line)
    ensures s.line.first == s.line.nextCommit == s.line.stop
    ensures forall e :: 0 <= e < |s.runs| ==> (StatusOf(s, e) == Commit <==> e < s.line.stop)
    ensures LoopExit(c.P, c.mem0, s.line.nextCommit, s.mem)
  {
    FinishedStatuses(c.max, s, c.mem0);
    CommittedMemory(c.max, s, c.mem0);
    AllClaimedRan(c, s);
    IterationsChain(c, s, s.line.nextCommit);
  }

  // ---------------------------------------------------------------- one execution at a time

  predicate IsOpen(st: Status) {
    st == Executing || st == Pending
  }

  // Epoch e has been handed out and not been set done since.
  predicate Open(steps: seq<Step>, e: nat) {
    |steps| > 0 &&
    var t := steps[|steps| - 1];
    if t == IssueStep(e) then true else if t == DoneStep(e) then false else Open(steps[..|steps| - 1], e)
  }

  lemma StoreKeepsOpen(max: nat, s: State, t: Step, e: nat)
    requires |s.runs| == |s.line.marks| && Ring(max, s.line) && Enabled(max, s, t) && t.StoreStep?
    ensures IsOpen(StatusOf(Apply(max, s, t), e)) == IsOpen(StatusOf(s, e))
  {
  }

  lemma StepOpens(max: nat, s: State, t: Step, e: nat)
    requires |s.runs| == |s.line.marks| && Ring(max, s.line) && StopBound(max, s.line) && Enabled(max, s, t)
    ensures IsOpen(StatusOf(Apply(max, s, t), e)) ==
            if t == IssueStep(e) then true else if t == DoneStep(e) then false else IsOpen(StatusOf(s, e))
  {
    if t.StoreStep? {
      StoreKeepsOpen(max, s, t, e);
    } else if t.CommittedStep? {
      CommitDoneEffect(max, s.line, t.e);
    }
  }

  lemma {:induction false} OpenIsExecuting(c: Config, steps: seq<Step>, e: nat)
    requires After(c, steps).Some?
    ensures Open(steps, e) <==> IsOpen(StatusOf(After(c, steps).value, e))
  {
    if |steps| > 0 {
      var before := steps[..|steps| - 1];
      ReachableBase(c, before);
      OpenIsExecuting(c, before, e);
      StepOpens(c.max, After(c, before).value, steps[|steps| - 1], e);
    }
  }

  // An epoch is handed out again only after its previous execution was set done, so
  // no two workers ever execute the same one.
  lemma ReissuedOnlyWhenDone(c: Config, steps: seq<Step>, s: State, e: nat)
    requires After(c, steps) == Some(s) && Enabled(c.max, s, IssueStep(e))
    ensures !Open(steps, e)
    ensures e < |s.runs| <==> StatusOf(s, e) == Rollback
  {
    ReachableBase(c, steps);
    OpenIsExecuting(c, steps, e);
    IssueKeepsRing(c.max, s.line);
  }

  // The rollback bits: an epoch has its bit exactly while it is rolled back, which
  // lasts until its next execution has cleared what the last one left.
  lemma MaskedWhileRolledBack(c: Config, steps: seq<Step>, s: State, e: nat)
    requires After(c, steps) == Some(s) && AllClearsInTime(c, steps) && e < |s.runs|
    ensures At(s.line, e).masked <==>
            StatusOf(s, e) == Pending || StatusOf(s, e) == Rollback || s.runs[e].cleaning
  {
    ReachableInv(c, steps);
  }
}
