/**
 A stop that comes too late: the loop ends although the sequential loop does not. When
 a stop keeps the bound right is the subject of Equivalence.StopKeepsExactIff.
 */
module LateStop {
  import opened Serial
  import opened Timeline
  import opened Speculation
  import opened Equivalence
  import opened Playing

  // Iteration 0 stores to address 0. Iteration 1 breaks if it does not see that
  // store, so in the sequential loop no iteration ever breaks.
  function Impatient(e: nat, log: seq<Event>): Action {
    if e == 0 && |log| == 0 then Store(0, 1)
    else if e == 1 && |log| == 0 then Load(0)
    else if e == 1 && log[0].v == 0 then Break
    else Continue
  }

  const IMPATIENT := Config(e => log => Impatient(e, log), 4, [0])

  lemma {:induction false} ImpatientNeverBreaks(n: nat)
    ensures RunsThrough(IMPATIENT.P, [0], n, if n == 0 then [0] else [1])
  {
    if n > 0 {
      var m: Memory := if n == 1 then [0] else [1];
      ImpatientNeverBreaks(n - 1);
      var p := IMPATIENT.P(n - 1);
      var k := if n <= 2 then 1 else 0;
      assert SerialSteps(p, m, 0) == Machine([], m);
      assert SerialSteps(p, m, 1) == SerialStep(p, Machine([], m));
      assert p(SerialSteps(p, m, k).log) == Continue && SerialSteps(p, m, k).mem == [1];
      assert IterationEnds(IMPATIENT.P, n - 1, m, [1], Continue);
    }
  }

  lemma NoSequentialExit(n: nat, m: Memory)
    ensures !LoopExit(IMPATIENT.P, IMPATIENT.mem0, n, m)
  {
    if LoopExit(IMPATIENT.P, [0], n, m) {
      ImpatientNeverBreaks(n);
      NothingRunsPastABreak(IMPATIENT.P, [0], n, m, n, if n == 0 then [0] else [1]);
    }
  }

  // ---------------------------------------------------------------- the run

  // Epoch 1 reads too early and is rolled back by the store of epoch 0.
  lemma RolledBack() returns (k: Scene)
    ensures Played(IMPATIENT, k) && k.mem == [0] && k.stamps == [-1]
    ensures Looks(k, 0, 0, 1, -1, [EXECUTING, PENDING], 0, 0,
                  [Ran([Write(0, 1)], {}, map[0 := 1]),
                   Ran([Read(0, 0)], {0}, map[])])
  {
    k := Begin(IMPATIENT);
    k := PlayIssue(IMPATIENT, k, EXECUTING, Ran([], {}, map[]));
    k := PlayIssue(IMPATIENT, k, EXECUTING, Ran([], {}, map[]));
    k := PlayLoad(IMPATIENT, k, 1, 0, -1, 0, Ran([Read(0, 0)], {0}, map[]));
    k := PlayStore(IMPATIENT, k, 0, 0, 1, Ran([Write(0, 1)], {}, map[0 := 1]), 1,
                   [EXECUTING, PENDING]);
  }

  // Its worker announces the break it computed from the stale value.
  lemma StoppedTooLate() returns (k: Scene)
    ensures Played(IMPATIENT, k) && k.mem == [0] && k.stamps == [-1]
    ensures Looks(k, 0, 0, 1, 2, [EXECUTING, PENDING], 0, 1,
                  [Ran([Write(0, 1)], {}, map[0 := 1]),
                   Run(false, true, [Read(0, 0)], {0}, map[])])
  {
    k := RolledBack();
    k := PlayStop(IMPATIENT, k, 1);
  }

  // It is started over and reads what it should, so it does not break; the stop bound stays.
  lemma DoneAgain() returns (k: Scene)
    ensures Played(IMPATIENT, k) && k.mem == [0] && k.stamps == [-1]
    ensures Looks(k, 0, 0, 2, 2, [DONE, DONE], 0, 1,
                  [Ran([Write(0, 1)], {}, map[0 := 1]),
                   Ran([Read(0, 1)], {0}, map[])])
  {
    k := StoppedTooLate();
    k := PlayDone(IMPATIENT, k, 1);
    k := PlayDone(IMPATIENT, k, 0);
    k := PlayIssue(IMPATIENT, k, CLEANING, Run(true, false, [], {0}, map[]));
    k := PlayScrub(IMPATIENT, k, 1, 0, Run(true, false, [], {}, map[]));
    k := PlayUnmask(IMPATIENT, k, 1);
    k := PlayLoad(IMPATIENT, k, 1, 0, 0, 1, Ran([Read(0, 1)], {0}, map[]));
    k := PlayDone(IMPATIENT, k, 1);
  }

  // Both epochs are committed, and no epoch is handed out any more.
  lemma Ended() returns (k: Scene)
    ensures Played(IMPATIENT, k) && k.mem == [1] && k.stamps == [0]
    ensures Looks(k, 2, 2, 2, 2, [FRESH, FRESH], 0, 1,
                  [Ran([Write(0, 1)], {}, map[]),
                   Ran([Read(0, 1)], {}, map[])])
  {
    k := DoneAgain();
    k := PlayClaim(IMPATIENT, k);
    k := PlayClaim(IMPATIENT, k);
    k := PlayWriteBack(IMPATIENT, k, 0, 0, Ran([Write(0, 1)], {}, map[]));
    k := PlayCommitted(IMPATIENT, k);
    k := PlayWriteBack(IMPATIENT, k, 1, 0, Ran([Read(0, 1)], {}, map[]));
    k := PlayCommitted(IMPATIENT, k);
  }

  // ---------------------------------------------------------------- what went wrong

  // The stop bound is set although no live epoch broke.
  lemma LateStopIsNotExact()
    ensures exists s: State :: Reached(IMPATIENT, s, 0, 1) && StopSet(s.line) && !StopIsExact(s)
  {
    var k := StoppedTooLate();
    assert !StopIsExact(Of(k));
  }

  // Carried on, yarn_epoch_next reports the end after two epochs, and the loop is over
  // where the sequential loop goes on for ever.
  lemma LateStopEndsTheLoop()
    ensures exists s: State :: Reached(IMPATIENT, s, 0, 1) && Finished(IMPATIENT.max, s.line) && s.line.first == 2
    ensures forall n: nat, m: Memory :: !LoopExit(IMPATIENT.P, IMPATIENT.mem0, n, m)
  {
    var k := Ended();
    assert Finished(IMPATIENT.max, Of(k).line);
    forall n: nat, m: Memory ensures !LoopExit(IMPATIENT.P, IMPATIENT.mem0, n, m) {
      NoSequentialExit(n, m);
    }
  }
}
