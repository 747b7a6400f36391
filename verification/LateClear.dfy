/**
 A rollback bit that is cleared too late, from the first step to the wrong memory it
 leaves behind. When clearing is harmless is the subject of
 Coherence.UnmaskKeepsInvIff.
 */
module LateClear {
  import opened Serial
  import opened Timeline
  import opened Speculation
  import opened Coherence
  import opened Playing

  // Iteration 0 stores to address 1, to address 0 and to address 1 again. Iteration 1
  // only reads address 0. Iteration 2 stores to address 2 if it sees the first of the
  // stores to address 1, and iteration 3 copies address 2 to address 3. In the
  // sequential loop iteration 2 stores nothing.
  function Iteration(e: nat, log: seq<Event>): Action {
    if e == 0 && |log| == 0 then Store(1, 1)
    else if e == 0 && |log| == 1 then Store(0, 1)
    else if e == 0 && |log| == 2 then Store(1, 2)
    else if e == 1 && |log| == 0 then Load(0)
    else if e == 2 && |log| == 0 then Load(1)
    else if e == 2 && |log| == 1 && log[0].v == 1 then Store(2, 5)
    else if e == 3 && |log| == 0 then Load(2)
    else if e == 3 && |log| == 1 then Store(3, log[0].v)
    else Continue
  }

  const LOOP := Config(e => log => Iteration(e, log), 4, [0, 0, 0, 0])

  // ---------------------------------------------------------------- the run

  // Epochs 0, 1 and 2 are issued.
  lemma Issued() returns (k: Scene)
    ensures Played(LOOP, k) && k.mem == [0, 0, 0, 0] && k.stamps == [-1, -1, -1, -1]
    ensures Looks(k, 0, 0, 3, -1, [EXECUTING, EXECUTING, EXECUTING], 0, 0,
                  [Ran([], {}, map[]),
                   Ran([], {}, map[]),
                   Ran([], {}, map[])])
  {
    k := Begin(LOOP);
    k := PlayIssue(LOOP, k, EXECUTING, Ran([], {}, map[]));
    k := PlayIssue(LOOP, k, EXECUTING, Ran([], {}, map[]));
    k := PlayIssue(LOOP, k, EXECUTING, Ran([], {}, map[]));
  }

  // Epochs 1 and 2 read before epoch 0 stores.
  lemma TwoHaveRead() returns (k: Scene)
    ensures Played(LOOP, k) && k.mem == [0, 0, 0, 0] && k.stamps == [-1, -1, -1, -1]
    ensures Looks(k, 0, 0, 3, -1, [EXECUTING, EXECUTING, DONE], 0, 0,
                  [Ran([], {}, map[]),
                   Ran([Read(0, 0)], {0}, map[]),
                   Ran([Read(1, 0)], {1}, map[])])
  {
    k := Issued();
    k := PlayLoad(LOOP, k, 1, 0, -1, 0, Ran([Read(0, 0)], {0}, map[]));
    k := PlayLoad(LOOP, k, 2, 1, -1, 0, Ran([Read(1, 0)], {1}, map[]));
    k := PlayDone(LOOP, k, 2);
  }

  // Epoch 0 rolls back 2, which is issued again, and then 1 and 2, while 2 is being cleaned.
  lemma RolledBackTwice() returns (k: Scene)
    ensures Played(LOOP, k) && k.mem == [0, 0, 0, 0] && k.stamps == [-1, -1, -1, -1]
    ensures Looks(k, 0, 0, 1, -1, [EXECUTING, PENDING, PENDING], 0, 0,
                  [Ran([Write(1, 1), Write(0, 1)], {}, map[0 := 1, 1 := 1]),
                   Ran([Read(0, 0)], {0}, map[]),
                   Run(true, false, [], {1}, map[])])
  {
    k := TwoHaveRead();
    k := PlayStore(LOOP, k, 0, 1, 1, Ran([Write(1, 1)], {}, map[1 := 1]), 2,
                   [EXECUTING, EXECUTING, ROLLED_BACK]);
    k := PlayIssue(LOOP, k, CLEANING, Run(true, false, [], {1}, map[]));
    k := PlayStore(LOOP, k, 0, 0, 1, Ran([Write(1, 1), Write(0, 1)], {}, map[0 := 1, 1 := 1]), 1,
                   [EXECUTING, PENDING, PENDING]);
  }

  // The worker of 2 clears its rollback bit all the same, and stores in vain.
  lemma ClearedTooLate() returns (k: Scene)
    ensures Played(LOOP, k) && k.mem == [0, 0, 0, 0] && k.stamps == [-1, -1, -1, -1]
    ensures Looks(k, 0, 0, 1, -1, [EXECUTING, PENDING, PENDING_BARE], 1, 0,
                  [Ran([Write(1, 1), Write(0, 1)], {}, map[0 := 1, 1 := 1]),
                   Ran([Read(0, 0)], {0}, map[]),
                   Ran([Read(1, 1), Write(2, 5)], {1}, map[2 := 5])])
  {
    k := RolledBackTwice();
    k := PlayScrub(LOOP, k, 2, 1, Run(true, false, [], {}, map[]));
    k := PlayUnmask(LOOP, k, 2);
    k := PlayLoad(LOOP, k, 2, 1, 0, 1, Ran([Read(1, 1)], {1}, map[]));
    k := PlayQuietStore(LOOP, k, 2, 2, 5, Ran([Read(1, 1), Write(2, 5)], {1}, map[2 := 5]));
  }

  // Both are done in vain, with the bit of 2 missing.
  lemma StoredInVain() returns (k: Scene)
    ensures Played(LOOP, k) && k.mem == [0, 0, 0, 0] && k.stamps == [-1, -1, -1, -1]
    ensures Looks(k, 0, 0, 1, -1, [EXECUTING, ROLLED_BACK, ROLLED_BACK_BARE], 1, 0,
                  [Ran([Write(1, 1), Write(0, 1), Write(1, 2)], {}, map[0 := 1, 1 := 2]),
                   Ran([Read(0, 0)], {0}, map[]),
                   Ran([Read(1, 1), Write(2, 5)], {1}, map[2 := 5])])
  {
    k := ClearedTooLate();
    k := PlayDone(LOOP, k, 2);
    k := PlayDone(LOOP, k, 1);
    k := PlayQuietStore(LOOP, k, 0, 1, 2, Ran([Write(1, 1), Write(0, 1), Write(1, 2)], {}, map[0 := 1, 1 := 2]));
  }

  // Epoch 1 is started over,
  lemma FirstCleaned() returns (k: Scene)
    ensures Played(LOOP, k) && k.mem == [0, 0, 0, 0] && k.stamps == [-1, -1, -1, -1]
    ensures Looks(k, 0, 0, 2, -1, [EXECUTING, EXECUTING, ROLLED_BACK_BARE], 1, 0,
                  [Ran([Write(1, 1), Write(0, 1), Write(1, 2)], {}, map[0 := 1, 1 := 2]),
                   Ran([], {}, map[]),
                   Ran([Read(1, 1), Write(2, 5)], {1}, map[2 := 5])])
  {
    k := StoredInVain();
    k := PlayIssue(LOOP, k, CLEANING, Run(true, false, [], {0}, map[]));
    k := PlayScrub(LOOP, k, 1, 0, Run(true, false, [], {}, map[]));
    k := PlayUnmask(LOOP, k, 1);
  }

  // and so is epoch 2, whose store in vain is not masked: epoch 3 reads it.
  lemma ReadTooMuch() returns (k: Scene)
    ensures Played(LOOP, k) && k.mem == [0, 0, 0, 0] && k.stamps == [-1, -1, -1, -1]
    ensures Looks(k, 0, 0, 4, -1, [EXECUTING, EXECUTING, EXECUTING, EXECUTING], 1, 0,
                  [Ran([Write(1, 1), Write(0, 1), Write(1, 2)], {}, map[0 := 1, 1 := 2]),
                   Ran([], {}, map[]),
                   Run(true, false, [], {1}, map[2 := 5]),
                   Ran([Read(2, 5)], {2}, map[])])
  {
    k := FirstCleaned();
    k := PlayIssue(LOOP, k, EXECUTING, Run(true, false, [], {1}, map[2 := 5]));
    k := PlayIssue(LOOP, k, EXECUTING, Ran([], {}, map[]));
    k := PlayLoad(LOOP, k, 3, 2, 2, 5, Ran([Read(2, 5)], {2}, map[]));
  }

  // When 2 is cleaned nothing tells 3,
  lemma CleanedBehindIt() returns (k: Scene)
    ensures Played(LOOP, k) && k.mem == [0, 0, 0, 0] && k.stamps == [-1, -1, -1, -1]
    ensures Looks(k, 0, 0, 4, -1, [EXECUTING, EXECUTING, EXECUTING, EXECUTING], 1, 0,
                  [Ran([Write(1, 1), Write(0, 1), Write(1, 2)], {}, map[0 := 1, 1 := 2]),
                   Ran([], {}, map[]),
                   Ran([], {}, map[]),
                   Ran([Read(2, 5)], {2}, map[])])
  {
    k := ReadTooMuch();
    k := PlayScrub(LOOP, k, 2, 1, Run(true, false, [], {}, map[2 := 5]));
    k := PlayScrub(LOOP, k, 2, 2, Run(true, false, [], {}, map[]));
    k := PlayUnmask(LOOP, k, 2);
  }

  // which goes on, while 1 and 2 read what they should.
  lemma ReadAnew() returns (k: Scene)
    ensures Played(LOOP, k) && k.mem == [0, 0, 0, 0] && k.stamps == [-1, -1, -1, -1]
    ensures Looks(k, 0, 0, 4, -1, [EXECUTING, EXECUTING, EXECUTING, EXECUTING], 1, 0,
                  [Ran([Write(1, 1), Write(0, 1), Write(1, 2)], {}, map[0 := 1, 1 := 2]),
                   Ran([Read(0, 1)], {0}, map[]),
                   Ran([Read(1, 2)], {1}, map[]),
                   Ran([Read(2, 5), Write(3, 5)], {2}, map[3 := 5])])
  {
    k := CleanedBehindIt();
    k := PlayQuietStore(LOOP, k, 3, 3, 5, Ran([Read(2, 5), Write(3, 5)], {2}, map[3 := 5]));
    k := PlayLoad(LOOP, k, 1, 0, 0, 1, Ran([Read(0, 1)], {0}, map[]));
    k := PlayLoad(LOOP, k, 2, 1, 0, 2, Ran([Read(1, 2)], {1}, map[]));
  }

  // All four are done,
  lemma AllDone() returns (k: Scene)
    ensures Played(LOOP, k) && k.mem == [0, 0, 0, 0] && k.stamps == [-1, -1, -1, -1]
    ensures Looks(k, 0, 0, 4, -1, [DONE, DONE, DONE, DONE], 1, 0,
                  [Ran([Write(1, 1), Write(0, 1), Write(1, 2)], {}, map[0 := 1, 1 := 2]),
                   Ran([Read(0, 1)], {0}, map[]),
                   Ran([Read(1, 2)], {1}, map[]),
                   Ran([Read(2, 5), Write(3, 5)], {2}, map[3 := 5])])
  {
    k := ReadAnew();
    k := PlayDone(LOOP, k, 0);
    k := PlayDone(LOOP, k, 1);
    k := PlayDone(LOOP, k, 2);
    k := PlayDone(LOOP, k, 3);
  }

  // claimed,
  lemma AllClaimed() returns (k: Scene)
    ensures Played(LOOP, k) && k.mem == [0, 0, 0, 0] && k.stamps == [-1, -1, -1, -1]
    ensures Looks(k, 0, 4, 4, -1, [DONE, DONE, DONE, DONE], 1, 0,
                  [Ran([Write(1, 1), Write(0, 1), Write(1, 2)], {}, map[0 := 1, 1 := 2]),
                   Ran([Read(0, 1)], {0}, map[]),
                   Ran([Read(1, 2)], {1}, map[]),
                   Ran([Read(2, 5), Write(3, 5)], {2}, map[3 := 5])])
  {
    k := AllDone();
    k := PlayClaim(LOOP, k);
    k := PlayClaim(LOOP, k);
    k := PlayClaim(LOOP, k);
    k := PlayClaim(LOOP, k);
  }

  // and written back and committed: epoch 0,
  lemma FirstWrittenBack() returns (k: Scene)
    ensures Played(LOOP, k) && k.mem == [1, 2, 0, 0] && k.stamps == [0, 0, -1, -1]
    ensures Looks(k, 0, 4, 4, -1, [DONE, DONE, DONE, DONE], 1, 0,
                  [Ran([Write(1, 1), Write(0, 1), Write(1, 2)], {}, map[]),
                   Ran([Read(0, 1)], {0}, map[]),
                   Ran([Read(1, 2)], {1}, map[]),
                   Ran([Read(2, 5), Write(3, 5)], {2}, map[3 := 5])])
  {
    k := AllClaimed();
    k := PlayWriteBack(LOOP, k, 0, 0, Ran([Write(1, 1), Write(0, 1), Write(1, 2)], {}, map[1 := 2]));
    k := PlayWriteBack(LOOP, k, 0, 1, Ran([Write(1, 1), Write(0, 1), Write(1, 2)], {}, map[]));
  }

  // epoch 1,
  lemma TwoCommitted() returns (k: Scene)
    ensures Played(LOOP, k) && k.mem == [1, 2, 0, 0] && k.stamps == [0, 0, -1, -1]
    ensures Looks(k, 2, 4, 4, 1, [FRESH, FRESH, DONE, DONE], 1, 0,
                  [Ran([Write(1, 1), Write(0, 1), Write(1, 2)], {}, map[]),
                   Ran([Read(0, 1)], {}, map[]),
                   Ran([Read(1, 2)], {1}, map[]),
                   Ran([Read(2, 5), Write(3, 5)], {2}, map[3 := 5])])
  {
    k := FirstWrittenBack();
    k := PlayCommitted(LOOP, k);
    k := PlayWriteBack(LOOP, k, 1, 0, Ran([Read(0, 1)], {}, map[]));
    k := PlayCommitted(LOOP, k);
  }

  // epoch 2, which has stored nothing in the end,
  lemma ThreeCommitted() returns (k: Scene)
    ensures Played(LOOP, k) && k.mem == [1, 2, 0, 0] && k.stamps == [0, 0, -1, -1]
    ensures Looks(k, 3, 4, 4, 2, [FRESH, FRESH, FRESH, DONE], 1, 0,
                  [Ran([Write(1, 1), Write(0, 1), Write(1, 2)], {}, map[]),
                   Ran([Read(0, 1)], {}, map[]),
                   Ran([Read(1, 2)], {}, map[]),
                   Ran([Read(2, 5), Write(3, 5)], {2}, map[3 := 5])])
  {
    k := TwoCommitted();
    k := PlayWriteBack(LOOP, k, 2, 1, Ran([Read(1, 2)], {}, map[]));
    k := PlayCommitted(LOOP, k);
  }

  // and epoch 3.
  lemma AllCommitted() returns (k: Scene)
    ensures Played(LOOP, k) && k.mem == [1, 2, 0, 5] && k.stamps == [0, 0, -1, 3]
    ensures Looks(k, 4, 4, 4, 3, [FRESH, FRESH, FRESH, FRESH], 1, 0,
                  [Ran([Write(1, 1), Write(0, 1), Write(1, 2)], {}, map[]),
                   Ran([Read(0, 1)], {}, map[]),
                   Ran([Read(1, 2)], {}, map[]),
                   Ran([Read(2, 5), Write(3, 5)], {}, map[])])
  {
    k := ThreeCommitted();
    k := PlayWriteBack(LOOP, k, 3, 2, Ran([Read(2, 5), Write(3, 5)], {}, map[3 := 5]));
    k := PlayWriteBack(LOOP, k, 3, 3, Ran([Read(2, 5), Write(3, 5)], {}, map[]));
    k := PlayCommitted(LOOP, k);
  }

  // ---------------------------------------------------------------- the sequential loop

  lemma FirstIteration()
    ensures IterationEnds(LOOP.P, 0, [0, 0, 0, 0], [1, 2, 0, 0], Continue)
  {
    var p, m := LOOP.P(0), [0, 0, 0, 0];
    assert SerialSteps(p, m, 1) == SerialStep(p, Machine([], m)) == Machine([Write(1, 1)], [0, 1, 0, 0]);
    assert SerialSteps(p, m, 2) == Machine([Write(1, 1), Write(0, 1)], [1, 1, 0, 0]);
    assert SerialSteps(p, m, 3) == Machine([Write(1, 1), Write(0, 1), Write(1, 2)], [1, 2, 0, 0]);
    assert p(SerialSteps(p, m, 3).log) == Continue && SerialSteps(p, m, 3).mem == [1, 2, 0, 0];
  }

  lemma MiddleIterations()
    ensures IterationEnds(LOOP.P, 1, [1, 2, 0, 0], [1, 2, 0, 0], Continue)
    ensures IterationEnds(LOOP.P, 2, [1, 2, 0, 0], [1, 2, 0, 0], Continue)
  {
    var m := [1, 2, 0, 0];
    var p1, p2 := LOOP.P(1), LOOP.P(2);
    assert SerialSteps(p1, m, 1) == SerialStep(p1, Machine([], m)) == Machine([Read(0, 1)], m);
    assert p1(SerialSteps(p1, m, 1).log) == Continue && SerialSteps(p1, m, 1).mem == m;
    assert SerialSteps(p2, m, 1) == SerialStep(p2, Machine([], m)) == Machine([Read(1, 2)], m);
    assert p2(SerialSteps(p2, m, 1).log) == Continue && SerialSteps(p2, m, 1).mem == m;
  }

  lemma LastIteration()
    ensures IterationEnds(LOOP.P, 3, [1, 2, 0, 0], [1, 2, 0, 0], Continue)
  {
    var p, m := LOOP.P(3), [1, 2, 0, 0];
    assert SerialSteps(p, m, 1) == SerialStep(p, Machine([], m)) == Machine([Read(2, 0)], m);
    assert SerialSteps(p, m, 2) == Machine([Read(2, 0), Write(3, 0)], m);
    assert p(SerialSteps(p, m, 2).log) == Continue && SerialSteps(p, m, 2).mem == m;
  }

  lemma SequentialMemory()
    ensures RunsThrough(LOOP.P, LOOP.mem0, 4, [1, 2, 0, 0])
  {
    FirstIteration();
    MiddleIterations();
    LastIteration();
    assert RunsThrough(LOOP.P, LOOP.mem0, 0, [0, 0, 0, 0]);
    assert RunsUpTo(LOOP.P, LOOP.mem0, 0, [1, 2, 0, 0], Continue);
    assert RunsUpTo(LOOP.P, LOOP.mem0, 1, [1, 2, 0, 0], Continue);
    assert RunsUpTo(LOOP.P, LOOP.mem0, 2, [1, 2, 0, 0], Continue);
  }

  // ---------------------------------------------------------------- what went wrong

  // A run all of whose steps the source takes, with one rollback bit cleared too late,
  // reaches a state in which a live epoch has read what no epoch below it has stored.
  lemma LateClearLetsAStaleReadThrough()
    ensures exists s: State :: Reached(LOOP, s, 1, 0) && !NoStaleReads(s, LOOP.mem0)
  {
    var k := ReadTooMuch();
    var s := Of(k);
    assert Written(s.runs[2].log) == map[] && Written(s.runs[1].log) == map[];
    assert 2 !in Written(s.runs[0].log);
    assert Overlay(s.runs, LOOP.mem0, 1)[2] == 0;
    assert Overlay(s.runs, LOOP.mem0, 3)[2] == Overlay(s.runs, LOOP.mem0, 2)[2] == 0;
    assert Front(s.runs[3].log) == [];
    assert !Consistent(s.runs[3].log, Overlay(s.runs, LOOP.mem0, 3));
  }

  // Carried on, all four epochs are committed and nothing is buffered any more, but
  // memory is not what the sequential loop has after four iterations.
  lemma LateClearCommitsAWrongMemory()
    ensures exists s: State ::
              && Reached(LOOP, s, 1, 0) && s.line.first == s.line.nextCommit == 4 && s.mem == [1, 2, 0, 5]
              && forall e :: 0 <= e < |s.runs| ==> s.runs[e].stored == map[]
    ensures forall m: Memory :: LoopPrefix(LOOP.P, LOOP.mem0, 4, m) ==> m == [1, 2, 0, 0]
  {
    var k := AllCommitted();
    assert Reached(LOOP, Of(k), 1, 0) && Of(k).mem == [1, 2, 0, 5];
    SequentialMemory();
    forall m: Memory | LoopPrefix(LOOP.P, LOOP.mem0, 4, m) ensures m == [1, 2, 0, 0] {
      LoopPrefixIsUnique(LOOP.P, LOOP.mem0, 4, m, [1, 2, 0, 0]);
    }
  }
}
