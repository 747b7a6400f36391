/**
 A run from start to end, so that the hypotheses of the main theorems are seen to be
 met: the loop stores once and breaks in its first iteration.
 */
module Examples {
  import opened Serial
  import opened Timeline
  import opened Speculation
  import opened Equivalence
  import opened Playing

  const ONE_SHOT := Config(e => log => if |log| == 0 then Store(0, 7) else Break, 4, [0])

  // The run, and that no step of it comes too late.
  lemma Executed() returns (k: Scene)
    ensures Played(ONE_SHOT, k) && k.mem == [0] && k.stamps == [-1]
    ensures Looks(k, 0, 0, 1, 1, [DONE], 0, 0, [Run(false, true, [Write(0, 7)], {}, map[0 := 7])])
  {
    k := Begin(ONE_SHOT);
    k := PlayIssue(ONE_SHOT, k, EXECUTING, Ran([], {}, map[]));
    k := PlayQuietStore(ONE_SHOT, k, 0, 0, 7, Ran([Write(0, 7)], {}, map[0 := 7]));
    k := PlayStop(ONE_SHOT, k, 0);
    k := PlayDone(ONE_SHOT, k, 0);
  }

  lemma Committed() returns (k: Scene)
    ensures Played(ONE_SHOT, k) && k.mem == [7] && k.stamps == [0]
    ensures Looks(k, 1, 1, 1, 1, [FRESH], 0, 0, [Run(false, true, [Write(0, 7)], {}, map[])])
  {
    k := Executed();
    k := PlayClaim(ONE_SHOT, k);
    k := PlayWriteBack(ONE_SHOT, k, 0, 0, Run(false, true, [Write(0, 7)], {}, map[]));
    k := PlayCommitted(ONE_SHOT, k);
  }

  // The run ends with what the sequential loop leaves behind.
  lemma TheEndIsReached()
    ensures exists steps, s ::
              && After(ONE_SHOT, steps) == Some(s) && AllClearsInTime(ONE_SHOT, steps) && AllStopsInTime(ONE_SHOT, steps)
              && Finished(ONE_SHOT.max, s.line)
    ensures LoopExit(ONE_SHOT.P, [0], 1, [7])
  {
    var k := Committed();
    var s := Of(k);
    var steps :| After(ONE_SHOT, steps) == Some(s) && LateClears(ONE_SHOT, steps) == 0 && LateStops(ONE_SHOT, steps) == 0;
    NoneLateIsInTime(ONE_SHOT, steps);
    LoopEndsWhereSerialBreaks(ONE_SHOT, steps, s);
  }
}
