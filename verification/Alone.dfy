/**
 One worker on its own: it runs the iterations one after another, nothing is ever
 rolled back, and it is done when the sequential loop is, whatever its executions
 would do on other memories.
 */
module Alone {
  import opened Serial
  import opened Timeline
  import opened Speculation
  import opened Coherence
  import opened Equivalence
  import opened Progress
  import opened Workers

  // Where a lone worker can stand. No epoch is ever taken back, and at most one has
  // not been handed out for commit.
  ghost predicate Solo(s: State, w: Worker) {
    && |s.runs| == |s.line.marks| == s.line.next && s.line.nextCommit <= s.line.next <= s.line.nextCommit + 1
    && (StopSet(s.line) ==> s.line.stop == s.line.next)
    && (forall e :: 0 <= e < |s.runs| ==> !s.runs[e].cleaning)
    && match w
       case Cleans(_) => false
       case Executes(e, _) => e == s.line.nextCommit < s.line.next
       case Stopped(e) => e == s.line.nextCommit < s.line.next
       case Seeks => true
       case _ => s.line.nextCommit == s.line.next
  }

  // There is nobody to read too early.
  lemma SoloStore(c: Config, s: State, w: Worker, w': Worker, t: Step)
    requires Solo(s, w) && Fits(c.P, s, w) && Goes(c, s, w, w', t) && t.StoreStep?
    ensures Solo(Apply(c.max, s, t), w')
    ensures Apply(c.max, s, t) == s.(runs := s.runs[t.e := Stored(s, t.e, t.a, t.v)])
  {
    StoreShape(c.max, s, t.e, t.a, t.v);
  }

  lemma SoloCommitted(c: Config, s: State, w: Worker, w': Worker, t: Step)
    requires Ring(c.max, s.line) && StopBound(c.max, s.line) && Solo(s, w) && Fits(c.P, s, w) && Goes(c, s, w, w', t)
    requires t.CommittedStep?
    ensures Solo(Apply(c.max, s, t), w')
  {
    CommitDoneEffect(c.max, s.line, t.e);
  }

  lemma SoloIssue(c: Config, s: State, w: Worker, w': Worker, t: Step)
    requires Ring(c.max, s.line) && Solo(s, w) && Fits(c.P, s, w) && Goes(c, s, w, w', t) && t.IssueStep?
    ensures Solo(Apply(c.max, s, t), w') && w.Idle? && w'.Executes?
  {
    IssueKeepsRing(c.max, s.line);
  }

  lemma SoloStep(c: Config, s: State, w: Worker, w': Worker, t: Step)
    requires Ring(c.max, s.line) && StopBound(c.max, s.line) && Solo(s, w) && Fits(c.P, s, w) && Goes(c, s, w, w', t)
    ensures Solo(Apply(c.max, s, t), w') && ClearsInTime(s, t) && StopsInTime(s, t)
  {
    if t.CommittedStep? {
      SoloCommitted(c, s, w, w', t);
    } else if t.StoreStep? {
      SoloStore(c, s, w, w', t);
    } else if t.IssueStep? {
      SoloIssue(c, s, w, w', t);
    }
  }

  // ---------------------------------------------------------------- iterations end

  ghost predicate Halts(p: Iteration, m: Memory) {
    exists l: nat :: Returned(p(SerialSteps(p, m, l).log))
  }

  // How many loads and stores the iteration makes when it runs alone on m.
  ghost function Length(p: Iteration, m: Memory): (l: nat)
    requires Halts(p, m)
    ensures Returned(p(SerialSteps(p, m, l).log))
  {
    var l: nat :| Returned(p(SerialSteps(p, m, l).log));
    l
  }

  lemma {:induction false} SerialLogWithin(p: Iteration, m: Memory, l: nat)
    ensures |SerialSteps(p, m, l).log| <= l
  {
    if l > 0 {
      SerialLogWithin(p, m, l - 1);
    }
  }

  // A log that is what the iteration does alone is no longer than that, and shorter
  // while there is something left to do.
  lemma LogWithinLength(p: Iteration, log: seq<Event>, m: Memory)
    requires Follows(p, log) && Consistent(log, m) && Halts(p, m)
    ensures |log| <= Length(p, m)
    ensures !Returned(p(log)) ==> |log| < Length(p, m)
  {
    var l := Length(p, m);
    ConsistentIsSerial(p, log, m);
    SerialLogWithin(p, m, l);
    if l <= |log| {
      EndStays(p, m, l, |log|);
    }
  }

  // The iterations a loop goes through before it breaks all end.
  lemma HaltsBeforeTheExit(P: Program, m0: Memory, n: nat, m: Memory, e: nat, k: Memory)
    requires LoopExit(P, m0, n, m) && RunsThrough(P, m0, e, k)
    ensures e < n && Halts(P(e), k)
  {
    NothingRunsPastABreak(P, m0, n, m, e, k);
    var j: Memory :| RunsThrough(P, m0, n - 1, j) && IterationEnds(P, n - 1, j, m, Break);
    if e == n - 1 {
      RunsThroughOnce(P, m0, e, k, j);
    } else {
      var r := RunsThroughFewer(P, m0, n - 1, j, e);
      var i: Memory :| RunsThrough(P, m0, e, i) && IterationEnds(P, e, i, r, Continue);
      RunsThroughOnce(P, m0, e, k, i);
    }
  }

  // ---------------------------------------------------------------- what is left to do

  function Phase(s: State, w: Worker): nat {
    match w
    case Cleans(_) => 8
    case Commits(_) => 7
    case Seeks => if s.line.nextCommit < s.line.next then 2 else 6
    case Idle => 5
    case Executes(_, _) => 4
    case Stopped(_) => 3
    case Gone => 0
  }

  ghost function Ahead(c: Config, s: State, w: Worker): nat {
    match w
    case Executes(e, log) =>
      if e <= |s.runs| && Halts(c.P(e), Overlay(s.runs, c.mem0, e)) && |log| < Length(c.P(e), Overlay(s.runs, c.mem0, e))
      then Length(c.P(e), Overlay(s.runs, c.mem0, e)) - |log| else 0
    case Commits(e) => if e < |s.runs| then Touches(s.runs[e]) else 0
    case _ => 0
  }

  // The worker gets nearer to the end: towards the n-th commit, the next phase of its
  // loop, or the end of the phase.
  ghost predicate Nearer(c: Config, n: nat, s: State, w: Worker, s': State, w': Worker) {
    && s.line.nextCommit <= s'.line.nextCommit <= n
    && (s'.line.nextCommit == s.line.nextCommit ==>
          Phase(s', w') < Phase(s, w) || (Phase(s', w') == Phase(s, w) && Ahead(c, s', w') < Ahead(c, s, w)))
  }

  // The epoch a lone worker executes comes right after those that the sequential loop
  // has been through.
  lemma BelowIsSerial(c: Config, s: State, e: nat)
    requires Inv(c.max, s, c.mem0) && FollowsProgram(c.P, s) && e == s.line.nextCommit < s.line.next
    requires StopSet(s.line) ==> s.line.stop == s.line.next
    ensures RunsThrough(c.P, c.mem0, e, Overlay(s.runs, c.mem0, e))
  {
    AllClaimedRan(c, s);
    if e > 0 {
      UnbrokenIsSerial(c, s, e);
    }
  }

  lemma UnbrokenIsSerial(c: Config, s: State, e: nat)
    requires AllRan(c, s) && 0 < e <= s.line.nextCommit && !s.runs[e - 1].broke
    ensures RunsThrough(c.P, c.mem0, e, Overlay(s.runs, c.mem0, e))
  {
    IterationsChain(c, s, e - 1);
    assert RanToItsEnd(c, s, e - 1);
    OneMoreIteration(c.P, c.mem0, e - 1, Overlay(s.runs, c.mem0, e - 1), Overlay(s.runs, c.mem0, e),
                     c.P(e - 1)(s.runs[e - 1].log));
  }

  // What an execution still has to do is the rest of the serial execution.
  lemma AheadIsTheRest(c: Config, s: State, n: nat, m: Memory, e: nat)
    requires Inv(c.max, s, c.mem0) && FollowsProgram(c.P, s) && LoopExit(c.P, c.mem0, n, m)
    requires e == s.line.nextCommit < s.line.next && (StopSet(s.line) ==> s.line.stop == s.line.next)
    ensures var p, k := c.P(e), Overlay(s.runs, c.mem0, e);
            && Halts(p, k) && |s.runs[e].log| <= Length(p, k)
            && (!Returned(p(s.runs[e].log)) ==> |s.runs[e].log| < Length(p, k))
  {
    BelowIsSerial(c, s, e);
    HaltsBeforeTheExit(c.P, c.mem0, n, m, e, Overlay(s.runs, c.mem0, e));
    LogWithinLength(c.P(e), s.runs[e].log, Overlay(s.runs, c.mem0, e));
  }

  lemma SoloAccessIsNearer(c: Config, s: State, n: nat, w: Worker, w': Worker, t: Step)
    requires Solo(s, w) && Fits(c.P, s, w) && Goes(c, s, w, w', t) && (t.LoadStep? || t.StoreStep?) && s.line.nextCommit <= n
    requires var p, k := c.P(t.e), Overlay(s.runs, c.mem0, t.e); Halts(p, k) && |s.runs[t.e].log| < Length(p, k)
    ensures Nearer(c, n, s, w, Apply(c.max, s, t), w')
  {
    var e, s' := t.e, Apply(c.max, s, t);
    if t.StoreStep? {
      SoloStore(c, s, w, w', t);
    }
    OverlayFrame(s.runs, s'.runs, c.mem0, e);
  }

  lemma WritesBackInACommit(c: Config, s: State, w: Worker, w': Worker, t: Step)
    requires Goes(c, s, w, w', t) && t.WriteBackStep?
    ensures w == w' == Commits(t.e)
  {
  }

  lemma WriteBackIsNearer(c: Config, s: State, n: nat, t: Step)
    requires Enabled(c.max, s, t) && t.WriteBackStep? && s.line.nextCommit <= n
    ensures Nearer(c, n, s, Commits(t.e), Apply(c.max, s, t), Commits(t.e))
  {
    ClearTouches(s.runs[t.e], t.a);
  }

  lemma SoloCommittedIsNearer(c: Config, s: State, n: nat, w: Worker, w': Worker, t: Step)
    requires Ring(c.max, s.line) && StopBound(c.max, s.line) && Solo(s, w) && Fits(c.P, s, w) && Goes(c, s, w, w', t)
    requires t.CommittedStep? && s.line.nextCommit <= n
    ensures Nearer(c, n, s, w, Apply(c.max, s, t), w')
  {
    CommitDoneEffect(c.max, s.line, t.e);
  }

  lemma SoloStepIsNearer(c: Config, s: State, n: nat, w: Worker, w': Worker, t: Step)
    requires Ring(c.max, s.line) && StopBound(c.max, s.line) && Solo(s, w) && Fits(c.P, s, w) && Goes(c, s, w, w', t)
    requires !t.LoadStep? && !t.StoreStep? && !t.WriteBackStep? && !t.CommittedStep?
    requires Apply(c.max, s, t).line.nextCommit <= n
    ensures Nearer(c, n, s, w, Apply(c.max, s, t), w')
  {
    if t.IssueStep? {
      SoloIssue(c, s, w, w', t);
    }
  }

  // ---------------------------------------------------------------- a turn

  // A turn is a step of the machine, or none.
  lemma TurnIsStep(c: Config, steps: seq<Step>, ws: seq<Worker>, i: nat, steps': seq<Step>, ws': seq<Worker>)
    returns (t: Option<Step>)
    requires Stands(c, steps, ws) && i < |ws| && Turn(c, i, steps, ws, steps', ws')
    ensures t.None? ==> steps' == steps && Moves(c, After(c, steps).value, ws[i], ws'[i], [])
    ensures t.Some? ==> steps' == steps + [t.value] && Goes(c, After(c, steps).value, ws[i], ws'[i], t.value)
    ensures t.Some? ==> After(c, steps') == Some(Apply(c.max, After(c, steps).value, t.value))
  {
    var added := steps'[|steps|..];
    assert steps' == steps + added;
    if added == [] {
      t := None;
    } else {
      t := Some(added[0]);
      TurnAddsAtMostOne(c, After(c, steps).value, ws[i], ws'[i], added);
      assert added == [added[0]];
      assert steps'[..|steps'| - 1] == steps;
    }
  }

  lemma TurnAddsAtMostOne(c: Config, s: State, w: Worker, w': Worker, added: seq<Step>)
    requires Moves(c, s, w, w', added) && |added| > 0
    ensures |added| == 1 && forall e :: Holds(w', e) ==> e == added[0].e
  {
  }

  lemma SoloRestIsNearer(c: Config, steps: seq<Step>, s: State, w: Worker, w': Worker, n: nat)
    requires Stands(c, steps, [w]) && After(c, steps) == Some(s) && c.max > 0 && !w.Gone?
    requires Solo(s, w) && Moves(c, s, w, w', []) && s.line.nextCommit <= n
    ensures Solo(s, w') && Nearer(c, n, s, w, s, w')
  {
    ReachableBase(c, steps);
    if w.Seeks? && s.line.nextCommit < s.line.next {
      NothingInHand(s, w, s.line.nextCommit);
    }
    if w.Idle? {
      NobodyIsStuck(c, steps, [w]);
    }
  }

  lemma NothingInHand(s: State, w: Worker, e: nat)
    requires Staffed(s, [w]) && !Holds(w, e) && e < |s.runs|
    ensures !InHand(s, e)
  {
    assert !SomeoneHolds([w], e);
  }

  // With every turn a lone worker gets nearer to the end, and it never comes too late.
  lemma SoloTurn(c: Config, steps: seq<Step>, w: Worker, steps': seq<Step>, w': Worker, n: nat, m: Memory)
    requires Stands(c, steps, [w]) && Turn(c, 0, steps, [w], steps', [w']) && !w.Gone? && c.max > 0
    requires AllClearsInTime(c, steps) && AllStopsInTime(c, steps) && LoopExit(c.P, c.mem0, n, m)
    requires Solo(After(c, steps).value, w)
    ensures Stands(c, steps', [w']) && AllClearsInTime(c, steps') && AllStopsInTime(c, steps')
    ensures Solo(After(c, steps').value, w') && Nearer(c, n, After(c, steps).value, w, After(c, steps').value, w')
  {
    var s := After(c, steps).value;
    NothingClaimedPastTheExit(c, steps, s, n, m);
    var t := TurnIsStep(c, steps, [w], 0, steps', [w']);
    match t {
      case None => SoloRestIsNearer(c, steps, s, w, w', n);
      case Some(t) =>
        ReachableBase(c, steps);
        SoloStep(c, s, w, w', t);
        OneMoreStep(c, steps, s, t);
        NothingClaimedPastTheExit(c, steps', Apply(c.max, s, t), n, m);
        ReachableInv(c, steps);
        ReachableFollows(c, steps);
        SoloStepGetsNearer(c, s, w, w', n, m, t);
    }
  }

  lemma AccessedByExecuting(c: Config, s: State, w: Worker, w': Worker, t: Step)
    requires Solo(s, w) && Goes(c, s, w, w', t) && (t.LoadStep? || t.StoreStep?) && t.e < |s.runs|
    requires Fits(c.P, s, w)
    ensures w.Executes? && t.e == w.epoch == s.line.nextCommit < s.line.next && !Returned(c.P(t.e)(s.runs[t.e].log))
    ensures StopSet(s.line) ==> s.line.stop == s.line.next
  {
  }

  lemma SoloStepGetsNearer(c: Config, s: State, w: Worker, w': Worker, n: nat, m: Memory, t: Step)
    requires Ring(c.max, s.line) && StopBound(c.max, s.line) && LoopExit(c.P, c.mem0, n, m)
    requires w.Executes? ==> Inv(c.max, s, c.mem0) && FollowsProgram(c.P, s)
    requires Solo(s, w) && Fits(c.P, s, w) && Goes(c, s, w, w', t)
    requires s.line.nextCommit <= n && Apply(c.max, s, t).line.nextCommit <= n
    ensures Nearer(c, n, s, w, Apply(c.max, s, t), w')
  {
    if t.LoadStep? || t.StoreStep? {
      AccessedByExecuting(c, s, w, w', t);
      AheadIsTheRest(c, s, n, m, t.e);
      SoloAccessIsNearer(c, s, n, w, w', t);
    } else if t.WriteBackStep? {
      WritesBackInACommit(c, s, w, w', t);
      WriteBackIsNearer(c, s, n, t);
    } else if t.CommittedStep? {
      SoloCommittedIsNearer(c, s, n, w, w', t);
    } else {
      SoloStepIsNearer(c, s, n, w, w', t);
    }
  }
}
