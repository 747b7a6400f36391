/**
 Where the workers of yarn.c stand, what each does next, and that with every worker
 getting its turn they get to the end of the loop.
 */
module Workers {
  import opened Serial
  import opened Timeline
  import opened Speculation
  import opened Coherence
  import opened Equivalence
  import opened Progress

  // ---------------------------------------------------------------- workers

  // Where a worker stands in pool_worker_simple: about to take an epoch, clearing
  // what its last execution left, in the executor, past yarn_epoch_stop, looking for
  // an epoch to commit, in the middle of a commit, or gone.
  datatype Worker =
    | Idle
    | Cleans(epoch: nat)
    | Executes(epoch: nat, log: seq<Event>)
    | Stopped(epoch: nat)
    | Seeks
    | Commits(epoch: nat)
    | Gone

  predicate Holds(w: Worker, e: nat) {
    (w.Cleans? || w.Executes? || w.Stopped? || w.Commits?) && w.epoch == e
  }

  ghost predicate Fits(P: Program, s: State, w: Worker) {
    match w
    case Cleans(e) => BeingCleaned(s, e) && s.runs[e].log == [] && !s.runs[e].broke
    case Executes(e, log) => Running(s, e) && s.runs[e].log == log && !s.runs[e].broke
    case Stopped(e) => Running(s, e) && s.runs[e].broke && P(e)(s.runs[e].log) == Break
    case Commits(e) => Claimed(s, e)
    case _ => true
  }

  // The workers hold different epochs, in the states they take them to be in.
  ghost predicate AllFit(P: Program, s: State, ws: seq<Worker>) {
    && (forall i :: 0 <= i < |ws| ==> Fits(P, s, ws[i]))
    && (forall i, j, e :: 0 <= i < j < |ws| && Holds(ws[i], e) ==> !Holds(ws[j], e))
  }

  lemma StoreKeepsFitting(max: nat, P: Program, s: State, t: Step, w: Worker)
    requires |s.runs| == |s.line.marks| && Ring(max, s.line) && Enabled(max, s, t) && t.StoreStep?
    requires Fits(P, s, w) && !Holds(w, t.e)
    ensures Fits(P, Apply(max, s, t), w)
  {
  }

  lemma CommitKeepsFitting(max: nat, P: Program, s: State, t: Step, w: Worker)
    requires |s.runs| == |s.line.marks| && Ring(max, s.line) && StopBound(max, s.line)
    requires Enabled(max, s, t) && t.CommittedStep?
    requires Fits(P, s, w) && !Holds(w, t.e)
    ensures Fits(P, Apply(max, s, t), w)
  {
    CommitDoneEffect(max, s.line, t.e);
    AdvanceFirstEffect(s.line.(marks := s.line.marks[t.e := s.line.marks[t.e].(status := Commit)]));
    assert w.Commits? ==> At(Apply(max, s, t).line, w.epoch).status == Done;
  }

  lemma OwnStepKeepsFitting(max: nat, P: Program, s: State, t: Step, w: Worker)
    requires |s.runs| == |s.line.marks| && s.line.next <= |s.runs| && Enabled(max, s, t)
    requires !t.StoreStep? && !t.CommittedStep? && Fits(P, s, w) && !Holds(w, t.e)
    ensures Fits(P, Apply(max, s, t), w)
  {
  }

  lemma OthersKeepFitting(max: nat, P: Program, s: State, t: Step, w: Worker)
    requires |s.runs| == |s.line.marks| && Ring(max, s.line) && StopBound(max, s.line) && Enabled(max, s, t)
    requires Fits(P, s, w) && !Holds(w, t.e)
    ensures Fits(P, Apply(max, s, t), w)
  {
    if t.StoreStep? {
      StoreKeepsFitting(max, P, s, t, w);
    } else if t.CommittedStep? {
      CommitKeepsFitting(max, P, s, t, w);
    } else {
      OwnStepKeepsFitting(max, P, s, t, w);
    }
  }

  // An epoch that can be issued or claimed is held by nobody.
  lemma FreshIsNotHeld(max: nat, P: Program, s: State, t: Step, ws: seq<Worker>)
    requires |s.runs| == |s.line.marks| && Ring(max, s.line) && Enabled(max, s, t)
    requires AllFit(P, s, ws) && (t.IssueStep? || t.ClaimStep?)
    ensures forall i :: 0 <= i < |ws| ==> !Holds(ws[i], t.e)
  {
  }

  lemma StepFits(max: nat, P: Program, s: State, t: Step, ws: seq<Worker>, i: nat, w: Worker)
    requires |s.runs| == |s.line.marks| && Ring(max, s.line) && StopBound(max, s.line) && Enabled(max, s, t)
    requires AllFit(P, s, ws) && i < |ws|
    requires forall j :: 0 <= j < |ws| && j != i ==> !Holds(ws[j], t.e)
    requires Fits(P, Apply(max, s, t), w) && forall e :: Holds(w, e) ==> e == t.e
    ensures AllFit(P, Apply(max, s, t), ws[i := w])
  {
    var ws' := ws[i := w];
    forall j | 0 <= j < |ws| ensures Fits(P, Apply(max, s, t), ws'[j]) {
      if j != i {
        OthersKeepFitting(max, P, s, t, ws[j]);
      }
    }
  }

  // ---------------------------------------------------------------- what the loop does next

  // What pool_worker_simple does next: from w in state s the worker gets to w', by
  // the given step, or by none.
  ghost predicate Moves(c: Config, s: State, w: Worker, w': Worker, added: seq<Step>) {
    match w
    case Idle =>
      if CanIssue(c.max, s.line) then w' == HandedOut(s) && added == [IssueStep(s.line.next)]
      else added == [] && w' == if Finished(c.max, s.line) then Gone else Idle
    case Cleans(e) =>
      e < |s.runs| &&
      if s.runs[e].loaded == {} && s.runs[e].stored == map[] then w' == Executes(e, []) && added == [UnmaskStep(e)]
      else w' == w && |added| == 1 && added[0].ScrubStep? && added[0].e == e
    case Executes(e, log) =>
      e < |s.runs| &&
      (match c.P(e)(log)
       case Load(a) =>
         && a < |s.mem| == |s.lastCommit|
         && w' == Executes(e, log + [Read(a, LoadValue(s, e, a))]) && added == [LoadStep(e, a)]
       case Store(a, v) => w' == Executes(e, log + [Write(a, v)]) && added == [StoreStep(e, a, v)]
       case Break => w' == Stopped(e) && added == [StopStep(e)]
       case Continue => w' == Seeks && added == [DoneStep(e)])
    case Stopped(e) => w' == Seeks && added == [DoneStep(e)]
    case Seeks =>
      if CanClaim(s.line) then w' == Commits(s.line.nextCommit) && added == [ClaimStep(s.line.nextCommit)]
      else w' == Idle && added == []
    case Commits(e) =>
      e < |s.runs| &&
      if s.runs[e].loaded == {} && s.runs[e].stored == map[] then w' == Seeks && added == [CommittedStep(e)]
      else w' == w && |added| == 1 && added[0].WriteBackStep? && added[0].e == e
    case Gone => w' == Gone && added == []
  }

  // An epoch that was rolled back is cleaned up before it is executed.
  function HandedOut(s: State): Worker {
    if At(s.line, s.line.next).status == Rollback then Cleans(s.line.next) else Executes(s.line.next, [])
  }

  // The step is the one the worker's place asks for, and takes it to w'.
  ghost predicate Goes(c: Config, s: State, w: Worker, w': Worker, t: Step) {
    && CanStep(c, s, t) && Moves(c, s, w, w', [t])
    && Fits(c.P, Apply(c.max, s, t), w') && (forall e :: Holds(w', e) ==> e == t.e)
  }

  lemma IssueGoes(c: Config, s: State)
    requires |s.runs| == |s.line.marks| && Ring(c.max, s.line) && Enabled(c.max, s, IssueStep(s.line.next))
    ensures Goes(c, s, Idle, HandedOut(s), IssueStep(s.line.next))
  {
  }

  lemma CleanGoes(c: Config, s: State, e: nat, t: Step)
    requires |s.runs| == |s.line.marks| && Enabled(c.max, s, t) && t.e == e && Fits(c.P, s, Cleans(e))
    ensures t.ScrubStep? ==> Goes(c, s, Cleans(e), Cleans(e), t)
    ensures t.UnmaskStep? ==> Goes(c, s, Cleans(e), Executes(e, []), t)
  {
  }

  lemma LoadGoes(c: Config, s: State, e: nat, log: seq<Event>, a: Addr)
    requires Fits(c.P, s, Executes(e, log)) && c.P(e)(log) == Load(a) && Enabled(c.max, s, LoadStep(e, a))
    ensures Goes(c, s, Executes(e, log), Executes(e, log + [Read(a, LoadValue(s, e, a))]), LoadStep(e, a))
  {
  }

  lemma StoreGoes(c: Config, s: State, e: nat, log: seq<Event>, a: Addr, v: Value)
    requires Ring(c.max, s.line) && Fits(c.P, s, Executes(e, log)) && c.P(e)(log) == Store(a, v)
    requires Enabled(c.max, s, StoreStep(e, a, v))
    ensures Goes(c, s, Executes(e, log), Executes(e, log + [Write(a, v)]), StoreStep(e, a, v))
  {
    StoreEffect(c.max, s, StoreStep(e, a, v));
  }

  lemma BreakGoes(c: Config, s: State, e: nat, log: seq<Event>)
    requires Fits(c.P, s, Executes(e, log)) && c.P(e)(log) == Break && Enabled(c.max, s, StopStep(e))
    ensures Goes(c, s, Executes(e, log), Stopped(e), StopStep(e))
  {
  }

  lemma DoneGoes(c: Config, s: State, w: Worker)
    requires Fits(c.P, s, w) && (w.Stopped? || (w.Executes? && c.P(w.epoch)(w.log) == Continue))
    requires Enabled(c.max, s, DoneStep(w.epoch))
    ensures Goes(c, s, w, Seeks, DoneStep(w.epoch))
  {
  }

  lemma ClaimGoes(c: Config, s: State)
    requires |s.runs| == |s.line.marks| && Ring(c.max, s.line) && Enabled(c.max, s, ClaimStep(s.line.nextCommit))
    ensures Goes(c, s, Seeks, Commits(s.line.nextCommit), ClaimStep(s.line.nextCommit))
  {
  }

  lemma CommitGoes(c: Config, s: State, e: nat, t: Step)
    requires |s.runs| == |s.line.marks| && Enabled(c.max, s, t) && t.e == e && Fits(c.P, s, Commits(e))
    ensures t.WriteBackStep? ==> Goes(c, s, Commits(e), Commits(e), t)
    ensures t.CommittedStep? ==> Goes(c, s, Commits(e), Seeks, t)
  {
  }

  // ---------------------------------------------------------------- nothing is left lying about

  ghost predicate SomeoneHolds(ws: seq<Worker>, e: nat) {
    exists i :: 0 <= i < |ws| && Holds(ws[i], e)
  }

  ghost predicate SomeoneCommits(ws: seq<Worker>) {
    exists i :: 0 <= i < |ws| && (ws[i].Seeks? || ws[i].Commits?)
  }

  // All epochs below the stop bound are committed; this stays so.
  predicate LoopIsOver(l: Line) {
    StopSet(l) && l.stop == l.first == l.nextCommit <= l.next
  }

  predicate InHand(s: State, e: nat) {
    IsOpen(StatusOf(s, e)) || Claimed(s, e)
  }

  // An epoch that was handed out, for execution or for commit, is in some worker's
  // hands; one that is ready to be claimed has a worker coming for it; and a worker
  // leaves only when the loop is over.
  ghost predicate Staffed(s: State, ws: seq<Worker>) {
    && (forall e :: 0 <= e < |s.runs| && InHand(s, e) ==> SomeoneHolds(ws, e))
    && (CanClaim(s.line) ==> SomeoneCommits(ws))
    && ((exists i :: 0 <= i < |ws| && ws[i].Gone?) ==> LoopIsOver(s.line))
  }

  lemma KeepsHold(c: Config, s: State, w: Worker, w': Worker, t: Step, e: nat)
    requires Goes(c, s, w, w', t)
    ensures Holds(w, e) ==> Holds(w', e) || t == DoneStep(e) || t == CommittedStep(e)
    ensures t == IssueStep(e) || t == ClaimStep(e) ==> Holds(w', e)
    ensures w.Seeks? || w.Commits? || t.DoneStep? ==> w'.Seeks? || w'.Commits?
    ensures t.ClaimStep? || t.CommittedStep? ==> w'.Seeks? || w'.Commits?
    ensures !w'.Gone? && !w.Gone?
  {
  }

  lemma InHandBefore(max: nat, s: State, t: Step, e: nat)
    requires |s.runs| == |s.line.marks| && Ring(max, s.line) && StopBound(max, s.line) && Enabled(max, s, t)
    requires InHand(Apply(max, s, t), e) && e < |Apply(max, s, t).runs|
    ensures || t == IssueStep(e) || t == ClaimStep(e)
            || (e < |s.runs| && InHand(s, e) && t != DoneStep(e) && t != CommittedStep(e))
  {
    StepOpens(max, s, t, e);
    StepEffect(max, s, t);
    if t.CommittedStep? {
      CommitDoneEffect(max, s.line, t.e);
    }
  }

  lemma ReadyBefore(max: nat, s: State, t: Step)
    requires |s.runs| == |s.line.marks| && Ring(max, s.line) && StopBound(max, s.line) && Enabled(max, s, t)
    requires CanClaim(Apply(max, s, t).line) && !t.DoneStep? && !t.ClaimStep? && !t.CommittedStep?
    ensures CanClaim(s.line)
  {
  }

  lemma OverStaysOver(max: nat, s: State, t: Step)
    requires |s.runs| == |s.line.marks| && Ring(max, s.line) && StopBound(max, s.line) && Enabled(max, s, t)
    requires LoopIsOver(s.line)
    ensures LoopIsOver(Apply(max, s, t).line)
  {
  }

  lemma HandsStayFull(c: Config, s: State, ws: seq<Worker>, i: nat, w: Worker, t: Step)
    requires |s.runs| == |s.line.marks| && Ring(c.max, s.line) && StopBound(c.max, s.line)
    requires Staffed(s, ws) && i < |ws| && Goes(c, s, ws[i], w, t)
    ensures var s' := Apply(c.max, s, t); forall e :: 0 <= e < |s'.runs| && InHand(s', e) ==> SomeoneHolds(ws[i := w], e)
  {
    var s' := Apply(c.max, s, t);
    forall e | 0 <= e < |s'.runs| && InHand(s', e) ensures SomeoneHolds(ws[i := w], e) {
      InHandBefore(c.max, s, t, e);
      KeepsHold(c, s, ws[i], w, t, e);
      if t == IssueStep(e) || t == ClaimStep(e) {
        assert Holds(ws[i := w][i], e);
      } else {
        var j :| 0 <= j < |ws| && Holds(ws[j], e);
        assert Holds(ws[i := w][j], e);
      }
    }
  }

  lemma StepStaysStaffed(c: Config, s: State, ws: seq<Worker>, i: nat, w: Worker, t: Step)
    requires |s.runs| == |s.line.marks| && Ring(c.max, s.line) && StopBound(c.max, s.line)
    requires Staffed(s, ws) && i < |ws| && Goes(c, s, ws[i], w, t)
    ensures Staffed(Apply(c.max, s, t), ws[i := w])
  {
    var ws' := ws[i := w];
    HandsStayFull(c, s, ws, i, w, t);
    KeepsHold(c, s, ws[i], w, t, t.e);
    if CanClaim(Apply(c.max, s, t).line) {
      if t.DoneStep? || t.ClaimStep? || t.CommittedStep? {
        assert ws'[i].Seeks? || ws'[i].Commits?;
      } else {
        ReadyBefore(c.max, s, t);
        var j :| 0 <= j < |ws| && (ws[j].Seeks? || ws[j].Commits?);
        assert ws'[j].Seeks? || ws'[j].Commits?;
      }
    }
    if j :| 0 <= j < |ws'| && ws'[j].Gone? {
      assert ws[j].Gone?;
      OverStaysOver(c.max, s, t);
    }
  }

  // A worker that is handed nothing waits, goes back to the head of the loop, or
  // leaves.
  lemma RestStaysStaffed(c: Config, s: State, ws: seq<Worker>, i: nat, w: Worker)
    requires |s.runs| == |s.line.marks| && Ring(c.max, s.line) && StopBound(c.max, s.line)
    requires Staffed(s, ws) && AllFit(c.P, s, ws) && i < |ws| && Moves(c, s, ws[i], w, [])
    ensures Staffed(s, ws[i := w]) && AllFit(c.P, s, ws[i := w])
    ensures (ws[i].Idle? || ws[i].Seeks? || ws[i].Gone?) && (w.Idle? || w.Gone?)
  {
    var ws' := ws[i := w];
    forall e | 0 <= e < |s.runs| && InHand(s, e) ensures SomeoneHolds(ws', e) {
      var j :| 0 <= j < |ws| && Holds(ws[j], e);
      assert Holds(ws'[j], e);
    }
    if CanClaim(s.line) {
      var j :| 0 <= j < |ws| && (ws[j].Seeks? || ws[j].Commits?);
      assert ws'[j].Seeks? || ws'[j].Commits?;
    }
    assert forall j :: 0 <= j < |ws'| && ws'[j].Gone? ==> ws[j].Gone? || Finished(c.max, s.line);
  }

  // ---------------------------------------------------------------- runs

  // All that was handed out for commit has been written back.
  ghost predicate NothingBuffered(s: State) {
    forall e :: s.line.first <= e < s.line.nextCommit && e < |s.runs| ==> s.runs[e].stored == map[]
  }

  // What the workers have done so far is a run of the step machine, and each is where
  // that run has taken it.
  ghost predicate Explains(c: Config, steps: seq<Step>, s: State, ws: seq<Worker>) {
    After(c, steps) == Some(s) && AllFit(c.P, s, ws) && Staffed(s, ws)
  }

  ghost predicate Stands(c: Config, steps: seq<Step>, ws: seq<Worker>) {
    After(c, steps).Some? && Explains(c, steps, After(c, steps).value, ws)
  }

  // One operation of worker i, and a whole schedule of them.
  ghost predicate Turn(c: Config, i: nat, steps: seq<Step>, ws: seq<Worker>, steps': seq<Step>, ws': seq<Worker>) {
    if i < |ws| then
      && After(c, steps).Some? && steps <= steps' && |ws'| == |ws| && ws' == ws[i := ws'[i]]
      && Stands(c, steps', ws')
      && Moves(c, After(c, steps).value, ws[i], ws'[i], steps'[|steps|..])
    else steps' == steps && ws' == ws
  }

  ghost predicate Turns(c: Config, schedule: seq<nat>, steps: seq<Step>, ws: seq<Worker>,
                        steps': seq<Step>, ws': seq<Worker>)
  {
    if |schedule| == 0 then steps' == steps && ws' == ws
    else
      var front, i := schedule[..|schedule| - 1], schedule[|schedule| - 1];
      exists steps1, ws1 :: Turns(c, front, steps, ws, steps1, ws1) && Turn(c, i, steps1, ws1, steps', ws')
  }

  lemma AddTurn(c: Config, front: seq<nat>, i: nat, schedule: seq<nat>, steps: seq<Step>, ws: seq<Worker>,
                steps1: seq<Step>, ws1: seq<Worker>, steps': seq<Step>, ws': seq<Worker>)
    requires Turns(c, front, steps, ws, steps1, ws1) && Turn(c, i, steps1, ws1, steps', ws')
    requires schedule == front + [i]
    ensures Turns(c, schedule, steps, ws, steps', ws')
  {
    assert schedule[..|schedule| - 1] == front;
  }

  lemma TakeOneMore(schedule: seq<nat>, k: nat)
    requires k < |schedule|
    ensures schedule[..k + 1] == schedule[..k] + [schedule[k]]
  {
  }

  lemma NextTurn(c: Config, schedule: seq<nat>, k: nat, steps: seq<Step>, ws: seq<Worker>,
                 steps1: seq<Step>, ws1: seq<Worker>, steps': seq<Step>, ws': seq<Worker>)
    requires k < |schedule| && Turns(c, schedule[..k], steps, ws, steps1, ws1)
    requires Turn(c, schedule[k], steps1, ws1, steps', ws')
    ensures Turns(c, schedule[..k + 1], steps, ws, steps', ws')
  {
    TakeOneMore(schedule, k);
    AddTurn(c, schedule[..k], schedule[k], schedule[..k + 1], steps, ws, steps1, ws1, steps', ws');
  }

  // Nobody else holds the epoch of a worker's step.
  lemma StepIsItsOwn(c: Config, s: State, ws: seq<Worker>, i: nat, w: Worker, t: Step)
    requires |s.runs| == |s.line.marks| && Ring(c.max, s.line)
    requires AllFit(c.P, s, ws) && i < |ws| && Goes(c, s, ws[i], w, t)
    ensures forall j :: 0 <= j < |ws| && j != i ==> !Holds(ws[j], t.e)
  {
    if t.IssueStep? || t.ClaimStep? {
      FreshIsNotHeld(c.max, c.P, s, t, ws);
    } else {
      assert Holds(ws[i], t.e);
    }
  }

  lemma StartExplains(c: Config, ws: seq<Worker>)
    requires forall i :: 0 <= i < |ws| ==> ws[i].Idle?
    ensures Explains(c, [], Init(c.mem0), ws)
  {
  }

  lemma ExplainTurn(c: Config, steps: seq<Step>, s: State, ws: seq<Worker>, i: nat, w: Worker, t: Step)
    requires Explains(c, steps, s, ws) && i < |ws| && Goes(c, s, ws[i], w, t)
    ensures Explains(c, steps + [t], Apply(c.max, s, t), ws[i := w])
    ensures Turn(c, i, steps, ws, steps + [t], ws[i := w])
  {
    ReachableBase(c, steps);
    StepIsItsOwn(c, s, ws, i, w, t);
    StepFits(c.max, c.P, s, t, ws, i, w);
    StepStaysStaffed(c, s, ws, i, w, t);
    OneMoreStep(c, steps, s, t);
  }

  lemma RestGoes(c: Config, steps: seq<Step>, s: State, ws: seq<Worker>, i: nat, w: Worker)
    requires Explains(c, steps, s, ws) && i < |ws| && Moves(c, s, ws[i], w, [])
    ensures Explains(c, steps, s, ws[i := w]) && Turn(c, i, steps, ws, steps, ws[i := w])
  {
    ReachableBase(c, steps);
    RestStaysStaffed(c, s, ws, i, w);
    assert steps[|steps|..] == [];
  }

  // What every reachable state grants the operations of a worker.
  lemma Granted(c: Config, steps: seq<Step>, s: State, e: nat)
    requires After(c, steps) == Some(s)
    ensures |s.mem| == |c.mem0|
    ensures Running(s, e) && StatusOf(s, e) == Executing ==> !At(s.line, e).masked
  {
    ReachableBase(c, steps);
  }

  // ---------------------------------------------------------------- everyone gets a turn

  function TurnsOf(schedule: seq<nat>, i: nat): nat {
    if |schedule| == 0 then 0
    else TurnsOf(schedule[..|schedule| - 1], i) + if schedule[|schedule| - 1] == i then 1 else 0
  }

  // Each of n workers gets two turns, once, and again and again.
  ghost predicate Round(schedule: seq<nat>, n: nat) {
    forall i: nat :: i < n ==> TurnsOf(schedule, i) >= 2
  }

  ghost predicate Rounds(schedule: seq<nat>, n: nat, r: nat)
    decreases r
  {
    r > 0 ==> exists k :: 0 <= k <= |schedule| && Rounds(schedule[..k], n, r - 1) && Round(schedule[k..], n)
  }

  ghost predicate AllAreGone(ws: seq<Worker>) {
    forall i :: 0 <= i < |ws| ==> ws[i].Gone?
  }

  lemma TurnStands(c: Config, i: nat, steps: seq<Step>, ws: seq<Worker>, steps': seq<Step>, ws': seq<Worker>)
    requires Stands(c, steps, ws) && Turn(c, i, steps, ws, steps', ws')
    ensures Stands(c, steps', ws') && steps <= steps' && |ws'| == |ws|
    ensures forall j :: 0 <= j < |ws| && ws[j].Gone? ==> ws'[j].Gone?
  {
  }

  lemma LastTurn(c: Config, schedule: seq<nat>, steps: seq<Step>, ws: seq<Worker>, steps': seq<Step>, ws': seq<Worker>)
    returns (steps1: seq<Step>, ws1: seq<Worker>)
    requires |schedule| > 0 && Turns(c, schedule, steps, ws, steps', ws')
    ensures Turns(c, schedule[..|schedule| - 1], steps, ws, steps1, ws1)
    ensures Turn(c, schedule[|schedule| - 1], steps1, ws1, steps', ws')
  {
    steps1, ws1 :| Turns(c, schedule[..|schedule| - 1], steps, ws, steps1, ws1)
                   && Turn(c, schedule[|schedule| - 1], steps1, ws1, steps', ws');
  }

  lemma {:induction false} TurnsStand(c: Config, schedule: seq<nat>, steps: seq<Step>, ws: seq<Worker>,
                                      steps': seq<Step>, ws': seq<Worker>)
    requires Stands(c, steps, ws) && Turns(c, schedule, steps, ws, steps', ws')
    ensures Stands(c, steps', ws') && steps <= steps' && |ws'| == |ws|
    ensures forall i :: 0 <= i < |ws| && ws[i].Gone? ==> ws'[i].Gone?
  {
    if |schedule| > 0 {
      var steps1, ws1 := LastTurn(c, schedule, steps, ws, steps', ws');
      TurnsStand(c, schedule[..|schedule| - 1], steps, ws, steps1, ws1);
      TurnStands(c, schedule[|schedule| - 1], steps1, ws1, steps', ws');
    }
  }

  // What a worker is about whose turn has added no step.
  lemma RestingTurn(c: Config, i: nat, steps: seq<Step>, ws: seq<Worker>, ws': seq<Worker>)
    requires Stands(c, steps, ws) && i < |ws| && Turn(c, i, steps, ws, steps, ws')
    ensures ws'[i].Idle? || ws'[i].Gone?
    ensures ws[i].Idle? && ws'[i].Idle? ==>
              !CanIssue(c.max, After(c, steps).value.line) && !Finished(c.max, After(c, steps).value.line)
    ensures ws[i].Gone? ==> ws'[i].Gone?
  {
    assert steps[|steps|..] == [];
    ReachableBase(c, steps);
    RestStaysStaffed(c, After(c, steps).value, ws, i, ws'[i]);
  }

  lemma {:induction false} RestingTurns(c: Config, schedule: seq<nat>, steps: seq<Step>, ws: seq<Worker>,
                                        ws': seq<Worker>, i: nat)
    requires Stands(c, steps, ws) && i < |ws| && Turns(c, schedule, steps, ws, steps, ws')
    ensures |ws'| == |ws| && Stands(c, steps, ws')
    ensures TurnsOf(schedule, i) >= 1 ==> ws'[i].Idle? || ws'[i].Gone?
    ensures TurnsOf(schedule, i) >= 2 && ws'[i].Idle? ==>
              !CanIssue(c.max, After(c, steps).value.line) && !Finished(c.max, After(c, steps).value.line)
  {
    TurnsStand(c, schedule, steps, ws, steps, ws');
    if |schedule| > 0 {
      var front, j := schedule[..|schedule| - 1], schedule[|schedule| - 1];
      var steps1, ws1 := LastTurn(c, schedule, steps, ws, steps, ws');
      TurnsStand(c, front, steps, ws, steps1, ws1);
      assert steps1 == steps;
      RestingTurns(c, front, steps, ws, ws1, i);
      if i == j {
        RestingTurn(c, i, steps, ws1, ws');
      }
    }
  }

  lemma NobodyIsStuckIn(max: nat, s: State, mem0: Memory, ws: seq<Worker>)
    requires Base(max, s, mem0) && Unblocked(max, s) && max > 0 && Staffed(s, ws)
    requires forall i :: 0 <= i < |ws| ==> ws[i].Idle? || ws[i].Gone?
    ensures CanIssue(max, s.line) || Finished(max, s.line)
  {
    forall e | 0 <= e < |s.runs| ensures !InHand(s, e) {
      assert !SomeoneHolds(ws, e);
    }
    forall e | 0 <= e < |s.runs| ensures !IsOpen(StatusOf(s, e)) {
      assert !InHand(s, e);
    }
    forall e | s.line.first <= e < s.line.nextCommit ensures StatusOf(s, e) != Done {
      assert !InHand(s, e);
    }
    QuietIsNotStuck(max, s, mem0);
  }

  // With nobody executing or committing, and nobody on the way to commit, there is
  // something for the next worker to take, or the loop is over.
  lemma NobodyIsStuck(c: Config, steps: seq<Step>, ws: seq<Worker>)
    requires Stands(c, steps, ws) && c.max > 0
    requires forall i :: 0 <= i < |ws| ==> ws[i].Idle? || ws[i].Gone?
    ensures CanIssue(c.max, After(c, steps).value.line) || Finished(c.max, After(c, steps).value.line)
  {
    ReachableBase(c, steps);
    ReachableUnblocked(c, steps);
    NobodyIsStuckIn(c.max, After(c, steps).value, c.mem0, ws);
  }

  // If every worker gets two turns, the runtime gets on: some worker has taken a step,
  // or all of them have left.
  lemma RoundGetsOn(c: Config, schedule: seq<nat>, steps: seq<Step>, ws: seq<Worker>, steps': seq<Step>, ws': seq<Worker>)
    requires Stands(c, steps, ws) && c.max > 0
    requires Turns(c, schedule, steps, ws, steps', ws') && Round(schedule, |ws|)
    ensures |steps'| > |steps| || AllAreGone(ws')
  {
    TurnsStand(c, schedule, steps, ws, steps', ws');
    if |steps'| == |steps| {
      assert steps' == steps;
      forall i | 0 <= i < |ws|
        ensures ws'[i].Idle? || ws'[i].Gone?
        ensures ws'[i].Idle? ==>
                  !CanIssue(c.max, After(c, steps).value.line) && !Finished(c.max, After(c, steps).value.line)
      {
        RestingTurns(c, schedule, steps, ws, ws', i);
      }
      NobodyIsStuck(c, steps, ws');
    }
  }

  lemma SplitLast(schedule: seq<nat>, k: nat)
    requires k < |schedule|
    ensures var front := schedule[..|schedule| - 1];
            front[..k] == schedule[..k] && schedule[k..] == front[k..] + [schedule[|schedule| - 1]]
  {
  }

  lemma {:induction false} TurnsSplit(c: Config, schedule: seq<nat>, k: nat, steps: seq<Step>, ws: seq<Worker>,
                                      steps': seq<Step>, ws': seq<Worker>)
    returns (steps1: seq<Step>, ws1: seq<Worker>)
    requires Turns(c, schedule, steps, ws, steps', ws') && k <= |schedule|
    ensures Turns(c, schedule[..k], steps, ws, steps1, ws1) && Turns(c, schedule[k..], steps1, ws1, steps', ws')
  {
    if k == |schedule| {
      assert schedule[..k] == schedule && schedule[k..] == [];
      steps1, ws1 := steps', ws';
    } else {
      var front := schedule[..|schedule| - 1];
      var steps2, ws2 := LastTurn(c, schedule, steps, ws, steps', ws');
      steps1, ws1 := TurnsSplit(c, front, k, steps, ws, steps2, ws2);
      SplitLast(schedule, k);
      AddTurn(c, front[k..], schedule[|schedule| - 1], schedule[k..], steps1, ws1, steps2, ws2, steps', ws');
    }
  }

  lemma {:induction false} RoundsGetOn(c: Config, schedule: seq<nat>, r: nat, steps: seq<Step>, ws: seq<Worker>,
                                       steps': seq<Step>, ws': seq<Worker>)
    requires Stands(c, steps, ws) && c.max > 0
    requires Turns(c, schedule, steps, ws, steps', ws') && Rounds(schedule, |ws|, r)
    ensures |steps'| >= |steps| + r || AllAreGone(ws')
    decreases r
  {
    TurnsStand(c, schedule, steps, ws, steps', ws');
    if r > 0 {
      var k :| 0 <= k <= |schedule| && Rounds(schedule[..k], |ws|, r - 1) && Round(schedule[k..], |ws|);
      var steps1, ws1 := TurnsSplit(c, schedule, k, steps, ws, steps', ws');
      var front, last := schedule[..k], schedule[k..];
      TurnsStand(c, front, steps, ws, steps1, ws1);
      RoundsGetOn(c, front, r - 1, steps, ws, steps1, ws1);
      OneMoreRound(c, last, steps1, ws1, steps', ws');
    }
  }

  lemma OneMoreRound(c: Config, schedule: seq<nat>, steps: seq<Step>, ws: seq<Worker>, steps': seq<Step>, ws': seq<Worker>)
    requires Stands(c, steps, ws) && c.max > 0
    requires Turns(c, schedule, steps, ws, steps', ws') && Round(schedule, |ws|)
    ensures AllAreGone(ws') || (|steps'| > |steps| && !AllAreGone(ws))
  {
    TurnsStand(c, schedule, steps, ws, steps', ws');
    RoundGetsOn(c, schedule, steps, ws, steps', ws');
  }

  // When the workers have left, the end was there to be reported.
  lemma GoneIsFinished(c: Config, steps: seq<Step>, ws: seq<Worker>)
    requires Stands(c, steps, ws) && c.max > 0 && |ws| > 0 && AllAreGone(ws)
    ensures Finished(c.max, After(c, steps).value.line)
  {
    NobodyIsStuck(c, steps, ws);
    assert ws[0].Gone?;
  }

  lemma GoneAreSerial(c: Config, steps: seq<Step>, ws: seq<Worker>, n: nat, m: Memory)
    requires Stands(c, steps, ws) && c.max > 0 && |ws| > 0 && AllAreGone(ws)
    requires AllClearsInTime(c, steps) && AllStopsInTime(c, steps) && LoopExit(c.P, c.mem0, n, m)
    ensures After(c, steps).value.line.nextCommit == n && After(c, steps).value.mem == m
  {
    GoneIsFinished(c, steps, ws);
    LoopEndsWhereSerialBreaks(c, steps, After(c, steps).value);
    LoopExitIsUnique(c.P, c.mem0, n, m, After(c, steps).value.line.nextCommit, After(c, steps).value.mem);
  }

  lemma AllLeave(c: Config, schedule: seq<nat>, steps: seq<Step>, ws: seq<Worker>, steps': seq<Step>, ws': seq<Worker>,
                 k: nat, n: nat, m: Memory, epochs: nat)
    requires Stands(c, steps, ws) && c.max > 0 && |ws| > 0 && Turns(c, schedule, steps, ws, steps', ws')
    requires AllClearsInTime(c, steps') && AllStopsInTime(c, steps')
    requires AtMostActions(c.P, k) && LoopExit(c.P, c.mem0, n, m) && epochs == n + c.max
    requires Rounds(schedule, |ws|, Longest(k, epochs) + 1)
    ensures AllAreGone(ws') && After(c, steps').Some?
    ensures After(c, steps').value.line.nextCommit == n && After(c, steps').value.mem == m
  {
    TurnsStand(c, schedule, steps, ws, steps', ws');
    RoundsGetOn(c, schedule, Longest(k, epochs) + 1, steps, ws, steps', ws');
    EveryRunIsBounded(c, k, steps', n, m, epochs);
    GoneAreSerial(c, steps', ws', n, m);
  }

  // A schedule by which every worker gets enough turns to end the loop with memory m:
  // the sequential loop does, and no execution goes on for ever.
  ghost predicate LongEnough(c: Config, schedule: seq<nat>, workers: nat, m: Memory) {
    exists k: nat, n: nat, epochs: nat ::
      && AtMostActions(c.P, k) && LoopExit(c.P, c.mem0, n, m) && epochs == n + c.max
      && Rounds(schedule, workers, Longest(k, epochs) + 1)
  }

  lemma LongEnoughEnds(c: Config, schedule: seq<nat>, steps: seq<Step>, ws: seq<Worker>,
                       steps': seq<Step>, ws': seq<Worker>, m: Memory)
    requires Stands(c, steps, ws) && c.max > 0 && |ws| > 0 && Turns(c, schedule, steps, ws, steps', ws')
    requires AllClearsInTime(c, steps') && AllStopsInTime(c, steps') && LongEnough(c, schedule, |ws|, m)
    ensures AllAreGone(ws') && After(c, steps').Some? && After(c, steps').value.mem == m
  {
    var k: nat, n: nat, epochs: nat :|
      && AtMostActions(c.P, k) && LoopExit(c.P, c.mem0, n, m) && epochs == n + c.max
      && Rounds(schedule, |ws|, Longest(k, epochs) + 1);
    AllLeave(c, schedule, steps, ws, steps', ws', k, n, m, epochs);
  }

  // The loop ends, however the workers are scheduled: after a schedule that is long
  // enough all of them have left, and memory is what the sequential loop leaves behind,
  // if rollback bits were cleared and stops made in time.
  ghost predicate EndsSerially(c: Config, schedule: seq<nat>, steps: seq<Step>, ws: seq<Worker>, mem: Memory) {
    AllClearsInTime(c, steps) && AllStopsInTime(c, steps) ==>
      forall m: Memory :: LongEnough(c, schedule, |ws|, m) ==> AllAreGone(ws) && mem == m
  }

  lemma GetsToTheEnd(c: Config, schedule: seq<nat>, steps: seq<Step>, ws: seq<Worker>, steps': seq<Step>, ws': seq<Worker>)
    requires Stands(c, steps, ws) && c.max > 0 && |ws| > 0 && Turns(c, schedule, steps, ws, steps', ws')
    ensures |ws'| == |ws| && After(c, steps').Some?
    ensures EndsSerially(c, schedule, steps', ws', After(c, steps').value.mem)
  {
    TurnsStand(c, schedule, steps, ws, steps', ws');
    if AllClearsInTime(c, steps') && AllStopsInTime(c, steps') {
      forall m: Memory | LongEnough(c, schedule, |ws|, m)
        ensures AllAreGone(ws') && After(c, steps').value.mem == m
      {
        LongEnoughEnds(c, schedule, steps, ws, steps', ws', m);
      }
    }
  }

  // ---------------------------------------------------------------- there are such schedules

  function TwoEach(n: nat): seq<nat> {
    if n == 0 then [] else TwoEach(n - 1) + [n - 1] + [n - 1]
  }

  function RoundRobin(n: nat, r: nat): seq<nat> {
    if r == 0 then [] else RoundRobin(n, r - 1) + TwoEach(n)
  }

  lemma OneMoreOf(schedule: seq<nat>, j: nat, i: nat)
    ensures TurnsOf(schedule + [j], i) == TurnsOf(schedule, i) + if j == i then 1 else 0
  {
    assert (schedule + [j])[..|schedule|] == schedule;
  }

  lemma {:induction false} TwoEachIsARound(n: nat, i: nat)
    requires i < n
    ensures TurnsOf(TwoEach(n), i) >= 2
  {
    OneMoreOf(TwoEach(n - 1), n - 1, i);
    OneMoreOf(TwoEach(n - 1) + [n - 1], n - 1, i);
    if i < n - 1 {
      TwoEachIsARound(n - 1, i);
    }
  }

  lemma {:induction false} RoundRobinIsRounds(n: nat, r: nat)
    ensures Rounds(RoundRobin(n, r), n, r)
  {
    if r > 0 {
      RoundRobinIsRounds(n, r - 1);
      forall i: nat | i < n ensures TurnsOf(TwoEach(n), i) >= 2 {
        TwoEachIsARound(n, i);
      }
      var k := |RoundRobin(n, r - 1)|;
      assert RoundRobin(n, r)[..k] == RoundRobin(n, r - 1) && RoundRobin(n, r)[k..] == TwoEach(n);
    }
  }

  // For any number of workers there is a schedule that is long enough.
  lemma SomeScheduleIsLongEnough(c: Config, workers: nat, k: nat, n: nat, m: Memory)
    requires AtMostActions(c.P, k) && LoopExit(c.P, c.mem0, n, m)
    ensures exists schedule :: LongEnough(c, schedule, workers, m)
  {
    var epochs := n + c.max;
    RoundRobinIsRounds(workers, Longest(k, epochs) + 1);
    assert LongEnough(c, RoundRobin(workers, Longest(k, epochs) + 1), workers, m);
  }
}
