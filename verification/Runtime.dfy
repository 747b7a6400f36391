/**
 The worker loop of yarn.c over the ring and the speculative memory: any number of
 workers, of which a schedule picks one at a time to take its next operation.

 Whatever the schedule, what the classes do is a run of the runtime machine, so
 everything proved of its runs holds of the memory the workers share.
 */
module Runtime {
  import opened Bits
  import opened Serial
  import opened Timeline
  import opened Speculation
  import opened Coherence
  import opened EpochRing
  import opened Tracking
  import opened InfoTables
  import opened SpeculativeMemory
  import opened Equivalence
  import opened Workers
  import opened Alone

  // ---------------------------------------------------------------- steps of the timeline

  lemma LineStepClean(max: nat, s: State, t: Step)
    requires |s.runs| == |s.line.marks| && Ring(max, s.line) && StopBound(max, s.line) && CommittedClean(s)
    requires Enabled(max, s, t) && MovesTheLine(t)
    ensures var s' := Apply(max, s, t);
            && |s'.runs| == |s'.line.marks| && CommittedClean(s') && s.line.first <= s'.line.first <= |s.runs|
            && forall x :: s.line.first <= x < s'.line.first ==> StatusOf(s', x) == Commit
  {
    RingAfter(max, s, t);
    if t.CommittedStep? {
      CommitDoneEffect(max, s.line, t.e);
    }
  }

  // Moving the timeline leaves the flags as they are.
  lemma LineStepTracks(max: nat, s: State, t: Step, v: Views)
    requires Tracks(max, s, v) && StopBound(max, s.line) && Enabled(max, s, t) && MovesTheLine(t)
    ensures Tracks(max, Apply(max, s, t), v)
  {
    RingAfter(max, s, t);
    LineStepClean(max, s, t);
    LineTracks(max, s, Apply(max, s, t), v);
  }

  // ---------------------------------------------------------------- the workers

  class Pool {
    const deps: Dependency
    const P: Program
    const workers: array<Worker>
    const mem0: Memory
    ghost var steps: seq<Step>

    ghost function Conf(): Config {
      Config(P, deps.epochs.max, mem0)
    }

    // All the state the workers share.
    ghost function Shared(): set<object>
      reads deps, deps.table
    {
      {deps, deps.epochs, deps.epochs.status, deps.mem, deps.table, deps.table.infoLists, deps.table.infoLists.head}
      + deps.table.infos.Values
    }

    ghost predicate Valid()
      reads this, workers, deps, deps.mem, deps.epochs, deps.epochs.status
      reads deps.table, deps.table.infos.Values, deps.table.infoLists, deps.table.infoLists.head,
            deps.table.infoLists.nodes, deps.table.infoIndex
    {
      deps.Valid() && InBounds(P, |mem0|) && Explains(Conf(), steps, deps.model, workers[..])
    }

    // yarn_exec_simple
    constructor (P: Program, mem: array<Value>, w: nat, poolSize: nat, threads: nat, indexSize: nat)
      requires IsWordSize(w) && poolSize > 0 && InBounds(P, mem.Length)
      ensures Valid() && this.P == P && deps.mem == mem && mem0 == mem[..] && workers.Length == threads
      ensures deps.epochs.max == EpochMax(w, poolSize) && deps.model == Init(mem[..])
      ensures forall i :: 0 <= i < threads ==> workers[i] == Idle
    {
      this.P, mem0 := P, mem[..];
      var epochs := new Epochs(w, poolSize);
      deps := new Dependency(epochs, mem, indexSize);
      workers := new Worker[threads](_ => Idle);
      steps := [];
      new;
      StartExplains(Conf(), workers[..]);
    }

    method Record(i: nat, w: Worker, ghost t: Step)
      requires deps.Valid() && i < workers.Length
      modifies this`steps, workers
      ensures deps.Valid() && workers[..] == old(workers[..])[i := w] && steps == old(steps) + [t]
    {
      workers[i] := w;
      steps := steps + [t];
    }

    // A worker has taken its step, and its place is noted.
    method Note(i: nat, w: Worker, ghost s: State, ghost t: Step)
      requires deps.Valid() && InBounds(P, |mem0|) && Explains(Conf(), steps, s, workers[..]) && i < workers.Length
      requires Goes(Conf(), s, workers[i], w, t) && deps.model == Apply(deps.epochs.max, s, t)
      modifies this`steps, workers
      ensures Valid() && workers[i] == w && Shared() == old(Shared())
      ensures Turn(Conf(), i, old(steps), old(workers[..]), steps, workers[..])
    {
      ExplainTurn(Conf(), steps, s, workers[..], i, w, t);
      Record(i, w, t);
    }

    // ---------------------------------------------------------------- moving the timeline

    // The ring has moved, and the state of the step machine with it.
    ghost method Follow(s: State, t: Step)
      requires deps.epochs.Valid() && deps.Backed() && deps.model == s
      requires Enabled(deps.epochs.max, s, t) && MovesTheLine(t) && StopBound(deps.epochs.max, s.line)
      requires deps.epochs.line == Apply(deps.epochs.max, s, t).line
      modifies deps`model
      ensures deps.Valid() && deps.model == Apply(deps.epochs.max, s, t)
    {
      LineStepTracks(deps.epochs.max, s, t, deps.table.Views());
      deps.Become(Apply(deps.epochs.max, s, t));
    }

    // yarn_epoch_next
    method TakeEpoch() returns (r: NextResult)
      requires deps.Valid()
      modifies deps`model, deps.epochs, deps.epochs.status
      ensures deps.Valid()
      ensures r.Issued? ==> r.epoch == old(deps.model).line.next
      ensures r.Issued? ==> Enabled(deps.epochs.max, old(deps.model), IssueStep(r.epoch))
      ensures r.Issued? ==> deps.model == Apply(deps.epochs.max, old(deps.model), IssueStep(r.epoch))
      ensures r.Issued? ==> r.was == At(old(deps.model).line, r.epoch).status
      ensures r.Issued? <==> CanIssue(deps.epochs.max, old(deps.model).line)
      ensures !r.Issued? ==> deps.model == old(deps.model) && (r.Over? <==> Finished(deps.epochs.max, deps.model.line))
    {
      ghost var s := deps.model;
      r := deps.epochs.Next();
      if r.Issued? {
        Follow(s, IssueStep(r.epoch));
      }
    }

    // yarn_epoch_rollback_done
    method RollbackDone(e: nat)
      requires deps.Valid() && Enabled(deps.epochs.max, deps.model, UnmaskStep(e)) && BeingCleaned(deps.model, e)
      modifies deps`model, deps.epochs
      ensures deps.Valid() && deps.model == Apply(deps.epochs.max, old(deps.model), UnmaskStep(e))
    {
      ghost var s := deps.model;
      deps.epochs.RollbackDone(e);
      Follow(s, UnmaskStep(e));
    }

    // yarn_epoch_stop
    method StopAfter(e: nat)
      requires deps.Valid() && Enabled(deps.epochs.max, deps.model, StopStep(e))
      modifies deps`model, deps.epochs
      ensures deps.Valid() && deps.model == Apply(deps.epochs.max, old(deps.model), StopStep(e))
    {
      ghost var s := deps.model;
      deps.epochs.Stop(e);
      Follow(s, StopStep(e));
    }

    // yarn_epoch_set_done
    method SetDone(e: nat)
      requires deps.Valid() && Enabled(deps.epochs.max, deps.model, DoneStep(e))
      requires StatusOf(deps.model, e) == Executing ==> !At(deps.model.line, e).masked
      modifies deps`model, deps.epochs, deps.epochs.status
      ensures deps.Valid() && deps.model == Apply(deps.epochs.max, old(deps.model), DoneStep(e))
    {
      ghost var s := deps.model;
      deps.epochs.SetDone(e);
      Follow(s, DoneStep(e));
    }

    // yarn_epoch_get_next_commit
    method ClaimEpoch() returns (ok: bool, e: nat)
      requires deps.Valid()
      modifies deps`model, deps.epochs
      ensures deps.Valid()
      ensures ok == Enabled(deps.epochs.max, old(deps.model), ClaimStep(e)) && e == old(deps.model).line.nextCommit
      ensures ok ==> deps.model == Apply(deps.epochs.max, old(deps.model), ClaimStep(e))
      ensures !ok ==> deps.model == old(deps.model)
    {
      ghost var s := deps.model;
      ok, e := deps.epochs.GetNextCommit();
      if ok {
        Follow(s, ClaimStep(e));
      }
    }

    // yarn_epoch_commit_done
    method CommitDone(e: nat)
      requires deps.Valid() && Enabled(deps.epochs.max, deps.model, CommittedStep(e))
      modifies deps`model, deps.epochs, deps.epochs.status
      ensures deps.Valid() && deps.model == Apply(deps.epochs.max, old(deps.model), CommittedStep(e))
    {
      ghost var s := deps.model;
      deps.epochs.CommitDone(e);
      Follow(s, CommittedStep(e));
    }

    // ---------------------------------------------------------------- what a worker does next

    // What every operation of worker i keeps.
    twostate predicate Advanced(i: nat)
      requires i < workers.Length
      reads this, workers, deps, deps.mem, deps.epochs, deps.epochs.status
      reads deps.table, deps.table.infos.Values, deps.table.infoLists, deps.table.infoLists.head,
            deps.table.infoLists.nodes, deps.table.infoIndex
    {
      && Valid() && fresh(Shared() - old(Shared()))
      && Turn(Conf(), i, old(steps), old(workers[..]), steps, workers[..])
    }

    // A worker that is handed nothing takes no step.
    method Park(i: nat, w: Worker)
      requires Valid() && i < workers.Length && Moves(Conf(), deps.model, workers[i], w, [])
      modifies workers
      ensures Advanced(i)
    {
      RestGoes(Conf(), steps, deps.model, workers[..], i, w);
      workers[i] := w;
      assert workers[..] == old(workers[..])[i := w];
      assert steps[|steps|..] == [];
    }

    // yarn_epoch_next
    method DoIssue(i: nat) returns (r: NextResult)
      requires Valid() && i < workers.Length && workers[i].Idle?
      modifies this`steps, workers, deps`model, deps.epochs, deps.epochs.status
      ensures Valid()
      ensures r.Issued? ==> Advanced(i)
      ensures !r.Issued? ==> workers[..] == old(workers[..]) && steps == old(steps)
      ensures !r.Issued? ==> !CanIssue(deps.epochs.max, deps.model.line)
      ensures !r.Issued? ==> (r.Over? <==> Finished(deps.epochs.max, deps.model.line))
    {
      ghost var s := deps.model;
      r := TakeEpoch();
      if r.Issued? {
        IssueGoes(Conf(), s);
        Note(i, if r.was == Status.Rollback then Cleans(r.epoch) else Executes(r.epoch, []), s, IssueStep(r.epoch));
      }
    }

    // The head of the loop.
    method DoTake(i: nat)
      requires Valid() && i < workers.Length && workers[i].Idle?
      modifies this`steps, workers, deps`model, deps.epochs, deps.epochs.status
      ensures Advanced(i)
    {
      var r := DoIssue(i);
      if !r.Issued? {
        Park(i, if r.Over? then Gone else Idle);
      }
    }

    // yarn_dep_rollback, an address at a time.
    method DoScrub(i: nat, e: nat) returns (more: bool)
      requires Valid() && i < workers.Length && workers[i] == Cleans(e)
      modifies this`steps, workers, deps`model, deps.table.infoLists, deps.table.infoLists.head, deps.table.infos.Values
      ensures Valid() && Shared() == old(Shared())
      ensures more ==> workers[i] == old(workers[i]) && Turn(Conf(), i, old(steps), old(workers[..]), steps, workers[..])
      ensures !more ==> workers[..] == old(workers[..]) && steps == old(steps)
      ensures !more ==> Enabled(deps.epochs.max, deps.model, UnmaskStep(e))
    {
      ghost var s := deps.model;
      assert Fits(P, s, workers[i]);
      ghost var a;
      more, a := deps.ScrubAddress(e);
      if more {
        CleanGoes(Conf(), s, e, ScrubStep(e, a));
        Note(i, Cleans(e), s, ScrubStep(e, a));
      }
    }

    // yarn_epoch_rollback_done, whether or not the epoch was rolled back again.
    method DoUnmask(i: nat, e: nat)
      requires Valid() && i < workers.Length && workers[i] == Cleans(e)
      requires Enabled(deps.epochs.max, deps.model, UnmaskStep(e))
      modifies this`steps, workers, deps`model, deps.epochs
      ensures Valid() && workers[i] == Executes(e, []) && Shared() == old(Shared())
      ensures Turn(Conf(), i, old(steps), old(workers[..]), steps, workers[..])
    {
      ghost var s := deps.model;
      assert Fits(P, s, workers[i]);
      CleanGoes(Conf(), s, e, UnmaskStep(e));
      RollbackDone(e);
      Note(i, Executes(e, []), s, UnmaskStep(e));
    }

    // An address of the rollback, or its end.
    method DoClean(i: nat, e: nat)
      requires Valid() && i < workers.Length && workers[i] == Cleans(e)
      modifies this`steps, workers, Shared()
      ensures Advanced(i)
    {
      var more := DoScrub(i, e);
      if !more {
        DoUnmask(i, e);
      }
    }

    // The executor loads.
    method DoLoad(i: nat, e: nat, log: seq<Event>, a: Addr)
      requires Valid() && i < workers.Length && workers[i] == Executes(e, log) && P(e)(log) == Load(a)
      modifies this`steps, workers, deps`model
      modifies deps.table, deps.table.infoLists, deps.table.infoLists.head, deps.table.infos.Values
      ensures Advanced(i)
    {
      ghost var s := deps.model;
      assert Fits(P, s, workers[i]);
      Granted(Conf(), steps, s, e);
      var v := deps.Load(e, a);
      LoadGoes(Conf(), s, e, log, a);
      Note(i, Executes(e, log + [Read(a, v)]), s, LoadStep(e, a));
    }

    method DoStore(i: nat, e: nat, log: seq<Event>, a: Addr, v: Value)
      requires Valid() && i < workers.Length && workers[i] == Executes(e, log) && P(e)(log) == Store(a, v)
      modifies this`steps, workers, deps`model, deps.epochs, deps.epochs.status
      modifies deps.table, deps.table.infoLists, deps.table.infoLists.head, deps.table.infos.Values
      ensures Advanced(i)
    {
      ghost var s := deps.model;
      assert Fits(P, s, workers[i]);
      Granted(Conf(), steps, s, e);
      deps.Store(e, a, v);
      StoreGoes(Conf(), s, e, log, a, v);
      Note(i, Executes(e, log + [Write(a, v)]), s, StoreStep(e, a, v));
    }

    // The executor has returned yarn_ret_break.
    method DoBreak(i: nat, e: nat, log: seq<Event>)
      requires Valid() && i < workers.Length && workers[i] == Executes(e, log) && P(e)(log) == Break
      modifies this`steps, workers, deps`model, deps.epochs
      ensures Advanced(i)
    {
      ghost var s := deps.model;
      assert Fits(P, s, workers[i]);
      StopAfter(e);
      BreakGoes(Conf(), s, e, log);
      Note(i, Stopped(e), s, StopStep(e));
    }

    method DoFinish(i: nat, e: nat)
      requires Valid() && i < workers.Length && Holds(workers[i], e)
      requires workers[i].Stopped? || (workers[i].Executes? && P(e)(workers[i].log) == Continue)
      modifies this`steps, workers, deps`model, deps.epochs, deps.epochs.status
      ensures Advanced(i)
    {
      ghost var s := deps.model;
      assert Fits(P, s, workers[i]);
      Granted(Conf(), steps, s, e);
      SetDone(e);
      DoneGoes(Conf(), s, workers[i]);
      Note(i, Seeks, s, DoneStep(e));
    }

    // yarn_epoch_get_next_commit, in the test of the inner loop.
    method DoClaim(i: nat) returns (ok: bool)
      requires Valid() && i < workers.Length && workers[i].Seeks?
      modifies this`steps, workers, deps`model, deps.epochs
      ensures Valid()
      ensures ok ==> Advanced(i)
      ensures !ok ==> workers[..] == old(workers[..]) && steps == old(steps) && !CanClaim(deps.model.line)
    {
      ghost var s := deps.model;
      var e;
      ok, e := ClaimEpoch();
      if ok {
        ClaimGoes(Conf(), s);
        Note(i, Commits(e), s, ClaimStep(e));
      }
    }

    // The test of the inner loop.
    method DoSeek(i: nat)
      requires Valid() && i < workers.Length && workers[i].Seeks?
      modifies this`steps, workers, deps`model, deps.epochs
      ensures Advanced(i)
    {
      var ok := DoClaim(i);
      if !ok {
        Park(i, Idle);
      }
    }

    // yarn_dep_commit, an address at a time.
    method DoWriteBack(i: nat, e: nat) returns (more: bool)
      requires Valid() && i < workers.Length && workers[i] == Commits(e)
      modifies this`steps, workers, deps`model, deps.mem
      modifies deps.table.infoLists, deps.table.infoLists.head, deps.table.infos.Values
      ensures Valid() && Shared() == old(Shared())
      ensures more ==> workers[i] == old(workers[i]) && Turn(Conf(), i, old(steps), old(workers[..]), steps, workers[..])
      ensures !more ==> workers[..] == old(workers[..]) && steps == old(steps)
      ensures !more ==> Enabled(deps.epochs.max, deps.model, CommittedStep(e))
    {
      ghost var s, ws := deps.model, workers[..];
      assert Fits(P, s, ws[i]);
      ghost var a;
      more, a := deps.CommitAddress(e);
      assert workers[..] == ws;
      if more {
        CommitGoes(Conf(), s, e, WriteBackStep(e, a));
        Note(i, Commits(e), s, WriteBackStep(e, a));
      }
    }

    method DoCommitted(i: nat, e: nat)
      requires Valid() && i < workers.Length && workers[i] == Commits(e)
      requires Enabled(deps.epochs.max, deps.model, CommittedStep(e))
      modifies this`steps, workers, deps`model, deps.epochs, deps.epochs.status
      ensures Valid() && workers[i] == Seeks && Shared() == old(Shared())
      ensures Turn(Conf(), i, old(steps), old(workers[..]), steps, workers[..])
    {
      ghost var s := deps.model;
      assert Fits(P, s, workers[i]);
      CommitGoes(Conf(), s, e, CommittedStep(e));
      CommitDone(e);
      Note(i, Seeks, s, CommittedStep(e));
    }

    // The body of the inner loop: an address of the commit, or its end.
    method DoCommit(i: nat, e: nat)
      requires Valid() && i < workers.Length && workers[i] == Commits(e)
      modifies this`steps, workers, Shared()
      ensures Advanced(i)
    {
      var more := DoWriteBack(i, e);
      if !more {
        DoCommitted(i, e);
      }
    }

    // The next operation of the executor, or what follows its return.
    method Execute(i: nat, e: nat, log: seq<Event>)
      requires Valid() && i < workers.Length && workers[i] == Executes(e, log)
      modifies this`steps, workers, Shared()
      ensures Advanced(i)
    {
      match P(e)(log) {
        case Load(a) => DoLoad(i, e, log, a);
        case Store(a, v) => DoStore(i, e, log, a, v);
        case Break => DoBreak(i, e, log);
        case Continue => DoFinish(i, e);
      }
    }

    // A worker's next operation.
    method Tick(i: nat)
      requires Valid() && i < workers.Length && !workers[i].Gone?
      modifies this`steps, workers, Shared()
      ensures Advanced(i)
    {
      match workers[i] {
        case Idle => DoTake(i);
        case Cleans(e) => DoClean(i, e);
        case Executes(e, log) => Execute(i, e, log);
        case Stopped(e) => DoFinish(i, e);
        case Seeks => DoSeek(i);
        case Commits(e) => DoCommit(i, e);
      }
    }

    // Every worker has left pool_worker_simple.
    ghost predicate AllGone()
      reads workers
    {
      AllAreGone(workers[..])
    }

    // Provided rollback bits were cleared in time, memory is what the sequential loop
    // has after as many iterations as were handed out for commit, once all of them have
    // been written back. Provided stops were made in time as well, when every worker
    // has left it is what the sequential loop leaves behind when it breaks.
    ghost predicate Serial()
      reads this, workers, deps, deps.mem
    {
      var s := deps.model;
      AllClearsInTime(Conf(), steps) ==>
        && (NothingBuffered(s) ==> LoopPrefix(P, mem0, s.line.nextCommit, deps.mem[..]))
        && (AllGone() && AllStopsInTime(Conf(), steps) ==> LoopExit(P, mem0, s.line.nextCommit, deps.mem[..]))
    }

    lemma RunIsSerial()
      requires Valid() && workers.Length > 0
      ensures Serial()
    {
      if AllClearsInTime(Conf(), steps) && NothingBuffered(deps.model) {
        SerialEquivalence(Conf(), steps, deps.model);
      }
      if AllGone() && AllClearsInTime(Conf(), steps) && AllStopsInTime(Conf(), steps) {
        GoneIsFinished(Conf(), steps, workers[..]);
        LoopEndsWhereSerialBreaks(Conf(), steps, deps.model);
      }
    }

    // One turn of the schedule, after k of them.
    method TakeTurn(schedule: seq<nat>, k: nat, ghost steps0: seq<Step>, ghost ws0: seq<Worker>)
      requires Valid() && k < |schedule|
      requires Turns(Conf(), schedule[..k], steps0, ws0, steps, workers[..])
      modifies this`steps, workers, Shared()
      ensures Valid() && fresh(Shared() - old(Shared()))
      ensures Turns(Conf(), schedule[..k + 1], steps0, ws0, steps, workers[..])
    {
      var i := schedule[k];
      if i < workers.Length && workers[i] != Gone {
        Tick(i);
      } else {
        assert workers[..] == old(workers[..]) && steps[|steps|..] == [];
      }
      NextTurn(Conf(), schedule, k, steps0, ws0, old(steps), old(workers[..]), steps, workers[..]);
    }

    method RunTurns(schedule: seq<nat>)
      requires Valid()
      modifies this`steps, workers, Shared()
      ensures Valid()
      ensures Turns(Conf(), schedule, old(steps), old(workers[..]), steps, workers[..])
    {
      ghost var steps0, ws0 := steps, workers[..];
      for k := 0 to |schedule|
        invariant Valid() && fresh(Shared() - old(Shared()))
        invariant Turns(Conf(), schedule[..k], steps0, ws0, steps, workers[..])
      {
        TakeTurn(schedule, k, steps0, ws0);
      }
      assert schedule[..|schedule|] == schedule;
    }

    lemma RunEnds(schedule: seq<nat>, steps0: seq<Step>, ws0: seq<Worker>)
      requires Valid() && workers.Length > 0 && |ws0| == workers.Length
      requires Stands(Conf(), steps0, ws0) && Turns(Conf(), schedule, steps0, ws0, steps, workers[..])
      ensures EndsSerially(Conf(), schedule, steps, workers[..], deps.mem[..])
    {
      GetsToTheEnd(Conf(), schedule, steps0, ws0, steps, workers[..]);
    }

    // The workers take operations in the order of a schedule. Whatever it is, what
    // they have done is a run of the step machine, and the result is serial; and if
    // the schedule is long enough, they get to the end of the loop.
    method Run(schedule: seq<nat>)
      requires Valid() && workers.Length > 0
      modifies this`steps, workers, Shared()
      ensures Valid() && Serial() && EndsSerially(Conf(), schedule, steps, workers[..], deps.mem[..])
      ensures Turns(Conf(), schedule, old(steps), old(workers[..]), steps, workers[..])
    {
      RunTurns(schedule);
      RunIsSerial();
      RunEnds(schedule, old(steps), old(workers[..]));
    }

    // ---------------------------------------------------------------- one worker

    // A lone worker on a loop that the sequential loop leaves after n iterations with
    // memory m.
    ghost predicate OnItsOwn(n: nat, m: Memory)
      reads this, workers, deps
    {
      && workers.Length == 1 && LoopExit(P, mem0, n, m)
      && AllClearsInTime(Conf(), steps) && AllStopsInTime(Conf(), steps)
      && Solo(deps.model, workers[0]) && deps.model.line.nextCommit <= n
    }

    lemma BeginsAlone(n: nat, m: Memory)
      requires Valid() && workers.Length == 1 && workers[0] == Idle && steps == [] && LoopExit(P, mem0, n, m)
      ensures OnItsOwn(n, m)
    {
    }

    lemma EndsAlone(n: nat, m: Memory)
      requires Valid() && OnItsOwn(n, m) && workers[0] == Gone
      ensures AllGone() && deps.mem[..] == m && deps.model.line.nextCommit == n
    {
      GoneAreSerial(Conf(), steps, workers[..], n, m);
    }

    method TurnAlone(ghost n: nat, ghost m: Memory)
      requires Valid() && OnItsOwn(n, m) && workers[0] != Gone
      modifies this`steps, workers, Shared()
      ensures Valid() && OnItsOwn(n, m) && fresh(Shared() - old(Shared()))
      ensures Nearer(Conf(), n, old(deps.model), old(workers[0]), deps.model, workers[0])
    {
      Tick(0);
      assert old(workers[..]) == [old(workers[0])] && workers[..] == [workers[0]];
      SoloTurn(Conf(), old(steps), old(workers[0]), steps, workers[0], n, m);
    }

    // A lone worker takes its turns until it leaves, which it does when the sequential
    // loop breaks, and memory is then what that leaves behind.
    method RunAlone(ghost n: nat, ghost m: Memory)
      requires Valid() && workers.Length == 1 && workers[0] == Idle && steps == [] && LoopExit(P, mem0, n, m)
      modifies this`steps, workers, Shared()
      ensures Valid() && AllGone() && deps.mem[..] == m && deps.model.line.nextCommit == n
    {
      BeginsAlone(n, m);
      while workers[0] != Gone
        invariant Valid() && OnItsOwn(n, m) && fresh(Shared() - old(Shared()))
        decreases n - deps.model.line.nextCommit, Phase(deps.model, workers[0]), Ahead(Conf(), deps.model, workers[0])
      {
        TurnAlone(n, m);
      }
      EndsAlone(n, m);
    }
  }
}
