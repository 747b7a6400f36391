/**
 That the runtime gets done: no run can get stuck before the loop has ended, and no
 run that clears rollback bits in time goes on for ever.
 */
module Progress {
  import opened Serial
  import opened Timeline
  import opened Speculation
  import opened Coherence
  import opened Equivalence
  import opened Livelock

  // ---------------------------------------------------------------- what keeps a run from getting stuck

  // When everything below the stop bound is committed the ring is not full, and
  // every flag belongs to a word of the memory.
  ghost predicate Unblocked(max: nat, s: State) {
    && (StopSet(s.line) && s.line.stop == s.line.first ==> s.line.next < s.line.first + max)
    && forall e, a: Addr :: 0 <= e < |s.runs| && Touched(s.runs[e], a) ==> a < |s.mem|
  }

  lemma LineStaysUnblocked(max: nat, s: State, mem0: Memory, t: Step)
    requires Base(max, s, mem0) && Enabled(max, s, t) && MovesTheLine(t)
    requires StopSet(s.line) && s.line.stop == s.line.first ==> s.line.next < s.line.first + max
    ensures var l := Apply(max, s, t).line; StopSet(l) && l.stop == l.first ==> l.next < l.first + max
  {
    if t.CommittedStep? {
      CommitDoneEffect(max, s.line, t.e);
    }
  }

  lemma StoreStaysUnblocked(max: nat, s: State, mem0: Memory, t: Step)
    requires Base(max, s, mem0) && Enabled(max, s, t) && t.StoreStep? && Unblocked(max, s)
    ensures Unblocked(max, Apply(max, s, t))
  {
    StoreShape(max, s, t.e, t.a, t.v);
    var s' := Apply(max, s, t);
    forall e, a: Addr | 0 <= e < |s'.runs| && Touched(s'.runs[e], a) ensures a < |s'.mem| {
      assert a == t.a || Touched(s.runs[e], a);
    }
  }

  lemma FlagsStayInMemory(max: nat, s: State, t: Step)
    requires Enabled(max, s, t) && !t.StoreStep?
    requires forall e, a: Addr :: 0 <= e < |s.runs| && Touched(s.runs[e], a) ==> a < |s.mem|
    ensures forall e, a: Addr :: 0 <= e < |Apply(max, s, t).runs| && Touched(Apply(max, s, t).runs[e], a) ==> a < |s.mem|
  {
    var s' := Apply(max, s, t);
    forall e, a: Addr | 0 <= e < |s'.runs| && Touched(s'.runs[e], a) ensures a < |s.mem| {
      assert e < |s.runs| ==> (Touched(s'.runs[e], a) ==> Touched(s.runs[e], a) || (t.LoadStep? && a == t.a));
    }
  }

  lemma StaysUnblocked(max: nat, s: State, mem0: Memory, t: Step)
    requires Base(max, s, mem0) && Enabled(max, s, t) && Unblocked(max, s)
    ensures Unblocked(max, Apply(max, s, t))
  {
    if t.StoreStep? {
      StoreStaysUnblocked(max, s, mem0, t);
    } else {
      if MovesTheLine(t) {
        LineStaysUnblocked(max, s, mem0, t);
      }
      FlagsStayInMemory(max, s, t);
    }
  }

  lemma {:induction false} ReachableUnblocked(c: Config, steps: seq<Step>)
    requires After(c, steps).Some?
    ensures Unblocked(c.max, After(c, steps).value)
  {
    if |steps| > 0 {
      var before := steps[..|steps| - 1];
      ReachableBase(c, before);
      ReachableUnblocked(c, before);
      StaysUnblocked(c.max, After(c, before).value, c.mem0, steps[|steps| - 1]);
    }
  }

  // While no worker is executing or committing, the next epoch can be handed out or
  // the oldest one claimed, or the end is reported.
  lemma QuietIsNotStuck(max: nat, s: State, mem0: Memory)
    requires Base(max, s, mem0) && Unblocked(max, s) && max > 0
    requires forall e :: 0 <= e < |s.runs| ==> !IsOpen(StatusOf(s, e))
    requires forall e :: s.line.first <= e < s.line.nextCommit ==> StatusOf(s, e) != Done
    ensures Finished(max, s.line) || CanIssue(max, s.line) || CanClaim(s.line)
  {
    assert s.line.first == s.line.nextCommit;
    if s.line.nextCommit < s.line.next {
      assert StatusOf(s, s.line.nextCommit) == Done;
    }
  }

  lemma NothingIsTouched(r: Run)
    requires !exists a: Addr :: a in r.loaded + r.stored.Keys
    ensures r.loaded == {} && r.stored == map[]
  {
    assert forall a :: a in r.loaded ==> a in r.loaded + r.stored.Keys;
    assert forall a :: a in r.stored.Keys ==> a in r.loaded + r.stored.Keys;
  }

  lemma OpenCanStep(c: Config, s: State, e: nat) returns (t: Step)
    requires Base(c.max, s, c.mem0) && InBounds(c.P, |c.mem0|) && e < |s.runs| && IsOpen(StatusOf(s, e))
    ensures t.e == e && CanStep(c, s, t)
  {
    var r := s.runs[e];
    if r.cleaning {
      if a: Addr :| a in r.loaded + r.stored.Keys {
        t := ScrubStep(e, a);
      } else {
        NothingIsTouched(r);
        t := UnmaskStep(e);
      }
    } else {
      match c.P(e)(r.log) {
        case Load(a) => t := LoadStep(e, a);
        case Store(a, v) => t := StoreStep(e, a, v);
        case Continue => t := DoneStep(e);
        case Break => t := if r.broke then DoneStep(e) else StopStep(e);
      }
    }
  }

  lemma ClaimedCanStep(c: Config, s: State, e: nat) returns (t: Step)
    requires Base(c.max, s, c.mem0) && Unblocked(c.max, s) && Claimed(s, e)
    ensures t.e == e && CanStep(c, s, t)
  {
    var r := s.runs[e];
    if a: Addr :| a in r.loaded + r.stored.Keys {
      assert Touched(s.runs[e], a);
      t := WriteBackStep(e, a);
    } else {
      NothingIsTouched(r);
      t := CommittedStep(e);
    }
  }

  // No run gets stuck: until the end is reported some step can be taken.
  lemma NeverStuck(c: Config, steps: seq<Step>, s: State)
    requires After(c, steps) == Some(s) && c.max > 0 && InBounds(c.P, |c.mem0|)
    ensures Finished(c.max, s.line) || exists t :: CanStep(c, s, t)
  {
    ReachableBase(c, steps);
    ReachableUnblocked(c, steps);
    if e: nat :| e < |s.runs| && IsOpen(StatusOf(s, e)) {
      var t := OpenCanStep(c, s, e);
    } else if e: nat :| s.line.first <= e < s.line.nextCommit && StatusOf(s, e) == Done {
      var t := ClaimedCanStep(c, s, e);
    } else {
      QuietIsNotStuck(c.max, s, c.mem0);
      assert CanIssue(c.max, s.line) ==> CanStep(c, s, IssueStep(s.line.next));
      assert CanClaim(s.line) ==> CanStep(c, s, ClaimStep(s.line.nextCommit));
    }
  }

  // ---------------------------------------------------------------- what an execution can still do

  // Whatever its loads return, an execution of an iteration makes at most k loads and
  // stores.
  ghost predicate AtMostActions(P: Program, k: nat) {
    forall e: nat, log: seq<Event> :: Follows(P(e), log) ==> |log| <= k
  }

  function Touches(r: Run): nat {
    |r.loaded + r.stored.Keys|
  }

  // The flags of an execution come from its own loads and stores; those of the last
  // one are still there while it is being cleaned up after.
  ghost predicate FlagsBounded(k: nat, s: State) {
    forall e :: 0 <= e < |s.runs| ==> Touches(s.runs[e]) <= if s.runs[e].cleaning then k else |s.runs[e].log|
  }

  lemma ClearTouches(r: Run, a: Addr)
    requires Touched(r, a)
    ensures Touches(Clear(r, a)) == Touches(r) - 1
  {
    var r' := Clear(r, a);
    assert r'.loaded + r'.stored.Keys == (r.loaded + r.stored.Keys) - {a};
  }

  lemma MoreTouches(r: Run, r': Run, a: Addr)
    requires r'.loaded + r'.stored.Keys == r.loaded + r.stored.Keys + {a}
    ensures Touches(r') <= Touches(r) + 1
  {
  }

  // How many steps of epoch e can still follow before it is handed out again.
  function Left(k: nat, s: State, e: nat): nat
    requires |s.runs| == |s.line.marks|
  {
    if e >= |s.runs| then 0
    else LeftOf(k, s.runs[e], s.line.marks[e].status, e < s.line.nextCommit)
  }

  function LeftOf(k: nat, r: Run, st: Status, claimed: bool): nat {
    match st
    case Commit => 0
    case Rollback => 0
    case Done => Touches(r) + if claimed then 1 else 2
    case _ =>
      if r.cleaning then Touches(r) + 2 * k + 5
      else Touches(r) + 2 * (if |r.log| < k then k - |r.log| else 0) + (if r.broke then 3 else 4)
  }

  // The budget an issue brings with it.
  function Most(k: nat): nat {
    3 * k + 6
  }

  ghost predicate CleaningIsOpen(s: State) {
    forall e :: 0 <= e < |s.runs| && s.runs[e].cleaning ==> IsOpen(StatusOf(s, e))
  }

  lemma CleaningStaysOpen(max: nat, s: State, t: Step)
    requires |s.runs| == |s.line.marks| && Ring(max, s.line) && StopBound(max, s.line) && Enabled(max, s, t)
    requires CleaningIsOpen(s)
    ensures CleaningIsOpen(Apply(max, s, t))
  {
    var s' := Apply(max, s, t);
    StepEffect(max, s, t);
    forall e | 0 <= e < |s'.runs| && s'.runs[e].cleaning ensures IsOpen(StatusOf(s', e)) {
      StepOpens(max, s, t, e);
    }
  }

  ghost predicate LogsBounded(k: nat, s: State) {
    forall e :: 0 <= e < |s.runs| ==> |s.runs[e].log| <= k
  }

  lemma LogsAreBounded(c: Config, k: nat, s: State)
    requires FollowsProgram(c.P, s) && AtMostActions(c.P, k)
    ensures LogsBounded(k, s)
  {
    forall e | 0 <= e < |s.runs| ensures |s.runs[e].log| <= k {
      assert EpochFollows(c.P(e), s.runs[e], StatusOf(s, e));
    }
  }

  lemma IssuedFlagsBounded(max: nat, k: nat, s: State)
    requires |s.runs| == |s.line.marks| && Ring(max, s.line) && CanIssue(max, s.line)
    requires FlagsBounded(k, s) && LogsBounded(k, s)
    ensures Touches(Issued(s)) <= if Issued(s).cleaning then k else 0
  {
    IssueKeepsRing(max, s.line);
    if s.line.next < |s.runs| {
      assert Touches(Issued(s)) == Touches(s.runs[s.line.next]);
    }
  }

  lemma LoadedTouches(max: nat, s: State, t: Step)
    requires Enabled(max, s, t) && t.LoadStep?
    ensures Touches(Apply(max, s, t).runs[t.e]) <= Touches(s.runs[t.e]) + 1
    ensures |Apply(max, s, t).runs[t.e].log| == |s.runs[t.e].log| + 1
    ensures Apply(max, s, t).runs[t.e].cleaning == s.runs[t.e].cleaning
  {
    var r, r' := s.runs[t.e], Apply(max, s, t).runs[t.e];
    assert r'.loaded + r'.stored.Keys == r.loaded + r.stored.Keys + {t.a};
    MoreTouches(r, r', t.a);
  }

  lemma OwnFlagsBounded(max: nat, k: nat, s: State, t: Step)
    requires |s.runs| == |s.line.marks| && Ring(max, s.line) && Enabled(max, s, t) && !t.StoreStep?
    requires FlagsBounded(k, s) && LogsBounded(k, s)
    ensures var s' := Apply(max, s, t);
            t.e < |s'.runs| && Touches(s'.runs[t.e]) <= if s'.runs[t.e].cleaning then k else |s'.runs[t.e].log|
  {
    if t.IssueStep? {
      IssuedFlagsBounded(max, k, s);
    } else if t.ScrubStep? || t.WriteBackStep? {
      ClearTouches(s.runs[t.e], t.a);
    } else if t.LoadStep? {
      LoadedTouches(max, s, t);
    }
  }

  lemma StoredTouches(s: State, e: nat, a: Addr, v: Value)
    requires e < |s.runs|
    ensures Touches(Stored(s, e, a, v)) <= Touches(s.runs[e]) + 1
  {
    var r' := Stored(s, e, a, v);
    assert r'.loaded + r'.stored.Keys == s.runs[e].loaded + s.runs[e].stored.Keys + {a};
    MoreTouches(s.runs[e], r', a);
  }

  lemma FlagsStayBounded(max: nat, k: nat, s: State, t: Step)
    requires |s.runs| == |s.line.marks| && Ring(max, s.line) && StopBound(max, s.line) && Enabled(max, s, t)
    requires FlagsBounded(k, s) && LogsBounded(k, s)
    ensures FlagsBounded(k, Apply(max, s, t))
  {
    StepEffect(max, s, t);
    if t.StoreStep? {
      StoreShape(max, s, t.e, t.a, t.v);
      StoredTouches(s, t.e, t.a, t.v);
    } else {
      OwnFlagsBounded(max, k, s, t);
    }
  }

  // A step leaves the other epochs where they are, or rolls them back.
  lemma OtherMarks(max: nat, s: State, t: Step, x: nat)
    requires |s.runs| == |s.line.marks| && Ring(max, s.line) && StopBound(max, s.line) && Enabled(max, s, t)
    requires x < |s.runs| && x != t.e
    ensures var s' := Apply(max, s, t);
            && x < |s'.line.marks| && (x < s'.line.nextCommit <==> x < s.line.nextCommit)
            && (|| s'.line.marks[x].status == s.line.marks[x].status
                || (s.line.marks[x].status == Executing && s'.line.marks[x].status == Pending)
                || (s.line.marks[x].status == Done && s'.line.marks[x].status == Rollback))
  {
    if t.CommittedStep? {
      CommitDoneEffect(max, s.line, t.e);
    }
  }

  lemma OthersHaveNoMoreLeft(max: nat, k: nat, s: State, t: Step, x: nat)
    requires |s.runs| == |s.line.marks| && Ring(max, s.line) && StopBound(max, s.line) && Enabled(max, s, t) && x != t.e
    requires |Apply(max, s, t).runs| == |Apply(max, s, t).line.marks|
    ensures Left(k, Apply(max, s, t), x) <= Left(k, s, x)
  {
    StepEffect(max, s, t);
    if x < |s.runs| {
      OtherMarks(max, s, t, x);
    }
  }

  lemma StoreUsesUp(max: nat, k: nat, s: State, t: Step)
    requires |s.runs| == |s.line.marks| && Ring(max, s.line) && StopBound(max, s.line) && Enabled(max, s, t)
    requires t.StoreStep? && LogsBounded(k, Apply(max, s, t)) && |Apply(max, s, t).runs| == |Apply(max, s, t).line.marks|
    ensures Left(k, Apply(max, s, t), t.e) < Left(k, s, t.e)
  {
    StepEffect(max, s, t);
    StoreShape(max, s, t.e, t.a, t.v);
    StoredTouches(s, t.e, t.a, t.v);
    assert |Apply(max, s, t).runs[t.e].log| == |s.runs[t.e].log| + 1;
  }

  lemma FlagStepUsesUp(max: nat, k: nat, s: State, t: Step)
    requires |s.runs| == |s.line.marks| && Ring(max, s.line) && Enabled(max, s, t)
    requires (t.ScrubStep? && IsOpen(StatusOf(s, t.e))) || t.WriteBackStep?
    ensures |Apply(max, s, t).runs| == |Apply(max, s, t).line.marks|
    ensures Left(k, Apply(max, s, t), t.e) < Left(k, s, t.e)
  {
    ClearTouches(s.runs[t.e], t.a);
    FlagStepClears(max, s, t);
  }

  lemma FlagStepClears(max: nat, s: State, t: Step)
    requires Enabled(max, s, t) && (t.ScrubStep? || t.WriteBackStep?)
    ensures Apply(max, s, t).line == s.line && Apply(max, s, t).runs == s.runs[t.e := Clear(s.runs[t.e], t.a)]
  {
  }

  lemma LoadUsesUp(max: nat, k: nat, s: State, t: Step)
    requires |s.runs| == |s.line.marks| && Enabled(max, s, t) && t.LoadStep? && LogsBounded(k, Apply(max, s, t))
    ensures |Apply(max, s, t).runs| == |Apply(max, s, t).line.marks|
    ensures Left(k, Apply(max, s, t), t.e) < Left(k, s, t.e)
  {
    LoadedTouches(max, s, t);
  }

  lemma LineStepUsesUp(max: nat, k: nat, s: State, t: Step)
    requires |s.runs| == |s.line.marks| && Ring(max, s.line) && StopBound(max, s.line) && Enabled(max, s, t)
    requires MovesTheLine(t) && !t.IssueStep? && LogsBounded(k, s)
    requires t.UnmaskStep? ==> IsOpen(StatusOf(s, t.e))
    ensures |Apply(max, s, t).runs| == |Apply(max, s, t).line.marks|
    ensures Left(k, Apply(max, s, t), t.e) < Left(k, s, t.e)
  {
    if t.CommittedStep? {
      CommitDoneEffect(max, s.line, t.e);
    }
  }

  lemma OwnStepUsesUp(max: nat, k: nat, s: State, t: Step)
    requires |s.runs| == |s.line.marks| && Ring(max, s.line) && StopBound(max, s.line) && Enabled(max, s, t)
    requires !t.IssueStep? && CleaningIsOpen(s) && LogsBounded(k, s) && LogsBounded(k, Apply(max, s, t))
    requires |Apply(max, s, t).runs| == |Apply(max, s, t).line.marks|
    ensures Left(k, Apply(max, s, t), t.e) < Left(k, s, t.e)
  {
    if t.StoreStep? {
      StoreUsesUp(max, k, s, t);
    } else if t.LoadStep? {
      LoadUsesUp(max, k, s, t);
    } else if MovesTheLine(t) {
      LineStepUsesUp(max, k, s, t);
    } else {
      FlagStepUsesUp(max, k, s, t);
    }
  }

  // ---------------------------------------------------------------- how many steps an epoch takes

  function StepsOf(steps: seq<Step>, e: nat): nat {
    if |steps| == 0 then 0
    else StepsOf(steps[..|steps| - 1], e) + if steps[|steps| - 1].e == e then 1 else 0
  }

  // Every issue of an epoch pays for the steps that follow until the next one.
  ghost predicate StepsPaid(k: nat, steps: seq<Step>, s: State)
    requires |s.runs| == |s.line.marks|
  {
    forall e: nat :: StepsOf(steps, e) + Left(k, s, e) <= Times(Most(k), Issues(steps, e))
  }

  function Times(x: nat, n: nat): nat {
    if n == 0 then 0 else Times(x, n - 1) + x
  }

  lemma IssueIsPaid(max: nat, k: nat, s: State, t: Step)
    requires |s.runs| == |s.line.marks| && Ring(max, s.line) && Enabled(max, s, t) && t.IssueStep?
    requires FlagsBounded(k, s) && LogsBounded(k, s)
    ensures |Apply(max, s, t).runs| == |Apply(max, s, t).line.marks|
    ensures Left(k, Apply(max, s, t), t.e) < Most(k)
  {
    IssueKeepsRing(max, s.line);
    OwnFlagsBounded(max, k, s, t);
  }

  // What is left for each epoch after a step, and what the step has cost or brought.
  lemma LeftAfter(max: nat, k: nat, s: State, mem0: Memory, t: Step, e: nat)
    requires Base(max, s, mem0) && Enabled(max, s, t) && Base(max, Apply(max, s, t), mem0)
    requires CleaningIsOpen(s) && FlagsBounded(k, s) && LogsBounded(k, s) && LogsBounded(k, Apply(max, s, t))
    ensures Left(k, Apply(max, s, t), e) + (if t.e == e then 1 else 0)
            <= Left(k, s, e) + if t.IssueStep? && t.e == e then Most(k) else 0
  {
    if t.e != e {
      OthersHaveNoMoreLeft(max, k, s, t, e);
    } else if t.IssueStep? {
      IssueIsPaid(max, k, s, t);
    } else {
      OwnStepUsesUp(max, k, s, t);
    }
  }

  lemma StepsAfter(before: seq<Step>, t: Step, e: nat, x: nat)
    ensures StepsOf(before + [t], e) == StepsOf(before, e) + if t.e == e then 1 else 0
    ensures Times(x, Issues(before + [t], e)) ==
            Times(x, Issues(before, e)) + if t.IssueStep? && t.e == e then x else 0
  {
    assert (before + [t])[..|before|] == before;
  }

  lemma StepIsPaid(max: nat, k: nat, before: seq<Step>, s: State, mem0: Memory, t: Step, e: nat)
    requires Base(max, s, mem0) && Enabled(max, s, t) && Base(max, Apply(max, s, t), mem0)
    requires CleaningIsOpen(s) && FlagsBounded(k, s) && LogsBounded(k, s) && LogsBounded(k, Apply(max, s, t))
    requires StepsOf(before, e) + Left(k, s, e) <= Times(Most(k), Issues(before, e))
    ensures StepsOf(before + [t], e) + Left(k, Apply(max, s, t), e) <= Times(Most(k), Issues(before + [t], e))
  {
    LeftAfter(max, k, s, mem0, t, e);
    StepsAfter(before, t, e, Most(k));
  }

  // What every reachable state keeps for this.
  ghost predicate Countable(k: nat, steps: seq<Step>, s: State) {
    |s.runs| == |s.line.marks| && CleaningIsOpen(s) && FlagsBounded(k, s) && StepsPaid(k, steps, s)
  }

  lemma StepStaysCountable(c: Config, k: nat, before: seq<Step>, s: State, t: Step, s': State)
    requires AtMostActions(c.P, k) && Base(c.max, s, c.mem0) && Base(c.max, s', c.mem0)
    requires FollowsProgram(c.P, s) && FollowsProgram(c.P, s') && CanStep(c, s, t) && s' == Apply(c.max, s, t)
    requires Countable(k, before, s)
    ensures Countable(k, before + [t], s')
  {
    LogsAreBounded(c, k, s);
    LogsAreBounded(c, k, s');
    CleaningStaysOpen(c.max, s, t);
    FlagsStayBounded(c.max, k, s, t);
    forall e: nat ensures StepsOf(before + [t], e) + Left(k, s', e) <= Times(Most(k), Issues(before + [t], e)) {
      StepIsPaid(c.max, k, before, s, c.mem0, t, e);
    }
  }

  lemma {:induction false} ReachableCountable(c: Config, k: nat, steps: seq<Step>)
    requires After(c, steps).Some? && AtMostActions(c.P, k)
    ensures Countable(k, steps, After(c, steps).value)
  {
    if |steps| > 0 {
      var before, t := steps[..|steps| - 1], steps[|steps| - 1];
      ReachableCountable(c, k, before);
      assert steps == before + [t];
      RunStaysCountable(c, k, before, After(c, before).value, t, steps);
    } else {
      ReachableBase(c, steps);
    }
  }

  lemma RunStaysCountable(c: Config, k: nat, before: seq<Step>, s: State, t: Step, steps: seq<Step>)
    requires steps == before + [t] && After(c, before) == Some(s) && CanStep(c, s, t)
    requires AtMostActions(c.P, k) && Countable(k, before, s)
    ensures After(c, steps) == Some(Apply(c.max, s, t)) && Countable(k, steps, Apply(c.max, s, t))
  {
    OneMoreStep(c, before, s, t);
    ReachableBase(c, before);
    ReachableFollows(c, before);
    ReachableBase(c, steps);
    ReachableFollows(c, steps);
    StepStaysCountable(c, k, before, s, t, Apply(c.max, s, t));
  }

  lemma {:induction false} TimesGrows(x: nat, n: nat, n': nat)
    requires n <= n'
    ensures Times(x, n) <= Times(x, n')
  {
    if n < n' {
      TimesGrows(x, n, n' - 1);
    }
  }

  lemma {:induction false} FewStores(P: Program, k: nat)
    requires AtMostActions(P, k)
    ensures AtMostStores(P, k)
  {
    forall e: nat, log: seq<Event> | Follows(P(e), log) ensures Stores(log) <= k {
      StoresWithin(log);
    }
  }

  lemma {:induction false} StoresWithin(log: seq<Event>)
    ensures Stores(log) <= |log|
  {
    if |log| > 0 {
      StoresWithin(Front(log));
    }
  }

  // No epoch takes more steps than this in any run, stale executions included.
  lemma StepsPerEpoch(c: Config, k: nat, steps: seq<Step>, e: nat)
    requires After(c, steps).Some? && AtMostActions(c.P, k)
    ensures StepsOf(steps, e) <= Times(3 * k + 6, Power(k + 1, e))
  {
    ReachableBase(c, steps);
    ReachableCountable(c, k, steps);
    FewStores(c.P, k);
    BoundedRestarts(c, k, steps, e);
    TimesGrows(Most(k), Issues(steps, e), Power(k + 1, e));
  }

  // ---------------------------------------------------------------- how long a run can be

  function Longest(k: nat, n: nat): nat {
    if n == 0 then 0 else Longest(k, n - 1) + Times(3 * k + 6, Power(k + 1, n - 1))
  }

  function StepsBelow(steps: seq<Step>, n: nat): nat {
    if n == 0 then 0 else StepsBelow(steps, n - 1) + StepsOf(steps, n - 1)
  }

  lemma {:induction false} StepsBelowStep(before: seq<Step>, t: Step, n: nat)
    ensures StepsBelow(before + [t], n) == StepsBelow(before, n) + if t.e < n then 1 else 0
  {
    if n > 0 {
      StepsBelowStep(before, t, n - 1);
      assert (before + [t])[..|before|] == before;
    }
  }

  lemma {:induction false} StepsAreBelow(c: Config, steps: seq<Step>, n: nat)
    requires After(c, steps).Some? && |After(c, steps).value.runs| <= n
    ensures |steps| == StepsBelow(steps, n)
  {
    if |steps| == 0 {
      NoSteps(n);
    } else {
      var before, t := steps[..|steps| - 1], steps[|steps| - 1];
      ReachableBase(c, before);
      StepEffect(c.max, After(c, before).value, t);
      StepsAreBelow(c, before, n);
      StepsBelowStep(before, t, n);
      assert before + [t] == steps;
    }
  }

  lemma {:induction false} NoSteps(n: nat)
    ensures StepsBelow([], n) == 0
  {
    if n > 0 {
      NoSteps(n - 1);
    }
  }

  lemma {:induction false} StepsBelowWithin(c: Config, k: nat, steps: seq<Step>, n: nat)
    requires After(c, steps).Some? && AtMostActions(c.P, k)
    ensures StepsBelow(steps, n) <= Longest(k, n)
  {
    if n > 0 {
      StepsBelowWithin(c, k, steps, n - 1);
      StepsPerEpoch(c, k, steps, n - 1);
    }
  }

  // Nothing past the break of the sequential loop is handed out for commit.
  lemma NothingClaimedPastTheExit(c: Config, steps: seq<Step>, s: State, n: nat, m: Memory)
    requires After(c, steps) == Some(s) && AllClearsInTime(c, steps) && LoopExit(c.P, c.mem0, n, m)
    ensures s.line.nextCommit <= n
  {
    ReachableInv(c, steps);
    ReachableFollows(c, steps);
    AllClaimedRan(c, s);
    if n < s.line.nextCommit {
      IterationsChain(c, s, n);
      NothingRunsPastABreak(c.P, c.mem0, n, m, n, Overlay(s.runs, c.mem0, n));
    }
  }

  lemma FewSteps(c: Config, k: nat, steps: seq<Step>, n: nat)
    requires After(c, steps).Some? && AtMostActions(c.P, k) && |After(c, steps).value.runs| <= n
    ensures |steps| <= Longest(k, n)
  {
    StepsAreBelow(c, steps, n);
    StepsBelowWithin(c, k, steps, n);
  }

  lemma FewEpochs(c: Config, steps: seq<Step>, n: nat, m: Memory)
    requires After(c, steps).Some? && AllClearsInTime(c, steps) && LoopExit(c.P, c.mem0, n, m)
    ensures |After(c, steps).value.runs| <= n + c.max
  {
    ReachableBase(c, steps);
    NothingClaimedPastTheExit(c, steps, After(c, steps).value, n, m);
  }

  // If the sequential loop breaks after n iterations, no run that clears rollback
  // bits in time is longer than this, however its steps are interleaved.
  lemma {:induction false} EveryRunIsBounded(c: Config, k: nat, steps: seq<Step>, n: nat, m: Memory, epochs: nat)
    requires After(c, steps).Some? && AllClearsInTime(c, steps)
    requires AtMostActions(c.P, k) && LoopExit(c.P, c.mem0, n, m) && epochs == n + c.max
    ensures |steps| <= Longest(k, epochs)
  {
    FewEpochs(c, steps, n, m);
    FewSteps(c, k, steps, epochs);
  }

  // So it ends, and in what the sequential loop leaves behind: a run that cannot go
  // on has reached the end.
  lemma EveryRunEndsSerially(c: Config, steps: seq<Step>, s: State, n: nat, m: Memory)
    requires After(c, steps) == Some(s) && AllClearsInTime(c, steps) && AllStopsInTime(c, steps)
    requires c.max > 0 && InBounds(c.P, |c.mem0|) && LoopExit(c.P, c.mem0, n, m)
    requires forall t :: !CanStep(c, s, t)
    ensures Finished(c.max, s.line) && s.line.nextCommit == n && s.mem == m
  {
    NeverStuck(c, steps, s);
    LoopEndsWhereSerialBreaks(c, steps, s);
    LoopExitIsUnique(c.P, c.mem0, n, m, s.line.nextCommit, s.mem);
  }
}
