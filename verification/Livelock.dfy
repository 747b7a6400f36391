/**
 Bounds on wasted work: how often an epoch can be started over.
 */
module Livelock {
  import opened Serial
  import opened Speculation
  import opened Coherence
  import opened Equivalence

  // How often epoch e is handed out by yarn_epoch_next.
  function Issues(steps: seq<Step>, e: nat): nat {
    if |steps| == 0 then 0
    else
      var t := steps[|steps| - 1];
      Issues(steps[..|steps| - 1], e) + if t.IssueStep? && t.e == e then 1 else 0
  }

  // How many stores the executions of epoch e make, those in vain included.
  function StoreCount(steps: seq<Step>, e: nat): nat {
    if |steps| == 0 then 0
    else
      var t := steps[|steps| - 1];
      StoreCount(steps[..|steps| - 1], e) + if t.StoreStep? && t.e == e then 1 else 0
  }

  function StoresBelow(steps: seq<Step>, e: nat): nat {
    if e == 0 then 0 else StoresBelow(steps, e - 1) + StoreCount(steps, e - 1)
  }

  function Power(b: nat, n: nat): nat {
    if n == 0 then 1 else b * Power(b, n - 1)
  }

  // Whatever its loads return, an execution of an iteration makes at most k stores.
  ghost predicate AtMostStores(P: Program, k: nat) {
    forall e: nat, log: seq<Event> :: Follows(P(e), log) ==> Stores(log) <= k
  }

  lemma {:induction false} StoresBelowStep(before: seq<Step>, t: Step, e: nat)
    ensures StoresBelow(before + [t], e) == StoresBelow(before, e) + if t.StoreStep? && t.e < e then 1 else 0
  {
    if e > 0 {
      StoresBelowStep(before, t, e - 1);
      assert (before + [t])[..|before|] == before;
    }
  }

  // ---------------------------------------------------------------- every issue is paid for

  // Each issue but the first is paid for by a store of a lower epoch; an epoch that
  // stands rolled back has already been paid for.
  ghost predicate IssuesPaid(steps: seq<Step>, s: State) {
    forall e: nat :: Issues(steps, e) <=
      if e < s.line.next then StoresBelow(steps, e) + 1
      else if e < |s.runs| then StoresBelow(steps, e)
      else 0
  }

  lemma IssuesPaidStep(before: seq<Step>, s: State, t: Step, s': State)
    requires Effect(s, t, s') && IssuesPaid(before, s)
    ensures IssuesPaid(before + [t], s')
  {
    assert (before + [t])[..|before|] == before;
    forall e: nat
      ensures Issues(before + [t], e) <=
        if e < s'.line.next then StoresBelow(before + [t], e) + 1
        else if e < |s'.runs| then StoresBelow(before + [t], e)
        else 0
    {
      StoresBelowStep(before, t, e);
    }
  }

  lemma PaidStep(c: Config, before: seq<Step>, s: State, t: Step)
    requires Base(c.max, s, c.mem0) && CanStep(c, s, t) && IssuesPaid(before, s)
    ensures IssuesPaid(before + [t], Apply(c.max, s, t))
  {
    StepEffect(c.max, s, t);
    IssuesPaidStep(before, s, t, Apply(c.max, s, t));
  }

  lemma {:induction false} ReachablePaid(c: Config, steps: seq<Step>)
    requires After(c, steps).Some?
    ensures IssuesPaid(steps, After(c, steps).value)
  {
    if |steps| > 0 {
      var before, t := steps[..|steps| - 1], steps[|steps| - 1];
      ReachableBase(c, before);
      ReachablePaid(c, before);
      PaidStep(c, before, After(c, before).value, t);
      assert before + [t] == steps;
    } else {
      forall e: nat ensures Issues(steps, e) == 0 {
      }
    }
  }

  // ---------------------------------------------------------------- stores per issue

  // All but the current execution of an epoch made at most k stores each.
  ghost predicate StoresBounded(k: nat, steps: seq<Step>, s: State) {
    forall e: nat ::
      && (e >= |s.runs| ==> StoreCount(steps, e) == 0)
      && (e < |s.runs| ==> Issues(steps, e) >= 1 && StoreCount(steps, e) <= k * (Issues(steps, e) - 1) + Stores(s.runs[e].log))
  }

  lemma LogBounded(P: Program, k: nat, s: State, e: nat)
    requires FollowsProgram(P, s) && AtMostStores(P, k) && e < |s.runs|
    ensures Stores(s.runs[e].log) <= k
  {
  }

  // An issue starts the log of its epoch afresh, a store adds one store to it.
  function StoresAfter(s: State, t: Step): nat {
    if t.IssueStep? || t.e >= |s.runs| then 0
    else Stores(s.runs[t.e].log) + if t.StoreStep? then 1 else 0
  }

  lemma StoresBoundedStep(P: Program, k: nat, before: seq<Step>, s: State, t: Step, s': State)
    requires FollowsProgram(P, s) && Effect(s, t, s') && t.e < |s'.runs|
    requires Stores(s'.runs[t.e].log) == StoresAfter(s, t)
    requires AtMostStores(P, k) && StoresBounded(k, before, s)
    ensures StoresBounded(k, before + [t], s')
  {
    assert (before + [t])[..|before|] == before;
    forall e: nat
      ensures e >= |s'.runs| ==> StoreCount(before + [t], e) == 0
      ensures e < |s'.runs| ==>
        && Issues(before + [t], e) >= 1
        && StoreCount(before + [t], e) <= k * (Issues(before + [t], e) - 1) + Stores(s'.runs[e].log)
    {
      CountsAfter(before, t, e);
      if e < |s.runs| {
        LogBounded(P, k, s, e);
        OneMoreExecution(k, Issues(before, e), StoreCount(before, e), Stores(s.runs[e].log));
      } else if e < |s'.runs| {
        Multiply(k, 0, Issues(before, e));
      }
    }
  }

  lemma CountsAfter(before: seq<Step>, t: Step, e: nat)
    ensures Issues(before + [t], e) == Issues(before, e) + if t.IssueStep? && t.e == e then 1 else 0
    ensures StoreCount(before + [t], e) == StoreCount(before, e) + if t.StoreStep? && t.e == e then 1 else 0
  {
  }

  lemma OneMoreExecution(k: nat, n: nat, stores: nat, last: nat)
    requires n >= 1 && stores <= k * (n - 1) + last && last <= k
    ensures stores <= k * n
  {
  }

  lemma LogAfter(c: Config, s: State, t: Step)
    requires |s.runs| == |s.line.marks| && CanStep(c, s, t)
    ensures var s' := Apply(c.max, s, t); t.e < |s'.runs| && Stores(s'.runs[t.e].log) == StoresAfter(s, t)
  {
  }

  lemma BoundedStep(c: Config, k: nat, before: seq<Step>, s: State, t: Step, steps: seq<Step>)
    requires steps == before + [t] && After(c, before) == Some(s) && CanStep(c, s, t)
    requires AtMostStores(c.P, k) && StoresBounded(k, before, s)
    ensures StoresBounded(k, steps, Apply(c.max, s, t))
  {
    ReachableBase(c, before);
    ReachableFollows(c, before);
    StepEffect(c.max, s, t);
    LogAfter(c, s, t);
    StoresBoundedStep(c.P, k, before, s, t, Apply(c.max, s, t));
  }

  lemma {:induction false} ReachableStoresBounded(c: Config, k: nat, steps: seq<Step>)
    requires After(c, steps).Some? && AtMostStores(c.P, k)
    ensures StoresBounded(k, steps, After(c, steps).value)
  {
    if |steps| > 0 {
      var before, t := steps[..|steps| - 1], steps[|steps| - 1];
      ReachableStoresBounded(c, k, before);
      assert before + [t] == steps;
      BoundedStep(c, k, before, After(c, before).value, t, steps);
    }
  }

  lemma StoresPerEpoch(c: Config, k: nat, steps: seq<Step>, e: nat)
    requires After(c, steps).Some? && AtMostStores(c.P, k)
    ensures StoreCount(steps, e) <= k * Issues(steps, e)
  {
    ReachableFollows(c, steps);
    ReachableStoresBounded(c, k, steps);
    PaidByIssues(c.P, k, steps, After(c, steps).value, e);
  }

  lemma PaidByIssues(P: Program, k: nat, steps: seq<Step>, s: State, e: nat)
    requires FollowsProgram(P, s) && AtMostStores(P, k) && StoresBounded(k, steps, s)
    ensures StoreCount(steps, e) <= k * Issues(steps, e)
  {
    if e < |s.runs| {
      LogBounded(P, k, s, e);
      OneMoreExecution(k, Issues(steps, e), StoreCount(steps, e), Stores(s.runs[e].log));
    } else {
      assert StoreCount(steps, e) == 0;
    }
  }

  // ---------------------------------------------------------------- the bound

  lemma Multiply(k: nat, x: nat, y: nat)
    requires x <= y
    ensures k * x <= k * y
  {
  }

  lemma PowerStep(k: nat, n: nat)
    ensures Power(k + 1, n + 1) == k * Power(k + 1, n) + Power(k + 1, n)
  {
  }

  lemma IssuesWithin(steps: seq<Step>, s: State, e: nat)
    requires IssuesPaid(steps, s)
    ensures Issues(steps, e) <= StoresBelow(steps, e) + 1
  {
  }

  lemma {:induction false} StoresBelowBound(c: Config, k: nat, steps: seq<Step>, e: nat)
    requires After(c, steps).Some? && AtMostStores(c.P, k)
    ensures StoresBelow(steps, e) + 1 <= Power(k + 1, e)
    decreases e
  {
    if e > 0 {
      StoresBelowBound(c, k, steps, e - 1);
      ReachablePaid(c, steps);
      StoresPerEpoch(c, k, steps, e - 1);
      IssuesWithin(steps, After(c, steps).value, e - 1);
      Multiply(k, Issues(steps, e - 1), Power(k + 1, e - 1));
      PowerStep(k, e - 1);
    }
  }

  // The livelock bound. If an execution of an iteration makes at most k stores,
  // epoch e is handed out at most (k + 1) to the power e times in any run; the
  // first epoch is never started over.
  lemma BoundedRestarts(c: Config, k: nat, steps: seq<Step>, e: nat)
    requires After(c, steps).Some? && AtMostStores(c.P, k)
    ensures Issues(steps, e) <= Power(k + 1, e)
  {
    ReachablePaid(c, steps);
    StoresBelowBound(c, k, steps, e);
    IssuesWithin(steps, After(c, steps).value, e);
  }
}
