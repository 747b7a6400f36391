/**
 Loop iterations and the sequential loop they come from.

 An iteration is a deterministic program that touches shared memory only through
 loads and stores: what it does next is a function of what it has done and read so
 far. The sequential loop runs iteration after iteration on one memory and leaves
 after the first one that breaks. This is the meaning a speculative run is held to.
 */
module Serial {

  type Addr = nat
  type Value = int
  type Memory = seq<Value>

  datatype Event = Read(a: Addr, v: Value) | Write(a: Addr, v: Value)

  // Continue and Break are yarn_ret_continue and yarn_ret_break.
  datatype Action = Load(a: Addr) | Store(a: Addr, v: Value) | Continue | Break

  type Iteration = seq<Event> -> Action
  type Program = nat -> Iteration

  // ---------------------------------------------------------------- logs

  function Front(log: seq<Event>): seq<Event>
    requires |log| > 0
  {
    log[..|log| - 1]
  }

  function Last(log: seq<Event>): Event
    requires |log| > 0
  {
    log[|log| - 1]
  }

  // The last value a log stored to each address it stored to.
  function Written(log: seq<Event>): map<Addr, Value> {
    if |log| == 0 then map[]
    else if Last(log).Write? then Written(Front(log))[Last(log).a := Last(log).v]
    else Written(Front(log))
  }

  function ReadSet(log: seq<Event>): set<Addr> {
    if |log| == 0 then {}
    else if Last(log).Read? then ReadSet(Front(log)) + {Last(log).a}
    else ReadSet(Front(log))
  }

  function Stores(log: seq<Event>): nat {
    if |log| == 0 then 0 else Stores(Front(log)) + if Last(log).Write? then 1 else 0
  }

  // What an iteration sees at an address: its own last store, or else the memory.
  function Lookup(w: map<Addr, Value>, m: Memory, a: Addr): Value
    requires a < |m|
  {
    if a in w then w[a] else m[a]
  }

  function Patch(m: Memory, w: map<Addr, Value>): (r: Memory)
    ensures |r| == |m| && forall a :: 0 <= a < |m| ==> r[a] == Lookup(w, m, a)
  {
    seq(|m|, a requires 0 <= a < |m| => Lookup(w, m, a))
  }

  // Every value the log read is the one it would have read running alone on m.
  ghost predicate Consistent(log: seq<Event>, m: Memory) {
    |log| > 0 ==>
      && Consistent(Front(log), m)
      && Last(log).a < |m|
      && (Last(log).Read? ==> Last(log).v == Lookup(Written(Front(log)), m, Last(log).a))
  }

  // The log is what the iteration does when its loads return what was logged.
  ghost predicate Follows(p: Iteration, log: seq<Event>) {
    |log| > 0 ==>
      && Follows(p, Front(log))
      && match p(Front(log))
         case Load(a) => Last(log).Read? && Last(log).a == a
         case Store(a, v) => Last(log) == Write(a, v)
         case _ => false
  }

  // ---------------------------------------------------------------- the sequential loop

  datatype Machine = Machine(log: seq<Event>, mem: Memory)

  // One action of an iteration that has the memory to itself.
  ghost function SerialStep(p: Iteration, k: Machine): Machine {
    match p(k.log)
    case Load(a) => if a < |k.mem| then Machine(k.log + [Read(a, k.mem[a])], k.mem) else k
    case Store(a, v) => if a < |k.mem| then Machine(k.log + [Write(a, v)], k.mem[a := v]) else k
    case _ => k
  }

  ghost function SerialSteps(p: Iteration, m: Memory, n: nat): Machine {
    if n == 0 then Machine([], m) else SerialStep(p, SerialSteps(p, m, n - 1))
  }

  // Running the iteration alone from m ends, by the given return, in memory m'.
  ghost predicate Ends(p: Iteration, m: Memory, m': Memory, ret: Action) {
    && (ret == Continue || ret == Break)
    && exists n: nat :: p(SerialSteps(p, m, n).log) == ret && SerialSteps(p, m, n).mem == m'
  }

  ghost predicate IterationEnds(P: Program, i: nat, m: Memory, m': Memory, ret: Action) {
    Ends(P(i), m, m', ret)
  }

  // The first n iterations of the sequential loop lead from m0 to m, all of them
  // returning continue.
  ghost predicate RunsThrough(P: Program, m0: Memory, n: nat, m: Memory)
    decreases n, 0
  {
    if n == 0 then m == m0 else RunsUpTo(P, m0, n - 1, m, Continue)
  }

  // The iterations before i return continue, and iteration i then ends in m by ret.
  ghost predicate RunsUpTo(P: Program, m0: Memory, i: nat, m: Memory, ret: Action)
    decreases i, 1
  {
    exists k: Memory :: RunsThrough(P, m0, i, k) && IterationEnds(P, i, k, m, ret)
  }

  // The sequential loop is left by the break of iteration n - 1, with memory m.
  ghost predicate LoopExit(P: Program, m0: Memory, n: nat, m: Memory) {
    n > 0 && RunsUpTo(P, m0, n - 1, m, Break)
  }

  // The first n iterations of the sequential loop lead from m0 to m; the last of
  // them may be the one that breaks.
  ghost predicate LoopPrefix(P: Program, m0: Memory, n: nat, m: Memory) {
    RunsThrough(P, m0, n, m) || LoopExit(P, m0, n, m)
  }

  // Every address the loop touches is one of the memory.
  ghost predicate InBounds(P: Program, n: nat) {
    forall e, log :: match P(e)(log)
                     case Load(a) => a < n
                     case Store(a, _) => a < n
                     case _ => true
  }

  // ---------------------------------------------------------------- determinism

  lemma {:induction false} EndStays(p: Iteration, m: Memory, n: nat, n': nat)
    requires n <= n'
    requires p(SerialSteps(p, m, n).log) == Continue || p(SerialSteps(p, m, n).log) == Break
    ensures SerialSteps(p, m, n') == SerialSteps(p, m, n)
  {
    if n < n' {
      EndStays(p, m, n, n' - 1);
    }
  }

  lemma EndsOnce(p: Iteration, m: Memory, m1: Memory, r1: Action, m2: Memory, r2: Action)
    requires Ends(p, m, m1, r1) && Ends(p, m, m2, r2)
    ensures m1 == m2 && r1 == r2
  {
    var n1: nat :| p(SerialSteps(p, m, n1).log) == r1 && SerialSteps(p, m, n1).mem == m1;
    var n2: nat :| p(SerialSteps(p, m, n2).log) == r2 && SerialSteps(p, m, n2).mem == m2;
    if n1 <= n2 {
      EndStays(p, m, n1, n2);
    } else {
      EndStays(p, m, n2, n1);
    }
  }

  lemma {:induction false} RunsThroughOnce(P: Program, m0: Memory, n: nat, m1: Memory, m2: Memory)
    requires RunsThrough(P, m0, n, m1) && RunsThrough(P, m0, n, m2)
    ensures m1 == m2
    decreases n, 0
  {
    if n > 0 {
      RunsUpToOnce(P, m0, n - 1, m1, Continue, m2, Continue);
    }
  }

  lemma {:induction false} RunsUpToOnce(P: Program, m0: Memory, i: nat, m1: Memory, r1: Action, m2: Memory, r2: Action)
    requires RunsUpTo(P, m0, i, m1, r1) && RunsUpTo(P, m0, i, m2, r2)
    ensures m1 == m2 && r1 == r2
    decreases i, 1
  {
    var k1: Memory :| RunsThrough(P, m0, i, k1) && IterationEnds(P, i, k1, m1, r1);
    var k2: Memory :| RunsThrough(P, m0, i, k2) && IterationEnds(P, i, k2, m2, r2);
    RunsThroughOnce(P, m0, i, k1, k2);
    EndsOnce(P(i), k1, m1, r1, m2, r2);
  }

  // A loop that runs through n iterations had each of them return continue.
  lemma {:induction false} RunsThroughFewer(P: Program, m0: Memory, n: nat, m: Memory, i: nat) returns (k: Memory)
    requires RunsThrough(P, m0, n, m) && i < n
    ensures RunsUpTo(P, m0, i, k, Continue)
  {
    if i == n - 1 {
      k := m;
    } else {
      var j: Memory :| RunsThrough(P, m0, n - 1, j) && IterationEnds(P, n - 1, j, m, Continue);
      k := RunsThroughFewer(P, m0, n - 1, j, i);
    }
  }

  lemma NothingRunsPastABreak(P: Program, m0: Memory, n: nat, m: Memory, n': nat, m': Memory)
    requires LoopExit(P, m0, n, m) && RunsThrough(P, m0, n', m')
    ensures n' < n
  {
    if n <= n' {
      var k := RunsThroughFewer(P, m0, n', m', n - 1);
      RunsUpToOnce(P, m0, n - 1, m, Break, k, Continue);
    }
  }

  // The sequential loop leaves at most once and with one memory: the result a
  // speculative run is compared with is well defined.
  lemma LoopExitIsUnique(P: Program, m0: Memory, n1: nat, m1: Memory, n2: nat, m2: Memory)
    requires LoopExit(P, m0, n1, m1) && LoopExit(P, m0, n2, m2)
    ensures n1 == n2 && m1 == m2
  {
    var k1: Memory :| RunsThrough(P, m0, n1 - 1, k1) && IterationEnds(P, n1 - 1, k1, m1, Break);
    var k2: Memory :| RunsThrough(P, m0, n2 - 1, k2) && IterationEnds(P, n2 - 1, k2, m2, Break);
    NothingRunsPastABreak(P, m0, n1, m1, n2 - 1, k2);
    NothingRunsPastABreak(P, m0, n2, m2, n1 - 1, k1);
    RunsUpToOnce(P, m0, n1 - 1, m1, Break, m2, Break);
  }

  // Nor does any number of iterations have two outcomes.
  lemma LoopPrefixIsUnique(P: Program, m0: Memory, n: nat, m1: Memory, m2: Memory)
    requires LoopPrefix(P, m0, n, m1) && LoopPrefix(P, m0, n, m2)
    ensures m1 == m2
  {
    if n == 0 {
      assert m1 == m0 && m2 == m0;
    } else {
      var r1 := if RunsThrough(P, m0, n, m1) then Continue else Break;
      var r2 := if RunsThrough(P, m0, n, m2) then Continue else Break;
      RunsUpToOnce(P, m0, n - 1, m1, r1, m2, r2);
    }
  }

  // ---------------------------------------------------------------- logs and runs

  lemma FrontOfAppend(log: seq<Event>, ev: Event)
    ensures Front(log + [ev]) == log && Last(log + [ev]) == ev
  {
  }

  lemma {:induction false} ConsistentFrame(log: seq<Event>, m: Memory, m': Memory)
    requires Consistent(log, m) && |m'| == |m|
    requires forall a :: a in ReadSet(log) && 0 <= a < |m| ==> m'[a] == m[a]
    ensures Consistent(log, m')
  {
    if |log| > 0 {
      ConsistentFrame(Front(log), m, m');
    }
  }

  lemma {:induction false} LogAddresses(log: seq<Event>, m: Memory)
    requires Consistent(log, m)
    ensures forall a :: a in Written(log) ==> a < |m|
    ensures forall a :: a in ReadSet(log) ==> a < |m|
  {
    if |log| > 0 {
      LogAddresses(Front(log), m);
    }
  }

  // A log the iteration follows and that is consistent with m is what the
  // iteration does when it runs alone on m.
  lemma {:induction false} ConsistentIsSerial(p: Iteration, log: seq<Event>, m: Memory)
    requires Follows(p, log) && Consistent(log, m)
    ensures SerialSteps(p, m, |log|) == Machine(log, Patch(m, Written(log)))
  {
    if |log| == 0 {
      assert Patch(m, map[]) == m;
      assert log == [];
    } else {
      var front := Front(log);
      ConsistentIsSerial(p, front, m);
      assert log == front + [Last(log)];
      var k := SerialSteps(p, m, |front|);
      if Last(log).Write? {
        assert k.mem[Last(log).a := Last(log).v] == Patch(m, Written(log));
      }
    }
  }

  lemma FinishedLogEnds(p: Iteration, log: seq<Event>, m: Memory)
    requires Follows(p, log) && Consistent(log, m)
    requires p(log) == Continue || p(log) == Break
    ensures Ends(p, m, Patch(m, Written(log)), p(log))
  {
    ConsistentIsSerial(p, log, m);
    assert p(SerialSteps(p, m, |log|).log) == p(log);
  }
}
