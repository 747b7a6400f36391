/**
 The whole runtime as a step machine: the timeline of epoch.c, the flags, write
 buffers and commits of dependency.c, and the worker loop of yarn.c that drives
 them. Any number of workers may take part: a step belongs to whichever worker
 holds the epoch, and steps of different epochs interleave freely.

 What dependency.c keeps per address and slot is told here per epoch: the
 addresses whose read bit is set, and the value buffered at every address whose
 write bit is set. Class Dependency shows that the packed words agree.
 */
module Speculation {
  import opened Serial
  import opened Timeline

  datatype Option<T> = None | Some(value: T)

  // cleaning: the worker that holds the epoch has called yarn_epoch_next but not
  // yet yarn_epoch_rollback_done. broke: it has called yarn_epoch_stop.
  datatype Run = Run(cleaning: bool, broke: bool, log: seq<Event>, loaded: set<Addr>, stored: map<Addr, Value>)

  datatype State = State(line: Line, runs: seq<Run>, mem: Memory, lastCommit: seq<int>)

  // One operation of a worker. The rollback of an epoch and its commit are taken
  // one address at a time, as their loops do.
  datatype Step =
    | IssueStep(e: nat)
    | ScrubStep(e: nat, a: Addr)
    | UnmaskStep(e: nat)
    | LoadStep(e: nat, a: Addr)
    | StoreStep(e: nat, a: Addr, v: Value)
    | StopStep(e: nat)
    | DoneStep(e: nat)
    | ClaimStep(e: nat)
    | WriteBackStep(e: nat, a: Addr)
    | CommittedStep(e: nat)

  function Init(mem0: Memory): State {
    State(Start(), [], mem0, seq(|mem0|, _ => -1))
  }

  function StatusOf(s: State, e: nat): Status {
    At(s.line, e).status
  }

  // ---------------------------------------------------------------- loads and stores

  predicate Offers(s: State, x: nat, a: Addr) {
    x < |s.runs| && a in s.runs[x].stored && !At(s.line, x).masked
  }

  predicate Exposed(s: State, x: nat, a: Addr) {
    x < |s.runs| && a in s.runs[x].loaded && !At(s.line, x).masked
  }

  // The latest epoch of [first, w] with a buffered write, skipping masked ones.
  function LatestWriter(s: State, w: int, a: Addr): (r: Option<nat>)
    ensures r.Some? ==> s.line.first <= r.value <= w && Offers(s, r.value, a)
    ensures forall x: nat :: s.line.first <= x <= w && (r.Some? ==> r.value < x) ==> !Offers(s, x, a)
    decreases w
  {
    if w < s.line.first || w < 0 then None
    else if Offers(s, w, a) then Some(w)
    else LatestWriter(s, w - 1, a)
  }

  // load_from_wbuf: the buffered value if it is newer than the last commit to the
  // address, otherwise memory.
  function BufferOrMemory(s: State, w: Option<nat>, a: Addr): Value
    requires a < |s.mem| == |s.lastCommit|
    requires w.Some? ==> w.value < |s.runs| && a in s.runs[w.value].stored
  {
    if w.Some? && w.value > s.lastCommit[a] then s.runs[w.value].stored[a] else s.mem[a]
  }

  function LoadValue(s: State, e: nat, a: Addr): Value
    requires a < |s.mem| == |s.lastCommit|
  {
    BufferOrMemory(s, LatestWriter(s, e, a), a)
  }

  // dep_violation_check: the earliest epoch of [x, next) with its read bit set,
  // skipping masked ones.
  function EarliestReader(s: State, x: nat, a: Addr): (r: Option<nat>)
    ensures r.Some? ==> x <= r.value < s.line.next && Exposed(s, r.value, a)
    ensures forall y: nat :: x <= y < s.line.next && (r.Some? ==> y < r.value) ==> !Exposed(s, y, a)
    decreases s.line.next - x
  {
    if x >= s.line.next then None
    else if Exposed(s, x, a) then Some(x)
    else EarliestReader(s, x + 1, a)
  }

  function AfterStore(s: State, r: Option<nat>): State {
    if r.Some? then s.(line := DoRollback(s.line, r.value)) else s
  }

  // ---------------------------------------------------------------- the steps

  // The epoch is being executed by a worker, possibly in vain.
  predicate Running(s: State, e: nat) {
    && e < |s.runs|
    && (StatusOf(s, e) == Executing || StatusOf(s, e) == Pending)
    && !s.runs[e].cleaning
  }

  // An epoch that yarn_epoch_next handed out again and yarn_dep_rollback has not
  // finished with.
  predicate BeingCleaned(s: State, e: nat) {
    e < |s.runs| && s.runs[e].cleaning && (StatusOf(s, e) == Executing || StatusOf(s, e) == Pending)
  }

  predicate Claimed(s: State, e: nat) {
    s.line.first <= e < s.line.nextCommit && e < |s.runs| && StatusOf(s, e) == Done
  }

  predicate Touched(r: Run, a: Addr) {
    a in r.loaded || a in r.stored
  }

  predicate Enabled(max: nat, s: State, t: Step) {
    && |s.runs| == |s.line.marks| && |s.lastCommit| == |s.mem| && s.line.first <= s.line.nextCommit
    && match t
       case IssueStep(e) => e == s.line.next && e <= |s.runs| && CanIssue(max, s.line)
       case ScrubStep(e, a) => e < |s.runs| && s.runs[e].cleaning && Touched(s.runs[e], a)
       case UnmaskStep(e) => e < |s.runs| && s.runs[e].cleaning && s.runs[e].loaded == {} && s.runs[e].stored == map[]
       case LoadStep(e, a) => Running(s, e) && a < |s.mem|
       case StoreStep(e, a, v) => Running(s, e) && a < |s.mem|
       case StopStep(e) => Running(s, e) && !s.runs[e].broke
       case DoneStep(e) => Running(s, e)
       case ClaimStep(e) => e == s.line.nextCommit && CanClaim(s.line)
       case WriteBackStep(e, a) => Claimed(s, e) && Touched(s.runs[e], a) && a < |s.mem|
       case CommittedStep(e) => Claimed(s, e) && s.runs[e].loaded == {} && s.runs[e].stored == map[]
  }

  // clear_flags
  function Clear(r: Run, a: Addr): Run {
    r.(loaded := r.loaded - {a}, stored := r.stored - {a})
  }

  // One round of the loop in yarn_dep_commit: the value goes to memory only if no
  // newer epoch got there first.
  function WriteBack(s: State, e: nat, a: Addr): State
    requires e < |s.runs| && a < |s.mem| == |s.lastCommit|
  {
    var r := s.runs[e];
    if a in r.stored && e > s.lastCommit[a]
    then State(s.line, s.runs[e := Clear(r, a)], s.mem[a := r.stored[a]], s.lastCommit[a := e])
    else s.(runs := s.runs[e := Clear(r, a)])
  }

  function Issued(s: State): Run {
    if s.line.next < |s.runs| then
      Run(At(s.line, s.line.next).status == Rollback, false, [], s.runs[s.line.next].loaded, s.runs[s.line.next].stored)
    else Run(false, false, [], {}, map[])
  }

  function Apply(max: nat, s: State, t: Step): State
    requires Enabled(max, s, t)
  {
    match t
    case IssueStep(e) =>
      s.(line := Issue(s.line), runs := if e < |s.runs| then s.runs[e := Issued(s)] else s.runs + [Issued(s)])
    case ScrubStep(e, a) => s.(runs := s.runs[e := Clear(s.runs[e], a)])
    case UnmaskStep(e) => s.(line := Unmask(s.line, e), runs := s.runs[e := s.runs[e].(cleaning := false)])
    case LoadStep(e, a) =>
      var r := s.runs[e];
      s.(runs := s.runs[e := r.(log := r.log + [Read(a, LoadValue(s, e, a))], loaded := r.loaded + {a})])
    case StoreStep(e, a, v) =>
      var r := s.runs[e];
      AfterStore(s.(runs := s.runs[e := r.(log := r.log + [Write(a, v)], stored := r.stored[a := v])]),
                 EarliestReader(s, e + 1, a))
    case StopStep(e) => s.(line := StopAt(s.line, e), runs := s.runs[e := s.runs[e].(broke := true)])
    case DoneStep(e) => s.(line := SetDone(s.line, e))
    case ClaimStep(e) => s.(line := Claim(s.line))
    case WriteBackStep(e, a) => WriteBack(s, e, a)
    case CommittedStep(e) => s.(line := CommitDone(s.line, e))
  }

  // The worker that runs epoch e does what iteration e of the program says.
  ghost predicate Obeys(P: Program, s: State, t: Step)
    requires t.e < |s.runs| || t.IssueStep?
  {
    match t
    case LoadStep(e, a) => P(e)(s.runs[e].log) == Load(a)
    case StoreStep(e, a, v) => P(e)(s.runs[e].log) == Store(a, v)
    case StopStep(e) => P(e)(s.runs[e].log) == Break
    case DoneStep(e) => P(e)(s.runs[e].log) == Continue || (P(e)(s.runs[e].log) == Break && s.runs[e].broke)
    case _ => true
  }

  // yarn_epoch_rollback_done does not check that the epoch was not rolled back
  // again since it was issued. This is asked for only where the claim is about
  // the values that are read.
  predicate ClearsInTime(s: State, t: Step) {
    t.UnmaskStep? ==> StatusOf(s, t.e) == Executing
  }

  // yarn_epoch_stop does not check that the epoch was not rolled back either. This
  // is asked for only where the claim is about when the loop ends.
  predicate StopsInTime(s: State, t: Step) {
    t.StopStep? ==> StatusOf(s, t.e) == Executing || StopSet(s.line)
  }

  datatype Config = Config(P: Program, max: nat, mem0: Memory)

  ghost predicate CanStep(c: Config, s: State, t: Step) {
    Enabled(c.max, s, t) && Obeys(c.P, s, t)
  }

  // Where the given steps lead from the initial memory, if they can all be taken.
  ghost function After(c: Config, steps: seq<Step>): Option<State> {
    if |steps| == 0 then Some(Init(c.mem0))
    else
      var t := steps[|steps| - 1];
      match After(c, steps[..|steps| - 1])
      case None => None
      case Some(s) => if CanStep(c, s, t) then Some(Apply(c.max, s, t)) else None
  }

  // In a run, every clearing of a rollback bit, or every stop, was made in time.
  ghost predicate AllClearsInTime(c: Config, steps: seq<Step>) {
    |steps| > 0 ==>
      && AllClearsInTime(c, steps[..|steps| - 1])
      && (After(c, steps[..|steps| - 1]).Some? ==>
            ClearsInTime(After(c, steps[..|steps| - 1]).value, steps[|steps| - 1]))
  }

  ghost predicate AllStopsInTime(c: Config, steps: seq<Step>) {
    |steps| > 0 ==>
      && AllStopsInTime(c, steps[..|steps| - 1])
      && (After(c, steps[..|steps| - 1]).Some? ==>
            StopsInTime(After(c, steps[..|steps| - 1]).value, steps[|steps| - 1]))
  }

  lemma OneMoreStep(c: Config, steps: seq<Step>, s: State, t: Step)
    requires After(c, steps) == Some(s) && CanStep(c, s, t)
    ensures After(c, steps + [t]) == Some(Apply(c.max, s, t))
    ensures AllClearsInTime(c, steps + [t]) <==> AllClearsInTime(c, steps) && ClearsInTime(s, t)
    ensures AllStopsInTime(c, steps + [t]) <==> AllStopsInTime(c, steps) && StopsInTime(s, t)
  {
    assert (steps + [t])[..|steps|] == steps;
  }
}
