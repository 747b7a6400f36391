/**
 Concrete runs of the step machine, played one step at a time.
 */
module Playing {
  import opened Serial
  import opened Timeline
  import opened Speculation

  // How many clearings of a rollback bit, and how many stops, came too late.
  ghost function LateClears(c: Config, steps: seq<Step>): nat {
    if |steps| == 0 then 0
    else
      var before := steps[..|steps| - 1];
      LateClears(c, before) +
      if After(c, before).Some? && !ClearsInTime(After(c, before).value, steps[|steps| - 1]) then 1 else 0
  }

  ghost function LateStops(c: Config, steps: seq<Step>): nat {
    if |steps| == 0 then 0
    else
      var before := steps[..|steps| - 1];
      LateStops(c, before) +
      if After(c, before).Some? && !StopsInTime(After(c, before).value, steps[|steps| - 1]) then 1 else 0
  }

  lemma {:induction false} NoneLateIsInTime(c: Config, steps: seq<Step>)
    ensures LateClears(c, steps) == 0 <==> AllClearsInTime(c, steps)
    ensures LateStops(c, steps) == 0 <==> AllStopsInTime(c, steps)
  {
    if |steps| > 0 {
      NoneLateIsInTime(c, steps[..|steps| - 1]);
    }
  }

  // A run from the initial memory leads to s, with so many late clearings and stops.
  ghost predicate Reached(c: Config, s: State, clears: nat, stops: nat) {
    exists steps: seq<Step> ::
      After(c, steps) == Some(s) && LateClears(c, steps) == clears && LateStops(c, steps) == stops
  }

  lemma OneMore(c: Config, steps: seq<Step>, s: State, t: Step)
    requires After(c, steps) == Some(s) && CanStep(c, s, t)
    ensures After(c, steps + [t]) == Some(Apply(c.max, s, t))
    ensures LateClears(c, steps + [t]) == LateClears(c, steps) + if ClearsInTime(s, t) then 0 else 1
    ensures LateStops(c, steps + [t]) == LateStops(c, steps) + if StopsInTime(s, t) then 0 else 1
  {
    assert (steps + [t])[..|steps|] == steps;
  }

  lemma Go(c: Config, s: State, clears: nat, stops: nat, t: Step, s': State)
    requires Reached(c, s, clears, stops) && CanStep(c, s, t) && s' == Apply(c.max, s, t)
    ensures Reached(c, s', clears + (if ClearsInTime(s, t) then 0 else 1),
                    stops + (if StopsInTime(s, t) then 0 else 1))
  {
    var steps :| After(c, steps) == Some(s) && LateClears(c, steps) == clears && LateStops(c, steps) == stops;
    OneMore(c, steps, s, t);
    ReachedBy(c, steps + [t], s', LateClears(c, steps + [t]), LateStops(c, steps + [t]));
  }

  lemma ReachedBy(c: Config, steps: seq<Step>, s: State, clears: nat, stops: nat)
    requires After(c, steps) == Some(s) && LateClears(c, steps) == clears && LateStops(c, steps) == stops
    ensures Reached(c, s, clears, stops)
  {
  }

  // ---------------------------------------------------------------- scenes

  // A state, and how many steps that led to it came too late.
  datatype Scene = Scene(first: nat, nextCommit: nat, next: nat, stop: int, marks: seq<Mark>, runs: seq<Run>,
                         mem: Memory, stamps: seq<int>, lateClears: nat, lateStops: nat)

  function Of(k: Scene): State {
    State(Line(k.first, k.nextCommit, k.next, k.stop, k.marks), k.runs, k.mem, k.stamps)
  }

  ghost predicate Played(c: Config, k: Scene) {
    && |k.runs| == |k.marks| && |k.mem| == |k.stamps| && k.first <= k.nextCommit
    && Reached(c, Of(k), k.lateClears, k.lateStops)
  }

  function Opening(c: Config): Scene {
    Scene(0, 0, 0, -1, [], [], c.mem0, seq(|c.mem0|, _ => -1), 0, 0)
  }

  lemma Begin(c: Config) returns (k: Scene)
    ensures k == Opening(c) && Played(c, k)
  {
    k := Opening(c);
    assert After(c, []) == Some(Init(c.mem0));
  }

  predicate Open(k: Scene, e: nat) {
    && e < |k.runs| && e < |k.marks| && !k.runs[e].cleaning
    && (k.marks[e].status == Executing || k.marks[e].status == Pending)
  }

  const EXECUTING := Mark(Executing, false)
  const CLEANING := Mark(Executing, true)
  const PENDING := Mark(Pending, true)
  const PENDING_BARE := Mark(Pending, false)
  const ROLLED_BACK := Mark(Rollback, true)
  const ROLLED_BACK_BARE := Mark(Rollback, false)
  const DONE := Mark(Done, false)

  // What a scene looks like, memory apart.
  ghost predicate Looks(k: Scene, first: nat, nextCommit: nat, next: nat, stop: int, marks: seq<Mark>,
                        lateClears: nat, lateStops: nat, runs: seq<Run>)
  {
    && k.first == first && k.nextCommit == nextCommit && k.next == next && k.stop == stop
    && k.lateClears == lateClears && k.lateStops == lateStops
    && |k.marks| == |marks| && (forall x :: 0 <= x < |marks| ==> k.marks[x] == marks[x])
    && |k.runs| == |runs| && (forall x :: 0 <= x < |runs| ==> k.runs[x] == runs[x])
  }

  // The log, flags and buffer of an execution.
  function Ran(log: seq<Event>, loaded: set<Addr>, stored: map<Addr, Value>): Run {
    Run(false, false, log, loaded, stored)
  }

  lemma PlayIssue(c: Config, k: Scene, m: Mark, r: Run) returns (k': Scene)
    requires Played(c, k) && k.next < k.first + c.max && k.next <= |k.runs| && (k.stop >= k.first ==> k.next < k.stop)
    requires if k.next < |k.runs| then
               && k.marks[k.next].status == Rollback && m == k.marks[k.next].(status := Executing)
               && r == Run(true, false, [], k.runs[k.next].loaded, k.runs[k.next].stored)
             else m == Mark(Executing, false) && r == Ran([], {}, map[])
    ensures Played(c, k') && k'.next == k.next + 1
    ensures if k.next < |k.runs|
            then k' == k.(next := k.next + 1, marks := k.marks[k.next := m], runs := k.runs[k.next := r])
            else k' == k.(next := k.next + 1, marks := k.marks + [m], runs := k.runs + [r])
  {
    k' := if k.next < |k.runs| then k.(next := k.next + 1, marks := k.marks[k.next := m], runs := k.runs[k.next := r])
          else k.(next := k.next + 1, marks := k.marks + [m], runs := k.runs + [r]);
    Go(c, Of(k), k.lateClears, k.lateStops, IssueStep(k.next), Of(k'));
  }

  lemma PlayScrub(c: Config, k: Scene, e: nat, a: Addr, r: Run) returns (k': Scene)
    requires Played(c, k) && e < |k.runs| && k.runs[e].cleaning && Touched(k.runs[e], a)
    requires r.loaded == k.runs[e].loaded - {a} && r.stored == k.runs[e].stored - {a}
    requires r == k.runs[e].(loaded := r.loaded, stored := r.stored)
    ensures Played(c, k') && k' == k.(runs := k.runs[e := r])
  {
    k' := k.(runs := k.runs[e := r]);
    Go(c, Of(k), k.lateClears, k.lateStops, ScrubStep(e, a), Of(k'));
  }

  lemma PlayUnmask(c: Config, k: Scene, e: nat) returns (k': Scene)
    requires Played(c, k) && e < |k.runs| && k.runs[e].cleaning && k.runs[e].loaded == {} && k.runs[e].stored == map[]
    ensures Played(c, k')
    ensures k' == k.(marks := k.marks[e := k.marks[e].(masked := false)], runs := k.runs[e := k.runs[e].(cleaning := false)],
                     lateClears := k.lateClears + if k.marks[e].status == Executing then 0 else 1)
  {
    k' := k.(marks := k.marks[e := k.marks[e].(masked := false)], runs := k.runs[e := k.runs[e].(cleaning := false)],
             lateClears := k.lateClears + if k.marks[e].status == Executing then 0 else 1);
    Go(c, Of(k), k.lateClears, k.lateStops, UnmaskStep(e), Of(k'));
  }

  predicate Visible(k: Scene, x: int, a: Addr) {
    0 <= x < |k.runs| && x < |k.marks| && a in k.runs[x].stored && !k.marks[x].masked
  }

  predicate Reads(k: Scene, x: int, a: Addr) {
    0 <= x < |k.runs| && x < |k.marks| && a in k.runs[x].loaded && !k.marks[x].masked
  }

  // The value a load finds before anything is committed: that of writer w, or of
  // memory.
  lemma LoadFinds(k: Scene, e: nat, a: Addr, w: int)
    requires |k.runs| == |k.marks| && |k.mem| == |k.stamps| && k.first == 0 && a < |k.mem| && k.stamps[a] == -1
    requires -1 <= w <= e && (forall x :: w < x <= e ==> !Visible(k, x, a)) && (w >= 0 ==> Visible(k, w, a))
    ensures LoadValue(Of(k), e, a) == if w >= 0 then k.runs[w].stored[a] else k.mem[a]
  {
    var r := LatestWriter(Of(k), e, a);
    assert r.Some? ==> Visible(k, r.value, a);
    if w >= 0 {
      assert Offers(Of(k), w, a);
    }
  }

  lemma PlayLoad(c: Config, k: Scene, e: nat, a: Addr, w: int, v: Value, r: Run) returns (k': Scene)
    requires Played(c, k) && Open(k, e) && k.first == 0 && a < |k.mem| && k.stamps[a] == -1
    requires c.P(e)(k.runs[e].log) == Load(a)
    requires -1 <= w <= e && (forall x :: w < x <= e ==> !Visible(k, x, a)) && (w >= 0 ==> Visible(k, w, a))
    requires v == if w >= 0 then k.runs[w].stored[a] else k.mem[a]
    requires r.log == k.runs[e].log + [Read(a, v)] && r.loaded == k.runs[e].loaded + {a}
    requires r == k.runs[e].(log := r.log, loaded := r.loaded)
    ensures Played(c, k') && k' == k.(runs := k.runs[e := r])
  {
    k' := k.(runs := k.runs[e := r]);
    LoadFinds(k, e, a, w);
    Go(c, Of(k), k.lateClears, k.lateStops, LoadStep(e, a), Of(k'));
  }

  lemma PlayQuietStore(c: Config, k: Scene, e: nat, a: Addr, v: Value, r: Run) returns (k': Scene)
    requires Played(c, k) && Open(k, e) && a < |k.mem| && c.P(e)(k.runs[e].log) == Store(a, v)
    requires forall x :: e < x < k.next ==> !Reads(k, x, a)
    requires r.log == k.runs[e].log + [Write(a, v)] && r.stored == k.runs[e].stored[a := v]
    requires r == k.runs[e].(log := r.log, stored := r.stored)
    ensures Played(c, k') && k' == k.(runs := k.runs[e := r])
  {
    k' := k.(runs := k.runs[e := r]);
    var f := EarliestReader(Of(k), e + 1, a);
    assert f.Some? ==> Reads(k, f.value, a);
    Go(c, Of(k), k.lateClears, k.lateStops, StoreStep(e, a, v), Of(k'));
  }

  // A store that rolls back everything from epoch start on, while no stop is set.
  lemma PlayStore(c: Config, k: Scene, e: nat, a: Addr, v: Value, r: Run, start: nat, ms: seq<Mark>)
    returns (k': Scene)
    requires Played(c, k) && Open(k, e) && a < |k.mem| && c.P(e)(k.runs[e].log) == Store(a, v) && k.stop < k.first
    requires e < start < k.next && Reads(k, start, a) && forall x :: e < x < start ==> !Reads(k, x, a)
    requires r.log == k.runs[e].log + [Write(a, v)] && r.stored == k.runs[e].stored[a := v]
    requires r == k.runs[e].(log := r.log, stored := r.stored)
    requires |ms| == |k.marks| && forall x :: 0 <= x < |ms| ==>
               ms[x] == if start <= x < k.next then RolledBack(k.marks[x]) else k.marks[x]
    ensures Played(c, k') && k' == k.(next := start, marks := ms, runs := k.runs[e := r])
  {
    k' := k.(next := start, marks := ms, runs := k.runs[e := r]);
    var s := Of(k);
    var f := EarliestReader(s, e + 1, a);
    assert Exposed(s, start, a);
    assert f.Some? ==> Reads(k, f.value, a);
    assert DoRollback(s.line, start).marks == ms;
    Go(c, s, k.lateClears, k.lateStops, StoreStep(e, a, v), Of(k'));
  }

  lemma PlayStop(c: Config, k: Scene, e: nat) returns (k': Scene)
    requires Played(c, k) && Open(k, e) && !k.runs[e].broke && c.P(e)(k.runs[e].log) == Break && k.stop < k.first
    ensures Played(c, k')
    ensures k' == k.(stop := e + 1, runs := k.runs[e := k.runs[e].(broke := true)],
                     lateStops := k.lateStops + if k.marks[e].status == Executing then 0 else 1)
  {
    k' := k.(stop := e + 1, runs := k.runs[e := k.runs[e].(broke := true)],
             lateStops := k.lateStops + if k.marks[e].status == Executing then 0 else 1);
    Go(c, Of(k), k.lateClears, k.lateStops, StopStep(e), Of(k'));
  }

  lemma PlayDone(c: Config, k: Scene, e: nat) returns (k': Scene)
    requires Played(c, k) && Open(k, e)
    requires c.P(e)(k.runs[e].log) == Continue || (c.P(e)(k.runs[e].log) == Break && k.runs[e].broke)
    ensures Played(c, k')
    ensures k' == k.(marks := k.marks[e := k.marks[e].(status := if k.marks[e].status == Executing then Done else Rollback)])
  {
    k' := k.(marks := k.marks[e := k.marks[e].(status := if k.marks[e].status == Executing then Done else Rollback)]);
    Go(c, Of(k), k.lateClears, k.lateStops, DoneStep(e), Of(k'));
  }

  lemma PlayClaim(c: Config, k: Scene) returns (k': Scene)
    requires Played(c, k) && k.nextCommit < k.next <= |k.marks| && k.marks[k.nextCommit].status == Done
    requires k.stop >= k.first ==> k.stop != k.nextCommit
    ensures Played(c, k') && k' == k.(nextCommit := k.nextCommit + 1)
  {
    k' := k.(nextCommit := k.nextCommit + 1);
    Go(c, Of(k), k.lateClears, k.lateStops, ClaimStep(k.nextCommit), Of(k'));
  }

  predicate Committing(k: Scene, e: nat) {
    k.first <= e < k.nextCommit && e < |k.runs| && e < |k.marks| && k.marks[e].status == Done
  }

  // Writing back an address that the epoch has read, or that it has stored to.
  lemma PlayWriteBack(c: Config, k: Scene, e: nat, a: Addr, r: Run) returns (k': Scene)
    requires Played(c, k) && Committing(k, e) && Touched(k.runs[e], a) && a < |k.mem|
    requires r.loaded == k.runs[e].loaded - {a} && r.stored == k.runs[e].stored - {a}
    requires r == k.runs[e].(loaded := r.loaded, stored := r.stored)
    requires a in k.runs[e].stored ==> e > k.stamps[a]
    ensures Played(c, k')
    ensures k' == if a in k.runs[e].stored
                  then k.(runs := k.runs[e := r], mem := k.mem[a := k.runs[e].stored[a]], stamps := k.stamps[a := e])
                  else k.(runs := k.runs[e := r])
  {
    k' := if a in k.runs[e].stored
          then k.(runs := k.runs[e := r], mem := k.mem[a := k.runs[e].stored[a]], stamps := k.stamps[a := e])
          else k.(runs := k.runs[e := r]);
    Go(c, Of(k), k.lateClears, k.lateStops, WriteBackStep(e, a), Of(k'));
  }

  lemma FirstMovesOnce(l: Line)
    requires l.first < l.nextCommit && At(l, l.first).status == Commit
    requires l.first + 1 < l.nextCommit ==> At(l, l.first + 1).status != Commit
    ensures AdvanceFirst(l) == l.(first := l.first + 1)
  {
    assert AdvanceFirst(l.(first := l.first + 1)) == l.(first := l.first + 1);
  }

  // Marking the first epoch committed, while the next one is not.
  lemma PlayCommitted(c: Config, k: Scene) returns (k': Scene)
    requires Played(c, k) && Committing(k, k.first) && k.runs[k.first].loaded == {} && k.runs[k.first].stored == map[]
    requires k.first + 1 < k.nextCommit ==> k.first + 1 < |k.marks| && k.marks[k.first + 1].status == Done
    requires k.stop >= k.first ==> k.stop > k.first
    ensures Played(c, k')
    ensures k' == k.(first := k.first + 1, marks := k.marks[k.first := k.marks[k.first].(status := Commit)],
                     stop := if k.stop >= k.first then k.stop else k.first)
  {
    k' := k.(first := k.first + 1, marks := k.marks[k.first := k.marks[k.first].(status := Commit)],
             stop := if k.stop >= k.first then k.stop else k.first);
    FirstMovesOnce(Of(k).line.(marks := k'.marks));
    Go(c, Of(k), k.lateClears, k.lateStops, CommittedStep(k.first), Of(k'));
  }
}
