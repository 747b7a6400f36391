/**
 The invariant of the runtime, and the proof that every step keeps it.

 Its heart is NoStaleReads: whatever a live epoch has read from others is what the
 current stores of the epochs below it, laid over the initial memory, give.
 */
module Coherence {
  import opened Serial
  import opened Timeline
  import opened Speculation

  // The initial memory with the stores of the epochs below e laid over it in order.
  function Overlay(runs: seq<Run>, mem0: Memory, e: nat): (m: Memory)
    requires e <= |runs|
    ensures |m| == |mem0|
  {
    if e == 0 then mem0 else Patch(Overlay(runs, mem0, e - 1), Written(runs[e - 1].log))
  }

  ghost predicate Shape(s: State, mem0: Memory) {
    |s.runs| == |s.line.marks| && |s.mem| == |s.lastCommit| == |mem0|
  }

  // Between yarn_epoch_next and yarn_epoch_rollback_done the old flags of the slot
  // are still set, and masked.
  ghost predicate Cleaning(s: State)
    requires |s.runs| == |s.line.marks|
  {
    && (forall e :: 0 <= e < |s.runs| && s.runs[e].cleaning ==>
          && (StatusOf(s, e) == Executing || StatusOf(s, e) == Pending)
          && s.line.marks[e].masked && s.runs[e].log == [])
    && Started(s)
  }

  // An execution that is past yarn_epoch_rollback_done has no rollback bit.
  ghost predicate Started(s: State)
    requires |s.runs| == |s.line.marks|
  {
    forall e :: 0 <= e < |s.runs| && StatusOf(s, e) == Executing && !s.runs[e].cleaning ==> !s.line.marks[e].masked
  }

  // An epoch that may still be rolled back has its flags and buffer in step with
  // what it did.
  ghost predicate FlagsMatchLog(s: State)
    requires |s.runs| == |s.line.marks|
  {
    forall e :: s.line.nextCommit <= e < s.line.next && e < |s.runs| && !s.runs[e].cleaning ==>
      s.runs[e].stored == Written(s.runs[e].log) && s.runs[e].loaded == ReadSet(s.runs[e].log)
  }

  // A claimed epoch loses its flags one by one; what is left is unchanged.
  ghost predicate ClaimedFlags(s: State)
    requires |s.runs| == |s.line.marks|
  {
    && (forall e, a :: 0 <= e < s.line.nextCommit && e < |s.runs| && a in s.runs[e].stored ==>
          a in Written(s.runs[e].log) && s.runs[e].stored[a] == Written(s.runs[e].log)[a])
    && (forall e :: 0 <= e < |s.runs| && StatusOf(s, e) == Commit ==> s.runs[e].loaded == {} && s.runs[e].stored == map[])
  }

  // Every store of a claimed epoch is still buffered or has reached memory, unless
  // a later one got there first.
  ghost predicate StoresArrive(s: State)
    requires |s.mem| == |s.lastCommit|
  {
    forall e, a :: 0 <= e < s.line.nextCommit && e < |s.runs| && a in Written(s.runs[e].log) && a < |s.mem| ==>
      a in s.runs[e].stored || s.lastCommit[a] >= e
  }

  // Memory holds the store of the last epoch that committed to the address.
  ghost predicate LastCommits(s: State, mem0: Memory)
    requires |s.mem| == |s.lastCommit| == |mem0|
  {
    forall a :: 0 <= a < |s.mem| ==>
      var c := s.lastCommit[a];
      || (c == -1 && s.mem[a] == mem0[a])
      || (&& 0 <= c < s.line.nextCommit && c < |s.runs|
          && a in Written(s.runs[c].log) && a !in s.runs[c].stored && s.mem[a] == Written(s.runs[c].log)[a])
  }

  ghost predicate NoStaleReads(s: State, mem0: Memory) {
    forall e :: 0 <= e < s.line.next && e < |s.runs| ==> Consistent(s.runs[e].log, Overlay(s.runs, mem0, e))
  }

  // A live epoch that called yarn_epoch_stop is not forgotten: nothing after the
  // lowest of them can be claimed.
  ghost predicate BreaksStop(s: State) {
    forall e :: 0 <= e < s.line.next && e < |s.runs| && s.runs[e].broke ==> StopSet(s.line) && s.line.stop <= e + 1
  }

  // Conversely the stop bound is there because of a live epoch that broke.
  ghost predicate StopIsEarned(s: State) {
    StopSet(s.line) ==> exists e :: 0 <= e < s.line.next && e < |s.runs| && s.runs[e].broke && s.line.stop == e + 1
  }

  // The part of the invariant about the flags and executions of single epochs.
  ghost predicate EpochsFit(s: State)
    requires |s.runs| == |s.line.marks|
  {
    Cleaning(s) && FlagsMatchLog(s) && BreaksStop(s)
  }

  ghost predicate Inv(max: nat, s: State, mem0: Memory) {
    && Shape(s, mem0)
    && Ring(max, s.line) && Masks(s.line) && StopBound(max, s.line)
    && EpochsFit(s) && ClaimedFlags(s)
    && StoresArrive(s) && LastCommits(s, mem0) && NoStaleReads(s, mem0)
  }

  // ---------------------------------------------------------------- overlays

  lemma {:induction false} OverlayFrame(runs: seq<Run>, runs': seq<Run>, mem0: Memory, e: nat)
    requires e <= |runs| && e <= |runs'|
    requires forall x :: 0 <= x < e ==> runs'[x].log == runs[x].log
    ensures Overlay(runs', mem0, e) == Overlay(runs, mem0, e)
  {
    if e > 0 {
      OverlayFrame(runs, runs', mem0, e - 1);
    }
  }

  // An overlay differs only where some log below it does.
  lemma {:induction false} OverlayElsewhere(runs: seq<Run>, runs': seq<Run>, mem0: Memory, e: nat, a: Addr)
    requires e <= |runs| && e <= |runs'|
    requires AgreeElsewhere(runs, runs', e, a)
    ensures forall b :: 0 <= b < |mem0| && b != a ==> Overlay(runs', mem0, e)[b] == Overlay(runs, mem0, e)[b]
  {
    if e > 0 {
      OverlayElsewhere(runs, runs', mem0, e - 1, a);
    }
  }

  // ---------------------------------------------------------------- loads

  // What a search for address a relies on.
  ghost predicate Searchable(s: State, mem0: Memory, a: Addr) {
    && a < |s.mem| == |s.lastCommit| == |mem0|
    && -1 <= s.lastCommit[a] < s.line.next <= |s.runs|
    && (s.lastCommit[a] == -1 ==> s.mem[a] == mem0[a])
    && (s.lastCommit[a] >= 0 ==>
          a in Written(s.runs[s.lastCommit[a]].log) && s.mem[a] == Written(s.runs[s.lastCommit[a]].log)[a])
    && (forall x: nat :: x < s.line.next && Offers(s, x, a) ==>
          a in Written(s.runs[x].log) && s.runs[x].stored[a] == Written(s.runs[x].log)[a])
    && (forall x: nat :: s.lastCommit[a] < x < s.line.next && a in Written(s.runs[x].log) ==>
          s.line.first <= x && Offers(s, x, a))
  }

  lemma InvIsSearchable(max: nat, s: State, mem0: Memory, a: Addr)
    requires Inv(max, s, mem0) && a < |s.mem| && 0 < s.line.next
    ensures Searchable(s, mem0, a)
    ensures s.lastCommit[a] < s.line.nextCommit
  {
    forall x: nat | x < s.line.next && Offers(s, x, a)
      ensures a in Written(s.runs[x].log) && s.runs[x].stored[a] == Written(s.runs[x].log)[a]
    {
    }
    forall x: nat | s.lastCommit[a] < x < s.line.next && a in Written(s.runs[x].log)
      ensures s.line.first <= x && Offers(s, x, a)
    {
    }
  }

  // The search through the buffers down from w finds what the epochs up to w left.
  lemma {:induction false} SearchMeetsOverlay(s: State, mem0: Memory, w: int, a: Addr)
    requires Searchable(s, mem0, a)
    requires s.lastCommit[a] <= w < s.line.next
    ensures BufferOrMemory(s, LatestWriter(s, w, a), a) == Overlay(s.runs, mem0, w + 1)[a]
    decreases w + 1
  {
    if w > s.lastCommit[a] {
      SearchMeetsOverlay(s, mem0, w - 1, a);
    }
  }

  // A live epoch loads what it would see running after all the epochs below it.
  lemma LoadMeetsOverlay(max: nat, s: State, mem0: Memory, e: nat, a: Addr)
    requires Inv(max, s, mem0) && a < |s.mem|
    requires s.line.nextCommit <= e < s.line.next && Running(s, e)
    ensures LoadValue(s, e, a) == Lookup(Written(s.runs[e].log), Overlay(s.runs, mem0, e), a)
  {
    InvIsSearchable(max, s, mem0, a);
    OwnBufferFirst(s, mem0, e, a);
  }

  lemma OwnBufferFirst(s: State, mem0: Memory, e: nat, a: Addr)
    requires Searchable(s, mem0, a) && s.line.first <= e < s.line.next && s.lastCommit[a] < e
    ensures LoadValue(s, e, a) == Lookup(Written(s.runs[e].log), Overlay(s.runs, mem0, e), a)
  {
    SearchMeetsOverlay(s, mem0, e, a);
  }

  // ---------------------------------------------------------------- every step keeps the invariant

  lemma InitInv(max: nat, mem0: Memory)
    ensures Inv(max, Init(mem0), mem0)
  {
  }

  // NoStaleReads only depends on the logs of the live epochs.
  lemma SameLogsSameReads(s: State, s': State, mem0: Memory)
    requires NoStaleReads(s, mem0)
    requires s'.line.next <= s.line.next <= |s.runs| && s.line.next <= |s'.runs|
    requires forall e :: 0 <= e < s'.line.next ==> s'.runs[e].log == s.runs[e].log
    ensures NoStaleReads(s', mem0)
  {
    forall e | 0 <= e < s'.line.next
      ensures Consistent(s'.runs[e].log, Overlay(s'.runs, mem0, e))
    {
      OverlayFrame(s.runs, s'.runs, mem0, e);
    }
  }

  // What is said of claimed epochs is not affected by what happens above them.
  lemma UnclaimedFrame(s: State, s': State, mem0: Memory)
    requires |s.runs| == |s.line.marks| && |s.mem| == |s.lastCommit| == |mem0|
    requires |s'.runs| == |s'.line.marks| >= |s.runs| && s'.mem == s.mem && s'.lastCommit == s.lastCommit
    requires s'.line.nextCommit == s.line.nextCommit <= |s.runs|
    requires forall x :: 0 <= x < s.line.nextCommit ==> s'.runs[x] == s.runs[x]
    requires forall x :: 0 <= x < |s'.runs| && StatusOf(s', x) == Commit ==> x < s.line.nextCommit && StatusOf(s, x) == Commit
    requires ClaimedFlags(s) && StoresArrive(s) && LastCommits(s, mem0)
    ensures ClaimedFlags(s') && StoresArrive(s') && LastCommits(s', mem0)
  {
  }

  // A step of an unclaimed epoch on its own log and flags: what is left to show is
  // that the two still agree and that nobody's reads went stale.
  lemma RunUpdate(max: nat, s: State, mem0: Memory, e: nat, r: Run)
    requires Inv(max, s, mem0) && s.line.nextCommit <= e < |s.runs|
    requires r.cleaning == s.runs[e].cleaning && r.broke == s.runs[e].broke && (r.cleaning ==> r.log == [])
    requires e < s.line.next && !r.cleaning ==> r.stored == Written(r.log) && r.loaded == ReadSet(r.log)
    requires NoStaleReads(s.(runs := s.runs[e := r]), mem0)
    ensures Inv(max, s.(runs := s.runs[e := r]), mem0)
  {
    var s' := s.(runs := s.runs[e := r]);
    UnclaimedFrame(s, s', mem0);
    RunUpdateFits(s, s', e);
  }

  lemma RunUpdateFits(s: State, s': State, e: nat)
    requires |s.runs| == |s.line.marks| && e < |s.runs| == |s'.runs| && s' == s.(runs := s.runs[e := s'.runs[e]])
    requires s'.runs[e].cleaning == s.runs[e].cleaning && s'.runs[e].broke == s.runs[e].broke
    requires s'.runs[e].cleaning ==> s'.runs[e].log == []
    requires e < s.line.next && !s'.runs[e].cleaning ==>
               s'.runs[e].stored == Written(s'.runs[e].log) && s'.runs[e].loaded == ReadSet(s'.runs[e].log)
    requires EpochsFit(s)
    ensures EpochsFit(s')
  {
  }

  lemma IssueKeepsEpochs(max: nat, s: State, s': State)
    requires |s.runs| == |s.line.marks| && Ring(max, s.line) && CanIssue(max, s.line)
    requires Masks(s.line) && EpochsFit(s)
    requires s'.line == Issue(s.line)
    requires s'.runs == if s.line.next < |s.runs| then s.runs[s.line.next := Issued(s)] else s.runs + [Issued(s)]
    ensures EpochsFit(s')
  {
  }

  lemma IssueKeepsReads(s: State, s': State, mem0: Memory)
    requires NoStaleReads(s, mem0) && s.line.next <= |s.runs| && s'.line.next == s.line.next + 1 <= |s'.runs|
    requires forall x :: 0 <= x < s.line.next ==> s'.runs[x] == s.runs[x]
    requires s'.runs[s.line.next].log == []
    ensures NoStaleReads(s', mem0)
  {
    forall x | 0 <= x < s'.line.next
      ensures Consistent(s'.runs[x].log, Overlay(s'.runs, mem0, x))
    {
      if x < s.line.next {
        OverlayFrame(s.runs, s'.runs, mem0, x);
      } else {
        assert s'.runs[x].log == [];
      }
    }
  }

  lemma IssueKeepsInv(max: nat, s: State, mem0: Memory, e: nat)
    requires Inv(max, s, mem0) && Enabled(max, s, IssueStep(e))
    ensures Inv(max, Apply(max, s, IssueStep(e)), mem0)
  {
    var s' := Apply(max, s, IssueStep(e));
    IssueKeepsRing(max, s.line);
    IssueKeepsEpochs(max, s, s');
    IssueKeepsReads(s, s', mem0);
    UnclaimedFrame(s, s', mem0);
  }

  lemma ScrubKeepsInv(max: nat, s: State, mem0: Memory, e: nat, a: Addr)
    requires Inv(max, s, mem0) && Enabled(max, s, ScrubStep(e, a))
    ensures Inv(max, Apply(max, s, ScrubStep(e, a)), mem0)
  {
    SameLogsSameReads(s, s.(runs := s.runs[e := Clear(s.runs[e], a)]), mem0);
    RunUpdate(max, s, mem0, e, Clear(s.runs[e], a));
  }

  lemma UnmaskKeepsEpochs(s: State, s': State, e: nat)
    requires |s.runs| == |s.line.marks| && e < |s.runs| && EpochsFit(s)
    requires s.runs[e].cleaning && s.runs[e].loaded == {} && s.runs[e].stored == map[]
    requires s.line.marks[e].status == Executing
    requires s' == s.(line := Unmask(s.line, e), runs := s.runs[e := s.runs[e].(cleaning := false)])
    ensures EpochsFit(s')
  {
  }

  lemma UnmaskKeepsStores(max: nat, s: State, s': State, mem0: Memory, e: nat)
    requires Shape(s, mem0) && Ring(max, s.line) && e < |s.runs| && s.line.marks[e].status == Executing
    requires s' == s.(line := Unmask(s.line, e), runs := s.runs[e := s.runs[e].(cleaning := false)])
    requires ClaimedFlags(s) && StoresArrive(s) && LastCommits(s, mem0) && NoStaleReads(s, mem0)
    ensures ClaimedFlags(s') && StoresArrive(s') && LastCommits(s', mem0) && NoStaleReads(s', mem0)
  {
    SameLogsSameReads(s, s', mem0);
    UnclaimedFrame(s, s', mem0);
  }

  lemma UnmaskKeepsInv(max: nat, s: State, mem0: Memory, e: nat)
    requires Inv(max, s, mem0) && Enabled(max, s, UnmaskStep(e)) && StatusOf(s, e) == Executing
    ensures Inv(max, Apply(max, s, UnmaskStep(e)), mem0)
  {
    var s' := Apply(max, s, UnmaskStep(e));
    UnmaskKeepsRing(max, s.line, e);
    UnmaskKeepsMasksIff(max, s.line, e);
    UnmaskKeepsEpochs(s, s', e);
    UnmaskKeepsStores(max, s, s', mem0, e);
  }

  lemma LoadLog(max: nat, s: State, e: nat, a: Addr)
    requires Enabled(max, s, LoadStep(e, a))
    ensures var log, log' := s.runs[e].log, Apply(max, s, LoadStep(e, a)).runs[e].log;
            && |log'| > 0 && Front(log') == log && Last(log') == Read(a, LoadValue(s, e, a))
            && Written(log') == Written(log) && ReadSet(log') == ReadSet(log) + {a}
  {
    FrontOfAppend(s.runs[e].log, Read(a, LoadValue(s, e, a)));
  }

  lemma LoadKeepsReads(max: nat, s: State, mem0: Memory, e: nat, a: Addr)
    requires Inv(max, s, mem0) && Enabled(max, s, LoadStep(e, a))
    ensures NoStaleReads(Apply(max, s, LoadStep(e, a)), mem0)
  {
    var s' := Apply(max, s, LoadStep(e, a));
    LoadLog(max, s, e, a);
    if e < s.line.next {
      LoadMeetsOverlay(max, s, mem0, e, a);
    }
    forall x | 0 <= x < s'.line.next
      ensures Consistent(s'.runs[x].log, Overlay(s'.runs, mem0, x))
    {
      SameWritesSameOverlay(s.runs, s'.runs, mem0, x);
    }
  }

  lemma LoadKeepsInv(max: nat, s: State, mem0: Memory, e: nat, a: Addr)
    requires Inv(max, s, mem0) && Enabled(max, s, LoadStep(e, a))
    ensures Inv(max, Apply(max, s, LoadStep(e, a)), mem0)
  {
    LoadLog(max, s, e, a);
    LoadKeepsReads(max, s, mem0, e, a);
    RunUpdate(max, s, mem0, e, Apply(max, s, LoadStep(e, a)).runs[e]);
  }

  lemma {:induction false} SameWritesSameOverlay(runs: seq<Run>, runs': seq<Run>, mem0: Memory, e: nat)
    requires e <= |runs| && e <= |runs'|
    requires forall x :: 0 <= x < e ==> Written(runs'[x].log) == Written(runs[x].log)
    ensures Overlay(runs', mem0, e) == Overlay(runs, mem0, e)
  {
    if e > 0 {
      SameWritesSameOverlay(runs, runs', mem0, e - 1);
    }
  }

  lemma DoneKeepsEpochs(s: State, s': State, e: nat)
    requires |s.runs| == |s.line.marks| && Running(s, e) && EpochsFit(s)
    requires s' == s.(line := SetDone(s.line, e))
    ensures EpochsFit(s')
  {
  }

  lemma DoneKeepsStores(max: nat, s: State, s': State, mem0: Memory, e: nat)
    requires Shape(s, mem0) && Ring(max, s.line) && Running(s, e) && s' == s.(line := SetDone(s.line, e))
    requires ClaimedFlags(s) && StoresArrive(s) && LastCommits(s, mem0) && NoStaleReads(s, mem0)
    ensures ClaimedFlags(s') && StoresArrive(s') && LastCommits(s', mem0) && NoStaleReads(s', mem0)
  {
    SameLogsSameReads(s, s', mem0);
    UnclaimedFrame(s, s', mem0);
  }

  lemma DoneKeepsInv(max: nat, s: State, mem0: Memory, e: nat)
    requires Inv(max, s, mem0) && Enabled(max, s, DoneStep(e))
    ensures Inv(max, Apply(max, s, DoneStep(e)), mem0)
  {
    var s' := Apply(max, s, DoneStep(e));
    SetDoneKeepsRing(max, s.line, e);
    DoneKeepsEpochs(s, s', e);
    DoneKeepsStores(max, s, s', mem0, e);
  }

  lemma StopKeepsEpochs(s: State, s': State, e: nat)
    requires |s.runs| == |s.line.marks| && e < |s.runs| && s.line.first <= e && EpochsFit(s)
    requires s' == s.(line := StopAt(s.line, e), runs := s.runs[e := s.runs[e].(broke := true)])
    ensures EpochsFit(s')
  {
  }

  lemma StopFrame(max: nat, s: State, s': State, mem0: Memory, e: nat)
    requires Shape(s, mem0) && Ring(max, s.line) && s.line.nextCommit <= e < |s.runs|
    requires s' == s.(line := StopAt(s.line, e), runs := s.runs[e := s.runs[e].(broke := true)])
    requires ClaimedFlags(s) && StoresArrive(s) && LastCommits(s, mem0) && NoStaleReads(s, mem0)
    ensures ClaimedFlags(s') && StoresArrive(s') && LastCommits(s', mem0) && NoStaleReads(s', mem0)
  {
    assert forall x :: 0 <= x < |s.runs| && x != e ==> s'.runs[x] == s.runs[x];
    SameLogsSameReads(s, s', mem0);
    UnclaimedFrame(s, s', mem0);
  }

  lemma StopKeepsInv(max: nat, s: State, mem0: Memory, e: nat)
    requires Inv(max, s, mem0) && Enabled(max, s, StopStep(e))
    ensures Inv(max, Apply(max, s, StopStep(e)), mem0)
  {
    var s' := Apply(max, s, StopStep(e));
    StopKeepsRing(max, s.line, e);
    StopKeepsEpochs(s, s', e);
    StopFrame(max, s, s', mem0, e);
  }

  // A done epoch has everything it stored in its buffer when it is claimed.
  lemma ClaimKeepsStores(s: State, s': State, mem0: Memory)
    requires |s.runs| == |s.line.marks| && |s.mem| == |s.lastCommit| == |mem0|
    requires s.line.nextCommit < s.line.next <= |s.runs| && !s.runs[s.line.nextCommit].cleaning
    requires s' == s.(line := Claim(s.line))
    requires FlagsMatchLog(s) && ClaimedFlags(s) && StoresArrive(s) && LastCommits(s, mem0)
    ensures ClaimedFlags(s') && StoresArrive(s') && LastCommits(s', mem0)
  {
    assert s.runs[s.line.nextCommit].stored == Written(s.runs[s.line.nextCommit].log);
  }

  lemma ClaimKeepsInv(max: nat, s: State, mem0: Memory, e: nat)
    requires Inv(max, s, mem0) && Enabled(max, s, ClaimStep(e))
    ensures Inv(max, Apply(max, s, ClaimStep(e)), mem0)
  {
    var s' := Apply(max, s, ClaimStep(e));
    ClaimKeepsRing(max, s.line);
    assert !s.runs[e].cleaning;
    ClaimKeepsStores(s, s', mem0);
    SameLogsSameReads(s, s', mem0);
  }

  // The stores and the memory after one address of a claimed epoch is written back.
  lemma WriteBackArrives(s: State, s': State, mem0: Memory, e: nat, a: Addr)
    requires |s.mem| == |s.lastCommit| == |mem0| && a < |s.mem|
    requires e < s.line.nextCommit && e < |s.runs|
    requires a in s.runs[e].stored ==>
               a in Written(s.runs[e].log) && s.runs[e].stored[a] == Written(s.runs[e].log)[a]
    requires s' == if a in s.runs[e].stored && e > s.lastCommit[a]
                   then State(s.line, s.runs[e := Clear(s.runs[e], a)], s.mem[a := s.runs[e].stored[a]], s.lastCommit[a := e])
                   else s.(runs := s.runs[e := Clear(s.runs[e], a)])
    requires StoresArrive(s) && LastCommits(s, mem0)
    ensures StoresArrive(s') && LastCommits(s', mem0)
  {
  }

  lemma WriteBackFlags(s: State, s': State, e: nat, a: Addr)
    requires |s.runs| == |s.line.marks| && e < |s.runs| && s.line.nextCommit > e && StatusOf(s, e) == Done
    requires s'.line == s.line && s'.runs == s.runs[e := Clear(s.runs[e], a)]
    requires ClaimedFlags(s) && EpochsFit(s)
    ensures ClaimedFlags(s') && EpochsFit(s')
  {
  }

  lemma WriteBackKeepsInv(max: nat, s: State, mem0: Memory, e: nat, a: Addr)
    requires Inv(max, s, mem0) && Enabled(max, s, WriteBackStep(e, a))
    ensures Inv(max, Apply(max, s, WriteBackStep(e, a)), mem0)
  {
    var s' := Apply(max, s, WriteBackStep(e, a));
    SameLogsSameReads(s, s', mem0);
    WriteBackArrives(s, s', mem0, e, a);
    WriteBackFlags(s, s', e, a);
  }

  lemma CommittedKeepsFlags(s: State, s': State, mem0: Memory, e: nat)
    requires |s.runs| == |s.line.marks| && |s.mem| == |s.lastCommit| == |mem0| && e < |s.runs|
    requires s.runs[e].loaded == {} && s.runs[e].stored == map[] && StatusOf(s, e) == Done
    requires s' == s.(line := s'.line) && s'.line.nextCommit == s.line.nextCommit && s'.line.next == s.line.next
    requires s'.line.marks == s.line.marks[e := s.line.marks[e].(status := Commit)]
    requires StopSet(s.line) ==> StopSet(s'.line) && s'.line.stop == s.line.stop
    requires ClaimedFlags(s) && EpochsFit(s)
    ensures ClaimedFlags(s') && EpochsFit(s')
  {
  }

  lemma CommittedKeepsInv(max: nat, s: State, mem0: Memory, e: nat)
    requires Inv(max, s, mem0) && Enabled(max, s, CommittedStep(e))
    ensures Inv(max, Apply(max, s, CommittedStep(e)), mem0)
  {
    var s' := Apply(max, s, CommittedStep(e));
    CommitDoneEffect(max, s.line, e);
    CommittedKeepsFlags(s, s', mem0, e);
    SameLogsSameReads(s, s', mem0);
  }

  // ---------------------------------------------------------------- stores

  lemma UnexposedDidNotRead(s: State, x: nat, a: Addr)
    requires |s.runs| == |s.line.marks| && s.line.nextCommit <= x < s.line.next <= |s.runs|
    requires FlagsMatchLog(s) && !Exposed(s, x, a)
    requires s.line.marks[x].masked ==> s.runs[x].log == []
    requires s.runs[x].cleaning ==> s.line.marks[x].masked
    ensures a !in ReadSet(s.runs[x].log)
  {
  }

  lemma StoreChangesOneAddress(runs: seq<Run>, runs': seq<Run>, e: nat, a: Addr, v: Value)
    requires e < |runs| == |runs'| && runs'[e].log == runs[e].log + [Write(a, v)]
    requires forall x :: 0 <= x < |runs| && x != e ==> runs'[x].log == runs[x].log
    ensures Written(runs'[e].log) == Written(runs[e].log)[a := v]
    ensures forall n: nat :: n <= |runs| ==> AgreeElsewhere(runs, runs', n, a)
  {
  }

  ghost predicate AgreeElsewhere(runs: seq<Run>, runs': seq<Run>, n: nat, a: Addr)
    requires n <= |runs| && n <= |runs'|
  {
    forall x, b :: 0 <= x < n && b != a ==>
      (b in Written(runs'[x].log) <==> b in Written(runs[x].log)) &&
      (b in Written(runs[x].log) ==> Written(runs'[x].log)[b] == Written(runs[x].log)[b])
  }

  lemma UnreadStoreIsHarmless(runs: seq<Run>, runs': seq<Run>, mem0: Memory, x: nat, a: Addr)
    requires x < |runs| && x < |runs'| && runs'[x].log == runs[x].log
    requires AgreeElsewhere(runs, runs', x, a) && a !in ReadSet(runs[x].log)
    requires Consistent(runs[x].log, Overlay(runs, mem0, x))
    ensures Consistent(runs'[x].log, Overlay(runs', mem0, x))
  {
    OverlayElsewhere(runs, runs', mem0, x, a);
    ConsistentFrame(runs[x].log, Overlay(runs, mem0, x), Overlay(runs', mem0, x));
  }

  lemma OwnStoreKeepsReads(runs: seq<Run>, runs': seq<Run>, mem0: Memory, e: nat, a: Addr, v: Value)
    requires e < |runs| && e < |runs'| && a < |mem0|
    requires runs'[e].log == runs[e].log + [Write(a, v)]
    requires forall x :: 0 <= x < e ==> runs'[x].log == runs[x].log
    requires Consistent(runs[e].log, Overlay(runs, mem0, e))
    ensures Consistent(runs'[e].log, Overlay(runs', mem0, e))
  {
    OverlayFrame(runs, runs', mem0, e);
    FrontOfAppend(runs[e].log, Write(a, v));
  }

  // The epochs below the earliest exposed reader of a have not read it from others.
  lemma EarlierEpochsDidNotRead(s: State, e: nat, a: Addr, limit: nat)
    requires |s.runs| == |s.line.marks| && s.line.nextCommit <= e < limit <= s.line.next <= |s.runs|
    requires FlagsMatchLog(s) && Cleaning(s)
    requires forall x :: e < x < limit ==> !Exposed(s, x, a)
    requires forall x :: e < x < limit ==>
               StatusOf(s, x) == Executing || (StatusOf(s, x) == Done && !s.line.marks[x].masked)
    ensures forall x :: e < x < limit ==> a !in ReadSet(s.runs[x].log)
  {
    forall x | e < x < limit ensures a !in ReadSet(s.runs[x].log) {
      UnexposedDidNotRead(s, x, a);
    }
  }

  // So a store to a below them leaves their reads fresh.
  lemma StoreSparesEarlierEpochs(runs: seq<Run>, runs': seq<Run>, mem0: Memory, e: nat, a: Addr, v: Value, limit: nat)
    requires e < limit <= |runs| == |runs'| && a < |mem0|
    requires runs'[e].log == runs[e].log + [Write(a, v)]
    requires forall x :: 0 <= x < |runs| && x != e ==> runs'[x].log == runs[x].log
    requires forall x :: 0 <= x < limit ==> Consistent(runs[x].log, Overlay(runs, mem0, x))
    requires forall x :: e < x < limit ==> a !in ReadSet(runs[x].log)
    ensures forall x :: 0 <= x < limit ==> Consistent(runs'[x].log, Overlay(runs', mem0, x))
  {
    StoreChangesOneAddress(runs, runs', e, a, v);
    forall x | 0 <= x < limit
      ensures Consistent(runs'[x].log, Overlay(runs', mem0, x))
    {
      if x < e {
        OverlayFrame(runs, runs', mem0, x);
      } else if x == e {
        OwnStoreKeepsReads(runs, runs', mem0, e, a, v);
      } else {
        UnreadStoreIsHarmless(runs, runs', mem0, x, a);
      }
    }
  }

  // The store before its violation check.
  function Stored(s: State, e: nat, a: Addr, v: Value): Run
    requires e < |s.runs|
  {
    s.runs[e].(log := s.runs[e].log + [Write(a, v)], stored := s.runs[e].stored[a := v])
  }

  lemma QuietStoreKeepsInv(max: nat, s: State, mem0: Memory, e: nat, a: Addr, v: Value)
    requires Inv(max, s, mem0) && Running(s, e) && a < |s.mem|
    requires EarliestReader(s, e + 1, a).None?
    ensures Inv(max, s.(runs := s.runs[e := Stored(s, e, a, v)]), mem0)
  {
    var r := Stored(s, e, a, v);
    var s1 := s.(runs := s.runs[e := r]);
    FrontOfAppend(s.runs[e].log, Write(a, v));
    if e < s.line.next {
      StoreKeepsReads(max, s, s1, mem0, e, a, v);
    } else {
      SameLogsSameReads(s, s1, mem0);
    }
    RunUpdate(max, s, mem0, e, r);
  }

  // A store that is seen too late: everything from the earliest reader on is rolled
  // back, and what stays live has nothing stale.
  lemma StoreKeepsReads(max: nat, s: State, s': State, mem0: Memory, e: nat, a: Addr, v: Value)
    requires |s.runs| == |s.line.marks| == |s'.runs| && Ring(max, s.line) && Masks(s.line)
    requires NoStaleReads(s, mem0) && FlagsMatchLog(s) && Cleaning(s)
    requires s.line.nextCommit <= e < s'.line.next <= s.line.next && a < |mem0|
    requires s'.runs[e].log == s.runs[e].log + [Write(a, v)]
    requires forall x :: 0 <= x < |s.runs| && x != e ==> s'.runs[x] == s.runs[x]
    requires forall x :: e < x < s'.line.next ==> !Exposed(s, x, a)
    ensures NoStaleReads(s', mem0)
  {
    EarlierEpochsDidNotRead(s, e, a, s'.line.next);
    StoreSparesEarlierEpochs(s.runs, s'.runs, mem0, e, a, v, s'.line.next);
  }

  lemma ViolationKeepsFlags(max: nat, s: State, s': State, e: nat, start: nat)
    requires |s.runs| == |s.line.marks| == |s'.runs| && e < start < s.line.next
    requires Ring(max, s.line) && s.line.nextCommit <= e
    requires s'.line == DoRollback(s.line, start)
    requires forall x :: 0 <= x < |s.runs| && x != e ==> s'.runs[x] == s.runs[x]
    requires s'.runs[e].cleaning == s.runs[e].cleaning == false && s'.runs[e].broke == s.runs[e].broke
    requires s'.runs[e].stored == Written(s'.runs[e].log) && s'.runs[e].loaded == ReadSet(s'.runs[e].log)
    requires EpochsFit(s)
    ensures EpochsFit(s')
  {
    RollbackMarks(max, s.line, start);
  }

  lemma ViolationKeepsReads(max: nat, s: State, s1: State, mem0: Memory, e: nat, a: Addr, v: Value, start: nat)
    requires |s.runs| == |s.line.marks| == |s1.runs| && Ring(max, s.line) && Masks(s.line)
    requires NoStaleReads(s, mem0) && FlagsMatchLog(s) && Cleaning(s)
    requires s.line.nextCommit <= e < start < s.line.next && a < |mem0|
    requires EarliestReader(s, e + 1, a) == Some(start)
    requires s1 == s.(runs := s.runs[e := s1.runs[e]]) && s1.runs[e].log == s.runs[e].log + [Write(a, v)]
    ensures NoStaleReads(s1.(line := DoRollback(s.line, start)), mem0)
  {
    var s' := s1.(line := DoRollback(s.line, start));
    assert s'.line.next == start;
    StoreKeepsReads(max, s, s', mem0, e, a, v);
  }

  // The store itself, before the rollback: what is said of claimed epochs is kept,
  // and the storing epoch is in step with its log.
  lemma StoreBeforeRollback(max: nat, s: State, mem0: Memory, e: nat, a: Addr, v: Value)
    requires Inv(max, s, mem0) && Running(s, e) && e < s.line.next && a < |s.mem|
    ensures var s1 := s.(runs := s.runs[e := Stored(s, e, a, v)]);
            && Shape(s1, mem0) && ClaimedFlags(s1) && StoresArrive(s1) && LastCommits(s1, mem0)
            && s1.runs[e].log == s.runs[e].log + [Write(a, v)] && !s1.runs[e].cleaning
            && s1.runs[e].stored == Written(s1.runs[e].log) && s1.runs[e].loaded == ReadSet(s1.runs[e].log)
  {
    var s1 := s.(runs := s.runs[e := Stored(s, e, a, v)]);
    FrontOfAppend(s.runs[e].log, Write(a, v));
    UnclaimedFrame(s, s1, mem0);
  }

  lemma ViolationKeepsInv(max: nat, s: State, mem0: Memory, e: nat, a: Addr, v: Value, start: nat)
    requires Inv(max, s, mem0) && Running(s, e) && a < |s.mem|
    requires EarliestReader(s, e + 1, a) == Some(start)
    ensures Inv(max, State(DoRollback(s.line, start), s.runs[e := Stored(s, e, a, v)], s.mem, s.lastCommit), mem0)
  {
    var s1 := s.(runs := s.runs[e := Stored(s, e, a, v)]);
    StoreBeforeRollback(max, s, mem0, e, a, v);
    ViolationKeepsReads(max, s, s1, mem0, e, a, v, start);
    RollbackKeepsInv(max, s, s1, mem0, e, start);
    assert State(DoRollback(s.line, start), s1.runs, s.mem, s.lastCommit) == s1.(line := DoRollback(s.line, start));
  }

  lemma RollbackKeepsInv(max: nat, s: State, s1: State, mem0: Memory, e: nat, start: nat)
    requires e < |s.runs| == |s.line.marks| == |s1.runs| && s1 == s.(runs := s.runs[e := s1.runs[e]])
    requires Shape(s1, mem0) && s.line.nextCommit <= e < start < s.line.next
    requires s1.runs[e].cleaning == s.runs[e].cleaning == false && s1.runs[e].broke == s.runs[e].broke
    requires s1.runs[e].stored == Written(s1.runs[e].log) && s1.runs[e].loaded == ReadSet(s1.runs[e].log)
    requires Ring(max, s.line) && Masks(s.line) && StopBound(max, s.line)
    requires EpochsFit(s)
    requires ClaimedFlags(s1) && StoresArrive(s1) && LastCommits(s1, mem0)
    requires NoStaleReads(s1.(line := DoRollback(s.line, start)), mem0)
    ensures Inv(max, s1.(line := DoRollback(s.line, start)), mem0)
  {
    var s' := s1.(line := DoRollback(s.line, start));
    RollbackKeepsRing(max, s.line, start);
    RollbackMarks(max, s.line, start);
    ViolationKeepsFlags(max, s, s', e, start);
    UnclaimedFrame(s1, s', mem0);
  }

  lemma StoreShape(max: nat, s: State, e: nat, a: Addr, v: Value)
    requires Enabled(max, s, StoreStep(e, a, v))
    ensures Running(s, e) && a < |s.mem|
    ensures Apply(max, s, StoreStep(e, a, v)) ==
            match EarliestReader(s, e + 1, a)
            case None => s.(runs := s.runs[e := Stored(s, e, a, v)])
            case Some(start) => State(DoRollback(s.line, start), s.runs[e := Stored(s, e, a, v)], s.mem, s.lastCommit)
  {
  }

  lemma StoreKeepsInv(max: nat, s: State, mem0: Memory, e: nat, a: Addr, v: Value)
    requires Inv(max, s, mem0) && Enabled(max, s, StoreStep(e, a, v))
    ensures Inv(max, Apply(max, s, StoreStep(e, a, v)), mem0)
  {
    StoreShape(max, s, e, a, v);
    match EarliestReader(s, e + 1, a) {
      case None => QuietStoreKeepsInv(max, s, mem0, e, a, v);
      case Some(start) => ViolationKeepsInv(max, s, mem0, e, a, v, start);
    }
  }

  // ---------------------------------------------------------------- what a step leaves alone

  predicate Over(st: Status) {
    st == Done || st == Commit
  }

  // The epochs other than the one that steps keep their runs and are not finished;
  // only an issue hands out an epoch, and only a store below takes epochs back.
  ghost predicate Effect(s: State, t: Step, s': State) {
    && s.line.next <= |s.runs| <= |s'.runs|
    && (t.IssueStep? ==> t.e == s.line.next && s'.line.next == t.e + 1
                         && |s'.runs| == if t.e < |s.runs| then |s.runs| else t.e + 1)
    && (!t.IssueStep? ==> s'.line.next <= s.line.next && |s'.runs| == |s.runs| && t.e < |s.runs|)
    && (s'.line.next < s.line.next ==> t.StoreStep? && s.line.nextCommit <= t.e < s'.line.next)
    && (forall x :: 0 <= x < |s.runs| && x != t.e ==> s'.runs[x] == s.runs[x])
    && (forall x :: 0 <= x < |s.runs| && x != t.e && Over(StatusOf(s', x)) ==> Over(StatusOf(s, x)))
    && (!t.StopStep? && StopSet(s'.line) ==>
          StopSet(s.line) && s'.line.stop == s.line.stop && (s.line.stop <= s.line.next ==> s.line.stop <= s'.line.next))
    && (t.StoreStep? ==>
          && StatusOf(s', t.e) == StatusOf(s, t.e)
          && forall x :: 0 <= x < s'.line.next ==> StatusOf(s', x) == StatusOf(s, x))
  }

  lemma StoreEffect(max: nat, s: State, t: Step)
    requires Ring(max, s.line) && Enabled(max, s, t) && t.StoreStep?
    ensures Effect(s, t, Apply(max, s, t))
  {
  }

  lemma CommittedEffect(max: nat, s: State, t: Step)
    requires Ring(max, s.line) && StopBound(max, s.line) && Enabled(max, s, t) && t.CommittedStep?
    ensures Effect(s, t, Apply(max, s, t))
  {
    CommitDoneEffect(max, s.line, t.e);
  }

  lemma IssueEffect(max: nat, s: State, t: Step)
    requires Ring(max, s.line) && Enabled(max, s, t) && t.IssueStep?
    ensures Effect(s, t, Apply(max, s, t))
  {
  }

  // The steps that only touch their own epoch.
  lemma OwnEffect(s: State, t: Step, s': State)
    requires s.line.next <= |s.runs| == |s.line.marks| == |s'.runs| == |s'.line.marks| && t.e < |s.runs|
    requires !t.IssueStep? && !t.StoreStep?
    requires s'.line.next == s.line.next && s'.line.first == s.line.first
    requires !t.StopStep? ==> s'.line.stop == s.line.stop
    requires forall x :: 0 <= x < |s.runs| && x != t.e ==> s'.runs[x] == s.runs[x] && s'.line.marks[x] == s.line.marks[x]
    ensures Effect(s, t, s')
  {
  }

  lemma StepEffect(max: nat, s: State, t: Step)
    requires Ring(max, s.line) && StopBound(max, s.line) && Enabled(max, s, t)
    ensures Effect(s, t, Apply(max, s, t))
  {
    if t.StoreStep? {
      StoreEffect(max, s, t);
    } else if t.CommittedStep? {
      CommittedEffect(max, s, t);
    } else if t.IssueStep? {
      IssueEffect(max, s, t);
    } else {
      OwnEffect(s, t, Apply(max, s, t));
    }
  }

  // A rollback never reaches an epoch that has been claimed for commit, nor the
  // oldest one that has not: the precondition of yarn_epoch_do_rollback holds at
  // its only call.
  lemma RollbackSparesTheOldest(max: nat, s: State, mem0: Memory, e: nat, a: Addr, v: Value)
    requires Base(max, s, mem0) && Enabled(max, s, StoreStep(e, a, v))
    ensures EarliestReader(s, e + 1, a).Some? ==> s.line.nextCommit <= e < EarliestReader(s, e + 1, a).value
    ensures forall x :: 0 <= x <= s.line.nextCommit && x < |s.runs| ==>
              StatusOf(Apply(max, s, StoreStep(e, a, v)), x) == StatusOf(s, x)
  {
    StepEffect(max, s, StoreStep(e, a, v));
  }

  // ---------------------------------------------------------------- every run

  // The part of the invariant that does not depend on when rollback bits are
  // cleared.
  ghost predicate Base(max: nat, s: State, mem0: Memory) {
    && Shape(s, mem0) && Ring(max, s.line) && StopBound(max, s.line) && FinishedUnmasked(s.line)
    && Started(s) && BreaksStop(s)
  }

  predicate MovesTheLine(t: Step) {
    t.IssueStep? || t.UnmaskStep? || t.StopStep? || t.DoneStep? || t.ClaimStep? || t.CommittedStep?
  }

  lemma RingAfter(max: nat, s: State, t: Step)
    requires Ring(max, s.line) && StopBound(max, s.line) && Enabled(max, s, t) && MovesTheLine(t)
    ensures Ring(max, Apply(max, s, t).line) && StopBound(max, Apply(max, s, t).line)
    ensures FinishedUnmasked(s.line) && Started(s) ==> FinishedUnmasked(Apply(max, s, t).line)
  {
    match t {
      case IssueStep(e) => IssueKeepsRing(max, s.line);
      case UnmaskStep(e) => UnmaskKeepsRing(max, s.line, e);
      case StopStep(e) => StopKeepsRing(max, s.line, e);
      case DoneStep(e) => SetDoneKeepsRing(max, s.line, e);
      case ClaimStep(e) => ClaimKeepsRing(max, s.line);
      case CommittedStep(e) => CommitDoneEffect(max, s.line, e);
    }
  }

  // Only a stop announces a break, and only an issue forgets one.
  lemma BreaksKept(max: nat, s: State, t: Step)
    requires Enabled(max, s, t) && !t.StopStep? && !t.IssueStep?
    ensures t.e < |s.runs| && t.e < |Apply(max, s, t).runs|
    ensures Apply(max, s, t).runs[t.e].broke == s.runs[t.e].broke
  {
  }

  lemma ViolationKeepsBase(max: nat, s: State, s': State, start: nat, e: nat)
    requires |s.runs| == |s.line.marks| == |s'.runs| && Ring(max, s.line)
    requires s.line.nextCommit <= e < start < s.line.next && s'.line == DoRollback(s.line, start)
    requires forall x :: 0 <= x < |s.runs| && x != e ==> s'.runs[x] == s.runs[x]
    requires s'.runs[e].cleaning == s.runs[e].cleaning && s'.runs[e].broke == s.runs[e].broke
    requires Started(s) && BreaksStop(s)
    ensures Started(s') && BreaksStop(s')
  {
    RollbackMarks(max, s.line, start);
  }

  lemma StoreKeepsBase(max: nat, s: State, mem0: Memory, t: Step)
    requires Base(max, s, mem0) && Enabled(max, s, t) && t.StoreStep?
    ensures Base(max, Apply(max, s, t), mem0)
  {
    StoreShape(max, s, t.e, t.a, t.v);
    var r := EarliestReader(s, t.e + 1, t.a);
    if r.Some? {
      RollbackKeepsRing(max, s.line, r.value);
      RollbackKeepsFinished(s.line, r.value);
      ViolationKeepsBase(max, s, Apply(max, s, t), r.value, t.e);
    }
  }

  lemma LineKeepsBreaks(max: nat, s: State, t: Step)
    requires |s.runs| == |s.line.marks| && Ring(max, s.line) && StopBound(max, s.line)
    requires Enabled(max, s, t) && MovesTheLine(t) && BreaksStop(s)
    ensures BreaksStop(Apply(max, s, t))
  {
    if t.CommittedStep? {
      CommitDoneEffect(max, s.line, t.e);
    }
  }

  lemma LineKeepsBase(max: nat, s: State, mem0: Memory, t: Step)
    requires Base(max, s, mem0) && Enabled(max, s, t) && MovesTheLine(t)
    ensures Base(max, Apply(max, s, t), mem0)
  {
    RingAfter(max, s, t);
    LineKeepsBreaks(max, s, t);
    if t.CommittedStep? {
      CommitDoneEffect(max, s.line, t.e);
    }
  }

  lemma StepKeepsBase(max: nat, s: State, mem0: Memory, t: Step)
    requires Base(max, s, mem0) && Enabled(max, s, t)
    ensures Base(max, Apply(max, s, t), mem0)
  {
    if t.StoreStep? {
      StoreKeepsBase(max, s, mem0, t);
    } else if MovesTheLine(t) {
      LineKeepsBase(max, s, mem0, t);
    } else {
      BreaksKept(max, s, t);
    }
  }

  lemma {:induction false} ReachableBase(c: Config, steps: seq<Step>)
    requires After(c, steps).Some?
    ensures Base(c.max, After(c, steps).value, c.mem0)
  {
    if |steps| == 0 {
      StartRing(c.max);
    } else {
      var before := steps[..|steps| - 1];
      ReachableBase(c, before);
      StepKeepsBase(c.max, After(c, before).value, c.mem0, steps[|steps| - 1]);
    }
  }

  // ---------------------------------------------------------------- all steps

  lemma StepKeepsInv(max: nat, s: State, mem0: Memory, t: Step)
    requires Inv(max, s, mem0) && Enabled(max, s, t) && ClearsInTime(s, t)
    ensures Inv(max, Apply(max, s, t), mem0)
  {
    match t {
      case IssueStep(e) => IssueKeepsInv(max, s, mem0, e);
      case ScrubStep(e, a) => ScrubKeepsInv(max, s, mem0, e, a);
      case UnmaskStep(e) => UnmaskKeepsInv(max, s, mem0, e);
      case LoadStep(e, a) => LoadKeepsInv(max, s, mem0, e, a);
      case StoreStep(e, a, v) => StoreKeepsInv(max, s, mem0, e, a, v);
      case StopStep(e) => StopKeepsInv(max, s, mem0, e);
      case DoneStep(e) => DoneKeepsInv(max, s, mem0, e);
      case ClaimStep(e) => ClaimKeepsInv(max, s, mem0, e);
      case WriteBackStep(e, a) => WriteBackKeepsInv(max, s, mem0, e, a);
      case CommittedStep(e) => CommittedKeepsInv(max, s, mem0, e);
    }
  }

  // Clearing the rollback bit keeps the invariant exactly when the epoch was not
  // rolled back again while its old flags were being cleared.
  lemma UnmaskKeepsInvIff(max: nat, s: State, mem0: Memory, e: nat)
    requires Inv(max, s, mem0) && Enabled(max, s, UnmaskStep(e))
    ensures Inv(max, Apply(max, s, UnmaskStep(e)), mem0) <==> StatusOf(s, e) == Executing
  {
    UnmaskKeepsMasksIff(max, s.line, e);
    if StatusOf(s, e) == Executing {
      UnmaskKeepsInv(max, s, mem0, e);
    }
  }

  // The invariant holds in every state of every run whose rollback bits are cleared
  // in time.
  lemma {:induction false} ReachableInv(c: Config, steps: seq<Step>)
    requires After(c, steps).Some? && AllClearsInTime(c, steps)
    ensures Inv(c.max, After(c, steps).value, c.mem0)
  {
    if |steps| == 0 {
      InitInv(c.max, c.mem0);
    } else {
      var before := steps[..|steps| - 1];
      ReachableInv(c, before);
      StepKeepsInv(c.max, After(c, before).value, c.mem0, steps[|steps| - 1]);
    }
  }
}
