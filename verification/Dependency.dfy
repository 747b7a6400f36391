/**
 The speculative memory of dependency.c: loads, stores, rollbacks and commits on the
 infos of all addresses. Every operation is proved to take the step of the runtime
 machine that bears its name, and is atomic.
 */
module SpeculativeMemory {
  import opened Bits
  import opened Serial
  import opened Timeline
  import opened Speculation
  import opened Search
  import opened EpochRing
  import opened Tracking
  import opened AddrInfos
  import opened InfoTables
  import opened CommitOrder

  // ---------------------------------------------------------------- the searches

  ghost predicate MasksMirrored(max: nat, l: Line, rollback: Word)
    requires max > 0
  {
    forall x: nat :: l.first <= x < l.first + max ==> (Bit(rollback, Index(x, max)) <==> At(l, x).masked)
  }

  // The value load_from_wbuf returns for the info of address a when it is told to
  // read memory at src. For src == a it is the value the step machine loads.
  function LoadedFor(s: State, e: nat, a: Addr, src: Addr): (r: Value)
    requires a < |s.mem| == |s.lastCommit| && src < |s.mem|
    ensures src == a ==> r == LoadValue(s, e, a)
  {
    var w := LatestWriter(s, e, a);
    if w.Some? && w.value > s.lastCommit[a] then s.runs[w.value].stored[a] else s.mem[src]
  }

  // What FindWriter finds, and the choice between buffer and memory that follows.
  lemma LoadResult(max: nat, s: State, v: Views, rollback: Word, e: nat, a: Addr, src: Addr,
                   found: bool, index: nat, at: nat)
    requires Tracks(max, s, v) && a in v && src < |s.mem| && InWindow(max, s, e) && MasksMirrored(max, s.line, rollback)
    requires found ==> s.line.first <= at <= e && index == Index(at, max) && Flagged(v[a].writeWord, rollback, max, at)
    requires found ==> forall x: nat :: at < x <= e ==> !Flagged(v[a].writeWord, rollback, max, x)
    requires !found ==> forall x: nat :: s.line.first <= x <= e ==> !Flagged(v[a].writeWord, rollback, max, x)
    ensures LoadedFor(s, e, a, src) == if found && at > v[a].lastCommit then v[a].buffer[index] else s.mem[src]
  {
    forall x: nat | s.line.first <= x <= e
      ensures Flagged(v[a].writeWord, rollback, max, x) <==> Offers(s, x, a)
    {
      FlaggedIsOffer(max, s, v, rollback, a, x);
    }
    FoundWriter(max, s, v, e, a, found, at);
    if found {
      assert Buffered(s, at, a);
    }
  }

  lemma StoreResult(max: nat, s: State, v: Views, rollback: Word, e: nat, a: Addr, found: bool, at: nat)
    requires Tracks(max, s, v) && a in v && s.line.first <= e && MasksMirrored(max, s.line, rollback)
    requires found ==> e < at < s.line.next && Flagged(v[a].readWord, rollback, max, at)
    requires found ==> forall x: nat :: e < x < at ==> !Flagged(v[a].readWord, rollback, max, x)
    requires !found ==> forall x: nat :: e < x < s.line.next ==> !Flagged(v[a].readWord, rollback, max, x)
    ensures EarliestReader(s, e + 1, a) == if found then Some(at) else None
  {
    forall x: nat | e < x < s.line.next
      ensures Flagged(v[a].readWord, rollback, max, x) <==> Exposed(s, x, a)
    {
      FlaggedIsOffer(max, s, v, rollback, a, x);
    }
    FoundReader(s, e, a, found, at);
  }

  // ---------------------------------------------------------------- the flags

  lemma LoadTracks(max: nat, s: State, v: Views, e: nat, a: Addr, n: View)
    requires Tracks(max, s, v) && Running(s, e) && a in v
    requires OneSlot(max, v[a], n, Index(e, max)) && Bit(n.readWord, Index(e, max))
    requires n.writeWord == v[a].writeWord && n.lastCommit == v[a].lastCommit && n.buffer == v[a].buffer
    ensures InWindow(max, s, e) && Enabled(max, s, LoadStep(e, a))
    ensures Tracks(max, Apply(max, s, LoadStep(e, a)), v[a := n])
  {
    var s' := Apply(max, s, LoadStep(e, a));
    assert WriteBit(v, a, Index(e, max)) <==> Buffered(s, e, a);
    UpdateTracks(max, s, s', v, e, a, n);
  }

  // The state after store_to_wbuf and before dep_violation_check.
  function AfterWrite(s: State, e: nat, a: Addr, x: Value): State
    requires e < |s.runs|
  {
    var r := s.runs[e];
    s.(runs := s.runs[e := r.(log := r.log + [Write(a, x)], stored := r.stored[a := x])])
  }

  // The views after an info was looked up, and entered if it was not there.
  lemma EnteredTracks(max: nat, s: State, v: Views, v': Views, a: Addr, n: View)
    requires Tracks(max, s, v)
    requires a in v ==> v' == v
    requires a !in v ==> a < |s.mem| && v' == v[a := n] && n == View(0, 0, -1, n.buffer) && |n.buffer| == max
    ensures Tracks(max, s, v')
  {
    if a !in v {
      InsertTracks(max, s, v, a, n);
    }
  }

  lemma StoreTracks(max: nat, s: State, v: Views, e: nat, a: Addr, x: Value, n: View)
    requires Tracks(max, s, v) && Running(s, e) && a in v
    requires OneSlot(max, v[a], n, Index(e, max)) && Bit(n.writeWord, Index(e, max))
    requires n.readWord == v[a].readWord && n.lastCommit == v[a].lastCommit && n.buffer[Index(e, max)] == x
    ensures Enabled(max, s, StoreStep(e, a, x)) && s.line.nextCommit <= e
    ensures Tracks(max, AfterWrite(s, e, a, x), v[a := n])
  {
    var s' := AfterWrite(s, e, a, x);
    assert ReadBit(v, a, Index(e, max)) <==> Loaded(s, e, a);
    UpdateTracks(max, s, s', v, e, a, n);
  }

  lemma {:induction false} SameReaders(s: State, s': State, x: nat, a: Addr)
    requires s'.line == s.line && |s'.runs| == |s.runs|
    requires forall y :: 0 <= y < |s.runs| ==> s'.runs[y].loaded == s.runs[y].loaded
    ensures EarliestReader(s', x, a) == EarliestReader(s, x, a)
    decreases s.line.next - x
  {
    if x < s.line.next && !Exposed(s, x, a) {
      SameReaders(s, s', x + 1, a);
    }
  }

  lemma WriteThenCheck(max: nat, s: State, e: nat, a: Addr, x: Value)
    requires Enabled(max, s, StoreStep(e, a, x))
    ensures var mid := AfterWrite(s, e, a, x);
            AfterStore(mid, EarliestReader(mid, e + 1, a)) == Apply(max, s, StoreStep(e, a, x))
  {
    SameReaders(s, AfterWrite(s, e, a, x), e + 1, a);
  }

  lemma RollbackTracks(max: nat, s: State, v: Views, start: nat)
    requires Tracks(max, s, v) && s.line.nextCommit <= start < s.line.next && StopBound(max, s.line)
    ensures Tracks(max, s.(line := Timeline.DoRollback(s.line, start)), v)
  {
    RollbackMarks(max, s.line, start);
    RollbackKeepsRing(max, s.line, start);
    LineTracks(max, s, s.(line := Timeline.DoRollback(s.line, start)), v);
  }

  // Only slot i differs.
  ghost predicate OtherSlots(max: nat, was: Views, now: Views, i: nat) {
    && now.Keys == was.Keys
    && forall a :: a in was ==> OneSlot(max, was[a], now[a], i)
  }

  lemma CommitTracks(max: nat, s: State, v: Views, e: nat, a: Addr, n: View)
    requires Tracks(max, s, v) && Claimed(s, e) && a in v
    requires OneSlot(max, v[a], n, Index(e, max))
    requires !Bit(n.readWord, Index(e, max)) && !Bit(n.writeWord, Index(e, max))
    requires n.lastCommit == if WriteBit(v, a, Index(e, max)) && e > v[a].lastCommit then e else v[a].lastCommit
    ensures a < |s.mem| && |s.mem| == |s.lastCommit|
    ensures Tracks(max, WriteBack(s, e, a), v[a := n]) && OtherSlots(max, v, v[a := n], Index(e, max))
    ensures WriteBack(s, e, a).mem ==
            if WriteBit(v, a, Index(e, max)) && e > v[a].lastCommit then s.mem[a := v[a].buffer[Index(e, max)]] else s.mem
  {
    assert WriteBit(v, a, Index(e, max)) <==> Buffered(s, e, a);
    UpdateTracks(max, s, WriteBack(s, e, a), v, e, a, n);
  }

  lemma ScrubTracks(max: nat, s: State, v: Views, e: nat, a: Addr, n: View)
    requires Tracks(max, s, v) && a in v && e < |s.runs| && StatusOf(s, e) != Commit
    requires OneSlot(max, v[a], n, Index(e, max)) && n.lastCommit == v[a].lastCommit
    requires !Bit(n.readWord, Index(e, max)) && !Bit(n.writeWord, Index(e, max))
    ensures Tracks(max, s.(runs := s.runs[e := Clear(s.runs[e], a)]), v[a := n])
  {
    UpdateTracks(max, s, s.(runs := s.runs[e := Clear(s.runs[e], a)]), v, e, a, n);
  }

  // An epoch without flags has touched nothing.
  lemma NothingTouched(max: nat, s: State, v: Views, e: nat)
    requires Tracks(max, s, v) && InWindow(max, s, e) && e < |s.runs|
    requires forall a :: a in v ==> !InSlot(v, a, Index(e, max))
    ensures s.runs[e].loaded == {} && s.runs[e].stored == map[]
  {
    forall a ensures a !in s.runs[e].loaded && a !in s.runs[e].stored {
      assert ReadBit(v, a, Index(e, max)) <==> Loaded(s, e, a);
      assert WriteBit(v, a, Index(e, max)) <==> Buffered(s, e, a);
    }
  }

  ghost predicate Shorter(was: seq<seq<AddrInfo>>, now: seq<seq<AddrInfo>>, i: nat) {
    i < |was| && |was[i]| > 0 && now == was[i := was[i][1..]]
  }

  lemma OtherSlotsCompose(max: nat, v: Views, v': Views, v'': Views, i: nat)
    requires OtherSlots(max, v, v', i) && OtherSlots(max, v', v'', i)
    ensures OtherSlots(max, v, v'', i)
  {
  }

  // The commits from s' and from s end alike.
  ghost predicate CommitsTo(s': State, s: State, e: nat) {
    && |s.mem| == |s.lastCommit| && |s'.mem| == |s'.lastCommit| && e < |s.runs| && e < |s'.runs|
    && s'.line == s.line && CommitEpoch(s', e) == CommitEpoch(s, e)
  }

  lemma NothingToCommit(s: State, e: nat)
    requires |s.mem| == |s.lastCommit| && e < |s.runs|
    requires s.runs[e].loaded == {} && s.runs[e].stored == map[]
    ensures CommitEpoch(s, e) == s
  {
  }

  // The state without the flags of epoch e.
  function Scrubbed(s: State, e: nat): State
    requires e < |s.runs|
  {
    s.(runs := s.runs[e := s.runs[e].(loaded := {}, stored := map[])])
  }

  // ---------------------------------------------------------------- the memory

  class Dependency {
    const epochs: Epochs
    const mem: array<Value>
    const table: InfoTable
    ghost var model: State

    ghost predicate Sized() {
      && IsWordSize(epochs.wordSize) && 0 < epochs.max <= epochs.wordSize / 2
      && table.wordSize == epochs.wordSize && table.max == epochs.max
    }

    // The infos and the memory are those of the state of the step machine.
    ghost predicate Backed()
      reads this, mem
      reads table, table.infos.Values, table.infoLists, table.infoLists.head, table.infoLists.nodes, table.infoIndex
    {
      Sized() && table.Valid() && model.mem == mem[..] && Tracks(epochs.max, model, table.Views())
    }

    ghost predicate Valid()
      reads this, mem, epochs, epochs.status
      reads table, table.infos.Values, table.infoLists, table.infoLists.head, table.infoLists.nodes, table.infoIndex
    {
      epochs.Valid() && model.line == epochs.line && Backed()
    }

    // yarn_dep_global_init
    constructor (epochs: Epochs, mem: array<Value>, indexSize: nat)
      requires epochs.Valid() && epochs.line == Start()
      ensures Valid() && this.epochs == epochs && this.mem == mem && model == Init(mem[..])
      ensures fresh(table) && fresh(table.infoLists) && fresh(table.infoLists.head) && fresh(table.infoIndex)
      ensures table.infos == map[]
      ensures table.infoIndex.Length == indexSize && forall k :: 0 <= k < indexSize ==> table.infoIndex[k] == null
    {
      this.epochs, this.mem := epochs, mem;
      table := new InfoTable(epochs.wordSize, epochs.max, indexSize);
      model := Init(mem[..]);
    }

    // The second half of load_from_wbuf, on the flags its first half read.
    method Choose(e: nat, info: AddrInfo, src: Addr, flags: Word, ghost s: State, ghost v: Views) returns (value: Value)
      requires Sized() && epochs.Valid() && s.line == epochs.line && s.mem == mem[..] && InWindow(epochs.max, s, e)
      requires Tracks(epochs.max, s, v) && info.addr in v && src < mem.Length
      requires v[info.addr].writeWord == UnpackHigh(epochs.wordSize, flags)
      requires v[info.addr].lastCommit == info.lastCommit && v[info.addr].buffer == info.writeBuffer
      ensures value == LoadedFor(s, e, info.addr, src)
    {
      Pow2Mono(epochs.max, epochs.wordSize);
      var found, index, at :=
        FindWriter(epochs.wordSize, UnpackHigh(epochs.wordSize, flags), epochs.rollbackFlag, epochs.first, e, epochs.max);
      LoadResult(epochs.max, s, v, epochs.rollbackFlag, e, info.addr, src, found, index, at);
      if found && at > info.lastCommit {
        value := info.writeBuffer[index];
      } else {
        value := mem[src];
      }
    }

    // The first half of load_from_wbuf.
    method MarkRead(e: nat, info: AddrInfo) returns (flags: Word)
      requires Ready(e, info) && Running(model, e)
      modifies this`model, info`flags
      ensures Valid() && InWindow(epochs.max, old(model), e) && Enabled(epochs.max, old(model), LoadStep(e, info.addr))
      ensures model == Apply(epochs.max, old(model), LoadStep(e, info.addr))
      ensures UnpackHigh(epochs.wordSize, flags) == old(table.Views())[info.addr].writeWord
      ensures info.lastCommit == old(table.Views())[info.addr].lastCommit
      ensures info.writeBuffer == old(table.Views())[info.addr].buffer
      ensures old(model).line == epochs.line && old(model).mem == mem[..]
      ensures table.infoIndex[..] == old(table.infoIndex[..])
    {
      ghost var views := table.Views();
      flags := table.MarkRead(e, info);
      LoadTracks(epochs.max, model, views, e, info.addr, info.View(epochs.wordSize));
      Become(Apply(epochs.max, model, LoadStep(e, info.addr)));
    }

    // load_from_wbuf
    method LoadFrom(e: nat, info: AddrInfo, src: Addr) returns (v: Value)
      requires Ready(e, info) && Running(model, e) && src < mem.Length
      modifies this`model, info`flags
      ensures Valid() && Enabled(epochs.max, old(model), LoadStep(e, info.addr))
      ensures v == LoadedFor(old(model), e, info.addr, src)
      ensures model == Apply(epochs.max, old(model), LoadStep(e, info.addr))
      ensures table.infoIndex[..] == old(table.infoIndex[..])
    {
      ghost var s, views := model, table.Views();
      var flags := MarkRead(e, info);
      v := Choose(e, info, src, flags, s, views);
    }

    ghost method Become(s: State)
      requires Sized() && table.Valid() && Tracks(epochs.max, s, table.Views()) && s.mem == mem[..]
      modifies this`model
      ensures Backed() && model == s && table.Views() == old(table.Views())
      ensures old(epochs.Valid()) && s.line == epochs.line ==> Valid()
    {
      model := s;
    }

    // get_map_addr_info and get_index_addr_info: the info of an address, on the
    // epoch's list. Nothing the step machine knows of has changed.
    ghost predicate Ready(e: nat, info: AddrInfo)
      reads this, mem, epochs, epochs.status
      reads table, table.infos.Values, table.infoLists, table.infoLists.head, table.infoLists.nodes, table.infoIndex
    {
      && Sized() && epochs.Valid() && model.line == epochs.line && model.mem == mem[..]
      && Tracks(epochs.max, model, table.Views())
      && table.ValidBut(Index(e, epochs.max), Some(info.addr))
      && table.Held(info) && info in table.Lists()[Index(e, epochs.max)]
    }

    method Get(e: nat, a: Addr) returns (info: AddrInfo)
      requires Valid() && a < mem.Length
      modifies table`infos, table.infoLists, table.infoLists.head, table.infos.Values`infoList
      ensures Ready(e, info) && info.addr == a && fresh(table.infos.Values - old(table.infos.Values))
    {
      ghost var v := table.Views();
      info := table.GetMapInfo(e, a);
      EnteredTracks(epochs.max, model, v, table.Views(), a, info.View(table.wordSize));
    }

    method FindFast(e: nat, id: nat, a: Addr) returns (info: AddrInfo)
      requires Sized() && table.Valid() && Tracks(epochs.max, model, table.Views())
      requires a < |model.mem| && id < table.infoIndex.Length
      modifies table`infos, table.infoLists, table.infoLists.head, table.infos.Values`infoList, table.infoIndex
      ensures Tracks(epochs.max, model, table.Views()) && table.ValidBut(Index(e, epochs.max), Some(info.addr))
      ensures table.Held(info) && info in table.Lists()[Index(e, epochs.max)] && info.addr == old(table.Behind(id, a))
      ensures fresh(table.infos.Values - old(table.infos.Values))
      ensures table.infoIndex[..] == old(table.infoIndex[..])[id := info]
    {
      ghost var v := table.Views();
      info := table.GetIndexInfo(e, id, a);
      EnteredTracks(epochs.max, model, v, table.Views(), info.addr, info.View(table.wordSize));
    }

    method GetFast(e: nat, id: nat, a: Addr) returns (info: AddrInfo)
      requires Valid() && a < mem.Length && id < table.infoIndex.Length
      modifies table`infos, table.infoLists, table.infoLists.head, table.infos.Values`infoList, table.infoIndex
      ensures Ready(e, info) && info.addr == old(table.Behind(id, a))
      ensures fresh(table.infos.Values - old(table.infos.Values))
      ensures table.infoIndex[..] == old(table.infoIndex[..])[id := info]
    {
      info := FindFast(e, id, a);
    }

    // yarn_dep_load
    method Load(e: nat, a: Addr) returns (v: Value)
      requires Valid() && Running(model, e) && a < mem.Length
      modifies this`model, table, table.infoLists, table.infoLists.head, table.infos.Values
      ensures Valid() && Enabled(epochs.max, old(model), LoadStep(e, a))
      ensures v == LoadValue(old(model), e, a)
      ensures fresh(table.infos.Values - old(table.infos.Values))
      ensures model == Apply(epochs.max, old(model), LoadStep(e, a))
    {
      var info := Get(e, a);
      v := LoadFrom(e, info, a);
    }

    // yarn_dep_load_fast. An index that is always used with one address loads as
    // yarn_dep_load does; otherwise the flags and the buffer are those of the address
    // the index was filled with, and only memory is read at the address given.
    method LoadFast(e: nat, id: nat, a: Addr) returns (v: Value)
      requires Valid() && Running(model, e) && a < mem.Length && id < table.infoIndex.Length
      modifies this`model, table, table.infoLists, table.infoLists.head, table.infos.Values, table.infoIndex
      ensures var b := old(table.Behind(id, a));
              && Valid() && Enabled(epochs.max, old(model), LoadStep(e, b))
              && model == Apply(epochs.max, old(model), LoadStep(e, b))
              && v == LoadedFor(old(model), e, b, a)
              && table.infoIndex[id] != null && table.infoIndex[id].addr == b
      ensures fresh(table.infos.Values - old(table.infos.Values))
      ensures table.infoIndex[..] == old(table.infoIndex[..])[id := table.infoIndex[id]]
    {
      var info := GetFast(e, id, a);
      v := LoadFrom(e, info, a);
    }

    // store_to_wbuf
    method StoreTo(e: nat, info: AddrInfo, x: Value) returns (readFlags: Word)
      requires Ready(e, info) && Running(model, e)
      modifies this`model, info`flags, info`writeBuffer
      ensures Valid() && Enabled(epochs.max, old(model), StoreStep(e, info.addr, x))
      ensures model == AfterWrite(old(model), e, info.addr, x) && model.line.nextCommit <= e
      ensures info.addr in table.Views() && readFlags == table.Views()[info.addr].readWord
    {
      ghost var v := table.Views();
      var flags := table.MarkWrite(e, info, x);
      StoreTracks(epochs.max, model, v, e, info.addr, x, info.View(epochs.wordSize));
      Become(AfterWrite(model, e, info.addr, x));
      readFlags := UnpackLow(epochs.wordSize, flags);
    }

    // The part of dep_violation_check that looks for the epoch to roll back to.
    method FindViolation(e: nat, ghost a: Addr, readFlags: Word) returns (found: bool, at: nat)
      requires Valid() && model.line.nextCommit <= e && a in table.Views() && readFlags == table.Views()[a].readWord
      ensures EarliestReader(model, e + 1, a) == if found then Some(at) else None
    {
      Pow2Mono(epochs.max, epochs.wordSize);
      found, at := FindReader(epochs.wordSize, readFlags, epochs.rollbackFlag, e, epochs.next, epochs.max);
      StoreResult(epochs.max, model, table.Views(), epochs.rollbackFlag, e, a, found, at);
    }

    // The ring has rolled back, and the state of the step machine with it.
    ghost method FollowRollback(s: State, start: nat)
      requires epochs.Valid() && Backed() && model == s && StopBound(epochs.max, s.line)
      requires s.line.nextCommit <= start < s.line.next && epochs.line == Timeline.DoRollback(s.line, start)
      modifies this`model
      ensures Valid() && model == s.(line := Timeline.DoRollback(s.line, start))
    {
      RollbackTracks(epochs.max, s, table.Views(), start);
      Become(s.(line := Timeline.DoRollback(s.line, start)));
    }

    // yarn_epoch_do_rollback, as dep_violation_check calls it.
    method RollbackFrom(start: nat)
      requires Valid() && model.line.nextCommit <= start < model.line.next
      modifies this`model, epochs, epochs.status
      ensures Valid() && model == old(model).(line := Timeline.DoRollback(old(model).line, start))
    {
      ghost var s := model;
      epochs.DoRollback(start);
      FollowRollback(s, start);
    }

    // dep_violation_check
    method ViolationCheck(e: nat, ghost a: Addr, readFlags: Word)
      requires Valid() && model.line.nextCommit <= e && a in table.Views() && readFlags == table.Views()[a].readWord
      modifies this`model, epochs, epochs.status
      ensures Valid() && model == AfterStore(old(model), EarliestReader(old(model), e + 1, a))
    {
      var found, at := FindViolation(e, a, readFlags);
      if found {
        RollbackFrom(at);
      }
    }

    // What yarn_dep_store and yarn_dep_store_fast have in common.
    method StoreInfo(e: nat, info: AddrInfo, x: Value)
      requires Ready(e, info) && Running(model, e)
      modifies this`model, info`flags, info`writeBuffer, epochs, epochs.status
      ensures Valid() && Enabled(epochs.max, old(model), StoreStep(e, info.addr, x))
      ensures model == Apply(epochs.max, old(model), StoreStep(e, info.addr, x))
      ensures table.infoIndex[..] == old(table.infoIndex[..])
    {
      ghost var s := model;
      var readFlags := StoreTo(e, info, x);
      ViolationCheck(e, info.addr, readFlags);
      WriteThenCheck(epochs.max, s, e, info.addr, x);
    }

    // yarn_dep_store
    method Store(e: nat, a: Addr, x: Value)
      requires Valid() && Running(model, e) && a < mem.Length
      modifies this`model, table, table.infoLists, table.infoLists.head, table.infos.Values, epochs, epochs.status
      ensures Valid() && Enabled(epochs.max, old(model), StoreStep(e, a, x))
      ensures fresh(table.infos.Values - old(table.infos.Values))
      ensures model == Apply(epochs.max, old(model), StoreStep(e, a, x))
    {
      var info := Get(e, a);
      StoreInfo(e, info, x);
    }

    // yarn_dep_store_fast. The store goes to the address the index was filled with.
    method StoreFast(e: nat, id: nat, a: Addr, x: Value)
      requires Valid() && Running(model, e) && a < mem.Length && id < table.infoIndex.Length
      modifies this`model, table, table.infoLists, table.infoLists.head, table.infos.Values, table.infoIndex
      modifies epochs, epochs.status
      ensures var b := old(table.Behind(id, a));
              && Valid() && Enabled(epochs.max, old(model), StoreStep(e, b, x))
              && model == Apply(epochs.max, old(model), StoreStep(e, b, x))
              && table.infoIndex[id] != null && table.infoIndex[id].addr == b
      ensures fresh(table.infos.Values - old(table.infos.Values))
      ensures table.infoIndex[..] == old(table.infoIndex[..])[id := table.infoIndex[id]]
    {
      var info := GetFast(e, id, a);
      StoreInfo(e, info, x);
    }

    // The write to memory in yarn_dep_commit, if no newer value was written.
    method WriteNewer(e: nat, info: AddrInfo) returns (newer: bool)
      requires Taken(e, info) && model.mem == mem[..] && info.addr < mem.Length
      modifies mem
      ensures Taken(e, info) && table.Views() == old(table.Views())
      ensures newer <==> Bit(info.View(epochs.wordSize).writeWord, Index(e, epochs.max)) && e > info.lastCommit
      ensures mem[..] == if newer then old(mem[..])[info.addr := info.writeBuffer[Index(e, epochs.max)]] else old(mem[..])
    {
      newer := info.IsNewer(epochs.wordSize, epochs.max, e);
      if newer {
        mem[info.addr] := info.writeBuffer[Index(e, epochs.max)];
      }
    }

    // An info that was just taken off the epoch's list.
    ghost predicate Taken(e: nat, info: AddrInfo)
      reads this
      reads table, table.infos.Values, table.infoLists, table.infoLists.head, table.infoLists.nodes, table.infoIndex
    {
      && Sized() && Tracks(epochs.max, model, table.Views())
      && table.ValidBut(Index(e, epochs.max), Some(info.addr))
      && table.Held(info) && info !in table.Lists()[Index(e, epochs.max)]
    }

    method Retire(e: nat, info: AddrInfo, newer: bool)
      requires Taken(e, info) && Claimed(model, e)
      requires newer <==> Bit(info.View(epochs.wordSize).writeWord, Index(e, epochs.max)) && e > info.lastCommit
      modifies info`flags, info`lastCommit
      ensures table.Valid() && info.addr < |model.mem| == |model.lastCommit|
      ensures Tracks(epochs.max, WriteBack(model, e, info.addr), table.Views())
      ensures WriteBack(model, e, info.addr).mem ==
              if newer then model.mem[info.addr := info.writeBuffer[Index(e, epochs.max)]] else model.mem
      ensures OtherSlots(epochs.max, old(table.Views()), table.Views(), Index(e, epochs.max))
    {
      ghost var v := table.Views();
      assert v[info.addr] == info.View(epochs.wordSize);
      table.Retire(e, info, newer);
      CommitTracks(epochs.max, model, v, e, info.addr, info.View(epochs.wordSize));
    }

    // The body of the loop of yarn_dep_commit.
    method CommitOne(e: nat, info: AddrInfo)
      requires Taken(e, info) && Claimed(model, e) && model.mem == mem[..]
      modifies this`model, mem, info`flags, info`lastCommit
      ensures Backed() && info.addr < |old(model).mem| == |old(model).lastCommit|
      ensures model == WriteBack(old(model), e, info.addr)
      ensures OtherSlots(epochs.max, old(table.Views()), table.Views(), Index(e, epochs.max))
    {
      assert info.addr in table.Views();
      var newer := WriteNewer(e, info);
      Retire(e, info, newer);
      Become(WriteBack(model, e, info.addr));
    }

    // info_list_pop in the loops of yarn_dep_commit and yarn_dep_rollback.
    method Take(e: nat) returns (info: AddrInfo?)
      requires Backed() && InWindow(epochs.max, model, e)
      modifies table.infoLists, table.infoLists.head, table.infos.Values`infoList
      ensures info == null ==> Backed() && table.Lists() == old(table.Lists()) && table.Lists()[Index(e, epochs.max)] == []
      ensures info != null ==> Taken(e, info) && e < |model.runs| && Touched(model.runs[e], info.addr)
      ensures info != null ==> Taken(e, info) && Shorter(old(table.Lists()), table.Lists(), Index(e, epochs.max))
      ensures table.Views() == old(table.Views())
    {
      ghost var v := table.Views();
      info := table.Pop(e);
      if info != null {
        assert ReadBit(v, info.addr, Index(e, epochs.max)) <==> Loaded(model, e, info.addr);
        assert WriteBit(v, info.addr, Index(e, epochs.max)) <==> Buffered(model, e, info.addr);
      }
    }

    // One round of the loop of yarn_dep_commit: it writes back an address of the
    // epoch, unless there is none left.
    method CommitNext(e: nat) returns (more: bool, ghost a: Addr)
      requires Backed() && Claimed(model, e) && InWindow(epochs.max, model, e)
      modifies this`model, mem, table.infoLists, table.infoLists.head, table.infos.Values
      ensures Backed() && OtherSlots(epochs.max, old(table.Views()), table.Views(), Index(e, epochs.max))
      ensures more ==> Enabled(epochs.max, old(model), WriteBackStep(e, a))
      ensures more ==> model == Apply(epochs.max, old(model), WriteBackStep(e, a))
      ensures more ==> Shorter(old(table.Lists()), table.Lists(), Index(e, epochs.max))
      ensures !more ==> model == old(model) && table.Lists() == old(table.Lists())
      ensures !more ==> |table.Lists()| == epochs.max && table.Lists()[Index(e, epochs.max)] == []
    {
      var info := Take(e);
      if info == null {
        more, a := false, 0;
        return;
      }
      more, a := true, info.addr;
      CommitOne(e, info);
    }

    // The same, with the ring in sight; when there is no address left the epoch is
    // ready to be marked committed.
    method CommitAddress(e: nat) returns (more: bool, ghost a: Addr)
      requires Valid() && Claimed(model, e)
      modifies this`model, mem, table.infoLists, table.infoLists.head, table.infos.Values
      ensures Valid() && table.infos == old(table.infos)
      ensures more ==> Enabled(epochs.max, old(model), WriteBackStep(e, a))
      ensures more ==> model == Apply(epochs.max, old(model), WriteBackStep(e, a))
      ensures !more ==> model == old(model) && Enabled(epochs.max, model, CommittedStep(e))
    {
      more, a := CommitNext(e);
      if !more {
        NothingTouched(epochs.max, model, table.Views(), e);
      }
    }

    // How far a commit or a rollback of epoch e has got since the state s, the views
    // v and the lists l.
    ghost predicate Emptying(e: nat, v: Views, l: seq<seq<AddrInfo>>)
      reads this, table, table.infoLists, table.infos.Values
    {
      && epochs.max > 0 && |l| == |table.Lists()| == epochs.max
      && OtherSlots(epochs.max, v, table.Views(), Index(e, epochs.max))
      && table.Lists() == l[Index(e, epochs.max) := table.Lists()[Index(e, epochs.max)]]
    }

    method CommitRound(e: nat, ghost s: State, ghost v: Views, ghost l: seq<seq<AddrInfo>>) returns (more: bool)
      requires Backed() && Claimed(model, e) && InWindow(epochs.max, model, e) && Emptying(e, v, l)
      requires CommitsTo(model, s, e)
      modifies this`model, mem, table.infoLists, table.infoLists.head, table.infos.Values
      ensures Backed() && Claimed(model, e) && InWindow(epochs.max, model, e) && Emptying(e, v, l)
      ensures CommitsTo(model, s, e)
      ensures more ==> |table.Lists()[Index(e, epochs.max)]| < |old(table.Lists()[Index(e, epochs.max)])|
      ensures !more ==> table.Lists()[Index(e, epochs.max)] == []
    {
      ghost var a;
      ghost var s1, v1 := model, table.Views();
      more, a := CommitNext(e);
      OtherSlotsCompose(epochs.max, v, v1, table.Views(), Index(e, epochs.max));
      if more {
        WriteBackThenCommit(s1, e, a);
      }
    }

    // yarn_dep_commit. All that is left of the epoch is what it wrote to memory; the
    // other slots are as they were.
    method Commit(e: nat)
      requires Valid() && Claimed(model, e)
      modifies this`model, mem, table.infoLists, table.infoLists.head, table.infos.Values
      ensures Valid() && |old(model).mem| == |old(model).lastCommit| && e < |old(model).runs|
      ensures model == CommitEpoch(old(model), e)
      ensures forall a :: a in table.infos ==> !InSlot(table.Views(), a, Index(e, epochs.max))
      ensures OtherSlots(epochs.max, old(table.Views()), table.Views(), Index(e, epochs.max))
      ensures table.Lists() == old(table.Lists())[Index(e, epochs.max) := []]
    {
      ghost var s, v, l := model, table.Views(), table.Lists();
      var more := true;
      while more
        invariant Backed() && Claimed(model, e) && InWindow(epochs.max, model, e) && Emptying(e, v, l)
        invariant CommitsTo(model, s, e) && table.infos == old(table.infos)
        invariant !more ==> table.Lists()[Index(e, epochs.max)] == []
        decreases more, |table.Lists()[Index(e, epochs.max)]|
      {
        more := CommitRound(e, s, v, l);
      }
      NothingTouched(epochs.max, model, table.Views(), e);
      NothingToCommit(model, e);
    }

    // The body of the loop of yarn_dep_rollback.
    method ScrubOne(e: nat, info: AddrInfo)
      requires Taken(e, info) && BeingCleaned(model, e) && model.mem == mem[..]
      modifies this`model, info`flags
      ensures Backed() && e < |old(model).runs|
      ensures model == old(model).(runs := old(model).runs[e := Clear(old(model).runs[e], info.addr)])
      ensures OtherSlots(epochs.max, old(table.Views()), table.Views(), Index(e, epochs.max))
    {
      ghost var v := table.Views();
      assert v[info.addr] == info.View(epochs.wordSize);
      table.Clean(e, info);
      assert OtherSlots(epochs.max, v, table.Views(), Index(e, epochs.max));
      ScrubTracks(epochs.max, model, v, e, info.addr, info.View(epochs.wordSize));
      Become(model.(runs := model.runs[e := Clear(model.runs[e], info.addr)]));
    }

    // One round of the loop of yarn_dep_rollback.
    method ScrubNext(e: nat) returns (more: bool, ghost a: Addr)
      requires Backed() && BeingCleaned(model, e) && InWindow(epochs.max, model, e)
      requires model.line.first <= model.line.nextCommit
      modifies this`model, table.infoLists, table.infoLists.head, table.infos.Values
      ensures Backed() && OtherSlots(epochs.max, old(table.Views()), table.Views(), Index(e, epochs.max))
      ensures more ==> Enabled(epochs.max, old(model), ScrubStep(e, a))
      ensures more ==> model == Apply(epochs.max, old(model), ScrubStep(e, a))
      ensures more ==> Shorter(old(table.Lists()), table.Lists(), Index(e, epochs.max))
      ensures !more ==> model == old(model) && table.Lists() == old(table.Lists())
      ensures !more ==> |table.Lists()| == epochs.max && table.Lists()[Index(e, epochs.max)] == []
    {
      var info := Take(e);
      if info == null {
        more, a := false, 0;
        return;
      }
      more, a := true, info.addr;
      ScrubOne(e, info);
    }

    // The same, with the ring in sight; when there is no address left the rollback bit
    // can be cleared.
    method ScrubAddress(e: nat) returns (more: bool, ghost a: Addr)
      requires Valid() && BeingCleaned(model, e)
      modifies this`model, table.infoLists, table.infoLists.head, table.infos.Values
      ensures Valid() && table.infos == old(table.infos)
      ensures more ==> Enabled(epochs.max, old(model), ScrubStep(e, a))
      ensures more ==> model == Apply(epochs.max, old(model), ScrubStep(e, a))
      ensures !more ==> model == old(model) && Enabled(epochs.max, model, UnmaskStep(e))
    {
      more, a := ScrubNext(e);
      if !more {
        NothingTouched(epochs.max, model, table.Views(), e);
      }
    }

    method ScrubRound(e: nat, ghost s: State, ghost v: Views, ghost l: seq<seq<AddrInfo>>) returns (more: bool)
      requires Backed() && BeingCleaned(model, e) && InWindow(epochs.max, model, e) && Emptying(e, v, l)
      requires e < |s.runs| && Scrubbed(model, e) == Scrubbed(s, e)
      modifies this`model, table.infoLists, table.infoLists.head, table.infos.Values
      ensures Backed() && BeingCleaned(model, e) && InWindow(epochs.max, model, e) && Emptying(e, v, l)
      ensures e < |s.runs| && Scrubbed(model, e) == Scrubbed(s, e)
      ensures more ==> |table.Lists()[Index(e, epochs.max)]| < |old(table.Lists()[Index(e, epochs.max)])|
      ensures !more ==> table.Lists()[Index(e, epochs.max)] == []
    {
      ghost var a;
      ghost var v1 := table.Views();
      more, a := ScrubNext(e);
      OtherSlotsCompose(epochs.max, v, v1, table.Views(), Index(e, epochs.max));
    }

    // yarn_dep_rollback. It leaves nothing of the epoch's last execution, and the
    // other slots as they were.
    method Rollback(e: nat)
      requires Valid() && BeingCleaned(model, e)
      modifies this`model, table.infoLists, table.infoLists.head, table.infos.Values
      ensures Valid() && e < |old(model).runs| && model == Scrubbed(old(model), e)
      ensures forall a :: a in table.infos ==> !InSlot(table.Views(), a, Index(e, epochs.max))
      ensures OtherSlots(epochs.max, old(table.Views()), table.Views(), Index(e, epochs.max))
      ensures table.Lists() == old(table.Lists())[Index(e, epochs.max) := []]
    {
      ghost var s, v, l := model, table.Views(), table.Lists();
      var more := true;
      while more
        invariant Backed() && BeingCleaned(model, e) && InWindow(epochs.max, model, e) && Emptying(e, v, l)
        invariant e < |s.runs| && Scrubbed(model, e) == Scrubbed(s, e) && table.infos == old(table.infos)
        invariant !more ==> table.Lists()[Index(e, epochs.max)] == []
        decreases more, |table.Lists()[Index(e, epochs.max)]|
      {
        more := ScrubRound(e, s, v, l);
      }
      NothingTouched(epochs.max, model, table.Views(), e);
      assert Scrubbed(model, e) == model;
    }
  }
}
