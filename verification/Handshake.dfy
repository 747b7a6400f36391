/**
 The flags of one address, one compare-and-swap at a time. Threads store, load and
 clear in any interleaving; every read of the flags, every attempt to swap them and
 every access to the write buffer is a step of its own. What is at stake is that a
 store and a later epoch's load cannot miss each other.
 */
module Handshake {
  import opened Bits
  import opened AddrInfos

  // Where a thread stands in store_to_wbuf, load_from_wbuf or clear_flags. i is the
  // slot of its epoch, n says which write to the slot's buffer entry the store made,
  // and flags is what it last read, or what its operation returned.
  datatype Pc =
    | Idle
    | StoreBegun(i: nat, n: nat)
    | StoreRead(i: nat, n: nat, flags: Word)
    | StoreDone(i: nat, n: nat, flags: Word)
    | LoadBegun(i: nat)
    | LoadRead(i: nat, flags: Word)
    | LoadFlagged(i: nat, flags: Word)
    | LoadDone(i: nat, flags: Word, from: nat, seen: nat)
    | ClearBegun(i: nat)
    | ClearRead(i: nat, flags: Word)

  // writes counts the writes to each entry of the write buffer.
  datatype Info = Info(flags: Word, writes: seq<nat>, threads: seq<Pc>)

  datatype Move =
    | BeginStore(t: nat, i: nat)
    | BeginLoad(t: nat, i: nat)
    | BeginClear(t: nat, i: nat)
    | Go(t: nat)
    | ReadBuffer(t: nat, from: nat)
    | End(t: nat)

  datatype Sizes = Sizes(w: nat, max: nat)

  predicate Proper(z: Sizes) {
    IsWordSize(z.w) && 0 < z.max <= z.w / 2
  }

  predicate Reader(z: Sizes, flags: Word, i: nat) {
    Bit(UnpackLow(z.w, flags), i)
  }

  predicate Writer(z: Sizes, flags: Word, i: nat) {
    Bit(UnpackHigh(z.w, flags), i)
  }

  // ---------------------------------------------------------------- the words

  function WithReader(z: Sizes, flags: Word, i: nat): Word
    requires Proper(z)
  {
    Pack(z.w, Or(UnpackLow(z.w, flags), Mask(i, z.max)), UnpackHigh(z.w, flags))
  }

  function WithWriter(z: Sizes, flags: Word, i: nat): Word
    requires Proper(z)
  {
    Pack(z.w, UnpackLow(z.w, flags), Or(UnpackHigh(z.w, flags), Mask(i, z.max)))
  }

  function Without(z: Sizes, flags: Word, i: nat): Word
    requires Proper(z)
  {
    Pack(z.w, ClearBit(z.w, UnpackLow(z.w, flags), i, z.max), ClearBit(z.w, UnpackHigh(z.w, flags), i, z.max))
  }

  ghost predicate Fits(z: Sizes, flags: Word) {
    UnpackLow(z.w, flags) < Pow2(z.max) && UnpackHigh(z.w, flags) < Pow2(z.max)
  }

  lemma WordBits(z: Sizes, flags: Word, i: nat, j: nat)
    requires Proper(z) && Fits(z, flags) && i < z.max && j < z.max
    ensures Fits(z, WithReader(z, flags, i)) && Fits(z, WithWriter(z, flags, i)) && Fits(z, Without(z, flags, i))
    ensures Reader(z, WithReader(z, flags, i), j) <==> Reader(z, flags, j) || j == i
    ensures Writer(z, WithReader(z, flags, i), j) <==> Writer(z, flags, j)
    ensures Reader(z, WithWriter(z, flags, i), j) <==> Reader(z, flags, j)
    ensures Writer(z, WithWriter(z, flags, i), j) <==> Writer(z, flags, j) || j == i
    ensures Reader(z, Without(z, flags, i), j) <==> Reader(z, flags, j) && j != i
    ensures Writer(z, Without(z, flags, i), j) <==> Writer(z, flags, j) && j != i
  {
    var r, w := UnpackLow(z.w, flags), UnpackHigh(z.w, flags);
    IndexInjective(z.max, i, i);
    SmallIndex(i, z.max);
    FlagBits(z.w, z.max, r, w, i);
    FlagBits(z.w, z.max, w, r, i);
  }

  lemma SmallIndex(i: nat, max: nat)
    requires i < max
    ensures Index(i, max) == i
  {
  }

  // ---------------------------------------------------------------- the steps

  predicate CanMove(z: Sizes, s: Info, m: Move) {
    && m.t < |s.threads|
    && match m
       case BeginStore(t, i) => s.threads[t] == Idle && i < z.max && i < |s.writes|
       case BeginLoad(t, i) => s.threads[t] == Idle && i < z.max
       case BeginClear(t, i) => s.threads[t] == Idle && i < z.max
       case Go(t) =>
         var p := s.threads[t];
         p.StoreBegun? || p.StoreRead? || p.LoadBegun? || p.LoadRead? || p.ClearBegun? || p.ClearRead?
       case ReadBuffer(t, from) => s.threads[t].LoadFlagged? && from < |s.writes|
       case End(t) => s.threads[t].StoreDone? || s.threads[t].LoadFlagged? || s.threads[t].LoadDone?
  }

  // The word after a thread's step, which a compare-and-swap changes only if it
  // still is what the thread has read.
  function NextFlags(z: Sizes, flags: Word, p: Pc): Word
    requires Proper(z)
  {
    match p
    case StoreRead(i, _, f) => if flags == f then WithWriter(z, flags, i) else flags
    case LoadRead(i, f) => if flags == f then WithReader(z, flags, i) else flags
    case ClearRead(i, f) => if flags == f then Without(z, flags, i) else flags
    case _ => flags
  }

  function NextPc(z: Sizes, flags: Word, p: Pc): Pc
    requires Proper(z)
  {
    match p
    case StoreBegun(i, n) => if Writer(z, flags, i) then StoreDone(i, n, flags) else StoreRead(i, n, flags)
    case StoreRead(i, n, f) => if flags == f then StoreDone(i, n, WithWriter(z, flags, i)) else StoreBegun(i, n)
    case LoadBegun(i) => if Reader(z, flags, i) then LoadFlagged(i, flags) else LoadRead(i, flags)
    case LoadRead(i, f) => if flags == f then LoadFlagged(i, WithReader(z, flags, i)) else LoadBegun(i)
    case ClearBegun(i) => ClearRead(i, flags)
    case ClearRead(i, f) => if flags == f then Idle else ClearBegun(i)
    case _ => p
  }

  function Next(z: Sizes, s: Info, m: Move): Info
    requires Proper(z) && CanMove(z, s, m)
  {
    match m
    case BeginStore(t, i) =>
      Info(s.flags, s.writes[i := s.writes[i] + 1], s.threads[t := StoreBegun(i, s.writes[i] + 1)])
    case BeginLoad(t, i) => s.(threads := s.threads[t := LoadBegun(i)])
    case BeginClear(t, i) => s.(threads := s.threads[t := ClearBegun(i)])
    case Go(t) =>
      Info(NextFlags(z, s.flags, s.threads[t]), s.writes, s.threads[t := NextPc(z, s.flags, s.threads[t])])
    case ReadBuffer(t, from) =>
      var p := s.threads[t];
      s.(threads := s.threads[t := LoadDone(p.i, p.flags, from, s.writes[from])])
    case End(t) => s.(threads := s.threads[t := Idle])
  }

  // A run of any length, from any flags.
  ghost predicate IsRun(z: Sizes, run: seq<Info>, moves: seq<Move>) {
    && Proper(z) && |run| == |moves| + 1
    && Fits(z, run[0].flags) && (forall t :: 0 <= t < |run[0].threads| ==> run[0].threads[t] == Idle)
    && forall k {:trigger moves[k]} :: 0 <= k < |moves| ==>
         CanMove(z, run[k], moves[k]) && run[k + 1] == Next(z, run[k], moves[k])
  }

  // The k-th step clears the flags of slot i.
  predicate Clears(run: seq<Info>, moves: seq<Move>, k: nat, i: nat)
    requires k < |moves| && k < |run|
  {
    && moves[k].Go? && moves[k].t < |run[k].threads|
    && run[k].threads[moves[k].t] == ClearRead(i, run[k].flags)
  }

  // ---------------------------------------------------------------- what a step keeps

  ghost predicate InRange(z: Sizes, s: Info) {
    && Fits(z, s.flags)
    && forall t :: 0 <= t < |s.threads| && !s.threads[t].Idle? ==> s.threads[t].i < z.max
  }

  lemma StepKeepsRange(z: Sizes, s: Info, m: Move)
    requires Proper(z) && InRange(z, s) && CanMove(z, s, m)
    ensures InRange(z, Next(z, s, m)) && |Next(z, s, m).threads| == |s.threads| && |Next(z, s, m).writes| == |s.writes|
  {
    if m.Go? {
      WordBits(z, s.flags, s.threads[m.t].i, 0);
    }
  }

  lemma {:induction false} RunInRange(z: Sizes, run: seq<Info>, moves: seq<Move>, k: nat)
    requires IsRun(z, run, moves) && k < |run|
    ensures InRange(z, run[k]) && |run[k].threads| == |run[0].threads| && |run[k].writes| == |run[0].writes|
  {
    if k > 0 {
      RunInRange(z, run, moves, k - 1);
      StepKeepsRange(z, run[k - 1], moves[k - 1]);
    }
  }

  // No step of a thread changes the flags of an epoch other than its own, and only
  // clear_flags takes flags away.
  lemma OnlyOwnBits(z: Sizes, s: Info, m: Move, j: nat)
    requires Proper(z) && InRange(z, s) && CanMove(z, s, m) && j < z.max
    ensures var s' := Next(z, s, m);
            && (Reader(z, s'.flags, j) != Reader(z, s.flags, j) ==> m.Go? && s.threads[m.t].i == j)
            && (Writer(z, s'.flags, j) != Writer(z, s.flags, j) ==> m.Go? && s.threads[m.t].i == j)
            && (Reader(z, s.flags, j) && !Reader(z, s'.flags, j) ==> s.threads[m.t] == ClearRead(j, s.flags))
            && (Writer(z, s.flags, j) && !Writer(z, s'.flags, j) ==> s.threads[m.t] == ClearRead(j, s.flags))
  {
    if m.Go? {
      WordBits(z, s.flags, s.threads[m.t].i, j);
    }
  }

  lemma FlagsStayOnce(z: Sizes, run: seq<Info>, moves: seq<Move>, k: nat, j: nat)
    requires IsRun(z, run, moves) && k < |moves| && j < z.max && !Clears(run, moves, k, j)
    ensures Reader(z, run[k].flags, j) ==> Reader(z, run[k + 1].flags, j)
    ensures Writer(z, run[k].flags, j) ==> Writer(z, run[k + 1].flags, j)
  {
    RunInRange(z, run, moves, k);
    OnlyOwnBits(z, run[k], moves[k], j);
  }

  // A flag that is set stays set until it is cleared.
  lemma {:induction false} FlagsStay(z: Sizes, run: seq<Info>, moves: seq<Move>, p: nat, q: nat, j: nat)
    requires IsRun(z, run, moves) && p <= q < |run| && j < z.max
    requires forall k :: p <= k < q ==> !Clears(run, moves, k, j)
    ensures Reader(z, run[p].flags, j) ==> Reader(z, run[q].flags, j)
    ensures Writer(z, run[p].flags, j) ==> Writer(z, run[q].flags, j)
  {
    if p < q {
      FlagsStay(z, run, moves, p, q - 1, j);
      FlagsStayOnce(z, run, moves, q - 1, j);
    }
  }

  lemma {:induction false} WritesGrow(z: Sizes, run: seq<Info>, moves: seq<Move>, p: nat, q: nat, i: nat)
    requires IsRun(z, run, moves) && p <= q < |run| && i < |run[0].writes|
    ensures i < |run[p].writes| && i < |run[q].writes| && run[p].writes[i] <= run[q].writes[i]
  {
    RunInRange(z, run, moves, p);
    RunInRange(z, run, moves, q);
    if p < q {
      WritesGrow(z, run, moves, p, q - 1, i);
      assert run[q] == Next(z, run[q - 1], moves[q - 1]);
    }
  }

  // ---------------------------------------------------------------- spans

  // Thread t is in one store for slot i from the step b, at which it writes the
  // buffer, to the state f, at which it has its flags.
  ghost predicate StoreSpan(run: seq<Info>, moves: seq<Move>, t: nat, i: nat, b: nat, f: nat) {
    && b < f < |run| && b < |moves| && moves[b] == BeginStore(t, i)
    && (forall k :: b < k <= f ==> t < |run[k].threads| && InStore(run[k].threads[t]))
    && run[f].threads[t].StoreDone?
  }

  predicate InStore(p: Pc) {
    p.StoreBegun? || p.StoreRead? || p.StoreDone?
  }

  // Thread u is in one load for slot j from the step c to the state g.
  ghost predicate Loading(run: seq<Info>, moves: seq<Move>, u: nat, j: nat, c: nat, g: nat) {
    && c < g < |run| && c < |moves| && moves[c] == BeginLoad(u, j)
    && (forall k :: c < k <= g ==> u < |run[k].threads| && InLoad(run[k].threads[u]))
  }

  // And at g it has read the buffer.
  ghost predicate LoadSpan(run: seq<Info>, moves: seq<Move>, u: nat, j: nat, c: nat, g: nat) {
    Loading(run, moves, u, j, c, g) && run[g].threads[u].LoadDone?
  }

  predicate InLoad(p: Pc) {
    p.LoadBegun? || p.LoadRead? || p.LoadFlagged? || p.LoadDone?
  }

  lemma {:induction false} StoreKeepsItsNumber(z: Sizes, run: seq<Info>, moves: seq<Move>, t: nat, i: nat, b: nat, f: nat, k: nat)
    requires IsRun(z, run, moves) && StoreSpan(run, moves, t, i, b, f) && b < k <= f
    ensures run[k].threads[t].i == i && i < |run[b + 1].writes| && run[k].threads[t].n == run[b + 1].writes[i]
    ensures i < z.max
  {
    if k == b + 1 {
      assert run[k] == Next(z, run[b], moves[b]);
    } else {
      StoreKeepsItsNumber(z, run, moves, t, i, b, f, k - 1);
      assert run[k] == Next(z, run[k - 1], moves[k - 1]);
    }
  }

  // The flags a store returns were the flags at some moment after it wrote the
  // buffer, and have its own bit.
  lemma {:induction false} StorePoint(z: Sizes, run: seq<Info>, moves: seq<Move>, t: nat, i: nat, b: nat, f: nat)
    returns (p: nat)
    requires IsRun(z, run, moves) && StoreSpan(run, moves, t, i, b, f)
    ensures b < p <= f && run[p].flags == run[f].threads[t].flags && Writer(z, run[p].flags, i)
    decreases f
  {
    var k := f - 1;
    assert run[f] == Next(z, run[k], moves[k]);
    StoreKeepsItsNumber(z, run, moves, t, i, b, f, f);
    assert k > b;
    if run[k].threads[t].StoreDone? {
      p := StorePoint(z, run, moves, t, i, b, k);
    } else {
      p := f;
      StoreKeepsItsNumber(z, run, moves, t, i, b, f, k);
      RunInRange(z, run, moves, k);
      WordBits(z, run[k].flags, i, i);
    }
  }

  lemma {:induction false} LoadKeepsItsSlot(z: Sizes, run: seq<Info>, moves: seq<Move>, u: nat, j: nat, c: nat, g: nat, k: nat)
    requires IsRun(z, run, moves) && Loading(run, moves, u, j, c, g) && c < k <= g
    ensures run[k].threads[u].i == j && j < z.max
  {
    if k > c + 1 {
      LoadKeepsItsSlot(z, run, moves, u, j, c, g, k - 1);
      assert run[k] == Next(z, run[k - 1], moves[k - 1]);
    } else {
      assert run[k] == Next(z, run[c], moves[c]);
    }
  }

  lemma FlaggedNow(z: Sizes, s: Info, m: Move, u: nat, j: nat)
    requires Proper(z) && InRange(z, s) && CanMove(z, s, m) && j < z.max
    requires u < |s.threads| && InLoad(s.threads[u]) && s.threads[u].i == j && !s.threads[u].LoadFlagged?
    requires Next(z, s, m).threads[u].LoadFlagged?
    ensures Next(z, s, m).flags == Next(z, s, m).threads[u].flags && Reader(z, Next(z, s, m).flags, j)
  {
    WordBits(z, s.flags, j, j);
  }

  lemma FlaggedStays(z: Sizes, s: Info, m: Move, u: nat)
    requires Proper(z) && CanMove(z, s, m) && u < |s.threads|
    requires s.threads[u].LoadFlagged? && Next(z, s, m).threads[u].LoadFlagged?
    ensures Next(z, s, m).threads[u] == s.threads[u]
  {
  }

  lemma {:induction false} FlaggedPoint(z: Sizes, run: seq<Info>, moves: seq<Move>, u: nat, j: nat, c: nat, g: nat, k: nat)
    returns (p: nat)
    requires IsRun(z, run, moves) && Loading(run, moves, u, j, c, g) && c < k <= g && run[k].threads[u].LoadFlagged?
    ensures c < p <= k && run[p].flags == run[k].threads[u].flags && Reader(z, run[p].flags, j)
    decreases k
  {
    assert k - 1 > c;
    if run[k - 1].threads[u].LoadFlagged? {
      FlaggedStays(z, run[k - 1], moves[k - 1], u);
      p := FlaggedPoint(z, run, moves, u, j, c, g, k - 1);
    } else {
      p := k;
      LoadKeepsItsSlot(z, run, moves, u, j, c, g, k - 1);
      RunInRange(z, run, moves, k - 1);
      FlaggedNow(z, run[k - 1], moves[k - 1], u, j);
    }
  }

  // The flags a load works with were the flags at some moment, have its own bit, and
  // it read the buffer afterwards.
  lemma {:induction false} LoadPoint(z: Sizes, run: seq<Info>, moves: seq<Move>, u: nat, j: nat, c: nat, g: nat, k: nat)
    returns (p: nat, q: nat)
    requires IsRun(z, run, moves) && Loading(run, moves, u, j, c, g) && c < k <= g && run[k].threads[u].LoadDone?
    ensures c < p <= q < k && run[p].flags == run[k].threads[u].flags && Reader(z, run[p].flags, j)
    ensures run[k].threads[u].from < |run[q].writes|
    ensures run[k].threads[u].seen == run[q].writes[run[k].threads[u].from]
    decreases k
  {
    assert run[k] == Next(z, run[k - 1], moves[k - 1]);
    assert k - 1 > c;
    if run[k - 1].threads[u].LoadDone? {
      p, q := LoadPoint(z, run, moves, u, j, c, g, k - 1);
    } else {
      q := k - 1;
      p := FlaggedPoint(z, run, moves, u, j, c, g, k - 1);
    }
  }

  // ---------------------------------------------------------------- the handshake

  // In every interleaving, with no clear of either epoch's flags in between: the
  // store's flags tell it of the reader, or the load's flags tell it of the writer,
  // and if that is whose entry it then reads, it sees this store or a later one.
  lemma NeitherMissesTheOther(z: Sizes, run: seq<Info>, moves: seq<Move>,
                              t: nat, i: nat, b: nat, f: nat, u: nat, j: nat, c: nat, g: nat)
    requires IsRun(z, run, moves)
    requires StoreSpan(run, moves, t, i, b, f) && LoadSpan(run, moves, u, j, c, g)
    requires forall k :: b <= k < g && k < |moves| ==> !Clears(run, moves, k, i)
    requires forall k :: c <= k < f && k < |moves| ==> !Clears(run, moves, k, j)
    ensures || Reader(z, run[f].threads[t].flags, j)
            || (&& Writer(z, run[g].threads[u].flags, i)
                && (run[g].threads[u].from == i ==> run[g].threads[u].seen >= run[f].threads[t].n))
  {
    var ps := StorePoint(z, run, moves, t, i, b, f);
    var pl, q := LoadPoint(z, run, moves, u, j, c, g, g);
    StoreKeepsItsNumber(z, run, moves, t, i, b, f, f);
    LoadKeepsItsSlot(z, run, moves, u, j, c, g, g);
    if pl <= ps {
      FlagsStay(z, run, moves, pl, ps, j);
    } else {
      FlagsStay(z, run, moves, ps, pl, i);
      RunInRange(z, run, moves, b + 1);
      WritesGrow(z, run, moves, b + 1, q, i);
    }
  }

  // ---------------------------------------------------------------- what an operation has done when it is over

  predicate InClear(p: Pc) {
    p.ClearBegun? || p.ClearRead?
  }

  // Thread t is in the operation it has begun in step b until step k, which ends it.
  ghost predicate Ends(run: seq<Info>, moves: seq<Move>, t: nat, b: nat, k: nat) {
    && b < k < |moves| && |run| == |moves| + 1 && moves[b].t == t
    && (forall q :: b < q <= k ==> t < |run[q].threads| && !run[q].threads[t].Idle?)
    && t < |run[k + 1].threads| && run[k + 1].threads[t].Idle?
  }

  lemma {:induction false} StaysInItsOperation(z: Sizes, run: seq<Info>, moves: seq<Move>, t: nat, b: nat, k: nat, q: nat)
    requires IsRun(z, run, moves) && Ends(run, moves, t, b, k) && b < q <= k
    ensures moves[b].BeginStore? ==> InStore(run[q].threads[t])
    ensures moves[b].BeginLoad? ==> InLoad(run[q].threads[t])
    ensures moves[b].BeginClear? ==> InClear(run[q].threads[t]) && run[q].threads[t].i == moves[b].i
  {
    assert run[q] == Next(z, run[q - 1], moves[q - 1]);
    if q > b + 1 {
      StaysInItsOperation(z, run, moves, t, b, k, q - 1);
    }
  }

  // A store is over only when its flag has been in the word since it wrote the buffer.
  lemma StoreLeavesFlagged(z: Sizes, run: seq<Info>, moves: seq<Move>, t: nat, i: nat, b: nat, k: nat) returns (p: nat)
    requires IsRun(z, run, moves) && Ends(run, moves, t, b, k) && moves[b] == BeginStore(t, i)
    ensures b < p <= k && Writer(z, run[p].flags, i)
    ensures run[k].threads[t].StoreDone? && run[k].threads[t].flags == run[p].flags
  {
    forall q | b < q <= k ensures InStore(run[q].threads[t]) {
      StaysInItsOperation(z, run, moves, t, b, k, q);
    }
    assert run[k + 1] == Next(z, run[k], moves[k]);
    p := StorePoint(z, run, moves, t, i, b, k);
  }

  // So is a load.
  lemma LoadLeavesFlagged(z: Sizes, run: seq<Info>, moves: seq<Move>, t: nat, i: nat, b: nat, k: nat) returns (p: nat)
    requires IsRun(z, run, moves) && Ends(run, moves, t, b, k) && moves[b] == BeginLoad(t, i)
    ensures b < p <= k && Reader(z, run[p].flags, i)
    ensures run[k].threads[t].LoadFlagged? || run[k].threads[t].LoadDone?
    ensures run[k].threads[t].flags == run[p].flags
  {
    forall q | b < q <= k ensures InLoad(run[q].threads[t]) {
      StaysInItsOperation(z, run, moves, t, b, k, q);
    }
    assert run[k + 1] == Next(z, run[k], moves[k]);
    if run[k].threads[t].LoadFlagged? {
      p := FlaggedPoint(z, run, moves, t, i, b, k, k);
    } else {
      ghost var q;
      p, q := LoadPoint(z, run, moves, t, i, b, k, k);
    }
  }

  // The step that ends a clear takes both flags of its slot away and no others.
  lemma ClearLeavesNoFlag(z: Sizes, run: seq<Info>, moves: seq<Move>, t: nat, i: nat, b: nat, k: nat, j: nat)
    requires IsRun(z, run, moves) && Ends(run, moves, t, b, k) && moves[b] == BeginClear(t, i) && j < z.max
    ensures Reader(z, run[k + 1].flags, j) <==> Reader(z, run[k].flags, j) && j != i
    ensures Writer(z, run[k + 1].flags, j) <==> Writer(z, run[k].flags, j) && j != i
  {
    StaysInItsOperation(z, run, moves, t, b, k, k);
    RunInRange(z, run, moves, k);
    assert run[k + 1] == Next(z, run[k], moves[k]);
    assert run[k].threads[t] == ClearRead(i, run[k].flags);
    WordBits(z, run[k].flags, i, j);
  }

  // ---------------------------------------------------------------- progress

  // About to read the flags, about to swap them, and done with them.
  predicate Before(p: Pc) {
    p.StoreBegun? || p.LoadBegun? || p.ClearBegun?
  }

  predicate Between(p: Pc) {
    p.StoreRead? || p.LoadRead? || p.ClearRead?
  }

  predicate Through(p: Pc) {
    p.StoreDone? || p.LoadFlagged? || p.Idle?
  }

  // A thread that nobody interferes with is through after a read and a swap.
  lemma AloneItGetsThrough(z: Sizes, s: Info, t: nat)
    requires Proper(z) && t < |s.threads| && Before(s.threads[t])
    ensures CanMove(z, s, Go(t))
    ensures var s1 := Next(z, s, Go(t));
            Through(s1.threads[t]) || (CanMove(z, s1, Go(t)) && Through(Next(z, s1, Go(t)).threads[t]))
  {
  }

  // A swap fails only if somebody else's has succeeded since the read, which got that
  // thread through: the loops are lock-free.
  lemma {:induction false} BeatenByASwap(z: Sizes, run: seq<Info>, moves: seq<Move>, t: nat, j: nat, k: nat) returns (q: nat)
    requires IsRun(z, run, moves) && j < k < |moves| && moves[j] == Go(t) && t < |run[j].threads| && Before(run[j].threads[t])
    requires t < |run[k].threads| && Between(run[k].threads[t]) && forall x :: j < x < k ==> moves[x].t != t
    requires moves[k] == Go(t) && t < |run[k + 1].threads| && !Through(run[k + 1].threads[t])
    ensures j < q < k && moves[q].Go? && moves[q].t != t && run[q + 1].flags != run[q].flags
    ensures moves[q].t < |run[q + 1].threads| && Through(run[q + 1].threads[moves[q].t])
  {
    assert run[k + 1] == Next(z, run[k], moves[k]);
    q := ChangedSince(z, run, moves, t, j, k);
  }

  lemma OthersLeaveItsPlace(z: Sizes, s: Info, m: Move, t: nat)
    requires Proper(z) && CanMove(z, s, m) && t < |s.threads|
    ensures m.t != t ==> Next(z, s, m).threads[t] == s.threads[t]
    ensures m == Go(t) && Before(s.threads[t]) && Between(Next(z, s, m).threads[t]) ==>
              Next(z, s, m).flags == Next(z, s, m).threads[t].flags
    ensures Next(z, s, m).flags != s.flags ==> m.Go? && Through(Next(z, s, m).threads[m.t])
  {
  }

  lemma {:induction false} ChangedSince(z: Sizes, run: seq<Info>, moves: seq<Move>, t: nat, j: nat, k: nat) returns (q: nat)
    requires IsRun(z, run, moves) && j < k < |run| && moves[j] == Go(t) && t < |run[j].threads| && Before(run[j].threads[t])
    requires t < |run[k].threads| && Between(run[k].threads[t]) && forall x :: j < x < k ==> moves[x].t != t
    requires run[k].threads[t].flags != run[k].flags
    ensures j < q < k && moves[q].Go? && moves[q].t != t && run[q + 1].flags != run[q].flags
    ensures moves[q].t < |run[q + 1].threads| && Through(run[q + 1].threads[moves[q].t])
    decreases k
  {
    OthersLeaveItsPlace(z, run[k - 1], moves[k - 1], t);
    if run[k - 1].flags == run[k].flags {
      q := ChangedSince(z, run, moves, t, j, k - 1);
    } else {
      q := k - 1;
    }
  }
}
