/**
 Concurrent probing of one table, as yarn_map_probe does it while no resize is going
 on: any number of threads, of which each read, compare-and-swap and write is a step
 of its own. Resizing is the subject of module MapTransfer.
 */
module MapProbing {
  import opened OpenAddressing
  import opened AddressMap

  // Where a thread stands in yarn_map_probe(a, x): about to read the n-th slot of its
  // probe, about to swap its address into it, about to write the item of slot p, to
  // count it, or to wait for somebody else's; and back, with an item or without.
  datatype Pc =
    | Idle
    | At(a: nat, x: nat, n: nat)
    | SawEmpty(a: nat, x: nat, n: nat)
    | Won(a: nat, x: nat, p: nat)
    | Wrote(a: nat, x: nat)
    | Found(a: nat, p: nat)
    | Returned(a: nat, r: nat)
    | WentRound(a: nat)

  // items[p] is NULL until the thread that won slot p has written it. winner says
  // which item the thread that swapped each address in has brought.
  datatype Table = Table(addrs: seq<nat>, items: seq<nat>, size: nat, threads: seq<Pc>, winner: map<nat, nat>)

  datatype Move = Start(t: nat, a: nat, x: nat) | Go(t: nat) | Finish(t: nat)

  predicate CanMove(s: Table, m: Move) {
    && m.t < |s.threads|
    && match m
       case Start(t, a, x) => s.threads[t] == Idle && a != NULL && x != NULL
       case Go(t) => !s.threads[t].Idle? && !s.threads[t].Returned? && !s.threads[t].WentRound?
       case Finish(t) => s.threads[t].Returned? || s.threads[t].WentRound?
  }

  ghost predicate Shaped(hash: Hash, s: Table) {
    && IsHash(hash) && |s.addrs| == |s.items| > 0
    && forall t :: 0 <= t < |s.threads| ==>
         && (s.threads[t].At? || s.threads[t].SawEmpty? ==> s.threads[t].n < |s.addrs|)
         && (s.threads[t].Won? || s.threads[t].Found? ==> s.threads[t].p < |s.addrs|)
  }

  ghost function SlotOf(hash: Hash, s: Table, a: nat, n: nat): (p: nat)
    requires IsHash(hash) && n < |s.addrs|
    ensures p < |s.addrs|
  {
    Slot(hash(a, |s.addrs|), n, |s.addrs|)
  }

  // The compare-and-swap, the increment and the two kinds of writes are the only
  // steps that change what the threads share.
  ghost function Next(hash: Hash, s: Table, m: Move): Table
    requires Shaped(hash, s) && CanMove(s, m)
  {
    match m
    case Start(t, a, x) => s.(threads := s.threads[t := At(a, x, 0)])
    case Finish(t) => s.(threads := s.threads[t := Idle])
    case Go(t) =>
      match s.threads[t]
      case At(a, x, n) =>
        var p := SlotOf(hash, s, a, n);
        s.(threads := s.threads[t :=
             if s.addrs[p] == a then Found(a, p)
             else if s.addrs[p] == NULL then SawEmpty(a, x, n)
             else if n + 1 < |s.addrs| then At(a, x, n + 1)
             else WentRound(a)])
      case SawEmpty(a, x, n) =>
        var p := SlotOf(hash, s, a, n);
        if s.addrs[p] == NULL then
          s.(addrs := s.addrs[p := a], threads := s.threads[t := Won(a, x, p)], winner := s.winner[a := x])
        else s.(threads := s.threads[t := At(a, x, n)])
      case Won(a, x, p) => s.(items := s.items[p := x], threads := s.threads[t := Wrote(a, x)])
      case Wrote(a, x) => s.(size := s.size + 1, threads := s.threads[t := Returned(a, x)])
      case Found(a, p) =>
        if s.items[p] == NULL then s else s.(threads := s.threads[t := Returned(a, s.items[p])])
      case _ => s
  }

  // ---------------------------------------------------------------- the invariant

  ghost predicate Items(s: Table)
    requires |s.addrs| == |s.items|
  {
    && (forall p :: 0 <= p < |s.addrs| && s.addrs[p] != NULL ==> s.addrs[p] in s.winner)
    && (forall p :: 0 <= p < |s.items| && s.items[p] != NULL ==>
          s.addrs[p] != NULL && s.items[p] == s.winner[s.addrs[p]])
    && (forall a :: a in s.winner ==> a != NULL && a in s.addrs && s.winner[a] != NULL)
  }

  ghost predicate ThreadFits(hash: Hash, s: Table, pc: Pc)
    requires IsHash(hash) && |s.addrs| == |s.items|
  {
    match pc
    case At(a, x, n) => a != NULL && x != NULL && n < |s.addrs| && Passed(hash, s.addrs, a, n)
    case SawEmpty(a, x, n) => a != NULL && x != NULL && n < |s.addrs| && Passed(hash, s.addrs, a, n)
    case Won(a, x, p) =>
      a != NULL && x != NULL && p < |s.addrs| && s.addrs[p] == a && s.items[p] == NULL && a in s.winner && s.winner[a] == x
    case Wrote(a, x) => a in s.winner && s.winner[a] == x
    case Found(a, p) => a != NULL && p < |s.addrs| && s.addrs[p] == a
    case Returned(a, r) => a in s.winner && s.winner[a] == r
    case WentRound(a) => Passed(hash, s.addrs, a, |s.addrs|)
    case Idle => true
  }

  // Every slot that waits for its item has one thread about to write it.
  ghost predicate Writers(s: Table)
    requires |s.addrs| == |s.items|
  {
    && (forall t, u :: 0 <= t < u < |s.threads| && s.threads[t].Won? && s.threads[u].Won? ==>
          s.threads[t].p != s.threads[u].p)
    && (forall p :: 0 <= p < |s.addrs| && s.addrs[p] != NULL && s.items[p] == NULL ==>
          exists t :: 0 <= t < |s.threads| && s.threads[t].Won? && s.threads[t].p == p)
  }

  // Threads between their compare-and-swap and their increment of the size.
  function Uncounted(threads: seq<Pc>): nat {
    if |threads| == 0 then 0
    else Uncounted(threads[..|threads| - 1]) + OneUncounted(threads[|threads| - 1])
  }

  function OneUncounted(pc: Pc): nat {
    if pc.Won? || pc.Wrote? then 1 else 0
  }

  lemma {:induction false} UncountedUpdate(threads: seq<Pc>, t: nat, pc: Pc)
    requires t < |threads|
    ensures Uncounted(threads[t := pc]) == Uncounted(threads) - OneUncounted(threads[t]) + OneUncounted(pc)
    ensures Uncounted(threads) >= OneUncounted(threads[t])
  {
    var n := |threads| - 1;
    if t == n {
      assert threads[t := pc][..n] == threads[..n];
    } else {
      UncountedUpdate(threads[..n], t, pc);
      assert threads[t := pc][..n] == threads[..n][t := pc];
    }
  }

  ghost predicate Inv(hash: Hash, s: Table) {
    && IsHash(hash) && |s.addrs| == |s.items| > 0
    && Chained(hash, s.addrs) && Items(s) && Writers(s)
    && (forall t :: 0 <= t < |s.threads| ==> ThreadFits(hash, s, s.threads[t]))
    && Taken(s.addrs) == s.size + Uncounted(s.threads)
  }

  // ---------------------------------------------------------------- steps

  // Thread t is about to swap its address into a slot that is still empty.
  ghost predicate WillSwap(hash: Hash, s: Table, t: nat)
    requires IsHash(hash)
  {
    && t < |s.threads| && s.threads[t].SawEmpty? && s.threads[t].n < |s.addrs|
    && s.addrs[SlotOf(hash, s, s.threads[t].a, s.threads[t].n)] == NULL
  }

  ghost function Swapped(hash: Hash, s: Table, t: nat): Table
    requires IsHash(hash) && WillSwap(hash, s, t)
  {
    var pc := s.threads[t];
    var p := SlotOf(hash, s, pc.a, pc.n);
    s.(addrs := s.addrs[p := pc.a], threads := s.threads[t := Won(pc.a, pc.x, p)], winner := s.winner[pc.a := pc.x])
  }

  // The one step that adds an address: nobody else has added it, or can have.
  lemma SwapIsNew(hash: Hash, s: Table, t: nat)
    requires Inv(hash, s) && WillSwap(hash, s, t)
    ensures s.threads[t].a !in s.addrs && s.threads[t].a !in s.winner
    ensures var s' := Swapped(hash, s, t); Chained(hash, s'.addrs) && Taken(s'.addrs) == Taken(s.addrs) + 1
  {
    var pc := s.threads[t];
    assert ThreadFits(hash, s, pc);
    PlaceKeepsChains(hash, s.addrs, pc.a, pc.n);
    PlaceTakesOne(s.addrs, SlotOf(hash, s, pc.a, pc.n), pc.a);
  }

  lemma SwapKeepsThreads(hash: Hash, s: Table, t: nat, u: nat)
    requires Inv(hash, s) && WillSwap(hash, s, t) && u < |s.threads|
    ensures ThreadFits(hash, Swapped(hash, s, t), Swapped(hash, s, t).threads[u])
  {
    var pc := s.threads[t];
    var p := SlotOf(hash, s, pc.a, pc.n);
    SwapIsNew(hash, s, t);
    assert ThreadFits(hash, s, pc);
    assert ThreadFits(hash, s, s.threads[u]);
    if u != t {
      match s.threads[u] {
        case At(a, x, n) => PassedStays(hash, s.addrs, p, pc.a, a, n);
        case SawEmpty(a, x, n) => PassedStays(hash, s.addrs, p, pc.a, a, n);
        case WentRound(a) => PassedStays(hash, s.addrs, p, pc.a, a, |s.addrs|);
        case _ =>
      }
    }
  }

  lemma SwapKeepsItems(hash: Hash, s: Table, t: nat)
    requires Inv(hash, s) && WillSwap(hash, s, t)
    ensures Items(Swapped(hash, s, t))
  {
    var s' := Swapped(hash, s, t);
    var pc := s.threads[t];
    SwapIsNew(hash, s, t);
    assert ThreadFits(hash, s, pc);
    assert s'.addrs[SlotOf(hash, s, pc.a, pc.n)] == pc.a;
    forall a | a in s'.winner ensures a in s'.addrs {
      if a != pc.a {
        var q :| 0 <= q < |s.addrs| && s.addrs[q] == a;
        assert s'.addrs[q] == a;
      }
    }
  }

  lemma SwapKeepsWriters(hash: Hash, s: Table, t: nat)
    requires Inv(hash, s) && WillSwap(hash, s, t)
    ensures Writers(Swapped(hash, s, t))
  {
    var s' := Swapped(hash, s, t);
    var p := SlotOf(hash, s, s.threads[t].a, s.threads[t].n);
    forall u | 0 <= u < |s.threads| && s.threads[u].Won? ensures s.threads[u].p != p {
      assert ThreadFits(hash, s, s.threads[u]);
    }
    forall q | 0 <= q < |s'.addrs| && s'.addrs[q] != NULL && s'.items[q] == NULL
      ensures exists u :: 0 <= u < |s'.threads| && s'.threads[u].Won? && s'.threads[u].p == q
    {
      if q == p {
        assert s'.threads[t].Won?;
      } else {
        var u :| 0 <= u < |s.threads| && s.threads[u].Won? && s.threads[u].p == q;
        assert s'.threads[u] == s.threads[u];
      }
    }
  }

  lemma SwapKeepsInv(hash: Hash, s: Table, t: nat)
    requires Inv(hash, s) && WillSwap(hash, s, t)
    ensures Inv(hash, Swapped(hash, s, t))
  {
    SwapIsNew(hash, s, t);
    SwapKeepsItems(hash, s, t);
    SwapKeepsWriters(hash, s, t);
    UncountedUpdate(s.threads, t, Swapped(hash, s, t).threads[t]);
    forall u | 0 <= u < |s.threads| ensures ThreadFits(hash, Swapped(hash, s, t), Swapped(hash, s, t).threads[u]) {
      SwapKeepsThreads(hash, s, t, u);
    }
  }

  lemma WriteKeepsThread(hash: Hash, s: Table, t: nat, u: nat)
    requires Shaped(hash, s) && CanMove(s, Go(t)) && s.threads[t].Won? && u < |s.threads| && u != t
    requires ThreadFits(hash, s, s.threads[t]) && ThreadFits(hash, s, s.threads[u])
    requires s.threads[u].Won? ==> s.threads[u].p != s.threads[t].p
    ensures ThreadFits(hash, Next(hash, s, Go(t)), Next(hash, s, Go(t)).threads[u])
  {
  }

  lemma WriteKeepsItems(hash: Hash, s: Table, t: nat)
    requires Inv(hash, s) && Shaped(hash, s) && CanMove(s, Go(t)) && s.threads[t].Won?
    ensures Items(Next(hash, s, Go(t))) && Writers(Next(hash, s, Go(t)))
  {
    var s' := Next(hash, s, Go(t));
    assert ThreadFits(hash, s, s.threads[t]);
    forall q | 0 <= q < |s'.addrs| && s'.addrs[q] != NULL && s'.items[q] == NULL
      ensures exists u :: 0 <= u < |s'.threads| && s'.threads[u].Won? && s'.threads[u].p == q
    {
      var u :| 0 <= u < |s.threads| && s.threads[u].Won? && s.threads[u].p == q;
      assert s'.threads[u] == s.threads[u];
    }
  }

  lemma WriteKeepsInv(hash: Hash, s: Table, t: nat)
    requires Inv(hash, s) && Shaped(hash, s) && CanMove(s, Go(t)) && s.threads[t].Won?
    ensures Inv(hash, Next(hash, s, Go(t)))
  {
    var s' := Next(hash, s, Go(t));
    UncountedUpdate(s.threads, t, s'.threads[t]);
    WriteKeepsItems(hash, s, t);
    assert ThreadFits(hash, s, s.threads[t]);
    forall u | 0 <= u < |s.threads| ensures ThreadFits(hash, s', s'.threads[u]) {
      assert ThreadFits(hash, s, s.threads[u]);
      if u != t {
        WriteKeepsThread(hash, s, t, u);
      }
    }
  }

  // The steps that change nothing but the thread's own place, and the size.
  lemma QuietStepKeepsInv(hash: Hash, s: Table, s': Table, t: nat)
    requires Inv(hash, s) && t < |s.threads|
    requires s'.addrs == s.addrs && s'.items == s.items && s'.winner == s.winner
    requires |s'.threads| == |s.threads| && s'.threads == s.threads[t := s'.threads[t]]
    requires ThreadFits(hash, s, s'.threads[t]) && !s'.threads[t].Won? && !s.threads[t].Won?
    requires s'.size + OneUncounted(s'.threads[t]) == s.size + OneUncounted(s.threads[t])
    ensures Inv(hash, s')
  {
    UncountedUpdate(s.threads, t, s'.threads[t]);
    forall u | 0 <= u < |s.threads| ensures ThreadFits(hash, s', s'.threads[u]) {
      assert u != t ==> ThreadFits(hash, s, s.threads[u]);
    }
    forall q | 0 <= q < |s'.addrs| && s'.addrs[q] != NULL && s'.items[q] == NULL
      ensures exists u :: 0 <= u < |s'.threads| && s'.threads[u].Won? && s'.threads[u].p == q
    {
      var u :| 0 <= u < |s.threads| && s.threads[u].Won? && s.threads[u].p == q;
      assert s'.threads[u] == s.threads[u];
    }
  }

  lemma ReadKeepsPlace(hash: Hash, s: Table, t: nat)
    requires Inv(hash, s) && CanMove(s, Go(t)) && s.threads[t].At?
    ensures ThreadFits(hash, s, Next(hash, s, Go(t)).threads[t])
  {
    var pc := s.threads[t];
    assert ThreadFits(hash, s, pc);
    var p := SlotOf(hash, s, pc.a, pc.n);
    if s.addrs[p] != NULL && s.addrs[p] != pc.a {
      assert forall k :: 0 <= k < pc.n + 1 ==>
        s.addrs[Slot(hash(pc.a, |s.addrs|), k, |s.addrs|)] !in {NULL, pc.a};
      assert Passed(hash, s.addrs, pc.a, pc.n + 1);
    }
  }

  lemma InvIsShaped(hash: Hash, s: Table)
    requires Inv(hash, s)
    ensures Shaped(hash, s)
  {
  }

  lemma OtherStepIsQuiet(hash: Hash, s: Table, m: Move)
    requires Shaped(hash, s) && CanMove(s, m) && Items(s) && ThreadFits(hash, s, s.threads[m.t])
    requires m.Go? ==> !WillSwap(hash, s, m.t) && !s.threads[m.t].Won?
    requires m.Go? && s.threads[m.t].At? ==> ThreadFits(hash, s, Next(hash, s, m).threads[m.t])
    ensures var s' := Next(hash, s, m);
            && s'.addrs == s.addrs && s'.items == s.items && s'.winner == s.winner
            && |s'.threads| == |s.threads| && s'.threads == s.threads[m.t := s'.threads[m.t]]
            && ThreadFits(hash, s, s'.threads[m.t]) && !s'.threads[m.t].Won? && !s.threads[m.t].Won?
            && s'.size + OneUncounted(s'.threads[m.t]) == s.size + OneUncounted(s.threads[m.t])
  {
  }

  lemma OtherStepKeepsInv(hash: Hash, s: Table, m: Move)
    requires Inv(hash, s) && CanMove(s, m) && Shaped(hash, s)
    requires m.Go? ==> !WillSwap(hash, s, m.t) && !s.threads[m.t].Won?
    ensures Inv(hash, Next(hash, s, m))
  {
    assert ThreadFits(hash, s, s.threads[m.t]);
    if m.Go? && s.threads[m.t].At? {
      ReadKeepsPlace(hash, s, m.t);
    }
    OtherStepIsQuiet(hash, s, m);
    QuietStepKeepsInv(hash, s, Next(hash, s, m), m.t);
  }

  lemma StepKeepsInv(hash: Hash, s: Table, m: Move)
    requires Inv(hash, s) && CanMove(s, m)
    ensures Shaped(hash, s) && Inv(hash, Next(hash, s, m))
  {
    InvIsShaped(hash, s);
    if m.Go? && WillSwap(hash, s, m.t) {
      SwapKeepsInv(hash, s, m.t);
    } else if m.Go? && s.threads[m.t].Won? {
      WriteKeepsInv(hash, s, m.t);
    } else {
      OtherStepKeepsInv(hash, s, m);
    }
  }

  lemma StepKeepsWinner(hash: Hash, s: Table, m: Move, a: nat)
    requires Inv(hash, s) && CanMove(s, m) && Shaped(hash, s) && a in s.winner
    ensures var s' := Next(hash, s, m); a in s'.winner && s'.winner[a] == s.winner[a]
  {
  }

  // ---------------------------------------------------------------- runs

  // A run starts with no thread probing, on any table that probing alone could have
  // made.
  ghost predicate Begins(hash: Hash, s: Table) {
    && IsHash(hash) && |s.addrs| == |s.items| > 0 && Chained(hash, s.addrs) && Items(s)
    && (forall p :: 0 <= p < |s.addrs| && s.addrs[p] != NULL ==> s.items[p] != NULL)
    && (forall t :: 0 <= t < |s.threads| ==> s.threads[t] == Idle)
    && s.size == Taken(s.addrs)
  }

  ghost predicate IsRun(hash: Hash, run: seq<Table>, moves: seq<Move>) {
    && |run| == |moves| + 1 && Begins(hash, run[0])
    && forall k {:trigger moves[k]} :: 0 <= k < |moves| ==>
         Shaped(hash, run[k]) && CanMove(run[k], moves[k]) && run[k + 1] == Next(hash, run[k], moves[k])
  }

  lemma {:induction false} NoneUncounted(threads: seq<Pc>)
    requires forall t :: 0 <= t < |threads| ==> OneUncounted(threads[t]) == 0
    ensures Uncounted(threads) == 0
  {
    if |threads| > 0 {
      NoneUncounted(threads[..|threads| - 1]);
    }
  }

  lemma {:induction false} RunKeepsInv(hash: Hash, run: seq<Table>, moves: seq<Move>, k: nat)
    requires IsRun(hash, run, moves) && k < |run|
    ensures Inv(hash, run[k])
  {
    if k == 0 {
      NoneUncounted(run[0].threads);
    } else {
      RunKeepsInv(hash, run, moves, k - 1);
      StepKeepsInv(hash, run[k - 1], moves[k - 1]);
    }
  }

  // In every state of every run no address is in two slots and no chain is broken.
  lemma NoAddressTwice(hash: Hash, run: seq<Table>, moves: seq<Move>, k: nat)
    requires IsRun(hash, run, moves) && k < |run|
    ensures NoDuplicates(run[k].addrs) && Chained(hash, run[k].addrs)
  {
    RunKeepsInv(hash, run, moves, k);
    ChainedIsDistinct(hash, run[k].addrs);
  }

  // Once an address is in, its item is settled for good.
  lemma {:induction false} WinnerStays(hash: Hash, run: seq<Table>, moves: seq<Move>, j: nat, k: nat, a: nat)
    requires IsRun(hash, run, moves) && j <= k < |run| && a in run[j].winner
    ensures a in run[k].winner && run[k].winner[a] == run[j].winner[a]
  {
    if j < k {
      WinnerStays(hash, run, moves, j, k - 1, a);
      RunKeepsInv(hash, run, moves, k - 1);
      StepKeepsWinner(hash, run[k - 1], moves[k - 1], a);
    }
  }

  // Whatever the interleaving, all probes of an address return the same item: that
  // of the thread whose compare-and-swap put the address in.
  lemma AllProbesAgree(hash: Hash, run: seq<Table>, moves: seq<Move>, j: nat, t: nat, k: nat, u: nat)
    requires IsRun(hash, run, moves) && j <= k < |run|
    requires t < |run[j].threads| && run[j].threads[t].Returned?
    requires u < |run[k].threads| && run[k].threads[u].Returned?
    requires run[j].threads[t].a == run[k].threads[u].a
    ensures run[k].threads[u].a in run[k].winner
    ensures run[j].threads[t].r == run[k].threads[u].r == run[k].winner[run[k].threads[u].a]
  {
    RunKeepsInv(hash, run, moves, j);
    RunKeepsInv(hash, run, moves, k);
    assert ThreadFits(hash, run[j], run[j].threads[t]);
    assert ThreadFits(hash, run[k], run[k].threads[u]);
    WinnerStays(hash, run, moves, j, k, run[j].threads[t].a);
  }

  // The k-th step is a compare-and-swap that puts address a in.
  ghost predicate PutsIn(hash: Hash, run: seq<Table>, moves: seq<Move>, k: nat, a: nat)
    requires IsHash(hash) && k < |moves| && k < |run|
  {
    moves[k].Go? && WillSwap(hash, run[k], moves[k].t) && run[k].threads[moves[k].t].a == a
  }

  // An address is put in at most once in a run.
  lemma PutInOnce(hash: Hash, run: seq<Table>, moves: seq<Move>, j: nat, k: nat, a: nat)
    requires IsRun(hash, run, moves) && j < |moves| && k < |moves|
    requires PutsIn(hash, run, moves, j, a) && PutsIn(hash, run, moves, k, a)
    ensures j == k
  {
    if j != k {
      var lo, hi := if j < k then j else k, if j < k then k else j;
      RunKeepsInv(hash, run, moves, hi);
      assert run[lo + 1] == Next(hash, run[lo], moves[lo]);
      WinnerStays(hash, run, moves, lo + 1, hi, a);
      SwapIsNew(hash, run[hi], moves[hi].t);
    }
  }

  // The size is the number of addresses, short of the threads between their swap and
  // their increment.
  lemma SizeIsTheKeys(hash: Hash, run: seq<Table>, moves: seq<Move>, k: nat)
    requires IsRun(hash, run, moves) && k < |run|
    ensures run[k].size + Uncounted(run[k].threads) == |run[k].winner|
  {
    RunKeepsInv(hash, run, moves, k);
    var s := run[k];
    ChainedIsDistinct(hash, s.addrs);
    var v := seq(|s.addrs|, p requires 0 <= p < |s.addrs| => if s.addrs[p] == NULL then NULL else s.winner[s.addrs[p]]);
    KeysAreTaken(s.addrs, v, s.winner);
  }

  // ---------------------------------------------------------------- how a probe ends

  // Thread t is in the probe it has begun in step b up to state k.
  ghost predicate Probing(run: seq<Table>, moves: seq<Move>, t: nat, a: nat, x: nat, b: nat, k: nat) {
    && b < k < |run| && b < |moves| && moves[b] == Start(t, a, x)
    && forall q :: b < q <= k ==> t < |run[q].threads| && !run[q].threads[t].Idle?
  }

  lemma {:induction false} KeepsItsAddress(hash: Hash, run: seq<Table>, moves: seq<Move>, t: nat, a: nat, x: nat, b: nat, k: nat)
    requires IsRun(hash, run, moves) && Probing(run, moves, t, a, x, b, k)
    ensures run[k].threads[t].a == a
  {
    assert run[k] == Next(hash, run[k - 1], moves[k - 1]);
    if k > b + 1 {
      KeepsItsAddress(hash, run, moves, t, a, x, b, k - 1);
    }
  }

  // A probe is over only when it has the item of the thread that put the address in,
  // or has found the table full.
  lemma ProbeEnds(hash: Hash, run: seq<Table>, moves: seq<Move>, t: nat, a: nat, x: nat, b: nat, k: nat)
    requires IsRun(hash, run, moves) && Probing(run, moves, t, a, x, b, k) && k < |moves|
    requires t < |run[k + 1].threads| && run[k + 1].threads[t].Idle?
    ensures || (a in run[k].winner && run[k].threads[t] == Returned(a, run[k].winner[a]))
            || (run[k].threads[t] == WentRound(a) && Taken(run[k].addrs) == |run[k].addrs|)
  {
    RunKeepsInv(hash, run, moves, k);
    KeepsItsAddress(hash, run, moves, t, a, x, b, k);
    assert run[k + 1] == Next(hash, run[k], moves[k]);
    EndsWithCause(hash, run[k], moves[k], t);
  }

  lemma EndsWithCause(hash: Hash, s: Table, m: Move, t: nat)
    requires Inv(hash, s) && Shaped(hash, s) && CanMove(s, m) && t < |s.threads|
    requires !s.threads[t].Idle? && Next(hash, s, m).threads[t].Idle?
    ensures || (s.threads[t].Returned? && s.threads[t].a in s.winner && s.winner[s.threads[t].a] == s.threads[t].r)
            || (s.threads[t].WentRound? && Taken(s.addrs) == |s.addrs|)
  {
    assert m == Finish(t);
    assert ThreadFits(hash, s, s.threads[t]);
    if s.threads[t].WentRound? {
      PassedAllIsFull(hash, s.addrs, s.threads[t].a);
    }
  }

  // How many steps a thread has before it at most, waiting apart.
  ghost function Rank(hash: Hash, s: Table, pc: Pc): nat
    requires IsHash(hash) && (pc.At? || pc.SawEmpty? ==> pc.n < |s.addrs|)
  {
    match pc
    case At(a, x, n) => 4 * (|s.addrs| - n) + if s.addrs[SlotOf(hash, s, a, n)] == NULL then 4 else 1
    case SawEmpty(a, x, n) => 4 * (|s.addrs| - n) + if s.addrs[SlotOf(hash, s, a, n)] == NULL then 3 else 2
    case Won(_, _, _) => 3
    case Wrote(_, _) => 2
    case Found(_, _) => 1
    case _ => 0
  }

  lemma OwnStepLowersRank(hash: Hash, s: Table, t: nat)
    requires Shaped(hash, s) && CanMove(s, Go(t)) && Next(hash, s, Go(t)) != s
    ensures var pc, s' := s.threads[t], Next(hash, s, Go(t));
            && (s'.threads[t].At? || s'.threads[t].SawEmpty? ==> s'.threads[t].n < |s'.addrs|)
            && Rank(hash, s', s'.threads[t]) < Rank(hash, s, pc)
  {
  }

  lemma OtherStepKeepsRank(hash: Hash, s: Table, m: Move, t: nat)
    requires Shaped(hash, s) && CanMove(s, m) && m.t != t && t < |s.threads| && |Next(hash, s, m).addrs| == |s.addrs|
    requires m.Go? && s.threads[m.t].SawEmpty? ==> s.threads[m.t].a != NULL
    ensures Next(hash, s, m).threads[t] == s.threads[t]
    ensures Rank(hash, Next(hash, s, m), s.threads[t]) <= Rank(hash, s, s.threads[t])
  {
  }

  predicate Within(s: Table, t: nat) {
    t < |s.threads| && (s.threads[t].At? || s.threads[t].SawEmpty? ==> s.threads[t].n < |s.addrs|)
  }

  lemma StepLowersRank(hash: Hash, s: Table, m: Move, t: nat)
    requires Inv(hash, s) && Shaped(hash, s) && CanMove(s, m) && t < |s.threads| && !s.threads[t].Idle?
    requires Inv(hash, Next(hash, s, m))
    ensures var s' := Next(hash, s, m);
            && |s'.addrs| == |s.addrs| && Within(s', t)
            && Rank(hash, s', s'.threads[t]) + (if m == Go(t) && s' != s then 1 else 0) <= Rank(hash, s, s.threads[t])
  {
    assert ThreadFits(hash, s, s.threads[m.t]);
    if m.t != t {
      OtherStepKeepsRank(hash, s, m, t);
    } else if m.Go? && Next(hash, s, m) != s {
      OwnStepLowersRank(hash, s, t);
    }
  }

  lemma RunLowersRank(hash: Hash, run: seq<Table>, moves: seq<Move>, t: nat, k: nat)
    requires IsRun(hash, run, moves) && k < |moves| && Within(run[k], t) && !run[k].threads[t].Idle?
    ensures |run[k + 1].addrs| == |run[k].addrs| && Within(run[k + 1], t)
    ensures Rank(hash, run[k + 1], run[k + 1].threads[t]) + (if moves[k] == Go(t) && run[k + 1] != run[k] then 1 else 0)
            <= Rank(hash, run[k], run[k].threads[t])
  {
    RunKeepsInv(hash, run, moves, k);
    RunKeepsInv(hash, run, moves, k + 1);
    assert CanMove(run[k], moves[k]);
    StepLowersRank(hash, run[k], moves[k], t);
  }

  // The steps of thread t from state b to state k that were not spent waiting.
  ghost function Useful(run: seq<Table>, moves: seq<Move>, t: nat, b: nat, k: nat): nat
    requires b <= k < |run| && k <= |moves|
    decreases k
  {
    if b == k then 0
    else Useful(run, moves, t, b, k - 1) + if moves[k - 1] == Go(t) && run[k] != run[k - 1] then 1 else 0
  }

  lemma {:induction false} UsefulWithin(hash: Hash, run: seq<Table>, moves: seq<Move>, t: nat, a: nat, x: nat, b: nat, k: nat)
    requires IsRun(hash, run, moves) && Probing(run, moves, t, a, x, b, k)
    ensures |run[k].addrs| == |run[b].addrs| && Within(run[k], t)
    ensures Useful(run, moves, t, b, k) + Rank(hash, run[k], run[k].threads[t]) <= 4 * |run[b].addrs| + 4
  {
    if k > b + 1 {
      UsefulWithin(hash, run, moves, t, a, x, b, k - 1);
      RunLowersRank(hash, run, moves, t, k - 1);
    } else {
      RunKeepsInv(hash, run, moves, b);
      assert run[k] == Next(hash, run[b], moves[b]);
      assert Useful(run, moves, t, b, b) == 0;
    }
  }

  // A step that changes nothing is one of waiting for an item, and the thread that is
  // about to write it ends the waiting with its next step.
  lemma WaitsForTheWriter(hash: Hash, s: Table, t: nat) returns (u: nat)
    requires Inv(hash, s) && Shaped(hash, s) && CanMove(s, Go(t)) && Next(hash, s, Go(t)) == s
    ensures u != t && CanMove(s, Go(u))
    ensures var s' := Next(hash, s, Go(u));
            && Shaped(hash, s') && CanMove(s', Go(t)) && s.threads[t].a in s.winner
            && Next(hash, s', Go(t)).threads[t] == Returned(s.threads[t].a, s.winner[s.threads[t].a])
  {
    assert ThreadFits(hash, s, s.threads[t]);
    var p := s.threads[t].p;
    u :| 0 <= u < |s.threads| && s.threads[u].Won? && s.threads[u].p == p;
    assert ThreadFits(hash, s, s.threads[u]);
    StepKeepsInv(hash, s, Go(u));
    InvIsShaped(hash, Next(hash, s, Go(u)));
  }

  // Whatever the others do, a probe takes at most four steps for every slot of the
  // table, and four more, besides waiting for an item. Until it has an item or has
  // found the table full it can go on, or the thread it waits for can.
  lemma ProbeGetsThrough(hash: Hash, run: seq<Table>, moves: seq<Move>, t: nat, a: nat, x: nat, b: nat, k: nat)
    requires IsRun(hash, run, moves) && Probing(run, moves, t, a, x, b, k)
    ensures Useful(run, moves, t, b, k) <= 4 * |run[b].addrs| + 4
    ensures || (a in run[k].winner && run[k].threads[t] == Returned(a, run[k].winner[a]))
            || (run[k].threads[t] == WentRound(a) && Taken(run[k].addrs) == |run[k].addrs|)
            || (&& Shaped(hash, run[k]) && CanMove(run[k], Go(t))
                && (|| Next(hash, run[k], Go(t)) != run[k]
                    || exists u: nat ::
                         && u != t && CanMove(run[k], Go(u))
                         && var s' := Next(hash, run[k], Go(u));
                            && Shaped(hash, s') && CanMove(s', Go(t)) && a in run[k].winner
                            && Next(hash, s', Go(t)).threads[t] == Returned(a, run[k].winner[a])))
  {
    UsefulWithin(hash, run, moves, t, a, x, b, k);
    KeepsItsAddress(hash, run, moves, t, a, x, b, k);
    RunKeepsInv(hash, run, moves, k);
    InvIsShaped(hash, run[k]);
    assert ThreadFits(hash, run[k], run[k].threads[t]);
    if run[k].threads[t].WentRound? {
      PassedAllIsFull(hash, run[k].addrs, a);
    } else if !run[k].threads[t].Returned? && Next(hash, run[k], Go(t)) == run[k] {
      var u := WaitsForTheWriter(hash, run[k], t);
    }
  }
}
