/**
 The cooperative resize of map.c: a master moves every slot of the old table in turn
 to a table twice as large, while any number of helpers move slots of their own
 choosing. Each read, write and compare-and-swap is a step of its own. No probe runs
 meanwhile; module MapProbing is about those.
 */
module MapTransfer {
  import opened OpenAddressing
  import opened AddressMap

  // Where a thread stands in transfer_item(pos): about to read the address, to take
  // it out of the old table, to try the n-th slot of its probe in the new one, to
  // read the item, and to write it at slot i.
  datatype Work =
    | Nothing
    | Start(pos: nat)
    | Read(pos: nat, a: nat)
    | Probe(pos: nat, a: nat, n: nat)
    | Placed(pos: nat, a: nat, i: nat)
    | Got(a: nat, i: nat, x: nat)

  // Where a helper stands in resize_helper; counted once it has incremented the
  // helper count.
  datatype Stage = Out | Counted | Inside | Leaving

  datatype Phase = Resizing | Waiting | Swapped

  // Thread 0 is the master; scan is the number of slots it has started on.
  datatype Resize = Resize(addrs: seq<nat>, items: seq<nat>, toAddrs: seq<nat>, toItems: seq<nat>,
                           phase: Phase, scan: nat, helpers: int, works: seq<Work>, stages: seq<Stage>)

  datatype Move =
    | Scan
    | ScanOver
    | Swap
    | Enter(t: nat)
    | Check(t: nat)
    | Pick(t: nat, pos: nat)
    | Break(t: nat)
    | Leave(t: nat)
    | Go(t: nat)

  ghost predicate Shaped(hash: Hash, s: Resize) {
    && IsHash(hash) && |s.addrs| == |s.items| && |s.toAddrs| == |s.toItems| > 0
    && |s.works| == |s.stages| > 0
    && forall t :: 0 <= t < |s.works| ==>
         && (s.works[t].Start? || s.works[t].Read? || s.works[t].Probe? || s.works[t].Placed? ==> s.works[t].pos < |s.addrs|)
         && (s.works[t].Probe? ==> s.works[t].n < |s.toAddrs|)
         && (s.works[t].Placed? || s.works[t].Got? ==> s.works[t].i < |s.toAddrs|)
  }

  ghost predicate CanMove(s: Resize, m: Move)
    requires |s.works| == |s.stages| > 0
  {
    match m
    case Scan => s.phase.Resizing? && s.scan < |s.addrs| && s.works[0].Nothing?
    case ScanOver => s.phase.Resizing? && s.scan == |s.addrs| && s.works[0].Nothing?
    case Swap => s.phase.Waiting? && s.helpers == 0
    case Enter(t) => 0 < t < |s.stages| && s.stages[t].Out?
    case Check(t) => 0 < t < |s.stages| && s.stages[t].Counted?
    case Pick(t, pos) => 0 < t < |s.stages| && s.stages[t].Inside? && s.works[t].Nothing? && pos < |s.addrs|
    case Break(t) => 0 < t < |s.stages| && s.stages[t].Inside? && s.works[t].Nothing?
    case Leave(t) => 0 < t < |s.stages| && s.stages[t].Leaving?
    case Go(t) => t < |s.works| && !s.works[t].Nothing?
  }

  ghost function NewSlot(hash: Hash, s: Resize, a: nat, n: nat): (p: nat)
    requires IsHash(hash) && n < |s.toAddrs|
    ensures p < |s.toAddrs|
  {
    Slot(hash(a, |s.toAddrs|), n, |s.toAddrs|)
  }

  // After a transfer a helper goes back to the test of its loop.
  function Finish(s: Resize, t: nat): Resize
    requires t < |s.works| == |s.stages|
  {
    s.(works := s.works[t := Nothing], stages := if t == 0 then s.stages else s.stages[t := Counted])
  }

  function WithWork(s: Resize, t: nat, w: Work): Resize
    requires t < |s.works|
  {
    s.(works := s.works[t := w])
  }

  // Taking the address out of the old table, putting it into the new one, and
  // writing its item there.
  function AfterClaim(s: Resize, t: nat): Resize
    requires t < |s.works| && s.works[t].Read? && s.works[t].pos < |s.addrs|
  {
    var pc := s.works[t];
    WithWork(s.(addrs := s.addrs[pc.pos := NULL]), t, Probe(pc.pos, pc.a, 0))
  }

  ghost function AfterPlace(hash: Hash, s: Resize, t: nat): Resize
    requires IsHash(hash) && t < |s.works| && s.works[t].Probe? && s.works[t].n < |s.toAddrs|
  {
    var pc := s.works[t];
    var i := NewSlot(hash, s, pc.a, pc.n);
    WithWork(s.(toAddrs := s.toAddrs[i := pc.a]), t, Placed(pc.pos, pc.a, i))
  }

  function AfterDeliver(s: Resize, t: nat): Resize
    requires t < |s.works| && s.works[t].Got? && s.works[t].i < |s.toItems|
  {
    WithWork(s.(toItems := s.toItems[s.works[t].i := s.works[t].x]), t, Nothing)
  }

  // One step of transfer_item.
  ghost function Transfer(hash: Hash, s: Resize, t: nat): Resize
    requires Shaped(hash, s) && t < |s.works|
  {
    match s.works[t]
    case Nothing => s
    case Start(pos) => if s.addrs[pos] == NULL then Finish(s, t) else WithWork(s, t, Read(pos, s.addrs[pos]))
    case Read(pos, a) =>
      if s.addrs[pos] == a then AfterClaim(s, t) else Finish(s, t)
    case Probe(pos, a, n) =>
      var i := NewSlot(hash, s, a, n);
      if s.toAddrs[i] == NULL then AfterPlace(hash, s, t)
      else if n + 1 < |s.toAddrs| then WithWork(s, t, Probe(pos, a, n + 1))
      else Finish(s, t)
    case Placed(pos, a, i) => WithWork(s, t, Got(a, i, s.items[pos]))
    case Got(a, i, x) => Finish(AfterDeliver(s, t), t)
  }

  ghost function Next(hash: Hash, s: Resize, m: Move): Resize
    requires Shaped(hash, s) && CanMove(s, m)
  {
    match m
    case Scan => WithWork(s, 0, Start(s.scan)).(scan := s.scan + 1)
    case ScanOver => s.(phase := Waiting)
    case Swap => s.(phase := Swapped)
    case Enter(t) => s.(stages := s.stages[t := Counted], helpers := s.helpers + 1)
    case Check(t) => s.(stages := s.stages[t := if s.phase.Resizing? then Inside else Leaving])
    case Pick(t, pos) => WithWork(s, t, Start(pos))
    case Break(t) => s.(stages := s.stages[t := Leaving])
    case Leave(t) => s.(stages := s.stages[t := Out], helpers := s.helpers - 1)
    case Go(t) => Transfer(hash, s, t)
  }

  // ---------------------------------------------------------------- the invariant

  // Every item of the old map m is in the old table, in the hands of a thread that
  // has taken it out, or in the new table.
  ghost predicate Kept(s: Resize, m: map<nat, nat>) {
    forall a :: a in m ==> a in s.addrs || a in s.toAddrs || Carried(s.works, a)
  }

  ghost predicate Carried(works: seq<Work>, a: nat) {
    exists t :: 0 <= t < |works| && works[t].Probe? && works[t].a == a
  }

  ghost predicate WrittenSoon(works: seq<Work>, q: nat) {
    exists t :: 0 <= t < |works| && (works[t].Placed? || works[t].Got?) && works[t].i == q
  }

  ghost predicate OldTable(s: Resize, m: map<nat, nat>) {
    && |s.addrs| == |s.items| && NoDuplicates(s.addrs)
    && forall p :: 0 <= p < |s.addrs| && s.addrs[p] != NULL ==>
         s.addrs[p] in m && s.items[p] == m[s.addrs[p]] && s.addrs[p] !in s.toAddrs
  }

  ghost predicate NewTable(hash: Hash, s: Resize, m: map<nat, nat>)
    requires IsHash(hash)
  {
    && |s.toAddrs| == |s.toItems| > |m| && Chained(hash, s.toAddrs)
    && (forall q :: 0 <= q < |s.toAddrs| && s.toAddrs[q] != NULL ==>
          s.toAddrs[q] in m && (s.toItems[q] == NULL ==> WrittenSoon(s.works, q)))
    && (forall q :: 0 <= q < |s.toAddrs| && s.toItems[q] != NULL ==>
          s.toAddrs[q] != NULL && s.toAddrs[q] in m && s.toItems[q] == m[s.toAddrs[q]])
  }

  ghost predicate WorkFits(hash: Hash, s: Resize, m: map<nat, nat>, w: Work)
    requires IsHash(hash) && |s.addrs| == |s.items| && |s.toAddrs| == |s.toItems|
  {
    match w
    case Nothing => true
    case Start(pos) => pos < |s.addrs|
    case Read(pos, a) => pos < |s.addrs| && a != NULL && (s.addrs[pos] == a || s.addrs[pos] == NULL)
    case Probe(pos, a, n) =>
      && pos < |s.addrs| && n < |s.toAddrs| && a in m && s.items[pos] == m[a]
      && a !in s.addrs && a !in s.toAddrs && Passed(hash, s.toAddrs, a, n)
    case Placed(pos, a, i) =>
      pos < |s.addrs| && i < |s.toAddrs| && a in m && s.items[pos] == m[a] && s.toAddrs[i] == a && s.toItems[i] == NULL
    case Got(a, i, x) => i < |s.toAddrs| && a in m && x == m[a] && s.toAddrs[i] == a && s.toItems[i] == NULL
  }

  // No two threads carry the same item, or are to write the same slot.
  predicate Apart(v: Work, w: Work) {
    && (v.Probe? && w.Probe? ==> v.a != w.a)
    && ((v.Placed? || v.Got?) && (w.Placed? || w.Got?) ==> v.i != w.i)
  }

  ghost predicate Works(hash: Hash, s: Resize, m: map<nat, nat>)
    requires IsHash(hash) && |s.addrs| == |s.items| && |s.toAddrs| == |s.toItems|
  {
    && (forall t :: 0 <= t < |s.works| ==> WorkFits(hash, s, m, s.works[t]))
    && (forall t, u :: 0 <= t < |s.works| && 0 <= u < |s.works| && t != u ==> Apart(s.works[t], s.works[u]))
  }

  // What the master has been through is empty, and stays so.
  ghost predicate Scanned(s: Resize)
    requires |s.works| > 0
  {
    && s.scan <= |s.addrs|
    && (forall p :: 0 <= p < s.scan && s.addrs[p] != NULL ==>
          (s.works[0].Start? || s.works[0].Read?) && s.works[0].pos == p)
    && (!s.phase.Resizing? ==> s.scan == |s.addrs| && s.works[0].Nothing?)
  }

  function Counting(stages: seq<Stage>): nat {
    if |stages| == 0 then 0 else Counting(stages[..|stages| - 1]) + if stages[|stages| - 1].Out? then 0 else 1
  }

  // A helper works only while it is counted, and not at all once the tables are
  // swapped.
  ghost predicate Staged(s: Resize) {
    && |s.works| == |s.stages| > 0 && s.stages[0].Out?
    && s.helpers == Counting(s.stages)
    && (forall t :: 0 < t < |s.works| && !s.works[t].Nothing? ==> s.stages[t].Inside?)
    && (s.phase.Swapped? ==> forall t :: 0 < t < |s.works| ==> !s.stages[t].Inside?)
  }

  ghost predicate IsMap(m: map<nat, nat>) {
    NULL !in m && forall a :: a in m ==> m[a] != NULL
  }

  ghost predicate Data(hash: Hash, s: Resize, m: map<nat, nat>)
    requires IsHash(hash)
  {
    OldTable(s, m) && NewTable(hash, s, m) && Kept(s, m) && Works(hash, s, m)
  }

  ghost predicate Inv(hash: Hash, s: Resize, m: map<nat, nat>) {
    && IsHash(hash) && IsMap(m) && |s.works| == |s.stages| > 0
    && Data(hash, s, m) && Scanned(s) && Staged(s)
  }

  // ---------------------------------------------------------------- helpers coming and going

  lemma {:induction false} CountingUpdate(stages: seq<Stage>, t: nat, st: Stage)
    requires t < |stages|
    ensures Counting(stages[t := st]) ==
            Counting(stages) - (if stages[t].Out? then 0 else 1) + (if st.Out? then 0 else 1)
  {
    var n := |stages| - 1;
    if t == n {
      assert stages[t := st][..n] == stages[..n];
    } else {
      CountingUpdate(stages[..n], t, st);
      assert stages[t := st][..n] == stages[..n][t := st];
    }
  }

  lemma {:induction false} CountingNone(stages: seq<Stage>, t: nat)
    requires Counting(stages) == 0 && t < |stages|
    ensures stages[t].Out?
  {
    if t < |stages| - 1 {
      CountingNone(stages[..|stages| - 1], t);
    }
  }

  lemma InvIsShaped(hash: Hash, s: Resize, m: map<nat, nat>)
    requires Inv(hash, s, m)
    ensures Shaped(hash, s)
  {
  }

  // w still carries the item that v carries, and is still to write the slot that v
  // is to write.
  predicate Covers(v: Work, w: Work) {
    && (v.Probe? ==> w.Probe? && w.a == v.a)
    && (v.Placed? || v.Got? ==> (w.Placed? || w.Got?) && w.i == v.i)
  }

  lemma SameCarriers(works: seq<Work>, works': seq<Work>, t: nat)
    requires |works'| == |works| && t < |works| && forall u :: 0 <= u < |works| && u != t ==> works'[u] == works[u]
    requires Covers(works[t], works'[t])
    ensures forall a :: Carried(works, a) ==> Carried(works', a)
    ensures forall q :: WrittenSoon(works, q) ==> WrittenSoon(works', q)
  {
  }

  // A step that touches neither table, and leaves the thread with what it had.
  lemma QuietWork(hash: Hash, s: Resize, m: map<nat, nat>, t: nat, w: Work)
    requires IsHash(hash) && Data(hash, s, m) && t < |s.works|
    requires WorkFits(hash, s, m, w) && Covers(s.works[t], w) && Covers(w, s.works[t])
    ensures Data(hash, WithWork(s, t, w), m)
  {
    var s' := WithWork(s, t, w);
    forall u | 0 <= u < |s.works| ensures WorkFits(hash, s', m, s'.works[u]) {
      assert u != t ==> WorkFits(hash, s, m, s.works[u]);
    }
    forall u | 0 <= u < |s.works| && u != t ensures Apart(s'.works[u], s'.works[t]) && Apart(s'.works[t], s'.works[u]) {
      assert Apart(s.works[u], s.works[t]);
    }
    SameCarriers(s.works, s'.works, t);
  }

  // ---------------------------------------------------------------- the steps of a transfer

  // Taking the item out of the old table: it is now in one thread's hands.
  lemma ClaimKeepsData(hash: Hash, s: Resize, m: map<nat, nat>, t: nat)
    requires IsHash(hash) && IsMap(m) && Data(hash, s, m) && t < |s.works| && s.works[t].Read?
    requires s.works[t].pos < |s.addrs| && s.addrs[s.works[t].pos] == s.works[t].a
    ensures Data(hash, AfterClaim(s, t), m)
  {
    var pos, a := s.works[t].pos, s.works[t].a;
    var s' := AfterClaim(s, t);
    assert WorkFits(hash, s, m, s.works[t]);
    assert forall b :: b in s'.addrs && b != NULL ==> b in s.addrs && b != a;
    forall b | b in s.addrs && b != a && b != NULL ensures b in s'.addrs {
      var p :| 0 <= p < |s.addrs| && s.addrs[p] == b;
      assert s'.addrs[p] == b;
    }
    forall u | 0 <= u < |s.works| && u != t
      ensures WorkFits(hash, s', m, s'.works[u]) && Apart(s'.works[u], s'.works[t]) && Apart(s'.works[t], s'.works[u])
    {
      assert WorkFits(hash, s, m, s.works[u]);
    }
    SameCarriers(s.works, s'.works, t);
    assert s'.works[t].Probe?;
  }

  // The other way a probe of the new table can end: there is always a free slot.
  lemma ProbeFindsASlot(hash: Hash, s: Resize, m: map<nat, nat>, t: nat)
    requires IsHash(hash) && IsMap(m) && Data(hash, s, m) && t < |s.works| && s.works[t].Probe? && s.works[t].n < |s.toAddrs|
    requires s.toAddrs[NewSlot(hash, s, s.works[t].a, s.works[t].n)] != NULL
    ensures Passed(hash, s.toAddrs, s.works[t].a, s.works[t].n + 1)
    ensures s.works[t].n + 1 < |s.toAddrs|
  {
    var a, n := s.works[t].a, s.works[t].n;
    assert WorkFits(hash, s, m, s.works[t]);
    assert s.toAddrs[NewSlot(hash, s, a, n)] != a;
    assert Passed(hash, s.toAddrs, a, n + 1);
    ChainedIsDistinct(hash, s.toAddrs);
    DistinctTakesAtMost(s.toAddrs, m.Keys);
    assert |m.Keys| == |m|;
    if n + 1 == |s.toAddrs| {
      PassedAllIsFull(hash, s.toAddrs, a);
    }
  }

  ghost predicate WillPlace(hash: Hash, s: Resize, t: nat)
    requires IsHash(hash)
  {
    && t < |s.works| && s.works[t].Probe? && s.works[t].n < |s.toAddrs|
    && s.toAddrs[NewSlot(hash, s, s.works[t].a, s.works[t].n)] == NULL
  }

  lemma PlaceKeepsWork(hash: Hash, s: Resize, m: map<nat, nat>, t: nat, u: nat)
    requires IsHash(hash) && IsMap(m) && Data(hash, s, m) && WillPlace(hash, s, t) && u < |s.works|
    ensures WorkFits(hash, AfterPlace(hash, s, t), m, AfterPlace(hash, s, t).works[u])
    ensures u != t ==>
              && Apart(AfterPlace(hash, s, t).works[u], AfterPlace(hash, s, t).works[t])
              && Apart(AfterPlace(hash, s, t).works[t], AfterPlace(hash, s, t).works[u])
  {
  }

  lemma PlaceKeepsNewTable(hash: Hash, s: Resize, m: map<nat, nat>, t: nat)
    requires IsHash(hash) && IsMap(m) && Data(hash, s, m) && WillPlace(hash, s, t)
    ensures NewTable(hash, AfterPlace(hash, s, t), m)
  {
    var pc := s.works[t];
    var i := NewSlot(hash, s, pc.a, pc.n);
    var s' := AfterPlace(hash, s, t);
    assert WorkFits(hash, s, m, pc);
    PlaceKeepsChains(hash, s.toAddrs, pc.a, pc.n);
    forall q | 0 <= q < |s'.toAddrs| && s'.toAddrs[q] != NULL && s'.toItems[q] == NULL ensures WrittenSoon(s'.works, q) {
      if q == i {
        assert s'.works[t].Placed? && s'.works[t].i == i;
      } else {
        var u :| 0 <= u < |s.works| && (s.works[u].Placed? || s.works[u].Got?) && s.works[u].i == q;
        assert s'.works[u] == s.works[u];
      }
    }
  }

  lemma PlaceKeepsTheRest(hash: Hash, s: Resize, m: map<nat, nat>, t: nat)
    requires IsHash(hash) && IsMap(m) && Data(hash, s, m) && WillPlace(hash, s, t)
    ensures OldTable(AfterPlace(hash, s, t), m) && Kept(AfterPlace(hash, s, t), m)
  {
    var pc := s.works[t];
    var i := NewSlot(hash, s, pc.a, pc.n);
    var s' := AfterPlace(hash, s, t);
    assert WorkFits(hash, s, m, pc);
    assert s'.toAddrs[i] == pc.a;
    forall b | b in s'.toAddrs ensures b in s.toAddrs || b == pc.a {
    }
    forall a | a in m ensures a in s'.addrs || a in s'.toAddrs || Carried(s'.works, a) {
      if a in s.toAddrs {
        var q :| 0 <= q < |s.toAddrs| && s.toAddrs[q] == a;
        assert s'.toAddrs[q] == a;
      } else if Carried(s.works, a) && a != pc.a {
        var u :| 0 <= u < |s.works| && s.works[u].Probe? && s.works[u].a == a;
        assert s'.works[u] == s.works[u];
      }
    }
  }

  lemma PlaceKeepsData(hash: Hash, s: Resize, m: map<nat, nat>, t: nat)
    requires IsHash(hash) && IsMap(m) && Data(hash, s, m) && WillPlace(hash, s, t)
    ensures Data(hash, AfterPlace(hash, s, t), m)
  {
    PlaceKeepsNewTable(hash, s, m, t);
    PlaceKeepsTheRest(hash, s, m, t);
    forall u | 0 <= u < |s.works|
      ensures WorkFits(hash, AfterPlace(hash, s, t), m, AfterPlace(hash, s, t).works[u])
      ensures u != t ==>
                && Apart(AfterPlace(hash, s, t).works[u], AfterPlace(hash, s, t).works[t])
                && Apart(AfterPlace(hash, s, t).works[t], AfterPlace(hash, s, t).works[u])
    {
      PlaceKeepsWork(hash, s, m, t, u);
    }
  }

  lemma DeliverKeepsWork(hash: Hash, s: Resize, m: map<nat, nat>, t: nat, u: nat)
    requires IsHash(hash) && Data(hash, s, m) && t < |s.works| && u < |s.works| && s.works[t].Got? && s.works[t].i < |s.toItems|
    ensures WorkFits(hash, AfterDeliver(s, t), m, AfterDeliver(s, t).works[u])
  {
  }

  lemma DeliverKeepsNewTable(hash: Hash, s: Resize, m: map<nat, nat>, t: nat)
    requires IsHash(hash) && IsMap(m) && Data(hash, s, m) && t < |s.works| && s.works[t].Got? && s.works[t].i < |s.toItems|
    ensures NewTable(hash, AfterDeliver(s, t), m)
  {
    var s' := AfterDeliver(s, t);
    assert WorkFits(hash, s, m, s.works[t]);
    forall q | 0 <= q < |s.toAddrs| && s.toAddrs[q] != NULL && s'.toItems[q] == NULL
      ensures WrittenSoon(s'.works, q)
    {
      var u :| 0 <= u < |s.works| && (s.works[u].Placed? || s.works[u].Got?) && s.works[u].i == q;
      assert s'.works[u] == s.works[u];
    }
  }

  lemma DeliverKeepsWorks(hash: Hash, s: Resize, m: map<nat, nat>, t: nat)
    requires IsHash(hash) && IsMap(m) && Data(hash, s, m) && t < |s.works| && s.works[t].Got? && s.works[t].i < |s.toItems|
    ensures Works(hash, AfterDeliver(s, t), m)
  {
    forall u | 0 <= u < |s.works| ensures WorkFits(hash, AfterDeliver(s, t), m, AfterDeliver(s, t).works[u]) {
      DeliverKeepsWork(hash, s, m, t, u);
    }
  }

  lemma DeliverKeepsData(hash: Hash, s: Resize, m: map<nat, nat>, t: nat)
    requires IsHash(hash) && IsMap(m) && Data(hash, s, m) && t < |s.works| && s.works[t].Got? && s.works[t].i < |s.toItems|
    ensures Data(hash, AfterDeliver(s, t), m)
  {
    var s' := AfterDeliver(s, t);
    DeliverKeepsNewTable(hash, s, m, t);
    DeliverKeepsWorks(hash, s, m, t);
    forall a | Carried(s.works, a) ensures Carried(s'.works, a) {
      var u :| 0 <= u < |s.works| && s.works[u].Probe? && s.works[u].a == a;
      assert s'.works[u] == s.works[u];
    }
  }

  // A helper going from one place of its loop to another changes none of this.
  lemma StagesKeepData(hash: Hash, s: Resize, s': Resize, m: map<nat, nat>)
    requires IsHash(hash) && Data(hash, s, m)
    requires s'.addrs == s.addrs && s'.items == s.items && s'.toAddrs == s.toAddrs && s'.toItems == s.toItems
    requires s'.works == s.works
    ensures Data(hash, s', m)
  {
  }

  lemma StartKeepsData(hash: Hash, s: Resize, m: map<nat, nat>, t: nat)
    requires IsHash(hash) && IsMap(m) && Data(hash, s, m) && Shaped(hash, s) && t < |s.works| && s.works[t].Start?
    ensures Data(hash, Transfer(hash, s, t), m)
  {
    var pos := s.works[t].pos;
    var w := if s.addrs[pos] == NULL then Nothing else Read(pos, s.addrs[pos]);
    QuietWork(hash, s, m, t, w);
    StagesKeepData(hash, WithWork(s, t, w), Transfer(hash, s, t), m);
  }

  lemma ReadKeepsData(hash: Hash, s: Resize, m: map<nat, nat>, t: nat)
    requires IsHash(hash) && IsMap(m) && Data(hash, s, m) && Shaped(hash, s) && t < |s.works| && s.works[t].Read?
    ensures Data(hash, Transfer(hash, s, t), m)
  {
    if s.addrs[s.works[t].pos] == s.works[t].a {
      ClaimKeepsData(hash, s, m, t);
    } else {
      QuietWork(hash, s, m, t, Nothing);
      StagesKeepData(hash, WithWork(s, t, Nothing), Transfer(hash, s, t), m);
    }
  }

  lemma AdvanceKeepsData(hash: Hash, s: Resize, m: map<nat, nat>, t: nat)
    requires IsHash(hash) && IsMap(m) && Data(hash, s, m) && t < |s.works| && s.works[t].Probe?
    requires s.works[t].n < |s.toAddrs| && !WillPlace(hash, s, t)
    ensures s.works[t].n + 1 < |s.toAddrs|
    ensures Data(hash, WithWork(s, t, Probe(s.works[t].pos, s.works[t].a, s.works[t].n + 1)), m)
  {
    ProbeFindsASlot(hash, s, m, t);
    assert WorkFits(hash, s, m, s.works[t]);
    QuietWork(hash, s, m, t, Probe(s.works[t].pos, s.works[t].a, s.works[t].n + 1));
  }

  lemma TransferOfProbe(hash: Hash, s: Resize, t: nat)
    requires Shaped(hash, s) && t < |s.works| && s.works[t].Probe?
    ensures WillPlace(hash, s, t) ==> Transfer(hash, s, t) == AfterPlace(hash, s, t)
    ensures !WillPlace(hash, s, t) && s.works[t].n + 1 < |s.toAddrs| ==>
              Transfer(hash, s, t) == WithWork(s, t, Probe(s.works[t].pos, s.works[t].a, s.works[t].n + 1))
  {
  }

  lemma ProbeKeepsData(hash: Hash, s: Resize, m: map<nat, nat>, t: nat)
    requires IsHash(hash) && IsMap(m) && Data(hash, s, m) && Shaped(hash, s) && t < |s.works| && s.works[t].Probe?
    ensures Data(hash, Transfer(hash, s, t), m)
  {
    TransferOfProbe(hash, s, t);
    if WillPlace(hash, s, t) {
      PlaceKeepsData(hash, s, m, t);
    } else {
      AdvanceKeepsData(hash, s, m, t);
    }
  }

  lemma TransferKeepsData(hash: Hash, s: Resize, m: map<nat, nat>, t: nat)
    requires IsHash(hash) && IsMap(m) && Data(hash, s, m) && Shaped(hash, s) && t < |s.works|
    ensures Data(hash, Transfer(hash, s, t), m)
  {
    if s.works[t].Start? {
      StartKeepsData(hash, s, m, t);
    } else if s.works[t].Read? {
      ReadKeepsData(hash, s, m, t);
    } else if s.works[t].Probe? {
      ProbeKeepsData(hash, s, m, t);
    } else if s.works[t].Placed? {
      assert WorkFits(hash, s, m, s.works[t]);
      QuietWork(hash, s, m, t, Got(s.works[t].a, s.works[t].i, s.items[s.works[t].pos]));
    } else if s.works[t].Got? {
      DeliverKeepsData(hash, s, m, t);
      StagesKeepData(hash, AfterDeliver(s, t), Transfer(hash, s, t), m);
    }
  }

  // ---------------------------------------------------------------- all steps

  lemma StepKeepsData(hash: Hash, s: Resize, m: map<nat, nat>, v: Move)
    requires Inv(hash, s, m) && Shaped(hash, s) && CanMove(s, v)
    ensures Data(hash, Next(hash, s, v), m)
  {
    match v {
      case Scan =>
        QuietWork(hash, s, m, 0, Start(s.scan));
        StagesKeepData(hash, WithWork(s, 0, Start(s.scan)), Next(hash, s, v), m);
      case Pick(t, pos) => QuietWork(hash, s, m, t, Start(pos));
      case Go(t) => TransferKeepsData(hash, s, m, t);
      case _ => StagesKeepData(hash, s, Next(hash, s, v), m);
    }
  }

  lemma StepKeepsScanned(hash: Hash, s: Resize, m: map<nat, nat>, v: Move)
    requires Shaped(hash, s) && Scanned(s) && CanMove(s, v)
    requires v.Go? ==> WorkFits(hash, s, m, s.works[v.t])
    ensures Scanned(Next(hash, s, v))
  {
  }

  lemma TransferKeepsStaged(hash: Hash, s: Resize, t: nat)
    requires Staged(s) && Shaped(hash, s) && t < |s.works| && !s.works[t].Nothing?
    ensures Staged(Transfer(hash, s, t))
  {
    CountingUpdate(s.stages, t, Counted);
    var s' := Transfer(hash, s, t);
    assert s'.phase == s.phase && s'.helpers == s.helpers;
    assert s'.stages == s.stages || (t > 0 && s' == Finish(s', t));
  }

  lemma StepKeepsStaged(hash: Hash, s: Resize, v: Move)
    requires Staged(s) && Shaped(hash, s) && CanMove(s, v)
    ensures Staged(Next(hash, s, v))
  {
    match v {
      case Enter(t) => CountingUpdate(s.stages, t, Counted);
      case Check(t) => CountingUpdate(s.stages, t, if s.phase.Resizing? then Inside else Leaving);
      case Break(t) => CountingUpdate(s.stages, t, Leaving);
      case Leave(t) => CountingUpdate(s.stages, t, Out);
      case Go(t) => TransferKeepsStaged(hash, s, t);
      case Swap =>
        forall t: nat | t < |s.stages| ensures s.stages[t].Out? {
          CountingNone(s.stages, t);
        }
      case _ =>
    }
  }

  lemma StepKeepsInv(hash: Hash, s: Resize, m: map<nat, nat>, v: Move)
    requires Inv(hash, s, m) && CanMove(s, v)
    ensures Shaped(hash, s) && Inv(hash, Next(hash, s, v), m)
  {
    InvIsShaped(hash, s, m);
    StepKeepsData(hash, s, m, v);
    if v.Go? {
      assert WorkFits(hash, s, m, s.works[v.t]);
    }
    StepKeepsScanned(hash, s, m, v);
    StepKeepsStaged(hash, s, v);
  }

  // ---------------------------------------------------------------- runs

  // The master has made an empty table twice the size, and every other thread is
  // outside: the regular users have drained out.
  ghost predicate Begins(hash: Hash, s: Resize, m: map<nat, nat>) {
    && IsHash(hash) && IsMap(m) && Chained(hash, s.addrs) && Represents(s.addrs, s.items, m)
    && |s.toAddrs| == |s.toItems| == 2 * |s.addrs| > 0
    && (forall q :: 0 <= q < |s.toAddrs| ==> s.toAddrs[q] == NULL && s.toItems[q] == NULL)
    && s.phase.Resizing? && s.scan == 0 && s.helpers == 0 && |s.works| == |s.stages| > 0
    && (forall t :: 0 <= t < |s.works| ==> s.works[t] == Nothing)
    && (forall t :: 0 <= t < |s.stages| ==> s.stages[t] == Out)
  }

  lemma {:induction false} NoneCounting(stages: seq<Stage>)
    requires forall t :: 0 <= t < |stages| ==> stages[t].Out?
    ensures Counting(stages) == 0
  {
    if |stages| > 0 {
      NoneCounting(stages[..|stages| - 1]);
    }
  }

  lemma BeginsInv(hash: Hash, s: Resize, m: map<nat, nat>)
    requires Begins(hash, s, m)
    ensures Inv(hash, s, m)
  {
    ChainedIsDistinct(hash, s.addrs);
    KeysAreTaken(s.addrs, s.items, m);
    NoneCounting(s.stages);
  }

  ghost predicate IsRun(hash: Hash, m: map<nat, nat>, run: seq<Resize>, moves: seq<Move>) {
    && |run| == |moves| + 1 && Begins(hash, run[0], m)
    && forall k {:trigger moves[k]} :: 0 <= k < |moves| ==>
         Shaped(hash, run[k]) && CanMove(run[k], moves[k]) && run[k + 1] == Next(hash, run[k], moves[k])
  }

  lemma {:induction false} RunKeepsInv(hash: Hash, m: map<nat, nat>, run: seq<Resize>, moves: seq<Move>, k: nat)
    requires IsRun(hash, m, run, moves) && k < |run|
    ensures Inv(hash, run[k], m)
  {
    if k == 0 {
      BeginsInv(hash, run[0], m);
    } else {
      RunKeepsInv(hash, m, run, moves, k - 1);
      StepKeepsInv(hash, run[k - 1], m, moves[k - 1]);
    }
  }

  // Conservation, in every state of every run: each item of the old map is in one
  // place only, the old table, the hands of one thread or the new table, and nothing
  // else is in either table.
  lemma ItemsAreConserved(hash: Hash, m: map<nat, nat>, run: seq<Resize>, moves: seq<Move>, k: nat, a: nat)
    requires IsRun(hash, m, run, moves) && k < |run| && a != NULL
    ensures var s := run[k];
            && NoDuplicates(s.addrs) && NoDuplicates(s.toAddrs)
            && (a in m <==> a in s.addrs || a in s.toAddrs || Carried(s.works, a))
            && !(a in s.addrs && a in s.toAddrs)
            && (Carried(s.works, a) ==> a !in s.addrs && a !in s.toAddrs)
            && forall t, u :: 0 <= t < u < |s.works| ==> Apart(s.works[t], s.works[u])
  {
    RunKeepsInv(hash, m, run, moves, k);
    var s := run[k];
    ChainedIsDistinct(hash, s.toAddrs);
    if Carried(s.works, a) {
      var t :| 0 <= t < |s.works| && s.works[t].Probe? && s.works[t].a == a;
      assert WorkFits(hash, s, m, s.works[t]);
    }
  }

  // No transfer drops its item for want of a slot.
  lemma NothingIsDropped(hash: Hash, m: map<nat, nat>, run: seq<Resize>, moves: seq<Move>, k: nat, t: nat)
    requires IsRun(hash, m, run, moves) && k < |run| && t < |run[k].works| && run[k].works[t].Probe?
    ensures run[k].works[t].n < |run[k].toAddrs|
    ensures || run[k].toAddrs[NewSlot(hash, run[k], run[k].works[t].a, run[k].works[t].n)] == NULL
            || run[k].works[t].n + 1 < |run[k].toAddrs|
  {
    RunKeepsInv(hash, m, run, moves, k);
    var s := run[k];
    assert WorkFits(hash, s, m, s.works[t]);
    if s.toAddrs[NewSlot(hash, s, s.works[t].a, s.works[t].n)] != NULL {
      ProbeFindsASlot(hash, s, m, t);
    }
  }

  // When the tables are swapped the new one holds exactly the old map, with unbroken
  // chains, whatever the helpers have done, and no thread is still at work on it.
  lemma SwappedIsComplete(hash: Hash, m: map<nat, nat>, run: seq<Resize>, moves: seq<Move>, k: nat)
    requires IsRun(hash, m, run, moves) && k < |run| && run[k].phase.Swapped?
    ensures Chained(hash, run[k].toAddrs) && Represents(run[k].toAddrs, run[k].toItems, m)
    ensures forall t :: 0 <= t < |run[k].works| ==> run[k].works[t].Nothing?
    ensures forall p :: 0 <= p < |run[k].addrs| ==> run[k].addrs[p] == NULL
  {
    RunKeepsInv(hash, m, run, moves, k);
    var s := run[k];
    forall a | a in m ensures a in s.toAddrs {
      assert !Carried(s.works, a);
    }
    forall q | 0 <= q < |s.toAddrs| && s.toAddrs[q] != NULL ensures m[s.toAddrs[q]] == s.toItems[q] {
      assert !WrittenSoon(s.works, q);
    }
  }

  // ---------------------------------------------------------------- the resize ends

  // How many steps a transfer and a helper's round still have before them at most.
  function WorkRank(cap: nat, w: Work): nat {
    match w
    case Nothing => 0
    case Start(_) => cap + 6
    case Read(_, _) => cap + 5
    case Probe(_, _, n) => 4 + if n < cap then cap - n else 0
    case Placed(_, _, _) => 3
    case Got(_, _, _) => 2
  }

  function StageRank(st: Stage): nat {
    match st
    case Out => 0
    case Leaving => 1
    case Inside => 2
    case Counted => 3
  }

  function Ranks(cap: nat, works: seq<Work>, stages: seq<Stage>): nat
    requires |works| == |stages|
  {
    if |works| == 0 then 0
    else
      var n := |works| - 1;
      Ranks(cap, works[..n], stages[..n]) + WorkRank(cap, works[n]) + StageRank(stages[n])
  }

  lemma {:induction false} RanksUpdate(cap: nat, works: seq<Work>, stages: seq<Stage>, t: nat, w: Work, st: Stage)
    requires |works| == |stages| && t < |works|
    ensures Ranks(cap, works[t := w], stages[t := st]) ==
            Ranks(cap, works, stages) - WorkRank(cap, works[t]) - StageRank(stages[t]) + WorkRank(cap, w) + StageRank(st)
  {
    var n := |works| - 1;
    if t == n {
      assert works[t := w][..n] == works[..n] && stages[t := st][..n] == stages[..n];
    } else {
      RanksUpdate(cap, works[..n], stages[..n], t, w, st);
      assert works[t := w][..n] == works[..n][t := w] && stages[t := st][..n] == stages[..n][t := st];
    }
  }

  // All that is left to do, if no more helpers come and those inside pick nothing.
  function Rest(s: Resize): nat
    requires |s.works| == |s.stages|
  {
    var cap := |s.toAddrs|;
    Ranks(cap, s.works, s.stages)
    + Scans(cap + 7, if s.scan < |s.addrs| then |s.addrs| - s.scan else 0)
    + match s.phase { case Resizing => 2 case Waiting => 1 case Swapped => 0 }
  }

  function Scans(each: nat, n: nat): nat {
    if n == 0 then 0 else each + Scans(each, n - 1)
  }

  // What a helper adds by coming in, or by picking an item.
  function Added(cap: nat, v: Move): nat {
    match v
    case Enter(_) => 4
    case Pick(_, _) => cap + 7
    case _ => 0
  }

  // What thread t does changes nothing else that counts.
  lemma OneThreadLowersRest(s: Resize, s': Resize, t: nat, added: nat)
    requires |s.works| == |s.stages| && |s'.works| == |s'.stages| == |s.works| && t < |s.works|
    requires s'.works == s.works[t := s'.works[t]] && s'.stages == s.stages[t := s'.stages[t]]
    requires |s'.toAddrs| == |s.toAddrs| && |s'.addrs| == |s.addrs| && s'.scan == s.scan && s'.phase == s.phase
    requires WorkRank(|s.toAddrs|, s'.works[t]) + StageRank(s'.stages[t])
             < WorkRank(|s.toAddrs|, s.works[t]) + StageRank(s.stages[t]) + added
    ensures Rest(s') < Rest(s) + added
  {
    RanksUpdate(|s.toAddrs|, s.works, s.stages, t, s'.works[t], s'.stages[t]);
  }

  lemma TransferLowersRank(hash: Hash, s: Resize, t: nat)
    requires Shaped(hash, s) && t < |s.works| && !s.works[t].Nothing? && (t > 0 ==> s.stages[t].Inside?)
    requires t == 0 ==> s.stages[0].Out?
    ensures var s' := Transfer(hash, s, t);
            && |s'.works| == |s'.stages| == |s.works|
            && s'.works == s.works[t := s'.works[t]] && s'.stages == s.stages[t := s'.stages[t]]
            && |s'.toAddrs| == |s.toAddrs| && |s'.addrs| == |s.addrs| && s'.scan == s.scan && s'.phase == s.phase
            && WorkRank(|s.toAddrs|, s'.works[t]) + StageRank(s'.stages[t])
               < WorkRank(|s.toAddrs|, s.works[t]) + StageRank(s.stages[t])
  {
  }

  lemma ScanLowersRest(hash: Hash, s: Resize)
    requires Shaped(hash, s) && CanMove(s, Scan)
    ensures var s' := Next(hash, s, Scan); |s'.works| == |s'.stages| && Rest(s') < Rest(s)
  {
    var s' := Next(hash, s, Scan);
    RanksUpdate(|s.toAddrs|, s.works, s.stages, 0, Start(s.scan), s.stages[0]);
    assert s'.works == s.works[0 := Start(s.scan)] && s'.stages == s.stages[0 := s.stages[0]];
  }

  // What a helper does with its place in the loop.
  lemma HelperLowersRank(hash: Hash, s: Resize, v: Move)
    requires Shaped(hash, s) && CanMove(s, v) && (v.Enter? || v.Check? || v.Pick? || v.Break? || v.Leave?)
    ensures var s' := Next(hash, s, v);
            && v.t < |s.works| == |s'.works| == |s'.stages|
            && s'.works == s.works[v.t := s'.works[v.t]] && s'.stages == s.stages[v.t := s'.stages[v.t]]
            && |s'.toAddrs| == |s.toAddrs| && |s'.addrs| == |s.addrs| && s'.scan == s.scan && s'.phase == s.phase
            && WorkRank(|s.toAddrs|, s'.works[v.t]) + StageRank(s'.stages[v.t])
               < WorkRank(|s.toAddrs|, s.works[v.t]) + StageRank(s.stages[v.t]) + Added(|s.toAddrs|, v)
  {
  }

  lemma StepLowersRest(hash: Hash, s: Resize, v: Move)
    requires Shaped(hash, s) && CanMove(s, v) && Staged(s)
    ensures var s' := Next(hash, s, v);
            && |s'.toAddrs| == |s.toAddrs| && |s'.works| == |s'.stages| && Rest(s') < Rest(s) + Added(|s.toAddrs|, v)
  {
    match v {
      case Scan => ScanLowersRest(hash, s);
      case ScanOver =>
      case Swap =>
      case Go(t) =>
        TransferLowersRank(hash, s, t);
        OneThreadLowersRest(s, Next(hash, s, v), t, 0);
      case _ =>
        HelperLowersRank(hash, s, v);
        OneThreadLowersRest(s, Next(hash, s, v), v.t, Added(|s.toAddrs|, v));
    }
  }

  function AllAdded(cap: nat, moves: seq<Move>): nat {
    if |moves| == 0 then 0 else AllAdded(cap, moves[..|moves| - 1]) + Added(cap, moves[|moves| - 1])
  }

  // However master and helpers are interleaved, a resize takes no more steps than
  // are given by the size of the table, the helpers that come in and what they pick.
  lemma {:induction false} ResizeIsBounded(hash: Hash, m: map<nat, nat>, run: seq<Resize>, moves: seq<Move>, k: nat)
    requires IsRun(hash, m, run, moves) && k < |run|
    ensures |run[k].works| == |run[k].stages| && |run[k].toAddrs| == |run[0].toAddrs|
    ensures k + Rest(run[k]) <= Rest(run[0]) + AllAdded(|run[0].toAddrs|, moves[..k])
  {
    if k > 0 {
      ResizeIsBounded(hash, m, run, moves, k - 1);
      RunKeepsInv(hash, m, run, moves, k - 1);
      assert run[k] == Next(hash, run[k - 1], moves[k - 1]);
      StepLowersRest(hash, run[k - 1], moves[k - 1]);
      assert moves[..k][..k - 1] == moves[..k - 1];
    }
  }

  lemma {:induction false} SomeoneIsCounted(stages: seq<Stage>) returns (t: nat)
    requires Counting(stages) > 0
    ensures t < |stages| && !stages[t].Out?
  {
    if stages[|stages| - 1].Out? {
      t := SomeoneIsCounted(stages[..|stages| - 1]);
    } else {
      t := |stages| - 1;
    }
  }

  // Until the tables are swapped the master can go on, or a helper that has come in.
  lemma NeverStuck(hash: Hash, s: Resize, m: map<nat, nat>) returns (v: Move)
    requires Inv(hash, s, m) && !s.phase.Swapped?
    ensures CanMove(s, v) && !v.Enter? && !v.Pick?
  {
    if !s.works[0].Nothing? {
      v := Go(0);
    } else if s.phase.Resizing? {
      v := if s.scan < |s.addrs| then Scan else ScanOver;
    } else if s.helpers == 0 {
      v := Swap;
    } else {
      var t := SomeoneIsCounted(s.stages);
      v := if !s.works[t].Nothing? then Go(t)
           else if s.stages[t].Counted? then Check(t)
           else if s.stages[t].Leaving? then Leave(t)
           else Break(t);
    }
  }

  lemma OneMore(hash: Hash, m: map<nat, nat>, run: seq<Resize>, moves: seq<Move>, v: Move)
    requires IsRun(hash, m, run, moves) && Shaped(hash, run[|moves|]) && CanMove(run[|moves|], v)
    ensures IsRun(hash, m, run + [Next(hash, run[|moves|], v)], moves + [v])
  {
    var run', moves' := run + [Next(hash, run[|moves|], v)], moves + [v];
    forall k | 0 <= k < |moves'|
      ensures Shaped(hash, run'[k]) && CanMove(run'[k], moves'[k]) && run'[k + 1] == Next(hash, run'[k], moves'[k])
    {
      if k < |moves| {
        assert moves'[k] == moves[k] && run'[k] == run[k] && run'[k + 1] == run[k + 1];
      }
    }
  }

  // From every state of every resize the tables are swapped in the end if helpers
  // come and pick no more, and the new table is then the old map.
  lemma {:induction false} ResizeEnds(hash: Hash, m: map<nat, nat>, run: seq<Resize>, moves: seq<Move>)
    returns (run': seq<Resize>, moves': seq<Move>)
    requires IsRun(hash, m, run, moves) && |run[|moves|].works| == |run[|moves|].stages|
    ensures IsRun(hash, m, run', moves') && run <= run' && moves <= moves'
    ensures forall k :: |moves| <= k < |moves'| ==> !moves'[k].Enter? && !moves'[k].Pick?
    ensures var s := run'[|moves'|];
            && s.phase.Swapped? && Chained(hash, s.toAddrs) && Represents(s.toAddrs, s.toItems, m)
    decreases Rest(run[|moves|])
  {
    var s := run[|moves|];
    RunKeepsInv(hash, m, run, moves, |moves|);
    if s.phase.Swapped? {
      run', moves' := run, moves;
      SwappedIsComplete(hash, m, run, moves, |moves|);
    } else {
      var v := NeverStuck(hash, s, m);
      InvIsShaped(hash, s, m);
      OneMore(hash, m, run, moves, v);
      StepLowersRest(hash, s, v);
      run', moves' := ResizeEnds(hash, m, run + [Next(hash, s, v)], moves + [v]);
    }
  }

  // The first steps of a helper that comes in at once and picks slot pos.
  function Helped(s: Resize, t: nat, pos: nat, k: nat): Resize
    requires t < |s.works| == |s.stages| && pos < |s.addrs|
  {
    var works := if k < 3 then s.works
                 else s.works[t := if k == 3 then Start(pos) else if k == 4 then Read(pos, s.addrs[pos])
                                   else Probe(pos, s.addrs[pos], 0)];
    s.(helpers := if k == 0 then s.helpers else s.helpers + 1, works := works,
       stages := if k == 0 then s.stages else s.stages[t := if k == 1 then Counted else Inside],
       addrs := if k < 5 then s.addrs else s.addrs[pos := NULL])
  }

  function HelperMove(t: nat, pos: nat, k: nat): Move {
    if k == 0 then Enter(t) else if k == 1 then Check(t) else if k == 2 then Pick(t, pos) else Go(t)
  }

  lemma HelpedStep(hash: Hash, s: Resize, t: nat, pos: nat, k: nat)
    requires Shaped(hash, s) && 0 < t < |s.works| && pos < |s.addrs| && s.addrs[pos] != NULL && k < 5
    requires s.phase.Resizing? && s.works[t].Nothing? && s.stages[t].Out?
    ensures Shaped(hash, Helped(s, t, pos, k)) && CanMove(Helped(s, t, pos, k), HelperMove(t, pos, k))
    ensures Next(hash, Helped(s, t, pos, k), HelperMove(t, pos, k)) == Helped(s, t, pos, k + 1)
  {
  }

  lemma {:induction false} HelpedRun(hash: Hash, s: Resize, m: map<nat, nat>, t: nat, pos: nat, k: nat)
    returns (run: seq<Resize>, moves: seq<Move>)
    requires Begins(hash, s, m) && 0 < t < |s.works| && pos < |s.addrs| && s.addrs[pos] != NULL && k <= 5
    ensures IsRun(hash, m, run, moves) && |moves| == k && run[0] == s && run[k] == Helped(s, t, pos, k)
  {
    if k == 0 {
      run, moves := [s], [];
    } else {
      run, moves := HelpedRun(hash, s, m, t, pos, k - 1);
      BeginsInv(hash, s, m);
      InvIsShaped(hash, s, m);
      HelpedStep(hash, s, t, pos, k - 1);
      OneMore(hash, m, run, moves, HelperMove(t, pos, k - 1));
      run, moves := run + [Helped(s, t, pos, k)], moves + [HelperMove(t, pos, k - 1)];
    }
  }

  // A helper that comes in while the master is still at it can take any item.
  lemma HelpersCanTakeItems(hash: Hash, s: Resize, m: map<nat, nat>, t: nat, pos: nat)
    returns (run: seq<Resize>, moves: seq<Move>)
    requires Begins(hash, s, m) && 0 < t < |s.works| && pos < |s.addrs| && s.addrs[pos] != NULL
    ensures IsRun(hash, m, run, moves) && run[0] == s && run[|moves|].scan == 0
    ensures t < |run[|moves|].works| && run[|moves|].works[t] == Probe(pos, s.addrs[pos], 0)
    ensures run[|moves|].addrs == s.addrs[pos := NULL]
  {
    run, moves := HelpedRun(hash, s, m, t, pos, 5);
  }
}
