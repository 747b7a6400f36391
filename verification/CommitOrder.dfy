/**
 Commits may be carried out in any order: yarn_dep_commit of a set of epochs leaves
 the same memory however the epochs and their addresses are interleaved, and no
 later epoch can tell how far it has got.

 Nothing here relies on the timeline, as nothing in yarn_dep_commit does.
 */
module CommitOrder {
  import opened Serial
  import opened Timeline
  import opened Speculation

  ghost predicate Sound(s: State) {
    |s.mem| == |s.lastCommit|
  }

  // ---------------------------------------------------------------- loads during a commit

  lemma {:induction false} SameOffers(s: State, s': State, w: int, a: Addr)
    requires s'.line.first == s.line.first
    requires forall x: nat :: x <= w ==> (Offers(s', x, a) <==> Offers(s, x, a))
    ensures LatestWriter(s', w, a) == LatestWriter(s, w, a)
    decreases w
  {
  }

  // Writing back one address of an epoch does not change what an epoch at or above
  // it loads, of that address or any other.
  lemma WriteBackKeepsLoads(s: State, c: nat, a: Addr, e: nat, b: Addr)
    requires Sound(s) && c < |s.runs| && a < |s.mem| && b < |s.mem|
    requires s.line.first <= c <= e && !At(s.line, c).masked
    ensures LoadValue(WriteBack(s, c, a), e, b) == LoadValue(s, e, b)
  {
    var s' := WriteBack(s, c, a);
    assert forall x: nat :: Offers(s', x, b) <==> Offers(s, x, b) && !(x == c && a == b);
    if a != b || a !in s.runs[c].stored {
      SameOffers(s, s', e, b);
    } else {
      assert Offers(s, c, a);
      var r, r' := LatestWriter(s, e, a), LatestWriter(s', e, a);
      if r.value > c {
        assert Offers(s', r.value, a);
        assert Offers(s, r'.value, a);
      }
    }
  }

  // Any number of write-backs, of any epochs at or below the loading one, in any
  // order.
  function WriteBacks(s: State, items: seq<(nat, Addr)>): State
    requires Sound(s) && forall i :: 0 <= i < |items| ==> items[i].0 < |s.runs| && items[i].1 < |s.mem|
    decreases |items|
  {
    if |items| == 0 then s else WriteBacks(WriteBack(s, items[0].0, items[0].1), items[1..])
  }

  lemma {:induction false} WriteBacksKeepLoads(s: State, items: seq<(nat, Addr)>, e: nat, b: Addr)
    requires Sound(s) && b < |s.mem|
    requires forall i :: 0 <= i < |items| ==>
               && items[i].0 < |s.runs| && items[i].1 < |s.mem|
               && s.line.first <= items[i].0 <= e && !At(s.line, items[i].0).masked
    ensures Sound(WriteBacks(s, items)) && |WriteBacks(s, items).mem| == |s.mem|
    ensures LoadValue(WriteBacks(s, items), e, b) == LoadValue(s, e, b)
    decreases |items|
  {
    if |items| > 0 {
      WriteBackKeepsLoads(s, items[0].0, items[0].1, e, b);
      WriteBacksKeepLoads(WriteBack(s, items[0].0, items[0].1), items[1..], e, b);
    }
  }

  // ---------------------------------------------------------------- one epoch

  // The whole of yarn_dep_commit, without an order on the addresses.
  function CommitEpoch(s: State, c: nat): State
    requires Sound(s) && c < |s.runs|
  {
    var w := s.runs[c].stored;
    State(s.line,
          s.runs[c := s.runs[c].(loaded := {}, stored := map[])],
          seq(|s.mem|, a requires 0 <= a < |s.mem| => if a in w && c > s.lastCommit[a] then w[a] else s.mem[a]),
          seq(|s.mem|, a requires 0 <= a < |s.mem| => if a in w && c > s.lastCommit[a] then c else s.lastCommit[a]))
  }

  function Drain(s: State, c: nat, addrs: seq<Addr>): State
    requires Sound(s) && c < |s.runs| && forall i :: 0 <= i < |addrs| ==> addrs[i] < |s.mem|
    decreases |addrs|
  {
    if |addrs| == 0 then s else Drain(WriteBack(s, c, addrs[0]), c, addrs[1..])
  }

  lemma WriteBackThenCommit(s: State, c: nat, a: Addr)
    requires Sound(s) && c < |s.runs| && a < |s.mem|
    ensures CommitEpoch(WriteBack(s, c, a), c) == CommitEpoch(s, c)
  {
  }

  // In whatever order the list of an epoch is popped, once it is empty the epoch
  // has been committed.
  lemma {:induction false} DrainIsCommit(s: State, c: nat, addrs: seq<Addr>)
    requires Sound(s) && c < |s.runs| && forall i :: 0 <= i < |addrs| ==> addrs[i] < |s.mem|
    requires forall a :: Touched(s.runs[c], a) ==> a in addrs
    ensures Drain(s, c, addrs) == CommitEpoch(s, c)
    decreases |addrs|
  {
    if |addrs| == 0 {
      forall a ensures a !in s.runs[c].loaded && a !in s.runs[c].stored {
        assert !Touched(s.runs[c], a);
      }
      assert s.runs[c].loaded == {} && s.runs[c].stored == map[];
      assert s.runs[c].(loaded := {}, stored := map[]) == s.runs[c];
      assert CommitEpoch(s, c).mem == s.mem;
      assert CommitEpoch(s, c).lastCommit == s.lastCommit;
      assert CommitEpoch(s, c).runs == s.runs;
    } else {
      var s1 := WriteBack(s, c, addrs[0]);
      forall a | Touched(s1.runs[c], a) ensures a in addrs[1..] {
        assert Touched(s.runs[c], a) && a != addrs[0];
      }
      DrainIsCommit(s1, c, addrs[1..]);
      WriteBackThenCommit(s, c, addrs[0]);
    }
  }

  // ---------------------------------------------------------------- sets of epochs

  function CommitAll(s: State, order: seq<nat>): (r: State)
    requires Sound(s) && forall i :: 0 <= i < |order| ==> order[i] < |s.runs|
    ensures Sound(r) && |r.mem| == |s.mem| && |r.runs| == |s.runs| && r.line == s.line
  {
    if |order| == 0 then s else CommitEpoch(CommitAll(s, order[..|order| - 1]), order[|order| - 1])
  }

  // h is the highest of the epochs, and above the last commit, to have stored to a.
  ghost predicate HighestWriter(s: State, order: seq<nat>, a: Addr, h: nat)
    requires a < |s.lastCommit|
  {
    && h in order && h < |s.runs| && a in s.runs[h].stored && h > s.lastCommit[a]
    && forall c :: c in order && c < |s.runs| && a in s.runs[c].stored ==> c <= h
  }

  ghost predicate NoNewWriter(s: State, order: seq<nat>, a: Addr)
    requires a < |s.lastCommit|
  {
    forall c :: c in order && c < |s.runs| && a in s.runs[c].stored ==> c <= s.lastCommit[a]
  }

  lemma {:induction false} CommitAllFlags(s: State, order: seq<nat>)
    requires Sound(s) && forall i :: 0 <= i < |order| ==> order[i] < |s.runs|
    ensures forall x :: 0 <= x < |s.runs| ==>
              CommitAll(s, order).runs[x] ==
              if x in order then s.runs[x].(loaded := {}, stored := map[]) else s.runs[x]
  {
    if |order| > 0 {
      CommitAllFlags(s, order[..|order| - 1]);
      assert forall x :: x in order <==> x in order[..|order| - 1] || x == order[|order| - 1];
    }
  }

  // Committing a set of epochs in any order leaves each address with the store of
  // the highest of them, unless an even higher epoch had committed to it before.
  lemma {:induction false} HighestWriterWins(s: State, order: seq<nat>, a: Addr)
    requires Sound(s) && a < |s.mem| && forall i :: 0 <= i < |order| ==> order[i] < |s.runs|
    ensures NoNewWriter(s, order, a) ==>
              CommitAll(s, order).mem[a] == s.mem[a] && CommitAll(s, order).lastCommit[a] == s.lastCommit[a]
    ensures forall h: nat :: HighestWriter(s, order, a, h) ==>
              CommitAll(s, order).mem[a] == s.runs[h].stored[a] && CommitAll(s, order).lastCommit[a] == h
    ensures NoNewWriter(s, order, a) || exists h: nat :: HighestWriter(s, order, a, h)
  {
    if |order| > 0 {
      var front, c := order[..|order| - 1], order[|order| - 1];
      HighestWriterWins(s, front, a);
      CommitAllFlags(s, front);
      assert forall x :: x in order <==> x in front || x == c;
      if NoNewWriter(s, front, a) {
        if a in s.runs[c].stored && c > s.lastCommit[a] {
          assert HighestWriter(s, order, a, c);
        }
      } else {
        var h: nat :| HighestWriter(s, front, a, h);
        assert HighestWriter(s, order, a, if a in s.runs[c].stored && c > h then c else h);
      }
    }
  }

  // Two orders on the same epochs lead to the same state.
  lemma CommitOrderIsIrrelevant(s: State, order1: seq<nat>, order2: seq<nat>)
    requires Sound(s)
    requires forall i :: 0 <= i < |order1| ==> order1[i] < |s.runs|
    requires forall i :: 0 <= i < |order2| ==> order2[i] < |s.runs|
    requires forall x :: x in order1 <==> x in order2
    ensures CommitAll(s, order1) == CommitAll(s, order2)
  {
    var r1, r2 := CommitAll(s, order1), CommitAll(s, order2);
    CommitAllFlags(s, order1);
    CommitAllFlags(s, order2);
    assert r1.runs == r2.runs;
    forall a: nat | a < |s.mem| ensures r1.mem[a] == r2.mem[a] && r1.lastCommit[a] == r2.lastCommit[a] {
      SameWinner(s, order1, order2, a);
    }
    assert r1.mem == r2.mem && r1.lastCommit == r2.lastCommit;
  }

  lemma SameWinner(s: State, order1: seq<nat>, order2: seq<nat>, a: Addr)
    requires Sound(s) && a < |s.mem|
    requires forall i :: 0 <= i < |order1| ==> order1[i] < |s.runs|
    requires forall i :: 0 <= i < |order2| ==> order2[i] < |s.runs|
    requires forall x :: x in order1 <==> x in order2
    ensures CommitAll(s, order1).mem[a] == CommitAll(s, order2).mem[a]
    ensures CommitAll(s, order1).lastCommit[a] == CommitAll(s, order2).lastCommit[a]
  {
    HighestWriterWins(s, order1, a);
    HighestWriterWins(s, order2, a);
    if NoNewWriter(s, order1, a) {
      assert NoNewWriter(s, order2, a);
    } else {
      var h: nat :| HighestWriter(s, order1, a, h);
      assert HighestWriter(s, order2, a, h);
    }
  }
}
