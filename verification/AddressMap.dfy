/**
 The hash map of map.c as one thread sees it: probing inserts an absent address, and
 a table that has filled up is moved to one twice its size. The load factor is a
 fraction below one, and the hash any function into the table.
 */
module AddressMap {
  import opened OpenAddressing

  const DEFAULT_CAPACITY: nat := 64

  // The table represents the map: its addresses are the keys, and each has its item
  // in the same slot.
  ghost predicate Represents(t: seq<nat>, v: seq<nat>, m: map<nat, nat>) {
    && |t| == |v|
    && (forall a :: a in m <==> a != NULL && a in t)
    && forall p :: 0 <= p < |t| && t[p] != NULL ==> m[t[p]] == v[p]
  }

  lemma PlaceRepresents(t: seq<nat>, v: seq<nat>, m: map<nat, nat>, i: nat, a: nat, x: nat)
    requires Represents(t, v, m) && i < |t| && t[i] == NULL && a != NULL && a !in t
    ensures Represents(t[i := a], v[i := x], m[a := x])
  {
    var t' := t[i := a];
    assert t'[i] == a;
    forall b | b in t && b != NULL ensures b in t' {
      var p :| 0 <= p < |t| && t[p] == b;
      assert t'[p] == b;
    }
  }

  // The number of keys is the number of slots taken.
  lemma {:induction false} KeysAreTaken(t: seq<nat>, v: seq<nat>, m: map<nat, nat>)
    requires NoDuplicates(t) && Represents(t, v, m)
    ensures Taken(t) == |m|
    decreases |t|
  {
    if |t| == 0 {
      assert m.Keys == {};
    } else {
      var n := |t| - 1;
      var a := t[n];
      var m' := if a == NULL then m else m - {a};
      assert m.Keys == if a == NULL then m'.Keys else m'.Keys + {a};
      forall b ensures b in m' <==> b != NULL && b in t[..n] {
        if b in t && b != a {
          var p :| 0 <= p < |t| && t[p] == b;
          assert t[..n][p] == b;
        }
      }
      KeysAreTaken(t[..n], v[..n], m');
    }
  }

  // The test on the load factor.
  predicate Overloaded(num: nat, den: nat, size: int, cap: nat) {
    size * den > num * cap
  }

  lemma LoadAfterDoubling(num: nat, den: nat, size: int, cap: nat)
    requires !Overloaded(num, den, size - 1, cap) && cap >= DEFAULT_CAPACITY && den <= num * DEFAULT_CAPACITY
    ensures !Overloaded(num, den, size, 2 * cap)
  {
  }

  // With a load factor below one, a table that is not overloaded is not full.
  lemma LoadLeavesRoom(num: nat, den: nat, size: nat, cap: nat)
    requires !Overloaded(num, den, size, cap) && num < den && cap > 0
    ensures size < cap
  {
  }

  // A power of two times the default capacity.
  predicate Doubled(cap: nat) {
    cap == DEFAULT_CAPACITY || (cap > DEFAULT_CAPACITY && cap % 2 == 0 && Doubled(cap / 2))
  }

  lemma {:induction false} DoubledApart(x: nat, y: nat)
    requires Doubled(x) && Doubled(y) && x < y
    ensures 2 * x <= y
  {
    if x > DEFAULT_CAPACITY {
      DoubledApart(x / 2, y / 2);
    }
  }

  // What adjust_capacity returns for a request; Map.AdjustCapacity has it as its
  // postcondition.
  predicate Adjusted(num: nat, den: nat, request: nat, cap: nat)
    requires num > 0
  {
    && Doubled(cap) && cap >= request * den / num
    && (cap == DEFAULT_CAPACITY || cap < 2 * (request * den / num))
  }

  // A map made for a number of items can still be overloaded by them, because
  // adjust_capacity rounds the quotient down: exactly when the rounded quotient is
  // itself a capacity.
  lemma AdjustedIsOverloadedIff(num: nat, den: nat, request: nat, cap: nat)
    requires num > 0 && Adjusted(num, den, request, cap)
    ensures Overloaded(num, den, request, cap) <==> Doubled(request * den / num) && request * den % num != 0
  {
    var n := request * den;
    var q := n / num;
    assert n == q * num + n % num;
    if cap > q {
      TimesAtLeast(num, q + 1, cap);
      if Doubled(q) {
        DoubledApart(q, cap);
      }
    }
  }

  lemma TimesAtLeast(k: nat, x: nat, y: nat)
    requires x <= y
    ensures k * x <= k * y
  {
  }

  // With the source's factor of 0.66, a map made for 169 items has 256 slots and is
  // resized when the last of them arrives.
  lemma AdjustedForTooMany()
    ensures Adjusted(66, 100, 169, 256) && Overloaded(66, 100, 169, 256)
  {
  }

  class Map {
    const hash: Hash
    // The load factor is num / den.
    const num: nat
    const den: nat
    var addrs: array<nat>
    var items: array<nat>
    var size: nat
    ghost var contents: map<nat, nat>

    ghost predicate Shaped()
      reads this
    {
      && IsHash(hash) && 0 < num < den <= num * DEFAULT_CAPACITY
      && addrs != items && addrs.Length == items.Length >= DEFAULT_CAPACITY
    }

    ghost predicate Sound()
      reads this, addrs, items
    {
      && Shaped() && Chained(hash, addrs[..])
      && Represents(addrs[..], items[..], contents)
      && size == |contents|
    }

    // Between operations the load factor is respected, so some slot is empty.
    ghost predicate Valid()
      reads this, addrs, items
    {
      Sound() && !Overloaded(num, den, size, addrs.Length)
    }

    lemma SizeIsTaken()
      requires Sound()
      ensures size == Taken(addrs[..]) <= addrs.Length
    {
      ChainedIsDistinct(hash, addrs[..]);
      KeysAreTaken(addrs[..], items[..], contents);
    }

    lemma SomeSlotIsEmpty()
      requires Valid()
      ensures Taken(addrs[..]) < addrs.Length
    {
      SizeIsTaken();
      LoadLeavesRoom(num, den, size, addrs.Length);
    }

    // adjust_capacity: the first power of two times the default capacity that is
    // not below the requested capacity over the load factor, rounded down.
    static method AdjustCapacity(num: nat, den: nat, capacity: nat) returns (r: nat)
      requires num > 0
      ensures Adjusted(num, den, capacity, r) && r >= DEFAULT_CAPACITY
    {
      r := DEFAULT_CAPACITY;
      var loadFactor := capacity * den / num;
      while r < loadFactor
        invariant Doubled(r) && r >= DEFAULT_CAPACITY
        invariant r == DEFAULT_CAPACITY || r < 2 * loadFactor
        decreases loadFactor - r
      {
        r := r * 2;
      }
    }

    // yarn_map_init
    constructor (hash: Hash, num: nat, den: nat, capacity: nat)
      requires IsHash(hash) && 0 < num < den <= num * DEFAULT_CAPACITY
      ensures Valid() && contents == map[] && fresh(addrs) && fresh(items)
      ensures this.num == num && this.den == den && Adjusted(num, den, capacity, addrs.Length)
    {
      this.hash, this.num, this.den := hash, num, den;
      var c := AdjustCapacity(num, den, capacity);
      addrs := new nat[c](_ => NULL);
      items := new nat[c](_ => NULL);
      size, contents := 0, map[];
    }

    // The linear probe of yarn_map_probe. Before it has gone round once it finds the
    // address, or an empty slot that the address can be added at.
    method Find(a: nat) returns (i: nat, found: bool)
      requires Valid() && a != NULL
      ensures i < addrs.Length && found == (a in contents)
      ensures found ==> addrs[i] == a && items[i] == contents[a]
      ensures !found ==> addrs[i] == NULL && a !in addrs[..] && Chained(hash, addrs[..][i := a])
    {
      SomeSlotIsEmpty();
      ghost var t := addrs[..];
      i := hash(a, addrs.Length);
      var n := 0;
      while n < addrs.Length
        invariant n <= addrs.Length && Passed(hash, t, a, n)
        invariant n < addrs.Length ==> i == Slot(hash(a, addrs.Length), n, addrs.Length)
        decreases addrs.Length - n
      {
        if addrs[i] == a {
          assert t[i] == a;
          return i, true;
        } else if addrs[i] == NULL {
          PlaceKeepsChains(hash, t, a, n);
          return i, false;
        }
        if n + 1 < addrs.Length {
          NextSlot(hash(a, addrs.Length), n, addrs.Length);
        }
        i := (i + 1) % addrs.Length;
        n := n + 1;
      }
      PassedAllIsFull(hash, t, a);
      assert false;
    }

    // The branch of yarn_map_probe that takes an empty slot.
    method Insert(i: nat, a: nat, item: nat)
      requires Sound() && a != NULL && i < addrs.Length && addrs[i] == NULL
      requires a !in addrs[..] && Chained(hash, addrs[..][i := a])
      modifies this`size, this`contents, addrs, items
      ensures Sound() && size == old(size) + 1
      ensures a !in old(contents) && contents == old(contents)[a := item]
    {
      PlaceRepresents(addrs[..], items[..], contents, i, a, item);
      addrs[i] := a;
      items[i] := item;
      size := size + 1;
      contents := contents[a := item];
      assert addrs[..] == old(addrs[..])[i := a] && items[..] == old(items[..])[i := item];
    }

    // yarn_map_probe: insert if absent. The table is doubled, once, exactly when the
    // keys it then has are too many for it, and the retry at the end of the source is
    // never needed.
    method Probe(a: nat, item: nat) returns (r: nat)
      requires Valid() && a != NULL && item != NULL
      modifies this, addrs, items
      ensures Valid() && a in contents && r == contents[a]
      ensures contents == if a in old(contents) then old(contents) else old(contents)[a := item]
      ensures addrs.Length == if Overloaded(num, den, |contents|, old(addrs.Length)) then 2 * old(addrs.Length)
                              else old(addrs.Length)
      ensures addrs == old(addrs) || fresh(addrs)
      ensures items == old(items) || fresh(items)
    {
      var i, found := Find(a);
      if found {
        r := items[i];
      } else {
        Insert(i, a, item);
        r := item;
      }
      if Overloaded(num, den, size, addrs.Length) {
        Resize();
      }
    }

    // The loop of resize_master, with no helper beside it.
    method TransferAll(toAddrs: array<nat>, toItems: array<nat>)
      requires Sound() && toAddrs.Length == toItems.Length == 2 * addrs.Length
      requires addrs != toAddrs && addrs != toItems && items != toAddrs && items != toItems && toAddrs != toItems
      requires forall i :: 0 <= i < toAddrs.Length ==> toAddrs[i] == NULL
      modifies addrs, toAddrs, toItems
      ensures Chained(hash, toAddrs[..]) && Represents(toAddrs[..], toItems[..], contents)
    {
      ghost var t, v := addrs[..], items[..];
      ChainedIsDistinct(hash, t);
      for pos := 0 to addrs.Length
        invariant items[..] == v && Moved(hash, t, v, pos, addrs[..], toAddrs[..], toItems[..])
      {
        ghost var t', w', x' := addrs[..], toAddrs[..], toItems[..];
        MovedLeavesRoom(hash, t, v, pos, t', w', x');
        TransferItem(toAddrs, toItems, pos);
        OneMoreMoved(hash, t, v, pos, t', w', x', addrs[..], toAddrs[..], toItems[..]);
      }
      AllMoved(hash, t, v, addrs[..], toAddrs[..], toItems[..], contents);
    }

    // resize_master: every item goes to a table of twice the size.
    method Resize()
      requires Sound() && !Overloaded(num, den, size - 1, addrs.Length)
      modifies this`addrs, this`items, addrs
      ensures Valid() && fresh(addrs) && fresh(items) && addrs.Length == 2 * old(addrs.Length)
    {
      var newCapacity := 2 * addrs.Length;
      var toAddrs := new nat[newCapacity](_ => NULL);
      var toItems := new nat[newCapacity](_ => NULL);
      TransferAll(toAddrs, toItems);
      LoadAfterDoubling(num, den, size, addrs.Length);
      addrs, items := toAddrs, toItems;
    }

    // transfer_item
    method TransferItem(toAddrs: array<nat>, toItems: array<nat>, pos: nat)
      requires IsHash(hash) && pos < addrs.Length == items.Length && toAddrs.Length == toItems.Length > 0
      requires addrs != toAddrs && addrs != toItems && items != toAddrs && items != toItems && toAddrs != toItems
      requires Chained(hash, toAddrs[..]) && Taken(toAddrs[..]) < toAddrs.Length
      requires addrs[pos] != NULL ==> addrs[pos] !in toAddrs[..]
      modifies addrs, toAddrs, toItems
      ensures addrs[..] == old(addrs[..])[pos := NULL] && Chained(hash, toAddrs[..])
      ensures old(addrs[pos]) == NULL ==> toAddrs[..] == old(toAddrs[..]) && toItems[..] == old(toItems[..])
      ensures old(addrs[pos]) != NULL ==>
                exists i ::
                  0 <= i < toAddrs.Length &&
                  PutAt(old(toAddrs[..]), old(toItems[..]), i, old(addrs[pos]), items[pos], toAddrs[..], toItems[..])
    {
      var a := addrs[pos];
      if a == NULL {
        assert addrs[..] == old(addrs[..])[pos := NULL];
        return;
      }
      addrs[pos] := NULL;
      ghost var t := toAddrs[..];
      var i, n := hash(a, toAddrs.Length), 0;
      while n < toAddrs.Length
        invariant n <= toAddrs.Length && toAddrs[..] == t && toItems[..] == old(toItems[..])
        invariant Passed(hash, t, a, n)
        invariant n < toAddrs.Length ==> i == Slot(hash(a, toAddrs.Length), n, toAddrs.Length)
        invariant addrs[..] == old(addrs[..])[pos := NULL]
        decreases toAddrs.Length - n
      {
        if toAddrs[i] == NULL {
          PlaceKeepsChains(hash, t, a, n);
          toAddrs[i] := a;
          toItems[i] := items[pos];
          assert PutAt(t, old(toItems[..]), i, a, items[pos], toAddrs[..], toItems[..]);
          return;
        }
        assert t[i] != a;
        if n + 1 < toAddrs.Length {
          NextSlot(hash(a, toAddrs.Length), n, toAddrs.Length);
        }
        i := (i + 1) % toAddrs.Length;
        n := n + 1;
      }
      PassedAllIsFull(hash, t, a);
      assert false;
    }
  }

  // The items of the first pos slots of table t, v are in the new table w, x.
  ghost predicate Moved(hash: Hash, t: seq<nat>, v: seq<nat>, pos: nat, t': seq<nat>, w: seq<nat>, x: seq<nat>)
    requires IsHash(hash)
  {
    && pos <= |t| == |v| == |t'| && |w| == |x| == 2 * |t|
    && (forall p :: 0 <= p < |t| ==> t'[p] == if p < pos then NULL else t[p])
    && Chained(hash, w)
    && (forall p :: 0 <= p < pos && t[p] != NULL ==> t[p] in w)
    && (forall q :: 0 <= q < |w| && w[q] != NULL ==> w[q] in t[..pos])
    && (forall p, q :: 0 <= p < |t| && 0 <= q < |w| && w[q] != NULL && w[q] == t[p] ==> x[q] == v[p])
  }

  // The new table is never full, so no item is dropped.
  lemma MovedLeavesRoom(hash: Hash, t: seq<nat>, v: seq<nat>, pos: nat, t': seq<nat>, w: seq<nat>, x: seq<nat>)
    requires IsHash(hash) && Moved(hash, t, v, pos, t', w, x) && NoDuplicates(t) && pos < |t|
    ensures Taken(w) < |w|
    ensures t[pos] != NULL ==> t[pos] !in w
  {
    ChainedIsDistinct(hash, w);
    DistinctTakesAtMost(w, Members(t));
  }

  lemma OneMoreMoved(hash: Hash, t: seq<nat>, v: seq<nat>, pos: nat, t': seq<nat>, w: seq<nat>, x: seq<nat>,
                     t'': seq<nat>, w': seq<nat>, x': seq<nat>)
    requires IsHash(hash) && Moved(hash, t, v, pos, t', w, x) && pos < |t| && NoDuplicates(t)
    requires t'' == t'[pos := NULL] && Chained(hash, w')
    requires t[pos] == NULL ==> w' == w && x' == x
    requires t[pos] != NULL ==>
               t[pos] !in w && exists i :: 0 <= i < |w| && PutAt(w, x, i, t[pos], v[pos], w', x')
    ensures Moved(hash, t, v, pos + 1, t'', w', x')
  {
    assert t[..pos + 1] == t[..pos] + [t[pos]];
    if t[pos] != NULL {
      var i :| 0 <= i < |w| && PutAt(w, x, i, t[pos], v[pos], w', x');
      forall p | 0 <= p < pos + 1 && t[p] != NULL ensures t[p] in w' {
        if p < pos {
          var q :| 0 <= q < |w| && w[q] == t[p];
          assert w'[q] == t[p];
        } else {
          assert w'[i] == t[pos];
        }
      }
    }
  }

  lemma AllMoved(hash: Hash, t: seq<nat>, v: seq<nat>, t': seq<nat>, w: seq<nat>, x: seq<nat>, m: map<nat, nat>)
    requires IsHash(hash) && Moved(hash, t, v, |t|, t', w, x) && Represents(t, v, m)
    ensures Represents(w, x, m)
  {
  }

  function Members(t: seq<nat>): (r: set<nat>)
    ensures forall a :: a in r <==> a in t
    ensures |r| <= |t|
  {
    if |t| == 0 then {} else Members(t[..|t| - 1]) + {t[|t| - 1]}
  }

  // One item more, at slot i.
  ghost predicate PutAt(t: seq<nat>, v: seq<nat>, i: nat, a: nat, x: nat, t': seq<nat>, v': seq<nat>) {
    i < |t| && i < |v| && t[i] == NULL && t' == t[i := a] && v' == v[i := x]
  }
}
