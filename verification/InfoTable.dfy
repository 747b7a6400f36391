/**
 All the infos of dependency.c: the map from addresses to infos, the index that
 bypasses it, and the lists. The map is here its contract, insert-if-absent, which
 module AddressMap proves of yarn_map_probe.
 */
module InfoTables {
  import opened Bits
  import opened Serial
  import opened Speculation
  import opened Tracking
  import opened AddrInfos
  import opened InfoLists

  predicate InSlot(v: Views, a: Addr, i: nat) {
    ReadBit(v, a, i) || WriteBit(v, a, i)
  }

  // An info is on the list of a slot exactly when it is flagged there. The exception
  // is the one an operation is in the middle of.
  ghost predicate Listed(max: nat, infos: map<Addr, AddrInfo>, v: Views, lists: seq<seq<AddrInfo>>, slot: nat,
                         busy: Option<Addr>)
  {
    && |lists| == max
    && forall i: nat, a :: i < max && a in infos && !(i == slot && busy == Some(a)) ==>
         (infos[a] in lists[i] <==> InSlot(v, a, i))
  }

  // Once its flags agree with the list again, nothing is busy.
  lemma Settled(max: nat, infos: map<Addr, AddrInfo>, v: Views, lists: seq<seq<AddrInfo>>, slot: nat, a: Addr, n: View)
    requires slot < max && a in infos && v.Keys == infos.Keys && Listed(max, infos, v, lists, slot, Some(a))
    requires OneSlot(max, v[a], n, slot)
    requires infos[a] in lists[slot] <==> Bit(n.readWord, slot) || Bit(n.writeWord, slot)
    ensures Listed(max, infos, v[a := n], lists, 0, None)
  {
  }

  // A new info is on no list and has no flags.
  lemma InsertListed(max: nat, infos: map<Addr, AddrInfo>, v: Views, lists: seq<seq<AddrInfo>>, a: Addr,
                     info: AddrInfo, n: View)
    requires Listed(max, infos, v, lists, 0, None) && a !in infos && v.Keys == infos.Keys
    requires forall i :: 0 <= i < max ==> info !in lists[i]
    requires n.readWord == 0 && n.writeWord == 0
    ensures Listed(max, infos[a := info], v[a := n], lists, 0, None)
  {
    forall i: nat ensures !Bit(0, i) {
      ZeroBits(i);
    }
    forall b, i: nat | b in infos ensures InSlot(v[a := n], b, i) == InSlot(v, b, i) {
    }
  }

  class InfoTable {
    const wordSize: nat
    const max: nat
    var infos: map<Addr, AddrInfo>
    const infoLists: InfoLists
    // g_info_index
    const infoIndex: array<AddrInfo?>

    ghost function Views(): Tracking.Views
      reads this, infos.Values
    {
      map a | a in infos :: infos[a].View(wordSize)
    }

    ghost function Lists(): seq<seq<AddrInfo>>
      reads infoLists
    {
      infoLists.lists
    }

    ghost predicate Held(info: AddrInfo)
      reads this`infos
    {
      info.addr in infos && infos[info.addr] == info
    }

    ghost predicate Shaped()
      reads this, infos.Values
    {
      max > 0 && forall a :: a in infos ==> infos[a].addr == a && infos[a].Shaped(wordSize, max)
    }

    // Every filled entry of the index is the info the map has for its address.
    ghost predicate Indexed()
      reads this`infos, infoIndex
    {
      forall k :: 0 <= k < infoIndex.Length && infoIndex[k] != null ==> Held(infoIndex[k])
    }

    ghost predicate Threaded()
      reads this, infoLists, infoLists.head, infoLists.nodes
    {
      && infoLists.Valid() && infoLists.head != infoIndex && infoLists.head.Length == max
      && infoLists.nodes <= infos.Values
    }

    ghost predicate ValidBut(slot: nat, busy: Option<Addr>)
      reads this, infos.Values, infoLists, infoLists.head, infoLists.nodes, infoIndex
    {
      Shaped() && Threaded() && Indexed() && Listed(max, infos, Views(), infoLists.lists, slot, busy)
    }

    ghost predicate Valid()
      reads this, infos.Values, infoLists, infoLists.head, infoLists.nodes, infoIndex
    {
      ValidBut(0, None)
    }

    // yarn_dep_global_init
    constructor (w: nat, max: nat, indexSize: nat)
      requires IsWordSize(w) && 0 < max <= w / 2
      ensures Valid() && infos == map[] && wordSize == w && this.max == max
      ensures fresh(infoLists) && fresh(infoLists.head) && fresh(infoIndex) && infoIndex.Length == indexSize
      ensures forall k :: 0 <= k < indexSize ==> infoIndex[k] == null
    {
      wordSize, this.max := w, max;
      infos := map[];
      infoLists := new InfoLists(max);
      infoIndex := new AddrInfo?[indexSize](_ => null);
    }

    // Linking an info does not change what it says.
    twostate lemma SameViews()
      requires infos == old(infos)
      requires forall x: AddrInfo :: x in infos.Values ==> x.SameView()
      ensures Views() == old(Views())
    {
      forall a | a in infos ensures infos[a].View(wordSize) == old(infos[a].View(wordSize)) {
        var x := infos[a];
        assert x.SameView();
      }
    }

    // info_list_push
    method Push(i: nat, info: AddrInfo)
      requires i < max && Held(info) && Shaped() && Threaded() && info !in infoLists.lists[i]
      requires Listed(max, infos, Views(), infoLists.lists, i, Some(info.addr))
      modifies infoLists, infoLists.head, info`infoList
      ensures Shaped() && Threaded() && Views() == old(Views())
      ensures Listed(max, infos, Views(), infoLists.lists, i, Some(info.addr))
      ensures info in infoLists.lists[i]
    {
      infoLists.Push(i, info);
      SameViews();
    }

    // info_list_push_if_new
    method PushIfNew(e: nat, info: AddrInfo)
      requires Valid() && Held(info)
      modifies infoLists, infoLists.head, info`infoList
      ensures ValidBut(Index(e, max), Some(info.addr)) && Views() == old(Views())
      ensures info in Lists()[Index(e, max)]
    {
      var i := Index(e, max);
      var isNew := info.IsNew(wordSize, max, e);
      assert InSlot(Views(), info.addr, i) == !isNew;
      if isNew {
        Push(i, info);
      }
    }

    // yarn_map_probe
    method Probe(a: Addr, item: AddrInfo) returns (info: AddrInfo)
      requires Shaped() && Threaded() && Listed(max, infos, Views(), infoLists.lists, 0, None)
      requires item.addr == a && item.Shaped(wordSize, max)
      requires item.View(wordSize) == Tracking.View(0, 0, -1, item.writeBuffer)
      requires item !in infoLists.nodes
      modifies this`infos
      ensures Shaped() && Threaded() && Listed(max, infos, Views(), infoLists.lists, 0, None)
      ensures infos == if a in old(infos) then old(infos) else old(infos)[a := item]
      ensures a in old(infos) ==> Views() == old(Views())
      ensures a !in old(infos) ==> Views() == old(Views())[a := item.View(wordSize)]
      ensures info == infos[a]
    {
      if a !in infos {
        ghost var v := Views();
        InsertListed(max, infos, v, infoLists.lists, a, item, item.View(wordSize));
        infos := infos[a := item];
        assert Views() == v[a := item.View(wordSize)];
        assert forall x :: x in old(infos).Values ==> infos[x.addr] == x;
      }
      info := infos[a];
    }

    // The allocation and probe of get_map_addr_info.
    method Enter(a: Addr) returns (info: AddrInfo, isNew: bool)
      requires Valid() && IsWordSize(wordSize) && max <= wordSize / 2
      modifies this`infos
      ensures Valid() && info.addr == a && Held(info) && isNew == (a !in old(infos))
      ensures infos == if isNew then old(infos)[a := info] else old(infos)
      ensures !isNew ==> Views() == old(Views())
      ensures isNew ==> Views() == old(Views())[a := info.View(wordSize)]
      ensures isNew ==> fresh(info) && info.View(wordSize) == View(0, 0, -1, info.writeBuffer)
    {
      var tmp := new AddrInfo(a, wordSize, max);
      info := Probe(a, tmp);
      isNew := info == tmp;
    }

    // get_map_addr_info
    method GetMapInfo(e: nat, a: Addr) returns (info: AddrInfo)
      requires Valid() && IsWordSize(wordSize) && max <= wordSize / 2
      modifies this`infos, infoLists, infoLists.head, infos.Values`infoList
      ensures ValidBut(Index(e, max), Some(a))
      ensures info.addr == a && Held(info) && info in Lists()[Index(e, max)]
      ensures infos == if a in old(infos) then old(infos) else old(infos)[a := info]
      ensures a in old(infos) ==> Views() == old(Views())
      ensures a !in old(infos) ==> Views() == old(Views())[a := info.View(wordSize)]
      ensures a !in old(infos) ==> fresh(info) && info.View(wordSize) == View(0, 0, -1, info.writeBuffer)
    {
      var isNew;
      info, isNew := Enter(a);
      if isNew {
        Push(Index(e, max), info);
      } else {
        PushIfNew(e, info);
      }
    }

    // get_index_addr_info of an empty entry.
    method Fill(e: nat, id: nat, a: Addr) returns (info: AddrInfo)
      requires Valid() && IsWordSize(wordSize) && max <= wordSize / 2
      requires id < infoIndex.Length && infoIndex[id] == null
      modifies this`infos, infoLists, infoLists.head, infos.Values`infoList, infoIndex
      ensures ValidBut(Index(e, max), Some(a))
      ensures info.addr == a && Held(info) && info in Lists()[Index(e, max)]
      ensures infos == if a in old(infos) then old(infos) else old(infos)[a := info]
      ensures a in old(infos) ==> Views() == old(Views())
      ensures a !in old(infos) ==> Views() == old(Views())[a := info.View(wordSize)]
      ensures a !in old(infos) ==> fresh(info) && info.View(wordSize) == View(0, 0, -1, info.writeBuffer)
      ensures infoIndex[..] == old(infoIndex[..])[id := info]
    {
      info := GetMapInfo(e, a);
      SetIndex(id, info, Index(e, max));
    }

    method SetIndex(id: nat, info: AddrInfo, ghost slot: nat)
      requires ValidBut(slot, Some(info.addr)) && Held(info) && id < infoIndex.Length
      modifies infoIndex
      ensures ValidBut(slot, Some(info.addr)) && Views() == old(Views())
      ensures infoIndex[..] == old(infoIndex[..])[id := info]
    {
      infoIndex[id] := info;
    }

    // The address that an index stands for when it is used with address a: its own
    // once it is filled, whatever a is.
    ghost function Behind(id: nat, a: Addr): Addr
      requires id < infoIndex.Length
      reads infoIndex
    {
      if infoIndex[id] == null then a else infoIndex[id].addr
    }

    // get_index_addr_info
    method GetIndexInfo(e: nat, id: nat, a: Addr) returns (info: AddrInfo)
      requires Valid() && IsWordSize(wordSize) && max <= wordSize / 2 && id < infoIndex.Length
      modifies this`infos, infoLists, infoLists.head, infos.Values`infoList, infoIndex
      ensures ValidBut(Index(e, max), Some(info.addr))
      ensures info.addr == old(Behind(id, a)) && Held(info) && info in Lists()[Index(e, max)]
      ensures infos == if info.addr in old(infos) then old(infos) else old(infos)[info.addr := info]
      ensures info.addr in old(infos) ==> Views() == old(Views())
      ensures info.addr !in old(infos) ==> info.addr == a && Views() == old(Views())[a := info.View(wordSize)]
      ensures info.addr !in old(infos) ==> fresh(info) && info.View(wordSize) == View(0, 0, -1, info.writeBuffer)
      ensures infoIndex[..] == old(infoIndex[..])[id := info]
    {
      if infoIndex[id] == null {
        info := Fill(e, id, a);
      } else {
        info := infoIndex[id];
        assert info.addr in infos;
        PushIfNew(e, info);
      }
    }

    twostate lemma OneView(info: AddrInfo)
      requires infos == old(infos) && Held(info)
      requires forall a :: a in infos ==> infos[a].addr == a
      requires forall x: AddrInfo :: x in infos.Values && x != info ==> x.SameView()
      ensures Views() == old(Views())[info.addr := info.View(wordSize)]
    {
      forall a | a in infos && a != info.addr
        ensures infos[a].View(wordSize) == old(infos[a].View(wordSize))
      {
        var x := infos[a];
        assert x.SameView();
      }
    }

    // set_read_flag on an info that is on the epoch's list.
    method MarkRead(e: nat, info: AddrInfo) returns (f: Word)
      requires max > 0 && ValidBut(Index(e, max), Some(info.addr)) && Held(info) && info in Lists()[Index(e, max)]
      modifies info`flags
      ensures Valid() && f == info.flags
      ensures Views() == old(Views())[info.addr := info.View(wordSize)]
      ensures OneSlot(max, old(info.View(wordSize)), info.View(wordSize), Index(e, max))
      ensures Bit(info.View(wordSize).readWord, Index(e, max))
      ensures info.View(wordSize).writeWord == old(info.View(wordSize).writeWord)
    {
      ghost var v := Views();
      f := info.SetReadFlag(wordSize, max, e);
      OneView(info);
      Settled(max, infos, v, infoLists.lists, Index(e, max), info.addr, info.View(wordSize));
    }

    // The write of store_to_wbuf and its set_write_flag.
    method MarkWrite(e: nat, info: AddrInfo, v: Value) returns (f: Word)
      requires max > 0 && ValidBut(Index(e, max), Some(info.addr)) && Held(info) && info in Lists()[Index(e, max)]
      modifies info`flags, info`writeBuffer
      ensures Valid() && f == info.flags
      ensures Views() == old(Views())[info.addr := info.View(wordSize)]
      ensures OneSlot(max, old(info.View(wordSize)), info.View(wordSize), Index(e, max))
      ensures Bit(info.View(wordSize).writeWord, Index(e, max)) && info.writeBuffer[Index(e, max)] == v
      ensures info.View(wordSize).readWord == old(info.View(wordSize).readWord)
    {
      ghost var was := Views();
      f := info.Store(wordSize, max, e, v);
      OneView(info);
      Settled(max, infos, was, infoLists.lists, Index(e, max), info.addr, info.View(wordSize));
    }

    // info_list_pop
    method Pop(e: nat) returns (info: AddrInfo?)
      requires Valid()
      modifies infoLists, infoLists.head, infos.Values`infoList
      ensures Views() == old(Views())
      ensures info == null <==> |old(Lists())[Index(e, max)]| == 0
      ensures info == null ==> Valid() && Lists() == old(Lists())
      ensures info != null ==> Held(info) && ValidBut(Index(e, max), Some(info.addr))
      ensures info != null ==> InSlot(Views(), info.addr, Index(e, max))
      ensures info != null ==>
                && info !in Lists()[Index(e, max)]
                && Lists() == old(Lists())[Index(e, max) := old(Lists())[Index(e, max)][1..]]
    {
      info := infoLists.Pop(Index(e, max));
      SameViews();
    }

    // The stamp of yarn_dep_commit and its clear_flags.
    method Retire(e: nat, info: AddrInfo, newer: bool)
      requires max > 0 && ValidBut(Index(e, max), Some(info.addr)) && Held(info) && info !in Lists()[Index(e, max)]
      modifies info`flags, info`lastCommit
      ensures Valid() && info.lastCommit == if newer then e else old(info.lastCommit)
      ensures Views() == old(Views())[info.addr := info.View(wordSize)]
      ensures OneSlot(max, old(info.View(wordSize)), info.View(wordSize), Index(e, max))
      ensures !InSlot(Views(), info.addr, Index(e, max))
    {
      ghost var v := Views();
      info.Retire(wordSize, max, e, newer);
      OneView(info);
      Settled(max, infos, v, infoLists.lists, Index(e, max), info.addr, info.View(wordSize));
    }

    // clear_flags on an info just taken off the epoch's list.
    method Clean(e: nat, info: AddrInfo)
      requires max > 0 && ValidBut(Index(e, max), Some(info.addr)) && Held(info) && info !in Lists()[Index(e, max)]
      modifies info`flags
      ensures Valid()
      ensures Views() == old(Views())[info.addr := info.View(wordSize)]
      ensures OneSlot(max, old(info.View(wordSize)), info.View(wordSize), Index(e, max))
      ensures !InSlot(Views(), info.addr, Index(e, max)) && info.lastCommit == old(info.lastCommit)
    {
      ghost var v := Views();
      info.ClearFlags(wordSize, max, e);
      OneView(info);
      Settled(max, infos, v, infoLists.lists, Index(e, max), info.addr, info.View(wordSize));
    }
  }
}
