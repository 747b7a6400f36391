/**
 The intrusive lists of dependency.c: for every slot of the ring, a list threaded
 through the infos that the epoch in the slot has touched.
 */
module InfoLists {
  import opened AddrInfos

  ghost predicate NoDuplicates(l: seq<AddrInfo>) {
    forall j, k :: 0 <= j < k < |l| ==> l[j] != l[k]
  }

  // The k-th node of a list; null past its end.
  function Node(l: seq<AddrInfo>, k: nat): AddrInfo? {
    if k < |l| then l[k] else null
  }

  // One list threaded through slot i of its nodes.
  ghost predicate Chain(head: AddrInfo?, l: seq<AddrInfo>, i: nat, nodes: set<AddrInfo>)
    reads nodes`infoList
  {
    && NoDuplicates(l) && head == Node(l, 0)
    && forall k :: 0 <= k < |l| ==>
         l[k] in nodes && i < |l[k].infoList| && l[k].infoList[i] == Node(l, k + 1)
  }

  class InfoLists {
    // g_info_list
    const head: array<AddrInfo?>
    ghost var lists: seq<seq<AddrInfo>>
    ghost var nodes: set<AddrInfo>

    ghost predicate Valid()
      reads this, head, nodes`infoList
    {
      && |lists| == head.Length
      && forall i :: 0 <= i < |lists| ==> Chain(head[i], lists[i], i, nodes)
    }

    constructor (max: nat)
      ensures Valid() && fresh(head) && head.Length == max
      ensures nodes == {} && lists == seq(max, _ => [])
    {
      head := new AddrInfo?[max](_ => null);
      lists := seq(max, _ => []);
      nodes := {};
    }

    // info_list_push
    method Push(i: nat, info: AddrInfo)
      requires Valid() && i < head.Length == |info.infoList| && info !in lists[i]
      modifies this, head, info`infoList
      ensures Valid() && nodes == old(nodes) + {info}
      ensures lists == old(lists)[i := [info] + old(lists)[i]]
      ensures |info.infoList| == |old(info.infoList)|
    {
      info.infoList := info.infoList[i := head[i]];
      head[i] := info;
      nodes := nodes + {info};
      lists := lists[i := [info] + lists[i]];
      assert Chain(head[i], lists[i], i, nodes) by {
        assert forall k :: 0 < k < |lists[i]| ==> lists[i][k] == old(lists)[i][k - 1];
        assert old(Chain(head[i], lists[i], i, nodes));
      }
      forall j | 0 <= j < |lists| && j != i ensures Chain(head[j], lists[j], j, nodes) {
        assert old(Chain(head[j], lists[j], j, nodes));
      }
    }

    // info_list_pop
    method Pop(i: nat) returns (info: AddrInfo?)
      requires Valid() && i < head.Length
      modifies this`lists, head, nodes`infoList
      ensures Valid()
      ensures forall x :: x in nodes ==> |x.infoList| == old(|x.infoList|)
      ensures info == Node(old(lists)[i], 0)
      ensures lists == if info == null then old(lists) else old(lists)[i := old(lists)[i][1..]]
    {
      info := head[i];
      if info == null {
        return;
      }
      head[i] := info.infoList[i];
      info.infoList := info.infoList[i := null];
      lists := lists[i := lists[i][1..]];
    }
  }
}
