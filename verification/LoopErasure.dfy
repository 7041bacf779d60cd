/** Reading a record-route answer: the hops after the destination, with cluster-level loops erased. */
module LoopErasure {
  import opened Hops

  /** Positions chosen by loop erasure: each is the last of its cluster; the first has the cluster of
      the first hop, each next one the cluster recorded directly after the one before, and the last is
      the last hop. */
  ghost predicate Erased(hops: seq<Hop>, idx: seq<nat>, cm: ClusterMap): (e: bool)
    ensures e ==> idx != [] && forall k :: 0 <= k < |idx| ==> idx[k] < |hops|
  {
    && idx != []
    && (forall k :: 0 <= k < |idx| ==> idx[k] < |hops|)
    && (forall k, j :: 0 <= k < |idx| && idx[k] < j < |hops| ==> cm(hops[j]) != cm(hops[idx[k]]))
    && cm(hops[idx[0]]) == cm(hops[0])
    && (forall k :: 0 <= k < |idx| - 1 ==> Next(hops, idx[k], idx[k+1], cm))
    && idx[|idx| - 1] == |hops| - 1
  }

  ghost predicate Next(hops: seq<Hop>, i: nat, j: nat, cm: ClusterMap) {
    i < j < |hops| && cm(hops[j]) == cm(hops[i + 1])
  }

  function At(hops: seq<Hop>, idx: seq<nat>): (r: seq<Hop>)
    requires forall k :: 0 <= k < |idx| ==> idx[k] < |hops|
    ensures |r| == |idx| && forall k :: 0 <= k < |r| ==> r[k] == hops[idx[k]]
  {
    seq(|idx|, k requires 0 <= k < |idx| => hops[idx[k]])
  }

  lemma {:induction false} Increasing(hops: seq<Hop>, idx: seq<nat>, cm: ClusterMap, i: nat, j: nat)
    requires Erased(hops, idx, cm) && i < j < |idx|
    ensures idx[i] < idx[j]
  {
    assert Next(hops, idx[j-1], idx[j], cm);
    if i < j - 1 {
      Increasing(hops, idx, cm, i, j - 1);
    }
  }

  /** No two hops kept share a cluster, and they are kept in the order they were recorded. */
  lemma ErasedLoopFree(hops: seq<Hop>, idx: seq<nat>, cm: ClusterMap)
    requires Erased(hops, idx, cm)
    ensures forall i, j :: 0 <= i < j < |idx| ==> idx[i] < idx[j] && cm(At(hops, idx)[i]) != cm(At(hops, idx)[j])
  {
    forall i, j | 0 <= i < j < |idx|
      ensures idx[i] < idx[j] && cm(At(hops, idx)[i]) != cm(At(hops, idx)[j])
    {
      Increasing(hops, idx, cm, i, j);
    }
  }

  /** The description leaves no choice. */
  lemma {:induction false} ErasedUnique(hops: seq<Hop>, a: seq<nat>, b: seq<nat>, cm: ClusterMap, k: nat)
    requires Erased(hops, a, cm) && Erased(hops, b, cm) && k <= |a| && k <= |b|
    ensures a[..k] == b[..k]
    ensures k == |a| ==> |b| == |a|
  {
    if k > 0 {
      ErasedUnique(hops, a, b, cm, k - 1);
      assert k > 1 ==> a[k-2] == a[..k-1][k-2] == b[..k-1][k-2] == b[k-2];
      assert k > 1 ==> Next(hops, a[k-2], a[k-1], cm) && Next(hops, b[k-2], b[k-1], cm);
      assert cm(hops[a[k-1]]) == cm(hops[b[k-1]]);
      assert a[k-1] == b[k-1];
      assert k < |b| ==> Next(hops, b[k-1], b[k], cm);
    }
  }

  ghost predicate IsErasure(hops: seq<Hop>, r: seq<Hop>, cm: ClusterMap) {
    exists idx :: Erased(hops, idx, cm) && r == At(hops, idx)
  }

  /** The hops kept are determined by the hops recorded. */
  lemma ErasureUnique(hops: seq<Hop>, r: seq<Hop>, s: seq<Hop>, cm: ClusterMap)
    requires IsErasure(hops, r, cm) && IsErasure(hops, s, cm)
    ensures r == s
  {
    hide Erased;
    var a :| Erased(hops, a, cm) && r == At(hops, a);
    var b :| Erased(hops, b, cm) && s == At(hops, b);
    if |a| <= |b| {
      ErasedUnique(hops, a, b, cm, |a|);
    } else {
      ErasedUnique(hops, b, a, cm, |b|);
    }
  }

  /** Where no cluster is recorded twice there is nothing to erase. */
  lemma NothingToErase(hops: seq<Hop>, r: seq<Hop>, cm: ClusterMap)
    requires hops != [] && forall i, j :: 0 <= i < j < |hops| ==> cm(hops[i]) != cm(hops[j])
    requires IsErasure(hops, r, cm)
    ensures r == hops
  {
    var all := seq(|hops|, (i: nat) => i);
    assert forall k :: 0 <= k < |all| - 1 ==> Next(hops, all[k], all[k+1], cm);
    assert Erased(hops, all, cm) && At(hops, all) == hops;
    ErasureUnique(hops, r, hops, cm);
  }

  /** A loop back to the first cluster: its last hop stays, and what follows. */
  lemma LoopSample(a: Hop, b: Hop, a': Hop, d: Hop, cm: ClusterMap)
    requires cm(a) == cm(a') && cm(b) != cm(a) && cm(d) != cm(a) && cm(d) != cm(b)
    ensures forall r :: IsErasure([a, b, a', d], r, cm) <==> r == [a', d]
  {
    var hops, idx: seq<nat> := [a, b, a', d], [2, 3];
    assert Next(hops, 2, 3, cm);
    assert Erased(hops, idx, cm) && At(hops, idx) == [a', d];
    forall r | IsErasure(hops, r, cm)
      ensures r == [a', d]
    {
      ErasureUnique(hops, r, [a', d], cm);
    }
  }

  method RIndex(ss: seq<string>, s: string) returns (r: int)
    ensures -1 <= r < |ss|
    ensures r >= 0 ==> ss[r] == s
    ensures forall k :: r < k < |ss| ==> ss[k] != s
  {
    r := -1;
    for i := 0 to |ss|
      invariant -1 <= r < i
      invariant r >= 0 ==> ss[r] == s
      invariant forall k :: r < k < i ==> ss[k] != s
    {
      if ss[i] == s {
        r := i;
      }
    }
  }

  function Clusters(hops: seq<Hop>, cm: ClusterMap): (r: seq<string>)
    ensures |r| == |hops| && forall k :: 0 <= k < |r| ==> r[k] == cm(hops[k])
  {
    seq(|hops|, k requires 0 <= k < |hops| => cm(hops[k]))
  }

  /** The erasing loop of processRR. */
  method RemoveLoops(hops: seq<Hop>, cm: ClusterMap) returns (retHops: seq<Hop>)
    requires hops != []
    ensures IsErasure(hops, retHops, cm)
  {
    ghost var idx: seq<nat>;
    hide At, Clusters;
    var clusters := Clusters(hops, cm);
    var currIndex := 0;
    retHops, idx := [], [];
    assert ErasedSoFar(hops, idx, cm) && At(hops, idx) == [];
    while currIndex <= |clusters| - 1
      invariant 0 <= currIndex <= |hops| && currIndex == After(idx)
      invariant ErasedSoFar(hops, idx, cm) && retHops == At(hops, idx)
    {
      hide ErasedSoFar;
      var ri := RIndex(clusters, clusters[currIndex]);
      EraseMore(hops, idx, ri, cm);
      retHops, idx := retHops + [hops[ri]], idx + [ri];
      currIndex := ri + 1;
    }
  }

  /** The position to go on from. */
  function After(idx: seq<nat>): nat {
    if idx == [] then 0 else idx[|idx| - 1] + 1
  }

  ghost predicate ErasedSoFar(hops: seq<Hop>, idx: seq<nat>, cm: ClusterMap): (e: bool)
    requires hops != []
    ensures e ==> forall k :: 0 <= k < |idx| ==> idx[k] < |hops|
  {
    && (forall k :: 0 <= k < |idx| ==> idx[k] < |hops|)
    && (forall k, j :: 0 <= k < |idx| && idx[k] < j < |hops| ==> cm(hops[j]) != cm(hops[idx[k]]))
    && (idx != [] ==> cm(hops[idx[0]]) == cm(hops[0]))
    && (forall k :: 0 <= k < |idx| - 1 ==> Next(hops, idx[k], idx[k+1], cm))
  }

  lemma EraseMore(hops: seq<Hop>, idx: seq<nat>, ri: nat, cm: ClusterMap)
    requires hops != [] && ErasedSoFar(hops, idx, cm) && After(idx) <= ri < |hops|
    requires cm(hops[ri]) == cm(hops[After(idx)])
    requires forall j :: ri < j < |hops| ==> cm(hops[j]) != cm(hops[ri])
    ensures ErasedSoFar(hops, idx + [ri], cm) && At(hops, idx + [ri]) == At(hops, idx) + [hops[ri]]
  {
    var more := idx + [ri];
    forall k | 0 <= k < |more| - 1
      ensures Next(hops, more[k], more[k+1], cm)
    {
      assert k < |idx| - 1 ==> Next(hops, idx[k], idx[k+1], cm);
    }
  }

  /** The position of the last hop of the destination's cluster, or -1. */
  function LastOfCluster(hops: seq<Hop>, cls: string, cm: ClusterMap): (i: int)
    ensures -1 <= i < |hops|
    ensures i >= 0 ==> cm(hops[i]) == cls
    ensures forall k :: i < k < |hops| ==> cm(hops[k]) != cls
  {
    if hops == [] then -1
    else if cm(hops[|hops| - 1]) == cls then |hops| - 1
    else LastOfCluster(hops[..|hops| - 1], cls, cm)
  }

  /** The search backwards for the destination's cluster. */
  method FindDst(hops: seq<Hop>, dstcls: string, cm: ClusterMap) returns (found: bool, i: nat)
    requires hops != [] && cm(hops[|hops| - 1]) != dstcls
    ensures found ==> i == LastOfCluster(hops, dstcls, cm) && i < |hops| - 1
    ensures !found ==> LastOfCluster(hops, dstcls, cm) == -1
  {
    hide LastOfCluster;
    i, found := |hops| - 1, false;
    while !found && i > 0
      invariant 0 <= i < |hops|
      invariant forall k :: i < k < |hops| ==> cm(hops[k]) != dstcls
      invariant found <==> cm(hops[i]) == dstcls
      decreases !found, i
    {
      i := i - 1;
      if dstcls == cm(hops[i]) {
        found := true;
      }
    }
  }

  /** What an answer yields: nothing unless the destination was recorded with at least one hop to spare;
      otherwise the hops after its last record, loops erased on request. Then no hop yielded is in the
      destination's cluster and the last one is the last recorded. */
  method ProcessRR(dst: Hop, hops: seq<Hop>, removeLoops: bool, cm: ClusterMap) returns (r: seq<Hop>)
    ensures var i := LastOfCluster(hops, cm(dst), cm);
            if i < 0 || i == |hops| - 1 then r == []
            else if removeLoops then IsErasure(hops[i+1..], r, cm)
            else r == hops[i+1..]
    ensures r != [] ==> r[|r| - 1] == hops[|hops| - 1] && forall h <- r :: cm(h) != cm(dst) && h in hops
  {
    hide Erased, At, LastOfCluster;
    if hops == [] {
      return [];
    }
    var dstcls := cm(dst);
    if cm(hops[|hops| - 1]) == dstcls {
      return [];
    }
    var found, i := FindDst(hops, dstcls, cm);
    if !found {
      return [];
    }
    var hopss := hops[i+1..];
    SuffixClear(hops, i, dst, cm);
    if removeLoops {
      r := RemoveLoops(hopss, cm);
      ghost var idx :| Erased(hopss, idx, cm) && r == At(hopss, idx);
      ErasedClear(hops, i, idx, dst, cm);
      return;
    }
    return hopss;
  }

  lemma SuffixClear(hops: seq<Hop>, i: nat, dst: Hop, cm: ClusterMap)
    requires i < |hops| - 1 && forall k :: i < k < |hops| ==> cm(hops[k]) != cm(dst)
    ensures var s := hops[i+1..];
            s[|s| - 1] == hops[|hops| - 1] && forall h <- s :: cm(h) != cm(dst) && h in hops
  {
    var s := hops[i+1..];
    assert forall k :: 0 <= k < |s| ==> s[k] == hops[i + 1 + k];
  }

  lemma ErasedClear(hops: seq<Hop>, i: nat, idx: seq<nat>, dst: Hop, cm: ClusterMap)
    requires i < |hops| - 1 && forall k :: i < k < |hops| ==> cm(hops[k]) != cm(dst)
    requires Erased(hops[i+1..], idx, cm)
    ensures var r := At(hops[i+1..], idx);
            r != [] && r[|r| - 1] == hops[|hops| - 1] && forall h <- r :: cm(h) != cm(dst) && h in hops
  {
    SuffixClear(hops, i, dst, cm);
    var s := hops[i+1..];
    assert forall h <- At(s, idx) :: h in s;
  }
}
