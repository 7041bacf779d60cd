/** Splicing a background traceroute in: cutting a stacked path back to the hop where the traceroute
    meets it, and stacking the traceroute on what is left. */
module Trim {
  import opened Hops
  import opened Segments
  import opened Search

  /** Go panics when the cut indexes past a slice or runs into the nil segment it stored itself. */
  datatype Outcome = Trimmed(path: Path) | Panicked

  /** The first position whose hop shares a cluster with `h`, or -1. */
  function FirstCluster(hops: seq<Hop>, h: Hop, cm: ClusterMap): (r: int)
    ensures -1 <= r < |hops|
    ensures r >= 0 ==> cm(hops[r]) == cm(h)
    ensures forall k :: 0 <= k < (if r < 0 then |hops| else r) ==> cm(hops[k]) != cm(h)
  {
    if hops == [] then -1
    else if cm(hops[0]) == cm(h) then 0
    else
      var t := FirstCluster(hops[1..], h, cm);
      assert forall k :: 1 <= k < |hops| ==> hops[k] == hops[1..][k-1];
      if t < 0 then -1 else t + 1
  }

  lemma {:induction false} HopsOfAppend(p: Path, q: Path)
    ensures HopsOf(p + q) == HopsOf(p) + HopsOf(q)
  {
    if q == [] {
      assert p + q == p;
    } else {
      var q', s := q[..|q| - 1], q[|q| - 1];
      HopsOfAppend(p, q');
      var pq := p + q;
      assert pq[..|pq| - 1] == p + q' && pq[|pq| - 1] == s;
      assert HopsOf(pq) == HopsOf(p + q') + s.hops;
      assert HopsOf(q) == HopsOf(q') + s.hops;
    }
  }

  /** The hops below segment `t` and those of segment `t`, as a split of all hops. */
  lemma HopsOfSplit(p: Path, t: nat)
    requires t < |p|
    ensures HopsOf(p[..t+1]) == HopsOf(p[..t]) + p[t].hops
    ensures HopsOf(p) == HopsOf(p[..t+1]) + HopsOf(p[t+1..])
  {
    hide HopsOf;
    var below, low, high := p[..t], p[..t+1], p[t+1..];
    SplitPath(p, t, below, low, high);
    HopsOfPut(p, low, high);
    HopsOfOneMore(low, below, p[t]);
  }

  lemma SplitPath(p: Path, t: nat, below: Path, low: Path, high: Path)
    requires t < |p| && below == p[..t] && low == p[..t+1] && high == p[t+1..]
    ensures p == low + high && low == below + [p[t]]
  {
  }

  lemma HopsOfPut(p: Path, low: Path, high: Path)
    requires p == low + high
    ensures HopsOf(p) == HopsOf(low) + HopsOf(high)
  {
    hide HopsOf;
    HopsOfAppend(low, high);
  }

  lemma HopsOfOneMore(p: Path, low: Path, s: Seg)
    requires p == low + [s]
    ensures HopsOf(p) == HopsOf(low) + s.hops
  {
    hide HopsOf;
    HopsOfOnTop(low, s);
  }

  ghost predicate AllNonEmpty(p: Path) {
    forall i :: 0 <= i < |p| ==> p[i].hops != []
  }

  lemma {:induction false} HopsOfNonEmpty(p: Path)
    requires AllNonEmpty(p)
    ensures |HopsOf(p)| >= |p|
  {
    if p != [] {
      HopsOfNonEmpty(p[..|p| - 1]);
    }
  }

  /** The segment holding position `index` of a path's hops. */
  ghost function Locate(p: Path, index: nat): (t: nat)
    requires index < |HopsOf(p)|
    ensures t < |p| && |HopsOf(p[..t])| <= index < |HopsOf(p[..t])| + |p[t].hops|
  {
    if index < |HopsOf(p[..|p| - 1])| then
      var t := Locate(p[..|p| - 1], index);
      assert p[..|p| - 1][..t] == p[..t];
      t
    else |p| - 1
  }

  lemma {:induction false} HopsOfMonotone(p: Path, t: nat, u: nat)
    requires t < u <= |p|
    ensures |HopsOf(p[..u])| >= |HopsOf(p[..t])| + |p[t].hops|
  {
    assert p[..u][..u - 1] == p[..u - 1];
    if t < u - 1 {
      HopsOfMonotone(p, t, u - 1);
    }
  }

  lemma LocateUnique(p: Path, index: nat, t: nat)
    requires index < |HopsOf(p)| && t < |p|
    requires |HopsOf(p[..t])| <= index < |HopsOf(p[..t])| + |p[t].hops|
    ensures t == Locate(p, index)
  {
    var u := Locate(p, index);
    if t < u {
      HopsOfMonotone(p, t, u);
    } else if u < t {
      HopsOfMonotone(p, u, t);
    }
  }

  /** One segment cut back to `keep` hops by deleting, over and over, the hop after the first literal
      occurrence of `first`. */
  function CutSegment(hops: seq<Hop>, keep: nat, first: Hop): seq<Hop>
    requires 0 < keep <= |hops| && CutFits(hops, keep, first)
  {
    var l := FirstIndex(hops, first) + 1;
    if |hops| == keep then hops else hops[..l] + hops[l + |hops| - keep..]
  }

  /** The deletions stay in range. */
  predicate CutFits(hops: seq<Hop>, keep: nat, first: Hop) {
    |hops| == keep || FirstIndex(hops, first) + 1 <= keep
  }

  /** What the cutting loop makes of a path with no empty segment: it panics when the literal address
      lies beyond the cut, or when more than one whole segment has to go. */
  ghost function TrimPath(p: Path, index: nat, first: Hop): Outcome
    requires index < |HopsOf(p)| && AllNonEmpty(p)
  {
    var t := Locate(p, index);
    var keep := index - |HopsOf(p[..t])| + 1;
    if !CutFits(p[t].hops, keep, first) || |p| - t > 2 then Panicked
    else Trimmed(p[..t] + [p[t].(hops := CutSegment(p[t].hops, keep, first))])
  }

  ghost predicate Exact(o: Outcome, p: Path, index: nat)
    requires index < |HopsOf(p)|
  {
    o.Trimmed? && HopsOf(o.path) == HopsOf(p)[..index + 1]
  }

  /** When deleting after the literal address leaves the first `keep` hops: nothing is deleted, or the last
      of them is that address, or the address is not there and the last `keep` hops are the same hops. */
  predicate CutRight(hops: seq<Hop>, keep: nat, first: Hop)
    requires 0 < keep <= |hops|
  {
    || |hops| == keep
    || hops[keep - 1] == first
    || (first !in hops && hops[|hops| - keep..] == hops[..keep])
  }

  /** What a caller can check before the cut: it comes out right in the segment of the intersection, and at
      most one segment lies above that. On the stacks of a run none does, see Roots.MeetsInLast. */
  ghost predicate Cuttable(p: Path, index: nat, first: Hop)
    requires index < |HopsOf(p)|
  {
    var t := Locate(p, index);
    CutRight(p[t].hops, index - |HopsOf(p[..t])| + 1, first) && |p| - t <= 2
  }

  /** Within one segment: the deletions stay in range and leave the first `keep` hops exactly when CutRight
      says so. */
  lemma CutExact(hops: seq<Hop>, keep: nat, first: Hop)
    requires 0 < keep <= |hops| && (FirstIndex(hops, first) < 0 || FirstIndex(hops, first) >= keep - 1)
    ensures CutFits(hops, keep, first) && CutSegment(hops, keep, first) == hops[..keep]
            <==> CutRight(hops, keep, first)
  {
    hide FirstIndex;
    var q := FirstIndex(hops, first);
    if q < 0 {
      assert first !in hops && hops[keep - 1] != first;
      assert hops[..0] + hops[|hops| - keep..] == hops[|hops| - keep..];
    } else if q == keep - 1 {
      assert hops[..keep] + hops[|hops|..] == hops[..keep];
    } else {
      assert hops[q] == first && first in hops && hops[keep - 1] != first;
    }
  }

  /** The cut leaves exactly the hops up to and including the intersection if and only if that holds. */
  lemma TrimExact(p: Path, index: nat, first: Hop, cm: ClusterMap)
    requires AllNonEmpty(p) && index == FirstCluster(HopsOf(p), first, cm)
    ensures Exact(TrimPath(p, index, first), p, index) <==> Cuttable(p, index, first)
  {
    hide HopsOf, Locate, FirstIndex, FirstCluster, CutFits, CutSegment, CutRight;
    var t := Locate(p, index);
    var below := HopsOf(p[..t]);
    var hops := p[t].hops;
    var keep := index - |below| + 1;
    var q := FirstIndex(hops, first);
    HopsOfSplit(p, t);
    var all := HopsOf(p);
    assert all == below + hops + HopsOf(p[t+1..]);
    assert all[index] == hops[keep - 1];
    assert q >= 0 ==> all[|below| + q] == hops[q] == first;
    CutExact(hops, keep, first);
    assert all[..index + 1] == below + hops[..keep];
    if CutFits(hops, keep, first) {
      var cut := CutSegment(hops, keep, first);
      HopsOfOnTop(p[..t], p[t].(hops := cut));
      AppendCancel(below, cut, hops[..keep]);
    }
  }

  lemma AppendCancel(a: seq<Hop>, b: seq<Hop>, c: seq<Hop>)
    ensures a + b == a + c <==> b == c
  {
    assert (a + b)[|a|..] == b && (a + c)[|a|..] == c;
  }

  // ----- AddBackgroundTRSegment -----

  datatype Spliced = Added(paths: seq<Path>) | NotAdded | Crashed

  /** The first path, from the bottom, that the traceroute meets; |paths| if none. */
  ghost function FirstMeeting(paths: seq<Path>, h: Hop, cm: ClusterMap): (i: nat)
    ensures i <= |paths|
    ensures i < |paths| ==> FirstCluster(HopsOf(paths[i]), h, cm) >= 0
    ensures forall k :: 0 <= k < i ==> FirstCluster(HopsOf(paths[k]), h, cm) < 0
  {
    if paths == [] then 0
    else
      var i := FirstMeeting(paths[..|paths| - 1], h, cm);
      if i < |paths| - 1 then i
      else if FirstCluster(HopsOf(paths[|paths| - 1]), h, cm) >= 0 then |paths| - 1
      else |paths|
  }

  lemma FirstMeetingUnique(paths: seq<Path>, h: Hop, cm: ClusterMap, i: nat)
    requires i <= |paths|
    requires i < |paths| ==> FirstCluster(HopsOf(paths[i]), h, cm) >= 0
    requires forall k :: 0 <= k < i ==> FirstCluster(HopsOf(paths[k]), h, cm) < 0
    ensures i == FirstMeeting(paths, h, cm)
  {
    var j := FirstMeeting(paths, h, cm);
    assert !(i < j) && !(j < i);
  }

  ghost predicate Spliceable(paths: seq<Path>, tr: Seg) {
    tr.hops != [] && forall i :: 0 <= i < |paths| ==> AllNonEmpty(paths[i])
  }

  ghost function Splice(paths: seq<Path>, dead: set<Hop>, tr: Seg, cm: ClusterMap): (r: Spliced)
    requires Spliceable(paths, tr)
    ensures r.Added? ==> r.paths != []
  {
    var i := FirstMeeting(paths, tr.hops[0], cm);
    if i == |paths| then NotAdded
    else
      var p := ClonePath(paths[i]);
      CloneHops(paths[i]);
      CloneNonEmpty(paths[i]);
      match TrimPath(p, FirstCluster(HopsOf(p), tr.hops[0], cm), tr.hops[0])
      case Panicked => Crashed
      case Trimmed(found) =>
        var pushed := PushAll(ClonePath(found), dead, [tr], cm).paths;
        if pushed == [] then NotAdded else Added(paths + [found] + pushed)
  }

  /** A single candidate is stacked exactly when its last hop is not dead, does not share a cluster
      with an answering hop it has in common with the path, and the silent address is not left on both
      sides. */
  lemma PushOne(base: Path, dead: set<Hop>, s: Seg, cm: ClusterMap)
    requires s.hops != []
    ensures var kept := Kept(s.hops, HopsOf(base), cm);
            var paths := PushAll(base, dead, [s], cm).paths;
            && (paths != [] <==> LastOf(s.hops) !in dead && !Loopy(LastOf(s.hops), Shared(s.hops, HopsOf(base)), cm)
                                 && !(ZERO in kept && ZERO in HopsOf(base)))
            && (paths != [] ==> paths == [base + [s.(hops := kept)]] && kept != [])
  {
    hide HopsOf, Shared, Loopy, StillLoops;
    KeptDisjoint(s.hops, HopsOf(base), cm);
    assert [s][1..] == [] && PushAll(base, dead, [], cm).paths == [];
  }

  lemma CloneNonEmpty(p: Path)
    requires AllNonEmpty(p)
    ensures AllNonEmpty(ClonePath(p))
  {
  }
}
