/** Every path on the stack grew from one below it. So a traceroute, which is spliced in at the lowest path it
    meets, meets that path in its last segment; this says exactly what the splice comes to. */
module Roots {
  import opened Hops
  import opened Segments
  import opened Search
  import opened Trim

  /** All segments but the last. */
  function Under(p: Path): Path
    requires p != []
  {
    p[..|p| - 1]
  }

  /** Path `j` has the hops of path `i` without its last segment. */
  ghost predicate Root(paths: seq<Path>, j: nat, i: nat)
    requires j < |paths| && i < |paths|
  {
    paths[i] != [] && HopsOf(paths[j]) == HopsOf(Under(paths[i]))
  }

  ghost predicate HasRoot(paths: seq<Path>, i: nat)
    requires i < |paths|
  {
    |paths[i]| >= 2 ==> exists j: nat :: j < i && Root(paths, j, i)
  }

  ghost predicate Rooted(paths: seq<Path>) {
    forall i :: 0 <= i < |paths| ==> HasRoot(paths, i)
  }

  // ----- every move keeps the roots -----

  lemma InitialRooted(src: Hop, dst: Hop)
    ensures Rooted(Initial(src, dst).paths)
  {
  }

  lemma RootStays(paths: seq<Path>, more: seq<Path>, i: nat)
    requires paths <= more && i < |paths| && HasRoot(paths, i)
    ensures HasRoot(more, i)
  {
    hide HopsOf;
    if |paths[i]| >= 2 {
      var j: nat :| j < i && Root(paths, j, i);
      assert Root(more, j, i);
    }
  }

  lemma PrefixRooted(less: seq<Path>, paths: seq<Path>)
    requires less <= paths && Rooted(paths)
    ensures Rooted(less)
  {
    hide HopsOf;
    forall i | 0 <= i < |less|
      ensures HasRoot(less, i)
    {
      assert HasRoot(paths, i);
      if |less[i]| >= 2 {
        var j: nat :| j < i && Root(paths, j, i);
        assert Root(less, j, i);
      }
    }
  }

  /** New paths that have their root among the old ones. */
  lemma MoreRooted(paths: seq<Path>, pushed: seq<Path>, j: nat)
    requires Rooted(paths) && j < |paths|
    requires forall p <- pushed :: |p| >= 2 ==> HopsOf(paths[j]) == HopsOf(Under(p))
    ensures Rooted(paths + pushed)
  {
    hide HopsOf;
    var more := paths + pushed;
    forall i | 0 <= i < |more|
      ensures HasRoot(more, i)
    {
      if i < |paths| {
        RootStays(paths, more, i);
      } else if |more[i]| >= 2 {
        assert more[i] in pushed;
        assert Root(more, j, i);
      }
    }
  }

  lemma ExtendKeepsRoots(st: Stack, cands: seq<Seg>, cm: ClusterMap)
    requires st.paths != [] && Rooted(st.paths)
    ensures Rooted(Extended(st, cands, cm).paths)
  {
    hide HopsOf, PushAll, Rooted;
    var base := ClonePath(Top(st.paths));
    var pushed := PushAll(base, st.dead, cands, cm).paths;
    CloneHops(Top(st.paths));
    forall p | p in pushed
      ensures p != [] && Under(p) == base
    {
      var k :| 0 <= k < |pushed| && pushed[k] == p;
      var i := PushedFrom(base, st.dead, cands, cm, pushed, k);
    }
    MoreRooted(st.paths, pushed, |st.paths| - 1);
  }

  lemma GrowKeepsRoots(st: Stack)
    requires CanGrow(st) && Rooted(st.paths)
    ensures Rooted(Grown(st).paths)
  {
    hide HopsOf, GrowSeg, Ignored, Rooted;
    var p, top := Top(st.paths), |st.paths| - 1;
    var q := Top(Grown(st).paths);
    ClonePrefix(p, |p| - 1);
    assert Under(q) == ClonePath(p)[..|p| - 1];
    if |p| >= 2 {
      RootOf(st.paths, top);
      var j: nat :| j < top && Root(st.paths, j, top);
      MoreRooted(st.paths, [q], j);
    } else {
      MoreRooted(st.paths, [q], top);
    }
  }

  lemma RootOf(paths: seq<Path>, i: nat)
    requires Rooted(paths) && i < |paths|
    ensures HasRoot(paths, i)
  {
  }

  /** Every move keeps the roots, those after a loop-removal error too. */
  lemma MoveKeepsRoots(st: Stack, st': Stack, c: Context)
    requires Rooted(st.paths) && Move(st, st', c)
    ensures Rooted(st'.paths)
  {
    hide Rooted, PushAll, GrowSeg, PopDead, Offered;
    if GrowMove(st, st', c) {
      GrowKeepsRoots(st);
    } else if BacktrackMove(st, st', c) {
      PrefixRooted(st'.paths, st.paths);
    } else {
      var cands :| ExtendMove(st, st', cands, c);
      ExtendKeepsRoots(st, cands, c.cm);
    }
  }

  // ----- where a traceroute meets the stack -----

  /** Where a traceroute meets a path: the hops below the last segment, the hops of that, and how many of them
      there are up to the intersection. */
  datatype Meeting = Meeting(below: seq<Hop>, hops: seq<Hop>, keep: nat)

  ghost function Meet(paths: seq<Path>, h: Hop, cm: ClusterMap): (m: Meeting)
    requires Rooted(paths) && FirstMeeting(paths, h, cm) < |paths|
    ensures var p := paths[FirstMeeting(paths, h, cm)];
            var index := FirstCluster(HopsOf(p), h, cm);
            && HopsOf(p) == m.below + m.hops && 0 < m.keep <= |m.hops|
            && index == |m.below| + m.keep - 1
            && p != [] && Locate(p, index) == |p| - 1
            && m.below == HopsOf(Under(p)) && m.hops == LastSeg(p).hops
  {
    var i := FirstMeeting(paths, h, cm);
    var p, index := paths[i], FirstCluster(HopsOf(paths[i]), h, cm);
    MeetsInLast(paths, h, cm);
    Meeting(HopsOf(Under(p)), LastSeg(p).hops, index - |HopsOf(Under(p))| + 1)
  }

  lemma NotBelow(a: seq<Hop>, b: seq<Hop>, h: Hop, cm: ClusterMap)
    requires FirstCluster(a, h, cm) < 0 <= FirstCluster(a + b, h, cm)
    ensures |a| <= FirstCluster(a + b, h, cm)
  {
    assert forall k :: 0 <= k < |a| ==> (a + b)[k] == a[k];
  }

  /** The first path that meets the traceroute does so in its last segment: what is below that is on a lower
      path as well. So no whole segment is ever cut off. */
  lemma MeetsInLast(paths: seq<Path>, h: Hop, cm: ClusterMap)
    requires Rooted(paths) && FirstMeeting(paths, h, cm) < |paths|
    ensures var p := paths[FirstMeeting(paths, h, cm)];
            var index := FirstCluster(HopsOf(p), h, cm);
            && p != [] && HopsOf(p) == HopsOf(Under(p)) + LastSeg(p).hops
            && |HopsOf(Under(p))| <= index && Locate(p, index) == |p| - 1
  {
    hide Locate, FirstCluster, FirstMeeting;
    var i := FirstMeeting(paths, h, cm);
    var p := paths[i];
    var index := FirstCluster(HopsOf(p), h, cm);
    assert p != [];
    HopsOfOneMore(p, Under(p), LastSeg(p));
    if |p| >= 2 {
      RootOf(paths, i);
      var j: nat :| j < i && Root(paths, j, i);
      NotBelow(HopsOf(paths[j]), LastSeg(p).hops, h, cm);
    } else {
      assert Under(p) == [] && HopsOf([]) == [];
    }
    LocateUnique(p, index, |p| - 1);
  }

  /** The hops the traceroute is put on: those up to the intersection if the cut is right. */
  function Stump(m: Meeting, first: Hop): seq<Hop>
    requires 0 < m.keep <= |m.hops| && CutFits(m.hops, m.keep, first)
  {
    m.below + CutSegment(m.hops, m.keep, first)
  }

  /** When the traceroute can be put on a path: its last hop is not dead and does not share a cluster with an
      answering hop common to both, and the silent address is not left on both sides. */
  ghost predicate Joins(hops: seq<Hop>, prefix: seq<Hop>, dead: set<Hop>, cm: ClusterMap) {
    && LastOf(hops) !in dead && !Loopy(LastOf(hops), Shared(hops, prefix), cm)
    && !(ZERO in Kept(hops, prefix, cm) && ZERO in prefix)
  }

  lemma CloneMeeting(p: Path, index: nat, first: Hop, cm: ClusterMap)
    requires p != [] && AllNonEmpty(p) && index < |HopsOf(p)| && Locate(p, index) == |p| - 1
    ensures var q := ClonePath(p);
            && q != [] && AllNonEmpty(q) && HopsOf(q) == HopsOf(p) && Locate(q, index) == |q| - 1
            && HopsOf(Under(q)) == HopsOf(Under(p)) && LastSeg(q).hops == LastSeg(p).hops
  {
    CloneHops(p);
    CloneNonEmpty(p);
    ClonePrefix(p, |p| - 1);
    ClonePrefix(p, |p|);
    assert p[..|p|] == p && ClonePath(p)[..|p|] == ClonePath(p);
    LocateUnique(ClonePath(p), index, |p| - 1);
  }

  /** On a stack as every run has it the cut panics exactly if the traceroute's first address is in the last
      segment, but behind the hop that shares its cluster; and it leaves the path up to the intersection exactly
      if CutRight says so. */
  lemma CutInLast(paths: seq<Path>, h: Hop, cm: ClusterMap)
    requires Rooted(paths) && FirstMeeting(paths, h, cm) < |paths|
    ensures var m := Meet(paths, h, cm);
            var p := paths[FirstMeeting(paths, h, cm)];
            && (CutFits(m.hops, m.keep, h) <==> !(m.keep < |m.hops| && m.hops[m.keep - 1] != h && h in m.hops))
            && (CutFits(m.hops, m.keep, h) ==>
                  (Stump(m, h) == HopsOf(p)[..FirstCluster(HopsOf(p), h, cm) + 1] <==> CutRight(m.hops, m.keep, h)))
  {
    hide HopsOf, Locate, CutSegment, CutRight, FirstIndex, FirstMeeting, Rooted;
    var m := Meet(paths, h, cm);
    var p := paths[FirstMeeting(paths, h, cm)];
    var q := FirstIndex(m.hops, h);
    assert q >= 0 ==> HopsOf(p)[|m.below| + q] == h && q >= m.keep - 1;
    assert HopsOf(p)[..|m.below| + m.keep] == m.below + m.hops[..m.keep];
    CutExact(m.hops, m.keep, h);
    if CutFits(m.hops, m.keep, h) {
      AppendCancel(m.below, CutSegment(m.hops, m.keep, h), m.hops[..m.keep]);
    }
  }

  /** What the splice comes to on every such stack: not added where the traceroute meets nothing; a panic exactly
      if the cut panics; otherwise the stump is stacked and the traceroute on it exactly if it joins that, and
      the new top reaches exactly if the traceroute does. */
  lemma SpliceRooted(paths: seq<Path>, dead: set<Hop>, tr: Seg, cm: ClusterMap)
    requires Rooted(paths) && Spliceable(paths, tr)
    ensures FirstMeeting(paths, tr.hops[0], cm) == |paths| ==> Splice(paths, dead, tr, cm) == NotAdded
    ensures FirstMeeting(paths, tr.hops[0], cm) < |paths| ==>
              var m := Meet(paths, tr.hops[0], cm);
              var r := Splice(paths, dead, tr, cm);
              && (r.Crashed? <==> !CutFits(m.hops, m.keep, tr.hops[0]))
              && (!r.Crashed? ==>
                    var prefix := Stump(m, tr.hops[0]);
                    && (r.Added? <==> Joins(tr.hops, prefix, dead, cm))
                    && (r.Added? ==> PutOnTop(paths, r.paths, tr, prefix, cm)))
  {
    hide HopsOf, FirstCluster, FirstMeeting, PushAll, CutFits, CutSegment, Rooted, Joins, PutOnTop, ClonePath, Splice;
    hide TrimPath, Locate, AllNonEmpty, Meet, Stump;
    SpliceIs(paths, dead, tr, cm);
    if FirstMeeting(paths, tr.hops[0], cm) < |paths| {
      var m := Meet(paths, tr.hops[0], cm);
      var o := CutAtMeeting(paths, tr.hops[0], cm);
      if o.Trimmed? {
        PutOn(paths, dead, o.path, tr, cm);
      }
    }
  }

  /** The cut of a copy of the path that is met. */
  lemma CutAtMeeting(paths: seq<Path>, h: Hop, cm: ClusterMap) returns (o: Outcome)
    requires Rooted(paths) && FirstMeeting(paths, h, cm) < |paths| && AllNonEmpty(paths[FirstMeeting(paths, h, cm)])
    ensures var p := paths[FirstMeeting(paths, h, cm)];
            var m := Meet(paths, h, cm);
            && AllNonEmpty(ClonePath(p)) && HopsOf(ClonePath(p)) == HopsOf(p)
            && o == TrimPath(ClonePath(p), FirstCluster(HopsOf(p), h, cm), h)
            && (o.Trimmed? <==> CutFits(m.hops, m.keep, h))
            && (o.Trimmed? ==> HopsOf(o.path) == Stump(m, h))
  {
    hide HopsOf, FirstCluster, FirstMeeting, CutFits, CutSegment, Rooted, ClonePath, TrimPath, Locate, AllNonEmpty;
    var p := paths[FirstMeeting(paths, h, cm)];
    var index := FirstCluster(HopsOf(p), h, cm);
    var m := Meet(paths, h, cm);
    CloneMeeting(p, index, h, cm);
    TrimInLast(ClonePath(p), index, h);
    o := TrimPath(ClonePath(p), index, h);
  }

  /** The cut where the last segment holds the intersection. */
  lemma TrimInLast(p: Path, index: nat, first: Hop)
    requires p != [] && AllNonEmpty(p) && index < |HopsOf(p)| && Locate(p, index) == |p| - 1
    ensures var below, hops := HopsOf(Under(p)), LastSeg(p).hops;
            var keep := index - |below| + 1;
            && 0 < keep <= |hops|
            && var o := TrimPath(p, index, first);
               if CutFits(hops, keep, first)
               then o.Trimmed? && HopsOf(o.path) == below + CutSegment(hops, keep, first)
               else o.Panicked?
  {
    hide HopsOf, Locate, CutFits, CutSegment;
    var below, hops := HopsOf(Under(p)), LastSeg(p).hops;
    var keep := index - |below| + 1;
    if CutFits(hops, keep, first) {
      HopsOfOnTop(Under(p), LastSeg(p).(hops := CutSegment(hops, keep, first)));
    }
  }

  /** The splice step by step. */
  lemma SpliceIs(paths: seq<Path>, dead: set<Hop>, tr: Seg, cm: ClusterMap)
    requires Spliceable(paths, tr)
    ensures var i := FirstMeeting(paths, tr.hops[0], cm);
            var r := Splice(paths, dead, tr, cm);
            if i == |paths| then r == NotAdded
            else
              var p, index := ClonePath(paths[i]), FirstCluster(HopsOf(paths[i]), tr.hops[0], cm);
              && HopsOf(p) == HopsOf(paths[i]) && AllNonEmpty(p)
              && match TrimPath(p, index, tr.hops[0])
                 case Panicked => r == Crashed
                 case Trimmed(found) =>
                   var pushed := PushAll(ClonePath(found), dead, [tr], cm).paths;
                   r == if pushed == [] then NotAdded else Added(paths + [found] + pushed)
  {
    hide HopsOf, FirstCluster, FirstMeeting, PushAll, ClonePath, TrimPath, AllNonEmpty;
    var i := FirstMeeting(paths, tr.hops[0], cm);
    if i < |paths| {
      CloneHops(paths[i]);
      CloneNonEmpty(paths[i]);
    }
  }

  /** The traceroute put on a copy of a path that was cut. */
  lemma PutOn(paths: seq<Path>, dead: set<Hop>, found: Path, tr: Seg, cm: ClusterMap)
    requires tr.hops != []
    ensures var pushed := PushAll(ClonePath(found), dead, [tr], cm).paths;
            && (pushed != [] <==> Joins(tr.hops, HopsOf(found), dead, cm))
            && (pushed != [] ==> PutOnTop(paths, paths + [found] + pushed, tr, HopsOf(found), cm))
  {
    hide HopsOf, Kept, PushAll, Shared, Loopy, StillLoops, ClonePath;
    CloneHops(found);
    var base := ClonePath(found);
    var kept := Kept(tr.hops, HopsOf(base), cm);
    PushOne(base, dead, tr, cm);
    KeptSuffix(tr.hops, HopsOf(base), cm);
    HopsOfOnTop(base, tr.(hops := kept));
  }

  /** The stack after a splice onto `prefix`. */
  ghost predicate PutOnTop(paths: seq<Path>, paths': seq<Path>, tr: Seg, prefix: seq<Hop>, cm: ClusterMap) {
    var kept := Kept(tr.hops, prefix, cm);
    && |paths'| == |paths| + 2 && paths'[..|paths|] == paths
    && HopsOf(paths'[|paths|]) == prefix
    && HopsOf(Top(paths')) == prefix + kept
    && kept != [] && kept == tr.hops[|tr.hops| - |kept|..]
    && Top(paths') != [] && LastHop(Top(paths')) == LastOf(tr.hops)
    && PathReaches(Top(paths'), cm) == Reaches(tr, cm)
  }
}
