/** The moves of the search as calls on a reverse traceroute: each keeps the invariant of the search and
    lowers its measure, or leaves the stack as it is. */
module Moves {
  import opened Hops
  import opened Segments
  import opened Search
  import opened Trim
  import opened ReversePath
  import opened ReverseTraceroute
  import opened Candidates

  /** A search under way. */
  ghost predicate Live(rt: ReverseTraceroute, c: Context)
    reads rt, rt.paths, SegSet(rt.paths), BufSet(rt.paths)
  {
    rt.Valid() && rt.Limited() && rt.src == c.src && rt.backoffEndhost == c.backoff && Inv(rt.State(), c)
  }

  /** Every candidate is one the network can have answered with. */
  ghost predicate GoodValues(values: seq<Seg>, c: Context) {
    && (forall s <- values :: s.src == c.src && (forall h <- s.hops :: h in c.universe) && SymmetricOK(s, c))
    && (|values| != 1 ==> forall s <- values :: !s.kind.DstSym?)
  }

  lemma OfferedFrom(values: seq<Seg>, cands: seq<Seg>, c: Context)
    requires GoodValues(values, c) && multiset(cands) == multiset(values)
    requires Segments.Candidates(cands, c.src) ==> Sorted(cands, c.cm)
    ensures Offered(cands, c)
  {
    hide Sorted, SymmetricOK;
    assert |cands| == |multiset(cands)| == |values|;
    assert forall s :: s in cands ==> s in multiset(cands);
    assert forall s :: s in multiset(values) ==> s in values;
  }

  /** What a call of AddSegments comes to, as a value. */
  lemma ExtendedFacts(st: Stack, cands: seq<Seg>, c: Context)
    requires Inv(st, c) && Offered(cands, c)
    ensures var pushed := PushAll(ClonePath(Top(st.paths)), st.dead, cands, c.cm);
            var st' := Extended(st, cands, c.cm);
            && Inv(st', c)
            && (pushed.paths == [] ==> st' == st)
            && (pushed.paths != [] ==> Lower(st', st, c))
            && (Clean(st, c) && (pushed.paths != [] ==> !PathReaches(Top(st'.paths), c.cm)) ==> Clean(st', c))
  {
    hide PushAll, ClonePath, PathOK, Offered, Sorted;
    var base := ClonePath(Top(st.paths));
    var pushed := PushAll(base, st.dead, cands, c.cm).paths;
    ExtendKeeps(st, cands, c);
    if pushed == [] {
      assert st.paths + pushed == st.paths;
    } else {
      ExtendLowers(st, cands, c);
      assert Top(Extended(st, cands, c.cm).paths) == Top(pushed);
      if !PathReaches(Top(pushed), c.cm) {
        NothingReaches(base, st.dead, cands, c, pushed);
      }
    }
  }

  /** Stacks candidates; `cands` is the order they were tried in. */
  method Extend(rt: ReverseTraceroute, segs: seq<RevSegment>, ghost values: seq<Seg>, cm: ClusterMap, ghost c: Context)
    returns (added: bool, ghost cands: seq<Seg>)
    requires Live(rt, c) && cm == c.cm && Made(segs, values, rt) && GoodValues(values, c)
    modifies rt`paths, segs
    ensures Live(rt, c)
    ensures multiset(cands) == multiset(values) && Called(old(rt.State()), rt.State(), cands, added, c)
    ensures rt.State() == old(rt.State()) || Lower(rt.State(), old(rt.State()), c)
    ensures added ==> Lower(rt.State(), old(rt.State()), c)
    ensures !added && |values| == 1 ==> rt.State() == old(rt.State())
  {
    hide PushAll, ClonePath, Views, SegSet, BufSet, Offered, Sorted, GoodValues, PathReaches, PathOK, Clean;
    ghost var before := rt.State();
    ghost var err;
    added, cands, err := rt.AddSegments(segs, cm);
    OfferedFrom(values, cands, c);
    ExtendedFacts(before, cands, c);
    assert rt.State() == Extended(before, cands, cm);
    if |values| == 1 {
      OnlyOne(cands, values[0]);
      SingleErr(ClonePath(Top(before.paths)), before.dead, values[0], cm);
    }
  }

  /** Gives up the current path, which must not assume symmetry. */
  method Backtrack(rt: ReverseTraceroute, ghost c: Context) returns (failed: bool)
    requires Live(rt, c) && !LastSeg(Top(rt.View())).kind.DstSym?
    modifies rt`paths, rt`deadEnd
    ensures rt.Valid() && rt.State() == FailTop(old(rt.State()), c.backoff)
    ensures failed == Search.Failed(rt.View(), c.backoff)
    ensures !failed ==> Live(rt, c) && Lower(rt.State(), old(rt.State()), c)
  {
    hide Views, SegSet, BufSet, Search.Failed, PathOK, Clean, PathReaches, TopOK;
    ghost var before := rt.State();
    InvNonEmpty(before, c);
    rt.FailCurrPath();
    failed := rt.Failed();
    BacktrackLowers(before, c);
    if !failed {
      BacktrackKeeps(before, c);
    }
  }

  lemma InvNonEmpty(st: Stack, c: Context)
    requires Inv(st, c)
    ensures st.paths != [] && NonEmpty(st.paths)
  {
  }

  /** The hops of all segments but the last. */
  method HopsBelowLast(p: ReversePath) returns (hops: set<Hop>)
    requires p.Valid() && p.segs != []
    ensures hops == SetOf(HopsOf(p.View()[..|p.segs| - 1]))
  {
    hops := {};
    for i := 0 to |p.segs| - 1
      invariant hops == SetOf(HopsOf(p.View()[..i]))
    {
      hide HopsOf;
      var more := p.segs[i].Hops();
      hops := hops + SetOf(more);
      HopsOfOneMore(p.View()[..i+1], p.View()[..i], p.View()[i]);
    }
  }

  method CopyLast(rt: ReverseTraceroute) returns (s: RevSegment)
    requires rt.Valid() && rt.paths != [] && NonEmpty(rt.View())
    ensures rt.Valid() && rt.View() == old(rt.View())
    ensures fresh(s) && s.Valid() && s !in SegSet(rt.paths) && s.View() == CloneSeg(LastSeg(Top(rt.View())))
  {
    ghost var before := rt.View();
    var path := rt.CurrPath();
    assert path.View()[|path.segs| - 1] == path.LastSeg().View();
    s := path.LastSeg().Clone();
    assert forall i :: 0 <= i < |rt.paths| ==> rt.paths[i].View() == before[i];
  }

  method HopsIgnored(rt: ReverseTraceroute, ghost s: RevSegment) returns (ignore: set<Hop>)
    requires rt.Valid() && rt.paths != [] && NonEmpty(rt.View()) && s.Valid() && s !in SegSet(rt.paths)
    ensures rt.Valid() && rt.View() == old(rt.View())
    ensures s.Valid() && s.View() == old(s.View()) && s !in SegSet(rt.paths)
    ensures ignore == Ignored(Top(rt.View()), rt.deadEnd)
  {
    ghost var before := rt.View();
    var below := HopsBelowLast(rt.CurrPath());
    ignore := below + rt.deadEnd;
    assert forall i :: 0 <= i < |rt.paths| ==> rt.paths[i].View() == before[i];
  }

  /** A copy of the last segment, grown by one hop. */
  method GrowLast(rt: ReverseTraceroute) returns (s: RevSegment)
    requires rt.Valid() && rt.paths != [] && NonEmpty(rt.View()) && Growable(LastSeg(Top(rt.View())))
    ensures rt.Valid() && rt.View() == old(rt.View())
    ensures fresh(s) && s.Valid()
    ensures s.View() == GrowSeg(LastSeg(Top(rt.View())), Ignored(Top(rt.View()), rt.deadEnd))
  {
    hide GrowSeg, Ignored, Views, SegSet, BufSet;
    s := CopyLast(rt);
    var ignore := HopsIgnored(rt, s);
    SameGrowth(LastSeg(Top(rt.View())), ignore);
    GrowCopy(s, ignore, rt);
  }

  method GrowCopy(s: RevSegment, ignore: set<Hop>, ghost rt: ReverseTraceroute)
    requires rt.Valid() && s.Valid() && s !in SegSet(rt.paths) && Growable(s.View())
    modifies s
    ensures rt.Valid() && rt.View() == old(rt.View())
    ensures s.Valid() && s.View() == GrowSeg(old(s.View()), ignore)
  {
    hide GrowSeg;
    ghost var before := rt.View();
    s.AddHop(ignore);
    assert forall i :: 0 <= i < |rt.paths| ==> rt.paths[i].View() == before[i];
  }

  lemma SameGrowth(s: Seg, ignore: set<Hop>)
    requires Growable(s)
    ensures GrowSeg(CloneSeg(s), ignore) == GrowSeg(s, ignore)
  {
  }

  /** Assumes one more hop on a path assuming symmetry, unless that is refused. */
  method Grow(rt: ReverseTraceroute, ghost c: Context) returns (added: bool)
    requires Live(rt, c) && LastSeg(Top(rt.View())).kind.DstSym?
    modifies rt`paths
    ensures rt.Valid() && CanGrow(old(rt.State())) && added == !GrowthRefused(old(rt.State()))
    ensures rt.State() == if added then Grown(old(rt.State())) else old(rt.State())
    ensures added && !PathReaches(Top(rt.View()), c.cm) ==> Live(rt, c) && Lower(rt.State(), old(rt.State()), c)
  {
    hide Views, SegSet, BufSet, GrowSeg, Ignored, PathOK, Clean;
    ghost var before := rt.State();
    InvNonEmpty(before, c);
    InvGrowable(before, c);
    var newSeg := GrowLast(rt);
    added := rt.AddAndReplaceSegment(newSeg);
    ghost var g := GrowSeg(LastSeg(Top(before.paths)), Ignored(Top(before.paths), before.dead));
    if added {
      assert rt.State() == before.(paths := before.paths + [ReplaceLast(Top(before.paths), g)]);
      if !PathReaches(Top(Grown(before).paths), c.cm) {
        GrownFacts(before, c);
      }
    }
  }

  lemma InvGrowable(st: Stack, c: Context)
    requires Inv(st, c) && LastSeg(Top(st.paths)).kind.DstSym?
    ensures Growable(LastSeg(Top(st.paths)))
  {
    assert SegOK(LastSeg(Top(st.paths)), c);
  }

  lemma GrownFacts(st: Stack, c: Context)
    requires Inv(st, c) && CanGrow(st) && !GrowthRefused(st) && !PathReaches(Top(Grown(st).paths), c.cm)
    ensures Inv(Grown(st), c) && Lower(Grown(st), st, c)
  {
    hide Grown, PathOK, Clean, CanGrow;
    assert GrowMove(st, Grown(st), c);
    MoveLowers(st, Grown(st), c);
  }
}
