/** The stack of paths of one reverse traceroute, as the object its methods change in place. */
module ReverseTraceroute {
  import opened Hops
  import opened Segments
  import opened Search
  import opened Trim
  import opened ReversePath
  import Background
  import opened Schedule
  import opened Sequences

  ghost function SegSet(ps: seq<ReversePath>): set<RevSegment>
    reads ps
  {
    set i, j | 0 <= i < |ps| && 0 <= j < |ps[i].segs| :: ps[i].segs[j]
  }

  ghost function BufSet(ps: seq<ReversePath>): set<array<Hop>>
    reads ps, SegSet(ps)
  {
    set s | s in SegSet(ps) :: s.buf
  }

  ghost predicate AllValid(ps: seq<ReversePath>)
    reads ps, SegSet(ps)
  {
    forall i :: 0 <= i < |ps| ==> ps[i].Valid()
  }

  /** The hops, sources and kinds of all stacked segments. */
  ghost function Views(ps: seq<ReversePath>): (v: seq<Path>)
    requires AllValid(ps)
    reads ps, SegSet(ps), BufSet(ps)
    ensures |v| == |ps|
  {
    seq(|ps|, i requires 0 <= i < |ps| && AllValid(ps) reads ps, SegSet(ps), BufSet(ps) => ps[i].View())
  }

  ghost predicate ValidSegs(segs: seq<RevSegment>)
    reads segs
  {
    forall i :: 0 <= i < |segs| ==> segs[i].Valid()
  }

  /** The values of candidate segments. */
  function Values(segs: seq<RevSegment>): (v: seq<Seg>)
    requires ValidSegs(segs)
    reads segs, set i | 0 <= i < |segs| :: segs[i].buf
    ensures |v| == |segs|
  {
    seq(|segs|, i requires 0 <= i < |segs| && ValidSegs(segs) reads segs, set i | 0 <= i < |segs| :: segs[i].buf
        => segs[i].View())
  }

  /** Candidates are valid objects, each given once, none of them already on the stack. */
  ghost predicate Fresh(segs: seq<RevSegment>, ps: seq<ReversePath>)
    reads ps, segs
  {
    ValidSegs(segs) && Distinct(segs) && forall i :: 0 <= i < |segs| ==> segs[i] !in SegSet(ps)
  }

  class ReverseTraceroute {
    var paths: seq<ReversePath>
    var deadEnd: set<Hop>
    const src: Hop
    const dst: Hop
    const backoffEndhost: bool
    var rrHop2RateLimit: map<Hop, nat>
    var rrHop2VPSLeft: Left
    var rrSpoofRRResponsive: Responses
    var tsHop2AdjsLeft: map<Hop, seq<Hop>>
    var tsUnresponsive: set<Hop>

    ghost predicate Valid()
      reads `paths, paths, SegSet(paths)
    {
      AllValid(paths)
    }

    ghost function View(): (v: seq<Path>)
      requires Valid()
      reads `paths, paths, SegSet(paths), BufSet(paths)
      ensures |v| == |paths|
    {
      Views(paths)
    }

    ghost function State(): Stack
      requires Valid()
      reads this, paths, SegSet(paths), BufSet(paths)
    {
      Stack(View(), deadEnd)
    }

    constructor (src: Hop, dst: Hop, backoff: bool, global: Hop -> bool)
      ensures Valid() && this.src == src && this.dst == dst && backoffEndhost == backoff
      ensures State() == Initial(src, Sanitize([dst], global)[0]) && Limited()
      ensures rrHop2VPSLeft == map[] && rrSpoofRRResponsive == map[] && tsHop2AdjsLeft == map[] && tsUnresponsive == {}
      ensures fresh(paths) && fresh(SegSet(paths)) && fresh(BufSet(paths))
    {
      var hop := Sanitize([dst], global)[0];
      var buf := new Hop[1](_ => hop);
      assert buf[0..1] == [hop];
      var s := new RevSegment(Dst, buf, 0, 1, src);
      var p := new ReversePath([s]);
      this.src, this.dst, backoffEndhost := src, dst, backoff;
      paths, deadEnd := [p], {};
      rrHop2RateLimit, rrHop2VPSLeft, rrSpoofRRResponsive := map[], map[], map[];
      tsHop2AdjsLeft, tsUnresponsive := map[], {};
      new;
      assert p.View() == [Seg(Dst, [hop], src)];
    }

    function CurrPath(): (p: ReversePath)
      requires Valid() && paths != []
      reads `paths, paths, SegSet(paths), BufSet(paths)
      ensures p in paths && p.Valid() && p.View() == Top(View())
      ensures |p.segs| == |Top(View())|
    {
      paths[|paths| - 1]
    }

    // ----- the schedules -----

    /** Every initialised hop has the fixed rate limit. */
    ghost predicate Limited()
      reads this
    {
      forall h <- rrHop2VPSLeft :: h in rrHop2RateLimit && rrHop2RateLimit[h] == RATE_LIMIT
    }

    /** Sets the list of a hop: the direct probe, then the spoofers offered; none when the source of
        vantage points fails. */
    method InitializeRRVPs(h: Hop, offer: Offer)
      requires Limited()
      modifies this`rrHop2RateLimit, this`rrHop2VPSLeft
      ensures Limited()
      ensures rrHop2VPSLeft == if offer.Nothing? then old(rrHop2VPSLeft)
                               else old(rrHop2VPSLeft)[h := [NON_SPOOFED] + offer.vps]
    {
      rrHop2RateLimit := rrHop2RateLimit[h := RATE_LIMIT];
      if offer.Vantage? {
        rrHop2VPSLeft := rrHop2VPSLeft[h := [NON_SPOOFED] + offer.vps];
      }
    }

    /** Initialises the hops of the last segment that have no list yet. */
    method InitializeHops(hops: seq<Hop>, offers: nat -> Offer)
      requires Limited()
      modifies this`rrHop2RateLimit, this`rrHop2VPSLeft
      ensures Limited()
      ensures rrHop2VPSLeft == Initialised(old(rrHop2VPSLeft), hops, offers, |hops|)
    {
      for i := 0 to |hops|
        invariant Limited()
        invariant rrHop2VPSLeft == Initialised(old(rrHop2VPSLeft), hops, offers, i)
      {
        if hops[i] !in rrHop2VPSLeft {
          InitializeRRVPs(hops[i], offers(i));
        }
      }
    }

    /** The next batch for a hop of the last segment, or none when no hop can be probed any more. Only
        the list of the target changes. */
    method GetRRVPs(hops: seq<Hop>, sp: Spoofer, offers: nat -> Offer) returns (vps: seq<VP>, target: int)
      requires Limited()
      modifies this`rrHop2RateLimit, this`rrHop2VPSLeft
      ensures Limited()
      ensures var init := Initialised(old(rrHop2VPSLeft), hops, offers, |hops|);
              && target == Target(hops, init, rrSpoofRRResponsive)
              && (target < 0 ==> vps == [] && rrHop2VPSLeft == init)
              && (target >= 0 ==>
                    var h := Hand(init[hops[target]], sp);
                    vps == h.batch && rrHop2VPSLeft == init[hops[target] := h.left])
    {
      InitializeHops(hops, offers);
      target := Target(hops, rrHop2VPSLeft, rrSpoofRRResponsive);
      if target < 0 {
        return [], target;
      }
      var cls := hops[target];
      var left := rrHop2VPSLeft[cls];
      var min := Min(rrHop2RateLimit[cls], |left|);
      if NON_SPOOFED in left[..min] {
        rrHop2VPSLeft := rrHop2VPSLeft[cls := left[1..]];
        return [NON_SPOOFED], target;
      }
      if sp.Some? {
        var newleft := Without(left, sp.vp);
        min := Min(rrHop2RateLimit[cls] - 1, |newleft|);
        rrHop2VPSLeft := rrHop2VPSLeft[cls := newleft[min..]];
        return [sp.vp] + newleft[..min], target;
      }
      rrHop2VPSLeft := rrHop2VPSLeft[cls := left[min..]];
      return left[..min], target;
    }

    /** The next adjacent to try for a hop; the list is fetched at the first call. */
    method GetTSAdjacents(hop: Hop, offered: Adjacents) returns (adjs: seq<Hop>)
      modifies this`tsHop2AdjsLeft
      ensures var init := if hop in old(tsHop2AdjsLeft) || offered.NoAdjacents? then old(tsHop2AdjsLeft)
                          else old(tsHop2AdjsLeft)[hop := offered.hops];
              if hop !in init || init[hop] == [] then adjs == [] && tsHop2AdjsLeft == init
              else adjs == [init[hop][0]] && tsHop2AdjsLeft == init[hop := init[hop][1..]]
    {
      if hop !in tsHop2AdjsLeft && offered.Adjacent? {
        tsHop2AdjsLeft := tsHop2AdjsLeft[hop := offered.hops];
      }
      if hop !in tsHop2AdjsLeft || tsHop2AdjsLeft[hop] == [] {
        return [];
      }
      var min := 1;
      adjs := tsHop2AdjsLeft[hop][..min];
      tsHop2AdjsLeft := tsHop2AdjsLeft[hop := tsHop2AdjsLeft[hop][min..]];
    }

    predicate Failed()
      requires Valid()
      reads this, paths, SegSet(paths), BufSet(paths)
      ensures Failed() == Search.Failed(View(), backoffEndhost)
    {
      assert |paths| == 1 ==> |View()[0]| == |paths[0].segs|;
      assert |paths| == 1 && |paths[0].segs| == 1 ==> View()[0][0].kind == paths[0].segs[0].kind;
      |paths| == 0 || (backoffEndhost && |paths| == 1 && |paths[0].segs| == 1 && paths[0].segs[0].kind.Dst?)
    }

    /** The value of the current path's last segment. */
    function TopSeg(): (s: Seg)
      requires Valid() && paths != [] && CurrPath().segs != []
      reads `paths, paths, SegSet(paths), BufSet(paths)
      ensures s == LastSeg(Top(View()))
    {
      assert CurrPath().View()[|CurrPath().segs| - 1] == CurrPath().LastSeg().View();
      CurrPath().LastSeg().View()
    }

    /** Whether the current path reaches, as it stands for the whole stack. */
    predicate Reaches(cm: ClusterMap)
      requires Valid()
      reads `paths, paths, SegSet(paths), BufSet(paths)
      ensures Reaches(cm) == (View() != [] && PathReaches(Top(View()), cm))
    {
      paths != [] && CurrPath().segs != [] && Segments.Reaches(TopSeg(), cm)
    }

    /** Puts a path on the stack. */
    method Push(p: ReversePath)
      requires Valid() && p.Valid()
      modifies this`paths
      ensures Valid() && paths == old(paths) + [p]
      ensures View() == old(View()) + [old(p.View())]
    {
      ghost var v := p.View();
      paths := paths + [p];
      assert p.View() == v;
      assert forall i :: 0 <= i < |old(paths)| ==> paths[i].View() == old(View())[i];
    }

    /** Marks the current path's last hop as a dead end and pops every path that ends in one, down to a
        path assuming symmetry. */
    method FailCurrPath()
      requires Valid() && paths != [] && NonEmpty(View())
      modifies this`paths, this`deadEnd
      ensures Valid() && paths <= old(paths)
      ensures State() == FailTop(old(State()), backoffEndhost)
    {
      MarkDead(CurrPath().LastHop());
      PopDeadPaths();
    }

    method PopDeadPaths()
      requires Valid() && NonEmpty(View())
      modifies this`paths
      ensures Valid() && paths <= old(paths)
      ensures View() == PopDead(old(View()), deadEnd, backoffEndhost)
    {
      hide LastOf, Views, SegSet, BufSet, Search.Failed;
      ghost var before := View();
      while !Failed() && CurrPath().LastHop() in deadEnd && !CurrPath().LastSeg().kind.DstSym?
        invariant Valid() && paths <= old(paths) && NonEmpty(View())
        invariant PopDead(View(), deadEnd, backoffEndhost) == PopDead(before, deadEnd, backoffEndhost)
        decreases |paths|
      {
        Drop();
      }
    }

    method MarkDead(h: Hop)
      requires Valid()
      modifies this`deadEnd
      ensures Valid() && deadEnd == old(deadEnd) + {h} && View() == old(View())
    {
      deadEnd := deadEnd + {h};
      assert forall i :: 0 <= i < |paths| ==> paths[i].View() == old(View())[i];
    }

    method Drop()
      requires Valid() && paths != []
      modifies this`paths
      ensures Valid() && paths == old(paths)[..|old(paths)| - 1]
      ensures View() == old(View())[..|old(View())| - 1]
    {
      paths := paths[..|paths| - 1];
      assert forall i :: 0 <= i < |paths| ==> paths[i].View() == old(View())[i];
    }

    /** Stacks a copy of the current path with its last segment replaced. */
    method AddAndReplaceSegment(s: RevSegment) returns (added: bool)
      requires Valid() && paths != [] && NonEmpty(View())
      requires s.Valid()
      modifies this`paths
      ensures Valid()
      ensures added <==> LastOf(s.Hops()) !in deadEnd
      ensures View() == old(View()) + if added then [ReplaceLast(Top(old(View())), s.View())] else []
    {
      if LastOf(s.Hops()) in deadEnd {
        return false;
      }
      assert Top(View()) != [];
      ghost var before, v := View(), s.View();
      var basePath := CopyReplacing(CurrPath(), s);
      assert forall i :: 0 <= i < |paths| ==> paths[i].View() == before[i];
      assert View() == before;
      hide Views, SegSet, BufSet, ReplaceLast, LastOf;
      Push(basePath);
      assert s.View() == v;
      return true;
    }

    /** Stacks a copy of `base` with `s` itself on top. */
    method PushCopy(base: ReversePath, s: RevSegment)
      requires Valid() && base.Valid() && s.Valid()
      modifies this`paths
      ensures Valid() && base.Valid() && s.Valid()
      ensures base.View() == old(base.View())
      ensures View() == old(View()) + [ClonePath(old(base.View())) + [old(s.View())]]
      ensures Grew(old(paths), paths, s)
      ensures fresh(paths[|paths| - 1])
      ensures var q := paths[|paths| - 1].segs; forall j :: 0 <= j < |q| - 1 ==> fresh(q[j])
    {
      ghost var before, baseView := View(), base.View();
      var cl := CopyAdding(base, s);
      assert forall i :: 0 <= i < |paths| ==> paths[i].View() == before[i];
      assert View() == before && base.View() == baseView;
      hide Views, SegSet, BufSet, ClonePath;
      Push(cl);
      assert base.View() == baseView;
    }

    /** The hops of `base`; reading them disturbs neither the stack nor the candidate. */
    method HopsBelow(base: ReversePath, ghost s: RevSegment) returns (hops: seq<Hop>)
      requires Valid() && base.Valid() && s.Valid()
      ensures Valid() && base.Valid() && s.Valid()
      ensures hops == HopsOf(base.View())
      ensures View() == old(View()) && base.View() == old(base.View()) && s.View() == old(s.View())
    {
      ghost var before := View();
      hops := base.Hops();
      assert forall i :: 0 <= i < |paths| ==> paths[i].View() == before[i];
    }

    /** Cuts loops out of a candidate, disturbing neither the stack nor `base`. */
    method CutLoops(toDel: seq<Hop>, ghost base: ReversePath, s: RevSegment, cm: ClusterMap) returns (err: bool)
      requires Valid() && base.Valid() && s.Valid()
      requires s !in SegSet(paths) && s !in base.segs
      modifies s`lo, s`len
      ensures Valid() && base.Valid() && s.Valid()
      ensures View() == old(View()) && base.View() == old(base.View())
      ensures s.View() == old(s.View()).(hops := Kept(old(s.Hops()), toDel, cm))
      ensures err <==> StillLoops(s.Hops(), toDel)
    {
      hide Kept, StillLoops;
      ghost var before, baseView := View(), base.View();
      err := s.RemoveHops(toDel, cm);
      assert forall i :: 0 <= i < |paths| ==> paths[i].View() == before[i];
      assert View() == before && base.View() == baseView;
    }

    /** One candidate of AddSegments: skipped if it ends in a dead end or loops all the way, refused if
        loop removal fails, otherwise stacked on a copy of `base`. */
    method TrySegment(base: ReversePath, s: RevSegment, cm: ClusterMap) returns (a: Attempt)
      requires Valid() && base.Valid() && s.Valid()
      requires s !in SegSet(paths) && s !in base.segs
      modifies this`paths, s`lo, s`len
      ensures Valid() && base.Valid() && base.View() == old(base.View())
      ensures a == AttemptOf(old(base.View()), deadEnd, old(s.View()), cm)
      ensures View() == old(View()) + if a.Stacked? then [StackedPath(old(base.View()), old(s.View()), cm)] else []
      ensures if a.Stacked? then Grew(old(paths), paths, s) && fresh(paths[|paths| - 1])
                                 && var q := paths[|paths| - 1].segs; forall j :: 0 <= j < |q| - 1 ==> fresh(q[j])
              else paths == old(paths)
    {
      hide Kept, StillLoops, LastOf, Views, SegSet, BufSet, ClonePath;
      if LastOf(s.Hops()) in deadEnd {
        return Skipped;
      }
      var hops := HopsBelow(base, s);
      var err := CutLoops(hops, base, s, cm);
      if err {
        return Erred;
      }
      if s.len == 0 {
        return Skipped;
      }
      PushCopy(base, s);
      return Stacked;
    }

    /** Stacks, on copies of the current path, every candidate that neither ends in a dead end nor loops
        all the way, in the order of the comparator; `cands` is that order. */
    method AddSegments(segs: seq<RevSegment>, cm: ClusterMap)
      returns (added: bool, ghost cands: seq<Seg>, ghost err: bool)
      requires Valid() && paths != [] && Fresh(segs, paths)
      modifies this`paths, segs
      ensures Valid()
      ensures multiset(cands) == multiset(old(Values(segs))) && InOrder(cands, cm)
      ensures Candidates(cands, src) ==> Sorted(cands, cm)
      ensures var pushed := PushAll(ClonePath(Top(old(View()))), deadEnd, cands, cm);
              && View() == old(View()) + pushed.paths
              && err == pushed.err && added == (!err && pushed.paths != [])
      ensures old(paths) <= paths
    {
      hide Kept, StillLoops, LastOf, Views, SegSet, BufSet, ClonePath, HopsOf, Values, Sorted, InOrder,
           Segments.Candidates, Distinct, ValidSegs, PushAll, SortedSegs;
      SortedSegsSorts(segs, cm);
      var order := SortedSegs(segs, cm);
      cands := Values(order);
      if Candidates(cands, src) {
        InOrderSorted(cands, src, cm);
      }
      SortedFresh(segs, paths, cm);
      var basePath := CopyCurrent(order);
      CloneTwice(Top(View()));
      added, err := StackAll(order, cands, basePath, cm);
    }

    /** The loop of AddSegments over the candidates in order. */
    method StackAll(order: seq<RevSegment>, ghost cands: seq<Seg>, basePath: ReversePath, cm: ClusterMap)
      returns (added: bool, ghost err: bool)
      requires Valid() && basePath.Valid() && Waiting(order, 0, cands, basePath)
      requires ClonePath(basePath.View()) == basePath.View()
      modifies this`paths, order
      ensures Valid()
      ensures var pushed := PushAll(old(basePath.View()), deadEnd, cands, cm);
              && View() == old(View()) + pushed.paths
              && err == pushed.err && added == (!err && pushed.paths != [])
      ensures old(paths) <= paths
    {
      hide Kept, StillLoops, LastOf, Views, SegSet, BufSet, ClonePath, HopsOf, PushAll, AttemptOf, StackedPath,
           Distinct, Waiting;
      ghost var before, base := View(), basePath.View();
      ghost var all := PushAll(base, deadEnd, cands, cm);
      ghost var done: seq<Path> := [];
      added := false;
      var i := 0;
      while i < |order|
        invariant 0 <= i <= |order| && Valid() && basePath.Valid() && basePath.View() == base
        invariant Waiting(order, i, cands, basePath)
        invariant View() == before + done && old(paths) <= paths
        invariant all
          == PushAll(base, deadEnd, cands[i..], cm).(paths := done + PushAll(base, deadEnd, cands[i..], cm).paths)
        invariant added == (done != [])
      {
        PushStep(base, deadEnd, cands[i..], cm);
        assert cands[i..][1..] == cands[i+1..];
        var a := StackNext(order, i, cands, basePath, cm);
        if a.Erred? {
          return false, true;
        }
        if a.Stacked? {
          added := true;
          done := done + [StackedPath(base, cands[i], cm)];
        }
        i := i + 1;
      }
      PushNone(base, deadEnd, cands[i..], cm);
      err := false;
    }

    /** The candidate at `i`; those after it still wait untouched. */
    method StackNext(order: seq<RevSegment>, i: nat, ghost cands: seq<Seg>, basePath: ReversePath, cm: ClusterMap)
      returns (a: Attempt)
      requires Valid() && basePath.Valid() && i < |order| && Waiting(order, i, cands, basePath)
      modifies this`paths, order[i]
      ensures Valid() && basePath.Valid() && Waiting(order, i + 1, cands, basePath)
      ensures basePath.View() == old(basePath.View())
      ensures a == AttemptOf(old(basePath.View()), deadEnd, cands[i], cm)
      ensures View() == old(View()) + if a.Stacked? then [StackedPath(old(basePath.View()), cands[i], cm)] else []
      ensures old(paths) <= paths
    {
      hide AttemptOf, StackedPath, Views, BufSet;
      ghost var before := paths;
      a := TrySegment(basePath, order[i], cm);
      assert forall k :: i < k < |order| ==> order[k].View() == cands[k];
      if a.Stacked? {
        ghost var q := paths[|paths| - 1];
        assert paths == before + [q];
      }
    }

    /** The first stacked path, from the bottom, sharing a cluster with `h`, and where. */
    method FindMeeting(h: Hop, cm: ClusterMap) returns (i: nat, index: int)
      requires Valid()
      ensures Valid() && View() == old(View())
      ensures i == FirstMeeting(View(), h, cm)
      ensures i < |paths| ==> index == FirstCluster(HopsOf(View()[i]), h, cm)
    {
      hide Views, SegSet, BufSet, FirstCluster, HopsOf;
      i, index := 0, -1;
      while i < |paths|
        invariant 0 <= i <= |paths| && Valid() && View() == old(View())
        invariant forall k :: 0 <= k < i ==> FirstCluster(HopsOf(View()[k]), h, cm) < 0
      {
        var hops := HopsAt(i);
        index := FirstCluster(hops, h, cm);
        if index != -1 {
          FirstMeetingUnique(View(), h, cm, i);
          return;
        }
        i := i + 1;
      }
      FirstMeetingUnique(View(), h, cm, i);
    }

    method HopsAt(i: nat) returns (hops: seq<Hop>)
      requires Valid() && i < |paths|
      ensures Valid() && View() == old(View()) && hops == HopsOf(View()[i])
    {
      ghost var before := View();
      hops := paths[i].Hops();
      assert forall k :: 0 <= k < |paths| ==> paths[k].View() == before[k];
    }

    /** Splices a background traceroute in where it meets a stacked path: a copy of that path, cut back to
        the meeting point, is stacked, and the traceroute on top of a copy of that. When the traceroute
        cannot be added the stack is as before. */
    method AddBackgroundTRSegment(trSeg: RevSegment, cm: ClusterMap) returns (r: Splicing)
      requires Valid() && trSeg.Valid() && trSeg !in SegSet(paths) && Spliceable(View(), trSeg.View())
      modifies this`paths, trSeg
      ensures Valid()
      ensures var s := Splice(old(View()), deadEnd, old(trSeg.View()), cm);
              match r
              case Stacks => s == Added(View())
              case Leaves => s == NotAdded && paths == old(paths) && View() == old(View())
              case Panics => s == Crashed && paths == old(paths) && View() == old(View())
    {
      hide Views, SegSet, BufSet, FirstCluster, FirstMeeting, HopsOf, ClonePath, AllNonEmpty, TrimPath, LastOf, Private;
      ghost var before := View();
      var first := trSeg.Hops()[0];
      var i, index := FindMeeting(first, cm);
      if i == |paths| {
        return Leaves;
      }
      var ok, found := CutMeeting(i, index, first, trSeg);
      if !ok {
        return Panics;
      }
      PushFound(found, trSeg);
      assert View()[..|before|] == before;
      var added := AddOne(trSeg, cm);
      if added {
        return Stacks;
      }
      Unstack(found);
      return Leaves;
    }

    /** A copy of stacked path `i`, cut back to the meeting point. */
    method CutMeeting(i: nat, index: nat, first: Hop, ghost tr: RevSegment) returns (ok: bool, found: ReversePath)
      requires Valid() && i < |paths| && tr.Valid() && tr !in SegSet(paths)
      requires AllNonEmpty(View()[i]) && index < |HopsOf(View()[i])|
      ensures Valid() && View() == old(View()) && tr.Valid() && tr.View() == old(tr.View())
      ensures fresh(found) && found !in paths
      ensures HopsOf(ClonePath(View()[i])) == HopsOf(View()[i]) && AllNonEmpty(ClonePath(View()[i]))
      ensures ok ==> found.Valid() && tr !in found.segs
                     && TrimPath(ClonePath(View()[i]), index, first) == Trimmed(found.View())
      ensures !ok ==> TrimPath(ClonePath(View()[i]), index, first) == Panicked
    {
      hide Views, SegSet, BufSet, HopsOf, ClonePath, AllNonEmpty, TrimPath, Private, Apart;
      CloneHops(View()[i]);
      CloneNonEmpty(View()[i]);
      found := CopyAt(i, tr);
      ok := CutCopy(found, index, first, tr);
    }

    method PushFound(found: ReversePath, ghost tr: RevSegment)
      requires Valid() && found.Valid() && tr.Valid() && tr !in SegSet(paths) && tr !in found.segs
      modifies this`paths
      ensures Valid() && paths == old(paths) + [found] && View() == old(View()) + [old(found.View())]
      ensures tr.Valid() && tr.View() == old(tr.View()) && tr !in SegSet(paths)
    {
      Push(found);
    }

    /** AddSegments with a single candidate. */
    method AddOne(s: RevSegment, cm: ClusterMap) returns (added: bool)
      requires Valid() && paths != [] && s.Valid() && s !in SegSet(paths)
      modifies this`paths, s
      ensures Valid()
      ensures var pushed := PushAll(ClonePath(Top(old(View()))), deadEnd, [old(s.View())], cm);
              && View() == old(View()) + pushed.paths
              && added == (pushed.paths != []) && (pushed.err ==> pushed.paths == [])
              && (!added ==> paths == old(paths))
    {
      ghost var v := s.View();
      assert Values([s]) == [v];
      ghost var cands, err;
      added, cands, err := AddSegments([s], cm);
      OnlyOne(cands, v);
      SingleErr(ClonePath(Top(old(View()))), deadEnd, v, cm);
    }

    /** Takes the path off the stack again. */
    method Unstack(found: ReversePath)
      requires Valid() && paths != [] && found !in paths[..|paths| - 1] && found == paths[|paths| - 1]
      modifies this`paths
      ensures Valid() && paths == old(paths)[..|old(paths)| - 1] && View() == old(View())[..|old(View())| - 1]
    {
      var range := paths;
      for i := 0 to |range|
        invariant Valid()
        invariant i < |range| ==> paths == range && View() == old(View())
        invariant i == |range| ==> paths == range[..|range| - 1] && View() == old(View())[..|range| - 1]
      {
        if range[i] == found {
          assert i == |range| - 1;
          Drop();
        }
      }
    }

    /** A private copy of stacked path `i`. */
    method CopyAt(i: nat, ghost tr: RevSegment) returns (found: ReversePath)
      requires Valid() && i < |paths| && tr.Valid()
      ensures Valid() && View() == old(View()) && tr.Valid() && tr.View() == old(tr.View())
      ensures fresh(found) && found.Valid() && Private(found) && found.View() == ClonePath(View()[i])
      ensures forall k :: 0 <= k < |found.segs| ==> fresh(found.segs[k]) && fresh(found.segs[k].buf)
      ensures Apart(found, tr)
    {
      hide ClonePath, Private;
      ghost var before := View();
      assert paths[i].View() == before[i];
      found := paths[i].Clone();
      assert forall k :: 0 <= k < |paths| ==> paths[k].View() == before[k];
    }

    /** Cuts a private copy back to position `index`; neither the stack nor the traceroute can tell. */
    method CutCopy(found: ReversePath, index: nat, first: Hop, ghost tr: RevSegment) returns (ok: bool)
      requires Valid() && tr.Valid() && found.Valid() && Private(found) && Apart(found, tr)
      requires AllNonEmpty(found.View()) && index < |HopsOf(found.View())|
      modifies found, found.segs, found.Bufs()
      ensures Valid() && View() == old(View()) && tr.Valid() && tr.View() == old(tr.View())
      ensures ok ==> found.Valid() && found !in paths && tr !in found.segs
      ensures ok ==> TrimPath(old(found.View()), index, first) == Trimmed(found.View())
      ensures !ok ==> TrimPath(old(found.View()), index, first) == Panicked
    {
      hide HopsOf, TrimPath, Private;
      ghost var before, v := View(), tr.View();
      ok := Background.CutPath(found, index, first);
      assert forall k :: 0 <= k < |paths| ==> paths[k].View() == before[k];
      assert View() == before && tr.View() == v;
    }

    /** Nothing of the path is on the stack or belongs to the traceroute. */
    ghost predicate Apart(p: ReversePath, tr: RevSegment)
      reads this, paths, SegSet(paths), p, p.segs, tr
    {
      && p !in paths
      && forall k :: 0 <= k < |p.segs| ==>
           && p.segs[k] !in SegSet(paths) && p.segs[k].buf !in BufSet(paths)
           && p.segs[k] != tr && p.segs[k].buf != tr.buf
    }

    /** The copy of the current path that candidates are stacked on. */
    method CopyCurrent(order: seq<RevSegment>) returns (base: ReversePath)
      requires Valid() && paths != [] && Fresh(order, paths)
      ensures fresh(base) && base.Valid() && base.View() == ClonePath(Top(View()))
      ensures Valid() && View() == old(View())
      ensures Waiting(order, 0, old(Values(order)), base)
    {
      hide ClonePath, Private, RevSegment.View, RevSegment.Hops;
      ghost var before, cands := View(), Values(order);
      base := CurrPath().Clone();
      assert forall i :: 0 <= i < |paths| ==> paths[i].View() == before[i];
    }

    /** The candidates from `i` on are untouched and not yet part of any path. */
    ghost predicate Waiting(order: seq<RevSegment>, i: nat, cands: seq<Seg>, base: ReversePath): (w: bool)
      reads this, paths, SegSet(paths), order, (set k | 0 <= k < |order| :: order[k].buf), base
      ensures w ==> |order| == |cands|
    {
      && |order| == |cands| && Distinct(order)
      && forall k :: i <= k < |order| ==>
           order[k].Valid() && order[k].View() == cands[k] && order[k] !in SegSet(paths) && order[k] !in base.segs
    }
  }

  lemma OnlyOne(s: seq<Seg>, v: Seg)
    requires multiset(s) == multiset([v])
    ensures s == [v]
  {
    assert |multiset(s)| == |s|;
    assert s[0] in multiset(s);
  }

  lemma SingleErr(base: Path, dead: set<Hop>, s: Seg, cm: ClusterMap)
    ensures PushAll(base, dead, [s], cm).err ==> PushAll(base, dead, [s], cm).paths == []
  {
    hide Kept, HopsOf, StillLoops;
    assert [s][1..] == [] && !PushAll(base, dead, [], cm).err;
  }

  lemma CloneTwice(p: Path)
    ensures ClonePath(ClonePath(p)) == ClonePath(p)
  {
  }

  lemma PushNone(base: Path, dead: set<Hop>, cands: seq<Seg>, cm: ClusterMap)
    requires cands == []
    ensures PushAll(base, dead, cands, cm) == Pushed([], false)
  {
  }

  lemma SortedFresh(segs: seq<RevSegment>, ps: seq<ReversePath>, cm: ClusterMap)
    requires Fresh(segs, ps)
    ensures Fresh(SortedSegs(segs, cm), ps)
  {
    hide SegSet;
    SortedSegsSorts(segs, cm);
  }

  lemma PushStep(base: Path, dead: set<Hop>, cands: seq<Seg>, cm: ClusterMap)
    requires cands != [] && ClonePath(base) == base
    ensures var a := AttemptOf(base, dead, cands[0], cm);
            var rest := PushAll(base, dead, cands[1..], cm);
            PushAll(base, dead, cands, cm)
            == if a.Erred? then Pushed([], true)
               else if a.Skipped? then rest
               else rest.(paths := [StackedPath(base, cands[0], cm)] + rest.paths)
  {
    hide Kept, StillLoops, HopsOf, ClonePath;
  }

  /** The candidates in sorted order. */
  function SortedSegs(segs: seq<RevSegment>, cm: ClusterMap): (r: seq<RevSegment>)
    requires ValidSegs(segs)
    reads segs, set i | 0 <= i < |segs| :: segs[i].buf
    ensures |r| == |segs| && forall i :: 0 <= i < |r| ==> r[i] in segs
  {
    var perm := SortIndices(Values(segs), cm, |segs|);
    seq(|segs|, i requires 0 <= i < |segs| => segs[perm[i]])
  }

  lemma SortedSegsSorts(segs: seq<RevSegment>, cm: ClusterMap)
    requires ValidSegs(segs) && Distinct(segs)
    ensures var r := SortedSegs(segs, cm);
            && Distinct(r) && ValidSegs(r) && InOrder(Values(r), cm)
            && multiset(Values(r)) == multiset(Values(segs))
  {
    hide Less, LastOf, NonNull;
    var vals := Values(segs);
    SortIndicesSorts(vals, cm, |segs|);
    assert vals[..|segs|] == vals;
    assert Values(SortedSegs(segs, cm)) == Pick(vals, SortIndices(vals, cm, |segs|));
  }

  /** One more path is stacked, and `s` is its last segment. */
  ghost predicate Grew(before: seq<ReversePath>, after: seq<ReversePath>, s: RevSegment)
    reads after
  {
    && |after| == |before| + 1 && after[..|before|] == before
    && after[|before|].segs != [] && after[|before|].segs[|after[|before|].segs| - 1] == s
  }

  /** What the adjacency database answers. */
  datatype Adjacents = NoAdjacents | Adjacent(hops: seq<Hop>)

  /** How a splice ends: added, not added, or in one of Go's run-time panics. */
  datatype Splicing = Stacks | Leaves | Panics

  datatype Attempt = Skipped | Erred | Stacked

  function AttemptOf(base: Path, dead: set<Hop>, s: Seg, cm: ClusterMap): Attempt {
    if LastOf(s.hops) in dead then Skipped
    else
      var kept := Kept(s.hops, HopsOf(base), cm);
      if StillLoops(kept, HopsOf(base)) then Erred
      else if kept == [] then Skipped
      else Stacked
  }

  function StackedPath(base: Path, s: Seg, cm: ClusterMap): Path {
    ClonePath(base) + [s.(hops := Kept(s.hops, HopsOf(base), cm))]
  }
}
