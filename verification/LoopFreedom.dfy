/** No path built from answers without loops has a loop, unless growing a symmetric segment makes one: over
    whole calls of AddSegments, when a traceroute is spliced in, and over runs to their very end. */
module LoopFreedom {
  import opened Sequences
  import opened Hops
  import opened Segments
  import opened Search
  import opened Trim
  import opened Roots
  import opened Candidates
  import opened Answers
  import LoopErasure

  /** No answering hop twice, and the silent address in one segment at most. */
  ghost predicate Tidy(p: Path) {
    LoopFree(HopsOf(p)) && SilentOnce(p)
  }

  ghost predicate AllTidy(paths: seq<Path>) {
    forall i :: 0 <= i < |paths| ==> Tidy(paths[i])
  }

  /** What a segment may grow to: the way back along its traceroute repeats no answering hop. */
  ghost predicate Sound(s: Seg) {
    s.kind.DstSym? ==> s.kind.tr != [] && LoopFree(Backwards(s.src, s.kind.tr))
  }

  ghost predicate AllSound(paths: seq<Path>) {
    forall i, j :: 0 <= i < |paths| && 0 <= j < |paths[i]| ==> Sound(paths[i][j])
  }

  ghost predicate AllLoopFree(cands: seq<Seg>) {
    forall s <- cands :: LoopFree(s.hops) && Sound(s)
  }

  // ----- one call -----

  /** Whatever AddSegments stacks on a tidy path is tidy. */
  lemma PushedTidy(base: Path, dead: set<Hop>, cands: seq<Seg>, cm: ClusterMap)
    requires Tidy(base) && AllLoopFree(cands)
    ensures AllTidy(PushAll(base, dead, cands, cm).paths)
  {
    hide HopsOf, PushAll, Extends, LoopFree, SilentOnce;
    var paths := PushAll(base, dead, cands, cm).paths;
    forall k | 0 <= k < |paths|
      ensures Tidy(paths[k])
    {
      var i := PushedFrom(base, dead, cands, cm, paths, k);
      assert cands[i] in cands;
      ExtendsLoopFree(paths[k], base, dead, cands[i], cm);
      ExtendsSilentOnce(paths[k], base, dead, cands[i], cm);
    }
  }

  lemma CloneTidy(p: Path)
    requires Tidy(p)
    ensures Tidy(ClonePath(p))
  {
    hide HopsOf, LoopFree;
    CloneHops(p);
  }

  /** A call of AddSegments with candidates that repeat no answering hop keeps every path tidy. */
  lemma ExtendKeepsTidy(st: Stack, cands: seq<Seg>, cm: ClusterMap)
    requires st.paths != [] && AllTidy(st.paths) && AllLoopFree(cands)
    ensures AllTidy(Extended(st, cands, cm).paths)
  {
    hide Tidy, PushAll, ClonePath;
    CloneTidy(Top(st.paths));
    PushedTidy(ClonePath(Top(st.paths)), st.dead, cands, cm);
  }

  lemma ExtendKeepsSound(st: Stack, cands: seq<Seg>, cm: ClusterMap)
    requires st.paths != [] && AllSound(st.paths) && AllLoopFree(cands)
    ensures AllSound(Extended(st, cands, cm).paths)
  {
    hide PushAll, LoopFree, HopsOf, Kept;
    var base, paths := ClonePath(Top(st.paths)), Extended(st, cands, cm).paths;
    var pushed := PushAll(base, st.dead, cands, cm).paths;
    forall i, j | 0 <= i < |paths| && 0 <= j < |paths[i]|
      ensures Sound(paths[i][j])
    {
      if i >= |st.paths| {
        var k := PushedFrom(base, st.dead, cands, cm, pushed, i - |st.paths|);
        assert cands[k] in cands;
        if j < |base| {
          assert Sound(Top(st.paths)[j]);
        }
      }
    }
  }

  lemma BacktrackKeepsTidy(st: Stack, backoff: bool)
    requires st.paths != [] && NonEmpty(st.paths) && AllTidy(st.paths)
    ensures AllTidy(FailTop(st, backoff).paths)
  {
    hide Tidy, PopDead, Sound;
  }

  lemma BacktrackKeepsSound(st: Stack, backoff: bool)
    requires st.paths != [] && NonEmpty(st.paths) && AllSound(st.paths)
    ensures AllSound(FailTop(st, backoff).paths)
  {
    hide Sound, PopDead;
  }

  // ----- candidates of answers without loops -----

  lemma SanitizeLoopFree(hops: seq<Hop>, global: Hop -> bool)
    requires LoopFree(hops)
    ensures LoopFree(Sanitize(hops, global))
  {
    var r := Sanitize(hops, global);
    forall i, j | 0 <= i < j < |r| && r[i] == r[j]
      ensures r[i] == ZERO
    {
      var x, y := hops[i], hops[j];
      assert x == y ==> x == ZERO;
    }
  }

  lemma PrefixLoopFree(hops: seq<Hop>, n: nat)
    requires n <= |hops| && LoopFree(hops)
    ensures LoopFree(hops[..n])
  {
    forall i, j | 0 <= i < j < n && hops[..n][i] == hops[..n][j]
      ensures hops[..n][i] == ZERO
    {
      assert hops[i] == hops[j];
    }
  }

  lemma {:induction false} PrefixesLoopFree(rr: seq<Hop>, n: nat, kind: Kind, src: Hop, global: Hop -> bool)
    requires n <= |rr| && LoopFree(rr) && !kind.DstSym?
    ensures AllLoopFree(Prefixes(rr, n, kind, src, global))
  {
    hide LoopFree, Sanitize;
    if n > 0 {
      PrefixesLoopFree(rr, n - 1, kind, src, global);
      PrefixLoopFree(rr, n);
      SanitizeLoopFree(rr[..n], global);
    }
  }

  lemma {:induction false} SpoofedLoopFree(rrs: seq<Spoofed>, n: nat, src: Hop, global: Hop -> bool)
    requires n <= |rrs| && forall s <- rrs :: LoopFree(s.rr)
    ensures AllLoopFree(SpoofedValues(rrs, n, src, global))
  {
    hide LoopFree, Prefixes;
    if n > 0 {
      SpoofedLoopFree(rrs, n - 1, src, global);
      assert rrs[n-1] in rrs;
      PrefixesLoopFree(rrs[n-1].rr, |rrs[n-1].rr|, SpoofRR(rrs[n-1].vp), src, global);
    }
  }

  lemma {:induction false} StampedLoopFree(lists: seq<seq<Hop>>, n: nat, kind: Kind, src: Hop, global: Hop -> bool)
    requires n <= |lists| && !kind.DstSym? && forall s <- lists :: LoopFree(s)
    ensures AllLoopFree(Stamped(lists, n, kind, src, global))
  {
    hide LoopFree, Sanitize;
    if n > 0 {
      StampedLoopFree(lists, n - 1, kind, src, global);
      assert lists[n-1] in lists;
      SanitizeLoopFree(lists[n-1], global);
    }
  }

  lemma SymmetricLoopFree(st: Stack, trace: seq<Hop>, src: Hop, global: Hop -> bool)
    requires st.paths != [] && trace != [] && src != ZERO && LoopFree(Backwards(src, trace))
    ensures AllLoopFree([Symmetric(st, trace, src, global)])
  {
    hide LoopFree, Sanitize, Select;
    var rev := Backwards(src, trace);
    assert rev[|rev| - 1] in rev;
    var chosen := Select(rev, 1, Passed(st));
    assert chosen == rev[..|chosen|];
    PrefixLoopFree(rev, |chosen|);
    SanitizeLoopFree(chosen, global);
  }

  /** No list of the answer repeats an answering hop, nor does the way back along its traceroute. */
  ghost predicate LoopFreeAnswer(a: Answer, src: Hop) {
    && (a.rr.Just? ==> LoopFree(a.rr.v))
    && (forall s <- a.spoofed :: LoopFree(s.rr))
    && (a.stamped.Just? ==> forall s <- a.stamped.v :: LoopFree(s))
    && (a.trace.Just? && a.trace.v != [] ==> LoopFree(Backwards(src, a.trace.v)))
    && (a.path.Just? ==> LoopFree(a.path.v))
    && (a.background.Just? ==> LoopFree(a.background.v))
  }

  lemma TriedLoopFree(a: Answer, how: Cause, cands: seq<Seg>, st: Stack, w: World, c: Context)
    requires Tried(a, how, cands, st, w, c) && LoopFreeAnswer(a, c.src) && !a.stampKind.DstSym?
    ensures AllLoopFree(cands)
  {
    hide LoopFree, Prefixes, SpoofedValues, Stamped, Symmetric, Sound;
    var values :| Makes(a, how, values, st, w, c) && multiset(cands) == multiset(values);
    if how == RecordRoutes {
      PrefixesLoopFree(a.rr.v, |a.rr.v|, RR, c.src, w.global);
    } else if how == SpoofedRoutes {
      SpoofedLoopFree(a.spoofed, |a.spoofed|, c.src, w.global);
    } else if how == Timestamps {
      StampedLoopFree(a.stamped.v, |a.stamped.v|, a.stampKind, c.src, w.global);
    } else {
      SymmetricLoopFree(st, a.trace.v, c.src, w.global);
    }
    forall s | s in cands
      ensures LoopFree(s.hops) && Sound(s)
    {
      assert s in multiset(cands);
      assert s in values;
    }
  }

  /** What processRR leaves of a record route repeats no hop. */
  lemma ErasedLoopFree(hops: seq<Hop>, r: seq<Hop>, cm: ClusterMap)
    requires LoopErasure.IsErasure(hops, r, cm)
    ensures LoopFree(r)
  {
    hide LoopErasure.Erased;
    var idx :| LoopErasure.Erased(hops, idx, cm) && r == LoopErasure.At(hops, idx);
    LoopErasure.ErasedLoopFree(hops, idx, cm);
  }

  // ----- growing -----

  lemma LoopFreeParts(a: seq<Hop>, b: seq<Hop>)
    requires LoopFree(a) && LoopFree(b)
    ensures LoopFree(a + b) <==> forall h <- b :: h == ZERO || h !in a
  {
    if forall h <- b :: h == ZERO || h !in a {
      forall i, j | 0 <= i < j < |a + b| && (a + b)[i] == (a + b)[j]
        ensures (a + b)[i] == ZERO
      {
        if j < |a| {
          assert a[i] == a[j];
        } else if |a| <= i {
          assert b[i - |a|] == b[j - |a|];
        } else {
          assert b[j - |a|] in b;
        }
      }
    } else {
      var h :| h in b && h != ZERO && h in a;
      var i :| 0 <= i < |a| && a[i] == h;
      var j :| 0 <= j < |b| && b[j] == h;
      assert (a + b)[i] == (a + b)[|a| + j];
    }
  }

  lemma GrownHops(st: Stack)
    requires CanGrow(st)
    ensures var p := Top(st.paths);
            HopsOf(Top(Grown(st).paths)) == HopsOf(p[..|p| - 1]) + GrowSeg(LastSeg(p), Ignored(p, st.dead)).hops
  {
    hide HopsOf, GrowSeg, Ignored, ClonePath;
    var p := Top(st.paths);
    ClonePrefix(p, |p| - 1);
    HopsOfOnTop(ClonePath(p)[..|p| - 1], GrowSeg(LastSeg(p), Ignored(p, st.dead)));
  }

  lemma GrownLoopFree(s: Seg, ignore: set<Hop>)
    requires Growable(s) && LoopFree(Backwards(s.src, s.kind.tr))
    ensures LoopFree(GrowSeg(s, ignore).hops)
  {
    hide LoopFree, Select;
    var rev, chosen := Backwards(s.src, s.kind.tr), GrowSeg(s, ignore).hops;
    assert chosen == rev[..|chosen|];
    PrefixLoopFree(rev, |chosen|);
  }

  /** What a growth adds: the hops back before the one that makes up the number. */
  lemma SelectedAt(rev: seq<Hop>, n: nat, ignore: set<Hop>, r: seq<Hop>, k: nat)
    requires IsSelection(rev, n, ignore, r) && n > 0 && k < |rev| && rev[|rev| - 1] != ZERO
    ensures k < |r| <==> Count(rev[..k], ignore) < n
  {
    assert r == rev[..|r|];
    if n <= Count(rev, ignore) {
      if k < |r| {
        assert r[..|r| - 1][..k] == rev[..k];
        CountMonotone(r[..|r| - 1], ignore, k);
      } else {
        assert rev[..k][..|r|] == r;
        CountMonotone(rev[..k], ignore, |r|);
      }
    } else {
      CountMonotone(rev, ignore, k);
    }
  }

  /** One more hop can be assumed, and no hop back that would come with it is on the path below, the silent
      address only counting if `silent`. */
  ghost predicate GrowthFits(st: Stack, silent: bool) {
    && CanGrow(st)
    && var p := Top(st.paths);
       var s := LastSeg(p);
       var rev := Backwards(s.src, s.kind.tr);
       forall k :: 0 <= k < |rev| && rev[k] in HopsOf(Under(p)) && (silent || rev[k] != ZERO) ==>
         Count(rev[..k], Ignored(p, st.dead)) > s.kind.numHops
  }

  /** The hops assumed keep clear of the path below exactly then. */
  lemma ClearExactly(st: Stack, silent: bool)
    requires CanGrow(st)
    ensures var p := Top(st.paths);
            var assumed := GrowSeg(LastSeg(p), Ignored(p, st.dead)).hops;
            (forall h <- assumed :: h in HopsOf(Under(p)) ==> !silent && h == ZERO) <==> GrowthFits(st, silent)
  {
    hide HopsOf, Count, Ignored, IsSelection, Select, GrowSeg;
    var p := Top(st.paths);
    var s, ignore := LastSeg(p), Ignored(p, st.dead);
    var assumed := GrowSeg(s, ignore).hops;
    AssumedAt(s, ignore);
    ClearAt(Backwards(s.src, s.kind.tr), assumed, HopsOf(Under(p)), silent);
  }

  lemma AssumedAt(s: Seg, ignore: set<Hop>)
    requires Growable(s)
    ensures var rev, assumed := Backwards(s.src, s.kind.tr), GrowSeg(s, ignore).hops;
            && assumed <= rev
            && forall k :: 0 <= k < |rev| ==> (k < |assumed| <==> Count(rev[..k], ignore) <= s.kind.numHops)
  {
    hide Count;
    var rev, assumed := Backwards(s.src, s.kind.tr), GrowSeg(s, ignore).hops;
    forall k: nat | k < |rev|
      ensures k < |assumed| <==> Count(rev[..k], ignore) <= s.kind.numHops
    {
      SelectedAt(rev, s.kind.numHops + 1, ignore, assumed, k);
    }
  }

  lemma ClearAt(rev: seq<Hop>, assumed: seq<Hop>, below: seq<Hop>, silent: bool)
    requires assumed <= rev
    ensures (forall h <- assumed :: h in below ==> !silent && h == ZERO)
            <==> forall k :: 0 <= k < |rev| && rev[k] in below && (silent || rev[k] != ZERO) ==> k >= |assumed|
  {
    assert forall k :: 0 <= k < |assumed| ==> assumed[k] in assumed && assumed[k] == rev[k];
  }

  lemma BelowTop(p: Path)
    requires p != []
    ensures HopsOf(p) == HopsOf(Under(p)) + LastSeg(p).hops
    ensures LoopFree(HopsOf(p)) ==> LoopFree(HopsOf(Under(p)))
  {
    hide LoopFree;
    var below := HopsOf(Under(p));
    assert HopsOf(p)[..|below|] == below;
    if LoopFree(HopsOf(p)) {
      PrefixLoopFree(HopsOf(p), |below|);
    }
  }

  /** Growing removes no loops. On a path that repeats no answering hop, and a way back that repeats none, the
      grown path repeats none exactly if each answering hop of the way back that is on the path below comes only
      after as many eligible hops as the grown segment assumes. */
  lemma GrowthLoopFreeIff(st: Stack)
    requires CanGrow(st) && LoopFree(HopsOf(Top(st.paths))) && Sound(LastSeg(Top(st.paths)))
    ensures LoopFree(HopsOf(Top(Grown(st).paths))) <==> GrowthFits(st, false)
  {
    hide LoopFree, GrowSeg, Ignored, Grown, HopsOf;
    var p := Top(st.paths);
    GrownHops(st);
    GrownLoopFree(LastSeg(p), Ignored(p, st.dead));
    BelowTop(p);
    LoopFreeParts(HopsOf(Under(p)), GrowSeg(LastSeg(p), Ignored(p, st.dead)).hops);
    ClearExactly(st, false);
  }

  lemma {:induction false} SomeSegment(p: Path, h: Hop) returns (i: nat)
    requires h in HopsOf(p)
    ensures i < |p| && h in p[i].hops
  {
    var last := p[|p| - 1];
    if h in last.hops {
      i := |p| - 1;
    } else {
      i := SomeSegment(p[..|p| - 1], h);
    }
  }

  /** The silent address stays in one segment exactly if a segment put on top does not bring a second. */
  lemma SilentOnTop(base: Path, s: Seg)
    requires SilentOnce(base)
    ensures SilentOnce(base + [s]) <==> !(ZERO in s.hops && ZERO in HopsOf(base))
  {
    var p := base + [s];
    if ZERO in s.hops && ZERO in HopsOf(base) {
      var i := SomeSegment(base, ZERO);
      assert ZERO in p[i].hops && ZERO in p[|base|].hops;
    } else {
      forall i, j | 0 <= i < j < |p| && ZERO in p[i].hops
        ensures ZERO !in p[j].hops
      {
        if j == |base| {
          HopsOfSegment(base, i, ZERO);
        }
      }
    }
  }

  /** And it is tidy exactly if that is so of the silent address as well. */
  lemma GrowthTidyIff(st: Stack)
    requires CanGrow(st) && Tidy(Top(st.paths)) && Sound(LastSeg(Top(st.paths)))
    ensures Tidy(Top(Grown(st).paths)) <==> GrowthFits(st, true)
  {
    hide LoopFree, GrowSeg, Ignored, HopsOf;
    var p := Top(st.paths);
    var g := GrowSeg(LastSeg(p), Ignored(p, st.dead));
    var base := ClonePath(p)[..|p| - 1];
    ClonePrefix(p, |p| - 1);
    SilentBelow(p, base);
    SilentOnTop(base, g);
    assert Top(Grown(st).paths) == base + [g];
    GrowthLoopFreeIff(st);
    ClearExactly(st, true);
    ClearExactly(st, false);
  }

  lemma SilentBelow(p: Path, base: Path)
    requires p != [] && base == ClonePath(p)[..|p| - 1] && SilentOnce(p)
    ensures SilentOnce(base)
  {
  }

  // ----- splicing -----

  lemma LeaveOut(a: seq<Hop>, b: seq<Hop>, c: seq<Hop>)
    requires LoopFree(a + b + c)
    ensures LoopFree(a + c)
  {
    var all, r := a + b + c, a + c;
    forall i, j | 0 <= i < j < |r| && r[i] == r[j]
      ensures r[i] == ZERO
    {
      var x, y := if i < |a| then i else i + |b|, if j < |a| then j else j + |b|;
      assert all[x] == r[i] && all[y] == r[j];
    }
  }

  lemma CutLeavesOut(below: seq<Hop>, hops: seq<Hop>, keep: nat, first: Hop)
    requires 0 < keep <= |hops| && CutFits(hops, keep, first) && LoopFree(below + hops)
    ensures LoopFree(below + CutSegment(hops, keep, first))
    ensures forall h <- CutSegment(hops, keep, first) :: h in hops
  {
    hide LoopFree, FirstIndex;
    if |hops| != keep {
      var l, n := FirstIndex(hops, first) + 1, |hops| - keep;
      assert below + hops == (below + hops[..l]) + hops[l..l + n] + hops[l + n..];
      LeaveOut(below + hops[..l], hops[l..l + n], hops[l + n..]);
      assert below + CutSegment(hops, keep, first) == (below + hops[..l]) + hops[l + n..];
    }
  }

  /** The cut only leaves hops out: a tidy path stays so, even where the wrong hops are deleted. */
  lemma TrimTidy(p: Path, index: nat, first: Hop)
    requires AllNonEmpty(p) && index < |HopsOf(p)| && Tidy(p)
    ensures TrimPath(p, index, first).Trimmed? ==> Tidy(TrimPath(p, index, first).path)
  {
    hide HopsOf, LoopFree, Locate, CutFits, CutSegment;
    var t := Locate(p, index);
    var below, hops := HopsOf(p[..t]), p[t].hops;
    var keep := index - |below| + 1;
    if TrimPath(p, index, first).Trimmed? {
      HopsOfSplit(p, t);
      PrefixLoopFree(HopsOf(p), |below + hops|);
      assert HopsOf(p)[..|below + hops|] == below + hops;
      CutLeavesOut(below, hops, keep, first);
      HopsOfOnTop(p[..t], p[t].(hops := CutSegment(hops, keep, first)));
    }
  }

  /** A traceroute without loops spliced in keeps the stack tidy. */
  lemma SpliceKeepsTidy(paths: seq<Path>, dead: set<Hop>, tr: Seg, cm: ClusterMap)
    requires Spliceable(paths, tr) && AllTidy(paths) && LoopFree(tr.hops) && !tr.kind.DstSym?
    ensures var r := Splice(paths, dead, tr, cm); r.Added? ==> AllTidy(r.paths)
  {
    hide HopsOf, LoopFree, SilentOnce, TrimPath, FirstCluster, FirstMeeting, PushAll, ClonePath, AllNonEmpty;
    var i := FirstMeeting(paths, tr.hops[0], cm);
    if i < |paths| {
      var p := ClonePath(paths[i]);
      CloneHops(paths[i]);
      CloneNonEmpty(paths[i]);
      CloneTidy(paths[i]);
      var o := TrimPath(p, FirstCluster(HopsOf(p), tr.hops[0], cm), tr.hops[0]);
      TrimTidy(p, FirstCluster(HopsOf(p), tr.hops[0], cm), tr.hops[0]);
      if o.Trimmed? {
        CloneTidy(o.path);
        PushedTidy(ClonePath(o.path), dead, [tr], cm);
        hide Tidy;
      }
    }
  }

  // ----- whole runs -----

  ghost predicate LoopFreeWorld(w: World, c: Context) {
    WorldOK(w, c) && forall k: nat :: LoopFreeAnswer(w.script(k), c.src)
  }

  lemma AnswerAt(w: World, c: Context, n: nat)
    requires LoopFreeWorld(w, c)
    ensures LoopFreeAnswer(w.script(n), c.src) && !w.script(n).stampKind.DstSym?
  {
    hide LoopFreeAnswer;
    assert AnswerOK(w.script(n), c);
  }

  lemma GrowKeepsSound(st: Stack)
    requires CanGrow(st) && AllSound(st.paths)
    ensures AllSound(Grown(st).paths)
  {
    hide LoopFree, GrowSeg, Ignored, Backwards;
    var p, paths := Top(st.paths), Grown(st).paths;
    var g := GrowSeg(LastSeg(p), Ignored(p, st.dead));
    SameTrace(LastSeg(p), Ignored(p, st.dead));
    forall i, j | 0 <= i < |paths| && 0 <= j < |paths[i]|
      ensures Sound(paths[i][j])
    {
      if i == |st.paths| && j < |p| - 1 {
        assert Sound(p[j]);
      }
    }
  }

  lemma SameTrace(s: Seg, ignore: set<Hop>)
    requires Growable(s)
    ensures GrowSeg(s, ignore).kind == DstSym(s.kind.tr, s.kind.numHops + 1) && GrowSeg(s, ignore).src == s.src
  {
  }

  lemma SoundTop(st: Stack)
    requires CanGrow(st) && AllSound(st.paths)
    ensures Sound(LastSeg(Top(st.paths)))
  {
    assert Sound(st.paths[|st.paths| - 1][|Top(st.paths)| - 1]);
  }

  /** On answers without loops, whatever a symmetric segment of a run can still grow to is free of loops. */
  lemma {:induction false} RunSound(run: seq<Turn>, w: World, c: Context, n: nat)
    requires IsRun(run, w, c) && n < |run| && AllSound(run[0].st.paths) && LoopFreeWorld(w, c)
    ensures AllSound(run[n].st.paths)
  {
    hide IsRun, LoopFreeWorld, LoopFreeAnswer, AllSound, AllTidy, CanGrow, Grown, FailTop, PushAll, Tried, NoWayBack,
         PathReaches;
    if n > 0 {
      RunSound(run, w, c, n - 1);
      RunAt(run, n - 1, w, c);
      var t, t' := run[n-1], run[n-1+1];
      var a := w.script(t'.at - 1);
      AnswerAt(w, c, t'.at - 1);
      if t'.how == Growth {
        GrowKeepsSound(t.st);
      } else if t'.how == GivingUp {
        BacktrackKeepsSound(t.st, c.backoff);
      } else {
        var cands :| ExtendsBy(a, t'.how, cands, t.st, t'.st, w, c);
        TriedLoopFree(a, t'.how, cands, t.st, w, c);
        ExtendKeepsSound(t.st, cands, c.cm);
      }
    }
  }

  /** Each growth of the run fits. */
  ghost predicate GrowthsFit(run: seq<Turn>) {
    forall i :: 0 <= i < |run| - 1 && run[i+1].how == Growth ==> GrowthFits(run[i].st, true)
  }

  lemma GrowKeepsTidy(st: Stack)
    requires CanGrow(st) && AllTidy(st.paths) && AllSound(st.paths)
    ensures AllTidy(Grown(st).paths) <==> GrowthFits(st, true)
  {
    hide Tidy, Sound, GrowthFits, ReplaceLast, GrowSeg, Ignored;
    SoundTop(st);
    GrowthTidyIff(st);
    var paths := Grown(st).paths;
    assert paths[|paths| - 1] == Top(paths);
    assert forall i :: 0 <= i < |st.paths| ==> paths[i] == st.paths[i];
  }

  /** One turn keeps the stack tidy exactly if it is no growth that does not fit. */
  lemma TurnTidyIff(t: Turn, t': Turn, w: World, c: Context)
    requires Follows(t, t', w, c) && LoopFreeWorld(w, c) && AllTidy(t.st.paths) && AllSound(t.st.paths)
    ensures AllTidy(t'.st.paths) <==> (t'.how == Growth ==> GrowthFits(t.st, true))
  {
    hide LoopFreeWorld, LoopFreeAnswer, AllSound, AllTidy, GrowthFits, CanGrow, Grown, FailTop, PushAll, Tried,
         NoWayBack, PathReaches;
    var a := w.script(t'.at - 1);
    AnswerAt(w, c, t'.at - 1);
    if t'.how == Growth {
      GrowKeepsTidy(t.st);
    } else if t'.how == GivingUp {
      BacktrackKeepsTidy(t.st, c.backoff);
    } else {
      var cands :| ExtendsBy(a, t'.how, cands, t.st, t'.st, w, c);
      TriedLoopFree(a, t'.how, cands, t.st, w, c);
      ExtendKeepsTidy(t.st, cands, c.cm);
    }
  }

  lemma {:induction false} RunTidy(run: seq<Turn>, w: World, c: Context, n: nat)
    requires IsRun(run, w, c) && GrowthsFit(run) && n < |run| && LoopFreeWorld(w, c)
    requires AllTidy(run[0].st.paths) && AllSound(run[0].st.paths)
    ensures AllTidy(run[n].st.paths)
  {
    hide IsRun, LoopFreeWorld, AllTidy, AllSound, GrowthFits, Follows;
    if n > 0 {
      RunTidy(run, w, c, n - 1);
      RunSound(run, w, c, n - 1);
      RunAt(run, n - 1, w, c);
      TurnTidyIff(run[n-1], run[n-1+1], w, c);
    }
  }

  ghost predicate TidyThroughout(run: seq<Turn>) {
    forall n :: 0 <= n < |run| ==> AllTidy(run[n].st.paths)
  }

  /** On answers without loops, a run that starts tidy keeps every stacked path tidy exactly if each of its
      growths fits. */
  lemma RunTidyIff(run: seq<Turn>, w: World, c: Context)
    requires IsRun(run, w, c) && LoopFreeWorld(w, c) && AllTidy(run[0].st.paths) && AllSound(run[0].st.paths)
    ensures TidyThroughout(run) <==> GrowthsFit(run)
  {
    hide IsRun, LoopFreeWorld, AllTidy, AllSound, GrowthFits, Follows;
    if GrowthsFit(run) {
      forall n: nat | n < |run|
        ensures AllTidy(run[n].st.paths)
      {
        RunTidy(run, w, c, n);
      }
    }
    if TidyThroughout(run) {
      forall i: nat | i < |run| - 1 && run[i+1].how == Growth
        ensures GrowthFits(run[i].st, true)
      {
        RunSound(run, w, c, i);
        RunAt(run, i, w, c);
        assert AllTidy(run[i].st.paths) && AllTidy(run[i+1].st.paths);
        TurnTidyIff(run[i], run[i+1], w, c);
      }
    }
  }

  // ----- the end of a run -----

  /** If the run reached by growing, that growth fits too. */
  ghost predicate LastFits(st: Stack, st': Stack, e: Ending) {
    e.Reached? && CanGrow(st) && st' == Grown(st) ==> GrowthFits(st, true)
  }

  lemma SpliceEndTidy(hops: seq<Hop>, st: Stack, st': Stack, w: World, c: Context, e: Ending)
    requires SpliceEnding(hops, st, st', w, c, e) && AllTidy(st.paths) && LoopFree(hops)
    ensures AllTidy(st'.paths)
  {
    hide Splice, Sanitize, Spliceable, LoopFree, PathReaches, AllTidy;
    if hops != [] {
      SanitizeLoopFree(hops, w.global);
      SpliceKeepsTidy(st.paths, st.dead, Seg(TrToSrc, Sanitize(hops, w.global), c.src), c.cm);
    }
  }

  /** Reaching by new candidates, by a spliced traceroute or by a growth that fits, giving up, being canceled and
      panicking all leave a tidy stack; only reaching by a growth that does not fit leaves another. */
  lemma EndTidyIff(a: Answer, st: Stack, st': Stack, w: World, c: Context, e: Ending)
    requires Ends(a, st, st', w, c, e) && LoopFreeAnswer(a, c.src) && !a.stampKind.DstSym?
    requires AllTidy(st.paths) && AllSound(st.paths)
    ensures AllTidy(st'.paths) <==> LastFits(st, st', e)
  {
    hide AllTidy, AllSound, LoopFree, GrowthFits, CanGrow, Grown, FailTop, PushAll, Tried, NoWayBack, PathReaches,
         SpliceEnding, GrowthRefused, ClonePath;
    if SpliceEndingOf(a, st, st', w, c, e) {
      if a.path.Just? && SpliceEnding(a.path.v, st, st', w, c, e) {
        SpliceEndTidy(a.path.v, st, st', w, c, e);
      } else {
        SpliceEndTidy(a.background.v, st, st', w, c, e);
      }
    }
    if exists how, cands :: Tried(a, how, cands, st, w, c) && Called(st, st', cands, true, c) {
      var how, cands :| Tried(a, how, cands, st, w, c) && Called(st, st', cands, true, c);
      TriedLoopFree(a, how, cands, st, w, c);
      ExtendKeepsTidy(st, cands, c.cm);
    }
    if e.GaveUp? {
      BacktrackKeepsTidy(st, c.backoff);
    }
    if CanGrow(st) {
      GrowKeepsTidy(st);
    }
  }

  /** Of a whole measurement on answers without loops: every stacked path, to the one it returns, repeats no
      answering hop and has the silent address in one segment at most, exactly if each growth fits. */
  lemma MeasurementTidyIff(run: seq<Turn>, st': Stack, w: World, c: Context, dst: Hop, e: Ending)
    requires Over(run, st', w, c, e) && run[0].st == Initial(c.src, dst) && LoopFreeWorld(w, c)
    ensures TidyThroughout(run) && AllTidy(st'.paths) <==> GrowthsFit(run) && LastFits(Last(run).st, st', e)
  {
    hide IsRun, LoopFreeWorld, LoopFreeAnswer, AllTidy, AllSound, GrowthsFit, LastFits, Ends;
    InitialTidy(c.src, dst);
    RunTidyIff(run, w, c);
    if TidyThroughout(run) {
      assert AllTidy(Last(run).st.paths);
      RunSound(run, w, c, |run| - 1);
      var n: nat :| Last(run).at <= n + 1 && Ends(w.script(n), Last(run).st, st', w, c, e);
      AnswerAt(w, c, n);
      EndTidyIff(w.script(n), Last(run).st, st', w, c, e);
    }
  }

  lemma InitialTidy(src: Hop, dst: Hop)
    ensures AllTidy(Initial(src, dst).paths) && AllSound(Initial(src, dst).paths)
  {
    var p := Initial(src, dst).paths[0];
    assert p[..0] == [] && HopsOf([]) == [] && HopsOf(p) == [] + [dst] == [dst];
  }

  function Looping(d: Hop, e: Hop, a: Hop, b: Hop, s: Hop): Path {
    [Seg(Dst, [d], s), Seg(RR, [e], s), Seg(DstSym([b, d, a, e], 1), [a], s)]
  }

  lemma LoopingHops(d: Hop, e: Hop, a: Hop, b: Hop, s: Hop)
    ensures var p := Looping(d, e, a, b, s);
            HopsOf(p[..1]) == [d] && HopsOf(p[..2]) == [d, e] && HopsOf(p) == [d, e, a]
              && Backwards(s, [b, d, a, e]) == [a, d, b, s]
  {
    var p := Looping(d, e, a, b, s);
    assert p[..2] == [p[0], p[1]] && p[..2][..1] == [p[0]] && [p[0]][..0] == [];
    assert HopsOf([]) == [] && HopsOf([p[0]]) == [] + [d] == [d] && p[..1] == [p[0]];
    assert HopsOf(p[..2]) == [d] + [e] == [d, e];
    assert HopsOf(p) == [d, e] + [a] == [d, e, a];
  }

  /** A path to D by way of E, and a traceroute to E through D: the hops assumed next hold D again. */
  lemma GrowthLoops(d: Hop, e: Hop, a: Hop, b: Hop, s: Hop)
    requires Distinct([d, e, a, b, s, ZERO])
    ensures var p := Looping(d, e, a, b, s);
            var st := Stack([p[..1], p[..2], p], {});
            && Rooted(st.paths) && AllTidy(st.paths) && CanGrow(st) && Sound(LastSeg(p)) && !GrowthFits(st, false)
            && LastSeg(Top(Grown(st).paths)).hops == [a, d, b] && !LoopFree(HopsOf(Top(Grown(st).paths)))
  {
    hide HopsOf, Select, Count, IsSelection, Backwards, GrowthFits, Rooted;
    LoopingHops(d, e, a, b, s);
    AllDifferent(d, e, a, b, s);
    var p := Looping(d, e, a, b, s);
    var st := Stack([p[..1], p[..2], p], {});
    LoopingRooted(d, e, a, b, s);
    var rev, ignore := Backwards(s, [b, d, a, e]), Ignored(p, {});
    SelectedThree(a, d, b, s, ignore);
    assert rev[3] == s && rev[3] in rev;
    SelectionUnique(rev, 2, ignore, [a, d, b], Select(rev, 2, ignore));
    assert GrowSeg(p[2], ignore).hops == [a, d, b];
    GrownHops(st);
    var grown := [d, e] + [a, d, b];
    assert HopsOf(Top(Grown(st).paths)) == grown && grown[0] == grown[3] == d;
    GrowthLoopFreeIff(st);
  }

  lemma LoopingRooted(d: Hop, e: Hop, a: Hop, b: Hop, s: Hop)
    ensures var p := Looping(d, e, a, b, s); Rooted([p[..1], p[..2], p])
  {
    hide HopsOf;
    var p := Looping(d, e, a, b, s);
    var paths := [p[..1], p[..2], p];
    assert Under(paths[1]) == p[..1] && Under(paths[2]) == p[..2];
    assert Root(paths, 0, 1) && Root(paths, 1, 2);
  }

  lemma AllDifferent(d: Hop, e: Hop, a: Hop, b: Hop, s: Hop)
    requires Distinct([d, e, a, b, s, ZERO])
    ensures d != e && d != a && d != b && d != s && d != ZERO && e != a && e != b && e != s && e != ZERO
    ensures a != b && a != s && a != ZERO && b != s && b != ZERO && s != ZERO
  {
    var all := [d, e, a, b, s, ZERO];
    assert all[0] == d && all[1] == e && all[2] == a && all[3] == b && all[4] == s && all[5] == ZERO;
  }

  lemma SelectedThree(a: Hop, d: Hop, b: Hop, s: Hop, ignore: set<Hop>)
    requires Eligible(a, ignore) && d in ignore && Eligible(b, ignore)
    ensures IsSelection([a, d, b, s], 2, ignore, [a, d, b])
  {
    var rev := [a, d, b, s];
    assert rev[..3] == [a, d, b] && rev[..3][..2] == [a, d] && [a, d][..1] == [a] && [a][..0] == [];
    assert Count([], ignore) == 0;
    assert Count([a], ignore) == 1;
    assert Count([a, d], ignore) == 1;
    assert Count([a, d, b], ignore) == 2;
    assert Count(rev, ignore) >= 2;
  }
}
