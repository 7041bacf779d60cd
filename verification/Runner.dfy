/** The driver: step functions that probe, splice, assume symmetry and back off until the search ends. Each is proved
    to do what Driver.Next says with the answers it takes. */
module Runner {
  import opened Hops
  import opened Segments
  import opened Search
  import opened Trim
  import opened Schedule
  import opened ReversePath
  import opened ReverseTraceroute
  import opened Candidates
  import opened Moves
  import opened Answers
  import opened Driver

  // ----- values of candidates -----

  lemma SanitizeKnown(hops: seq<Hop>, global: Hop -> bool, c: Context)
    requires Known(hops, c) && ZERO in c.universe
    ensures Known(Sanitize(hops, global), c)
  {
  }

  ghost predicate Plainly(values: seq<Seg>, c: Context) {
    forall s <- values :: s.src == c.src && !s.kind.DstSym? && Known(s.hops, c)
  }

  lemma PlainlyGood(values: seq<Seg>, c: Context)
    requires Plainly(values, c)
    ensures GoodValues(values, c)
  {
  }

  lemma {:induction false} PrefixesPlain(rr: seq<Hop>, n: nat, kind: Kind, global: Hop -> bool, c: Context)
    requires n <= |rr| && Known(rr, c) && ZERO in c.universe && !kind.DstSym?
    ensures Plainly(Prefixes(rr, n, kind, c.src, global), c)
  {
    if n > 0 {
      PrefixesPlain(rr, n - 1, kind, global, c);
      SanitizeKnown(rr[..n], global, c);
    }
  }

  lemma {:induction false} SpoofedPlain(rrs: seq<Spoofed>, n: nat, global: Hop -> bool, c: Context)
    requires n <= |rrs| && ZERO in c.universe && forall s <- rrs :: Known(s.rr, c)
    ensures Plainly(SpoofedValues(rrs, n, c.src, global), c)
  {
    if n > 0 {
      SpoofedPlain(rrs, n - 1, global, c);
      assert rrs[n-1] in rrs;
      PrefixesPlain(rrs[n-1].rr, |rrs[n-1].rr|, SpoofRR(rrs[n-1].vp), global, c);
    }
  }

  // ----- what a step starts from and leaves behind -----

  /** What the object remembers beside the stack. */
  ghost function Mem(rt: ReverseTraceroute): Memory
    reads rt
  {
    Memory(rt.rrHop2VPSLeft, rt.rrSpoofRRResponsive, rt.tsHop2AdjsLeft, rt.tsUnresponsive)
  }

  /** The log ends at `place`, with the object as it is; `clock` answers have been taken. */
  ghost predicate Stands(rt: ReverseTraceroute, log: seq<Config>, place: Place, clock: nat, w: World, c: Context)
    reads rt, rt.paths, SegSet(rt.paths), BufSet(rt.paths)
  {
    && rt.Valid() && IsLog(log, w, c)
    && var x := End(log);
       x.place == place && x.st == rt.State() && x.mem == Mem(rt) && (place.Done? || x.at == clock)
  }

  /** A search under way. */
  ghost predicate Under(rt: ReverseTraceroute, log: seq<Config>, place: Place, clock: nat, w: World, c: Context)
    reads rt, rt.paths, SegSet(rt.paths), BufSet(rt.paths)
  {
    Live(rt, c) && Stands(rt, log, place, clock, w, c)
  }

  /** A search that goes on has kept its invariant, and the stack is as it was or its measure lower. */
  ghost predicate Settled(st: Stack, before: Stack, c: Context)
    requires Inv(st, c) && Inv(before, c)
  {
    st == before || Lower(st, before, c)
  }

  /** What a step leaves behind: the log is longer, and the search over, or no less far at `place`. */
  ghost predicate Stepped(rt: ReverseTraceroute, log: seq<Config>, log': seq<Config>, place: Place, clock: nat,
                          w: World, c: Context, before: Stack)
    reads rt, rt.paths, SegSet(rt.paths), BufSet(rt.paths)
  {
    && log <= log' && Stands(rt, log', place, clock, w, c)
    && (place.Done? || (Live(rt, c) && Inv(before, c) && Settled(rt.State(), before, c)))
  }

  lemma InvSpliceable(st: Stack, c: Context, tr: Seg)
    requires Inv(st, c) && tr.hops != []
    ensures Spliceable(st.paths, tr)
  {
    forall i | 0 <= i < |st.paths|
      ensures AllNonEmpty(st.paths[i])
    {
      assert PathOK(st.paths[i], c);
    }
  }

  // ----- trToSource and backgroundTRS -----

  /** Splices an atlas traceroute in; the search is over either way. */
  method SpliceIn(rt: ReverseTraceroute, hops: seq<Hop>, w: World, ghost c: Context) returns (e: Ending)
    requires Live(rt, c) && w.cm == c.cm
    modifies rt`paths
    ensures rt.Valid() && SpliceEnding(hops, old(rt.State()), rt.State(), w, c, e)
    ensures e != Canceled && e != GaveUp && e != GrowPanic
  {
    hide Views, SegSet, BufSet, Sanitize, Inv, Splice, Spliceable, PathReaches;
    if hops == [] {
      return SplicePanic;
    }
    var tr := NewSegment(TrToSrc, hops, rt.src, w.global, rt);
    InvSpliceable(rt.State(), c, tr.View());
    var r := rt.AddBackgroundTRSegment(tr, w.cm);
    match r
    case Panics => return SplicePanic;
    case Leaves => return NotAddedPanic;
    case Stacks =>
      if rt.Reaches(w.cm) {
        return Reached;
      }
      return NotReachedPanic;
  }

  method StepTrToSource(rt: ReverseTraceroute, a: Answer, ghost at: nat, w: World, ghost c: Context,
                        ghost log: seq<Config>) returns (next: Place, ghost log': seq<Config>)
    requires Under(rt, log, Before(TrToSource), at, w, c) && w.cm == c.cm && a == w.script(at) && !a.canceled
    modifies rt`paths
    ensures Stepped(rt, log, log', next, at + 1, w, c, old(rt.State()))
    ensures next.Done? || (next == Before(RecordRoute) && rt.State() == old(rt.State()))
  {
    hide Inv, IsLog, SpliceEnding, Next, Views, SegSet, BufSet;
    ghost var x := End(log);
    ContextOf(rt.State(), c);
    if a.path.Nothing? || a.path.v == [] {
      next := Before(RecordRoute);
    } else {
      var e := SpliceIn(rt, a.path.v, w, c);
      next := Done(e);
    }
    ghost var y := x.(place := next, st := rt.State(), at := at + 1);
    assert Steps(x, TrToSource, a, y, w, c);
    StepNext(x, TrToSource, y, w, c);
    AddEntry(log, y, w, c);
    log' := log + [y];
  }

  method StepBackground(rt: ReverseTraceroute, a: Answer, ghost at: nat, w: World, ghost c: Context,
                        ghost log: seq<Config>) returns (next: Place, ghost log': seq<Config>)
    requires Under(rt, log, Before(BackgroundTRS), at, w, c) && w.cm == c.cm && a == w.script(at) && !a.canceled
    modifies rt`paths
    ensures Stepped(rt, log, log', next, at + 1, w, c, old(rt.State()))
    ensures next.Done? || (next == Before(AssumeSymmetric) && rt.State() == old(rt.State()))
  {
    hide Inv, IsLog, SpliceEnding, Next, Views, SegSet, BufSet;
    ghost var x := End(log);
    ContextOf(rt.State(), c);
    if a.background.Nothing? {
      next := Before(AssumeSymmetric);
    } else {
      var e := SpliceIn(rt, a.background.v, w, c);
      next := Done(e);
    }
    ghost var y := x.(place := next, st := rt.State(), at := at + 1);
    assert Steps(x, BackgroundTRS, a, y, w, c);
    StepNext(x, BackgroundTRS, y, w, c);
    AddEntry(log, y, w, c);
    log' := log + [y];
  }

  /** The background traceroutes asked for earlier, looked at after new hops: they end the search, or leave
      it where it is. */
  method CheckBackground(rt: ReverseTraceroute, a: Answer, ghost at: nat, w: World, next: Step, ghost c: Context,
                         ghost log: seq<Config>) returns (place: Place, ghost log': seq<Config>)
    requires Under(rt, log, Checking(next), at, w, c) && at > 0 && a == w.script(at - 1) && w.cm == c.cm
    modifies rt`paths
    ensures Stepped(rt, log, log', place, at, w, c, old(rt.State()))
    ensures if a.background.Just? then place.Done? else place == Before(next) && rt.State() == old(rt.State())
  {
    hide Inv, IsLog, SpliceEnding, Views, SegSet, BufSet;
    ghost var x := End(log);
    ContextOf(rt.State(), c);
    if a.background.Nothing? {
      place := Before(next);
    } else {
      var e := SpliceIn(rt, a.background.v, w, c);
      place := Done(e);
    }
    ghost var y := x.(place := place, st := rt.State());
    assert Next(x, y, w, c);
    AddEntry(log, y, w, c);
    log' := log + [y];
  }

  // ----- assumeSymmetric -----

  /** The hops back to the first one that is neither silent, nor on the path, nor dead. */
  method FirstBack(rt: ReverseTraceroute, trace: seq<Hop>, w: World, ghost c: Context) returns (chosen: seq<Hop>)
    requires Live(rt, c) && trace != [] && Known(trace, c)
    ensures Live(rt, c) && rt.View() == old(rt.View())
    ensures Known(chosen, c) && c.src != ZERO && rt.paths != []
    ensures Seg(DstSym(trace, 1), Sanitize(chosen, w.global), c.src) == Symmetric(rt.State(), trace, c.src, w.global)
  {
    hide Views, SegSet, BufSet, Inv, Count, SetOf, IsSelection, Known, Select, Sanitize;
    ContextOf(rt.State(), c);
    var hops := CurrentHops(rt);
    var ignore := SetOf(hops) + rt.deadEnd;
    var rev := Backwards(rt.src, trace);
    assert rev[|rev| - 1] in rev;
    chosen := SelectBeside(rev, 1, ignore, rt);
    SelectedKnown(chosen, rev, 1, ignore, trace, c);
    SelectionUnique(rev, 1, ignore, chosen, Select(rev, 1, ignore));
  }

  method SelectBeside(rev: seq<Hop>, n: nat, ignore: set<Hop>, ghost rt: ReverseTraceroute) returns (chosen: seq<Hop>)
    requires rt.Valid() && Selectable(rev, n, ignore)
    ensures rt.Valid() && rt.View() == old(rt.View()) && IsSelection(rev, n, ignore, chosen)
  {
    ghost var before := rt.View();
    chosen := SelectNonzeroHops(rev, n, ignore);
    assert forall i :: 0 <= i < |rt.paths| ==> rt.paths[i].View() == before[i];
  }

  /** NewDstSymRevSegment with one hop to assume. */
  method NewSymmetric(rt: ReverseTraceroute, trace: seq<Hop>, w: World, ghost c: Context)
    returns (s: RevSegment, ghost v: Seg)
    requires Live(rt, c) && trace != [] && Known(trace, c) && ZERO in c.universe
    ensures Live(rt, c) && rt.View() == old(rt.View()) && c.src != ZERO && rt.paths != []
    ensures Made([s], [v], rt) && GoodValues([v], c) && fresh(s) && fresh(s.buf)
    ensures v == Symmetric(rt.State(), trace, c.src, w.global)
  {
    hide Views, SegSet, BufSet, Sanitize, Inv, Symmetric;
    var chosen := FirstBack(rt, trace, w, c);
    SanitizeKnown(chosen, w.global, c);
    s := NewSegment(DstSym(trace, 1), chosen, rt.src, w.global, rt);
    v := s.View();
    assert Values([s]) == [v];
  }

  method CurrentHops(rt: ReverseTraceroute) returns (hops: seq<Hop>)
    requires rt.Valid() && rt.paths != []
    ensures rt.Valid() && rt.View() == old(rt.View()) && hops == HopsOf(Top(rt.View()))
  {
    hops := rt.HopsAt(|rt.paths| - 1);
  }

  lemma ContextOf(st: Stack, c: Context)
    requires Inv(st, c)
    ensures c.src in c.universe && c.src != ZERO && st.paths != [] && NonEmpty(st.paths)
  {
  }

  lemma SelectedKnown(r: seq<Hop>, rev: seq<Hop>, n: nat, ignore: set<Hop>, trace: seq<Hop>, c: Context)
    requires trace != [] && Known(trace, c) && c.src in c.universe && rev == Backwards(c.src, trace)
    requires IsSelection(rev, n, ignore, r)
    ensures Known(r, c)
  {
    forall h | h in r
      ensures h in c.universe
    {
      assert h in rev;
    }
  }

  /** The step always ends the search or moves it on. */
  method StepAssumeSymmetric(rt: ReverseTraceroute, a: Answer, ghost at: nat, w: World, ghost c: Context,
                             ghost log: seq<Config>) returns (next: Place, ghost log': seq<Config>)
    requires Under(rt, log, Before(AssumeSymmetric), at, w, c) && WorldOK(w, c) && a == w.script(at) && !a.canceled
    modifies rt`paths, rt`deadEnd
    ensures Stepped(rt, log, log', next, at + 1, w, c, old(rt.State()))
    ensures next.Done? || (next == Before(TrToSource) && Lower(rt.State(), old(rt.State()), c))
  {
    hide Views, SegSet, BufSet, Inv, IsLog, WorldOK, AnswerOK, Next, Grows, GivesUp, Assumed;
    ghost var x := End(log);
    ContextOf(rt.State(), c);
    WorldAt(w, c, at);
    ghost var y;
    if IsSymmetric(rt, c) {
      next, y := StepGrow(rt, w, c, x);
    } else if a.trace.Nothing? {
      next, y := StepBack(rt, c, x);
    } else {
      next, y := AssumeOne(rt, a.trace.v, a, w, c, x);
    }
    assert Steps(x, AssumeSymmetric, a, y, w, c);
    StepNext(x, AssumeSymmetric, y, w, c);
    AddEntry(log, y, w, c);
    log' := log + [y];
  }

  lemma WorldAt(w: World, c: Context, n: nat)
    requires WorldOK(w, c)
    ensures w.cm == c.cm && ZERO in c.universe
    ensures var a := w.script(n); AnswerOK(a, c) && (a.trace.Just? ==> a.trace.v != [] && Known(a.trace.v, c))
  {
    hide Known;
  }

  predicate IsSymmetric(rt: ReverseTraceroute, ghost c: Context)
    requires Live(rt, c)
    reads rt, rt.paths, SegSet(rt.paths), BufSet(rt.paths)
    ensures IsSymmetric(rt, c) == LastSeg(Top(rt.View())).kind.DstSym?
  {
    ContextOf(rt.State(), c);
    rt.TopSeg().kind.DstSym?
  }

  /** What one turn leaves: the entry `y` of the log tells the object as it is. */
  ghost predicate Tells(rt: ReverseTraceroute, y: Config, place: Place, c: Context, before: Stack)
    reads rt, rt.paths, SegSet(rt.paths), BufSet(rt.paths)
  {
    && rt.Valid() && y.place == place && y.st == rt.State() && y.mem == Mem(rt)
    && (place.Done? || (Live(rt, c) && Inv(before, c) && Settled(rt.State(), before, c)))
  }

  /** The object before a turn is as entry `x` says. */
  ghost predicate From(rt: ReverseTraceroute, x: Config, c: Context)
    reads rt, rt.paths, SegSet(rt.paths), BufSet(rt.paths)
  {
    Live(rt, c) && x.st == rt.State() && x.mem == Mem(rt)
  }

  /** Assumes one more hop; the program panics where that is refused. */
  method StepGrow(rt: ReverseTraceroute, w: World, ghost c: Context, ghost x: Config)
    returns (next: Place, ghost y: Config)
    requires From(rt, x, c) && w.cm == c.cm && LastSeg(Top(rt.View())).kind.DstSym?
    modifies rt`paths
    ensures Grows(x, y, c) && Tells(rt, y, next, c, old(rt.State())) && y.at == x.at + 1
    ensures next.Done? || (next == Before(TrToSource) && Lower(rt.State(), old(rt.State()), c))
  {
    hide Views, SegSet, BufSet, Inv, PathReaches, Grown, CanGrow, GrowthRefused, Lower;
    var added := Grow(rt, c);
    if !added {
      next := Done(GrowPanic);
      y := x.(place := next, at := x.at + 1);
    } else {
      next := if rt.Reaches(w.cm) then Done(Reached) else Before(TrToSource);
      y := x.(st := rt.State(), at := x.at + 1, how := Growth, place := next);
    }
  }

  /** Gives the current path up. */
  method StepBack(rt: ReverseTraceroute, ghost c: Context, ghost x: Config) returns (next: Place, ghost y: Config)
    requires From(rt, x, c) && !LastSeg(Top(rt.View())).kind.DstSym? && HasCurrent(x.st)
    modifies rt`paths, rt`deadEnd
    ensures GivesUp(x, y, c) && Tells(rt, y, next, c, old(rt.State())) && y.at == x.at + 1
    ensures next.Done? || (next == Before(TrToSource) && Lower(rt.State(), old(rt.State()), c))
  {
    hide Views, SegSet, BufSet, Inv, PathReaches, Search.Failed, FailTop;
    var failed := Backtrack(rt, c);
    next := if failed then Done(GaveUp) else Before(TrToSource);
    y := x.(st := rt.State(), at := x.at + 1, how := GivingUp, place := next);
  }

  /** Stacks the first hop back, or gives the current path up. */
  method AssumeOne(rt: ReverseTraceroute, trace: seq<Hop>, ghost a: Answer, w: World, ghost c: Context, ghost x: Config)
    returns (next: Place, ghost y: Config)
    requires From(rt, x, c) && !LastSeg(Top(rt.View())).kind.DstSym? && HasCurrent(x.st)
    requires trace != [] && Known(trace, c) && ZERO in c.universe && w.cm == c.cm && a.trace == Just(trace)
    modifies rt`paths, rt`deadEnd
    ensures (exists cands, added :: Assumed(x, a, cands, added, y, w, c)) && y.at == x.at + 1
    ensures Tells(rt, y, next, c, old(rt.State()))
    ensures next.Done? || (next == Before(TrToSource) && Lower(rt.State(), old(rt.State()), c))
  {
    hide Views, SegSet, BufSet, Inv, PathReaches, Search.Failed, Called, GivesUp, Tried, Assumed, Lower, Grown;
    ghost var cands;
    var added;
    added, cands := TryAssume(rt, trace, a, w, c, x);
    if added {
      next := if rt.Reaches(w.cm) then Done(Reached) else Before(TrToSource);
      y := x.(st := rt.State(), at := x.at + 1, how := Assumption, place := next);
      AddedIsAssumed(x, a, cands, y, w, c);
    } else {
      next, y := StepBack(rt, c, x);
      RefusedIsAssumed(x, a, cands, y, w, c);
    }
  }

  /** Stacks the first hop back if it can be. */
  method TryAssume(rt: ReverseTraceroute, trace: seq<Hop>, ghost a: Answer, w: World, ghost c: Context, ghost x: Config)
    returns (added: bool, ghost cands: seq<Seg>)
    requires From(rt, x, c) && !LastSeg(Top(rt.View())).kind.DstSym? && HasCurrent(x.st)
    requires trace != [] && Known(trace, c) && ZERO in c.universe && w.cm == c.cm && a.trace == Just(trace)
    modifies rt`paths
    ensures Live(rt, c) && Mem(rt) == x.mem
    ensures Tried(a, Assumption, cands, x.st, w, c) && Called(x.st, rt.State(), cands, added, c)
    ensures if added then Lower(rt.State(), x.st, c) else rt.State() == x.st
  {
    hide Views, SegSet, BufSet, Inv, PathReaches, GoodValues, Symmetric, Called, Tried, HasTrace, Lower, Made;
    TraceHere(a, rt.State(), c);
    var s, v := NewSymmetric(rt, trace, w, c);
    added, cands := Extend(rt, [s], [v], w.cm, c);
    SymmetricTried(a, cands, v, x.st, w, c);
  }

  lemma SymmetricTried(a: Answer, cands: seq<Seg>, v: Seg, st: Stack, w: World, c: Context)
    requires HasTrace(a, st, c)
    requires v == Symmetric(st, a.trace.v, c.src, w.global) && multiset(cands) == multiset([v])
    ensures Tried(a, Assumption, cands, st, w, c)
  {
    hide Symmetric;
    assert Makes(a, Assumption, [v], st, w, c);
  }

  lemma TraceHere(a: Answer, st: Stack, c: Context)
    requires Inv(st, c) && a.trace.Just? && a.trace.v != [] && HasCurrent(st) && !LastSeg(Top(st.paths)).kind.DstSym?
    ensures HasTrace(a, st, c)
  {
  }

  lemma AddedIsAssumed(x: Config, a: Answer, cands: seq<Seg>, y: Config, w: World, c: Context)
    requires HasCurrent(x.st) && Tried(a, Assumption, cands, x.st, w, c) && Called(x.st, y.st, cands, true, c)
    requires y == x.(st := y.st, at := x.at + 1, how := Assumption,
                     place := if y.st.paths != [] && PathReaches(Top(y.st.paths), c.cm) then Done(Reached)
                              else Before(TrToSource))
    ensures Assumed(x, a, cands, true, y, w, c)
  {
  }

  lemma RefusedIsAssumed(x: Config, a: Answer, cands: seq<Seg>, y: Config, w: World, c: Context)
    requires HasCurrent(x.st) && Tried(a, Assumption, cands, x.st, w, c)
    requires Called(x.st, x.st, cands, false, c) && GivesUp(x, y, c)
    ensures Assumed(x, a, cands, false, y, w, c)
  {
  }

  // ----- recordRoute -----

  /** What bounds the tries for the current last segment: its hops without a list, then the vantage
      points left over all of them. */
  ghost function TriesLeft(rt: ReverseTraceroute, c: Context): (set<Hop>, nat)
    requires Live(rt, c)
    reads rt, rt.paths, SegSet(rt.paths), BufSet(rt.paths)
  {
    ContextOf(rt.State(), c);
    var hops := LastSeg(Top(rt.View())).hops;
    (Uninitialised(hops, rt.rrHop2VPSLeft), TotalLeft(hops, rt.rrHop2VPSLeft))
  }

  /** The next batch for the current last segment, as Driver.Batch says; the stack is as it was. */
  method NextBatch(rt: ReverseTraceroute, a: Answer, ghost c: Context, ghost x: Config)
    returns (vps: seq<VP>, target: Hop)
    requires From(rt, x, c) && HasCurrent(x.st)
    modifies rt`rrHop2RateLimit, rt`rrHop2VPSLeft
    ensures Live(rt, c) && rt.State() == old(rt.State())
    ensures (vps == [] <==> Aim(x, a) < 0)
    ensures vps == [] ==> rt.rrHop2VPSLeft == Lists(x, a)
    ensures vps != [] ==> target == Current(x.st).hops[Aim(x, a)] && vps == Batch(x, a).batch
                          && rt.rrHop2VPSLeft == Lists(x, a)[target := Batch(x, a).left]
    ensures vps != [] ==> var t, t' := old(TriesLeft(rt, c)), TriesLeft(rt, c);
                          t'.0 < t.0 || (t'.0 == t.0 && t'.1 < t.1)
  {
    hide Inv, Initialised, Hand, TotalLeft, Uninitialised, LastOf;
    ContextOf(rt.State(), c);
    var seg := rt.TopSeg();
    ghost var left := rt.rrHop2VPSLeft;
    var t;
    vps, t := BatchFor(rt, seg.hops, SpooferOf(seg.kind), a.offers);
    if t < 0 {
      return [], NONE;
    }
    target := seg.hops[t];
    HandShrinks(Lists(x, a)[target], SpooferOf(seg.kind));
    CallLowers(left, seg.hops, a.offers, target, SpooferOf(seg.kind));
  }

  /** GetRRVPs beside the stack. */
  method BatchFor(rt: ReverseTraceroute, hops: seq<Hop>, sp: Spoofer, offers: nat -> Offer)
    returns (vps: seq<VP>, t: int)
    requires rt.Valid() && rt.Limited()
    modifies rt`rrHop2RateLimit, rt`rrHop2VPSLeft
    ensures rt.Valid() && rt.Limited() && rt.View() == old(rt.View())
    ensures var init := Initialised(old(rt.rrHop2VPSLeft), hops, offers, |hops|);
            && t == Target(hops, init, rt.rrSpoofRRResponsive)
            && (t < 0 ==> vps == [] && rt.rrHop2VPSLeft == init)
            && (t >= 0 ==>
                  var h := Hand(init[hops[t]], sp);
                  vps == h.batch && rt.rrHop2VPSLeft == init[hops[t] := h.left])
  {
    hide Initialised, Hand;
    ghost var before := rt.View();
    vps, t := rt.GetRRVPs(hops, sp, offers);
    assert forall i :: 0 <= i < |rt.paths| ==> rt.paths[i].View() == before[i];
    assert rt.View() == before;
  }

  /** Stacks candidates. If any was added the search has reached, or the background traceroutes are next; otherwise
      it stays where it is, on a stack that a loop-removal error may have changed, but then it is further on. */
  method AddProbed(rt: ReverseTraceroute, segs: seq<RevSegment>, ghost values: seq<Seg>, ghost a: Answer, w: World,
                   here: Place, next: Step, ghost how: Cause, ghost c: Context, ghost x: Config)
    returns (place: Place, ghost y: Config)
    requires From(rt, x, c) && x.place == here && !here.Done? && w.cm == c.cm
    requires Made(segs, values, rt) && Plainly(values, c) && Makes(a, how, values, rt.State(), w, c)
    modifies rt`paths, segs
    ensures Adds(x, a, how, next, y, w, c) && Tells(rt, y, place, c, old(rt.State())) && y.at == x.at + 1
    ensures place == here || place.Done? || (place == Checking(next) && Lower(rt.State(), old(rt.State()), c))
  {
    hide Views, SegSet, BufSet, Inv, PathReaches, GoodValues, Made, Plainly, Called, Makes, Tried, Lower;
    PlainlyGood(values, c);
    ghost var cands;
    var added;
    added, cands := Extend(rt, segs, values, w.cm, c);
    ValuesTried(a, how, values, cands, x.st, w, c);
    hide Adds, Offers;
    place := if !added then here else if rt.Reaches(w.cm) then Done(Reached) else Checking(next);
    y := x.(st := rt.State(), at := x.at + 1, how := if rt.State() == x.st then x.how else how, place := place);
    CalledAdds(x, a, how, cands, added, next, y, w, c);
  }

  lemma CalledAdds(x: Config, a: Answer, how: Cause, cands: seq<Seg>, added: bool, next: Step, y: Config, w: World,
                   c: Context)
    requires Tried(a, how, cands, x.st, w, c) && Called(x.st, y.st, cands, added, c)
    requires y == x.(st := y.st, at := x.at + 1, how := if y.st == x.st then x.how else how,
                     place := if !added then x.place
                              else if y.st.paths != [] && PathReaches(Top(y.st.paths), c.cm) then Done(Reached)
                              else Checking(next))
    ensures Adds(x, a, how, next, y, w, c)
  {
    hide Tried, Called;
    assert Offers(x, a, how, cands, added, next, y, w, c);
  }

  lemma ValuesTried(a: Answer, how: Cause, values: seq<Seg>, cands: seq<Seg>, st: Stack, w: World, c: Context)
    requires Makes(a, how, values, st, w, c) && multiset(cands) == multiset(values)
    ensures Tried(a, how, cands, st, w, c)
  {
    hide Makes;
  }

  /** Marks the target responsive, or counts the probes it did not answer. */
  method CountResponses(rt: ReverseTraceroute, target: Hop, vps: seq<VP>, rrs: seq<Spoofed>, ghost c: Context)
    requires Live(rt, c)
    modifies rt`rrSpoofRRResponsive
    ensures Live(rt, c) && rt.State() == old(rt.State())
    ensures rt.rrSpoofRRResponsive == if rrs != [] then old(rt.rrSpoofRRResponsive)[target := -1]
                                      else AddUnresponsive(old(rt.rrSpoofRRResponsive), target, |vps|)
  {
    hide Inv;
    ghost var before := rt.View();
    rt.rrSpoofRRResponsive := if rrs != [] then rt.rrSpoofRRResponsive[target := -1]
                              else AddUnresponsive(rt.rrSpoofRRResponsive, target, |vps|);
    assert forall i :: 0 <= i < |rt.paths| ==> rt.paths[i].View() == before[i];
    assert rt.View() == before;
  }

  /** A batch of spoofed probes. */
  method ProbeSpoofed(rt: ReverseTraceroute, vps: seq<VP>, target: Hop, a: Answer, w: World, ghost c: Context,
                      ghost x: Config) returns (place: Place, ghost y: Config)
    requires Live(rt, c) && w.cm == c.cm && ZERO in c.universe && AnswerOK(a, c)
    requires HasCurrent(x.st) && x.st == rt.State() && x.place == Probing && Aim(x, a) >= 0
    requires target == Current(x.st).hops[Aim(x, a)] && vps == Batch(x, a).batch && NON_SPOOFED !in vps
    requires Mem(rt) == x.mem.(left := Lists(x, a)[target := Batch(x, a).left])
    modifies rt`paths, rt`rrSpoofRRResponsive
    ensures Probes(x, a, y, w, c) && Tells(rt, y, place, c, old(rt.State())) && y.at == x.at + 1
    ensures place == Probing || place.Done? || (place == Checking(Timestamp) && Lower(rt.State(), old(rt.State()), c))
    ensures place == Probing && rt.State() == old(rt.State()) ==> TriesLeft(rt, c) == old(TriesLeft(rt, c))
  {
    hide Views, SegSet, BufSet, Inv, Made, Plainly, SpoofedValues, TotalLeft, Uninitialised, Lists, Aim, Batch, Adds;
    CountResponses(rt, target, vps, a.spoofed, c);
    ghost var x' := x.(mem := Remembered(x, a));
    assert Mem(rt) == x'.mem;
    SpoofedPlain(a.spoofed, |a.spoofed|, w.global, c);
    var segs := SpoofedCandidates(a.spoofed, w.global, rt);
    ghost var values := SpoofedValues(a.spoofed, |a.spoofed|, rt.src, w.global);
    MadeSize(segs, values, rt);
    if segs == [] {
      return Probing, x'.(at := x.at + 1);
    }
    place, y := AddProbed(rt, segs, values, a, w, Probing, Timestamp, SpoofedRoutes, c, x');
  }

  lemma MadeSize(segs: seq<RevSegment>, values: seq<Seg>, rt: ReverseTraceroute)
    requires rt.Valid() && Made(segs, values, rt)
    ensures |segs| == |values|
  {
  }

  /** The direct probe. */
  method ProbeDirect(rt: ReverseTraceroute, target: Hop, a: Answer, w: World, ghost c: Context, ghost x: Config)
    returns (place: Place, ghost y: Config)
    requires Live(rt, c) && w.cm == c.cm && ZERO in c.universe && AnswerOK(a, c)
    requires HasCurrent(x.st) && x.st == rt.State() && x.place == Probing && Aim(x, a) >= 0
    requires target == Current(x.st).hops[Aim(x, a)] && NON_SPOOFED in Batch(x, a).batch
    requires Mem(rt) == x.mem.(left := Lists(x, a)[target := Batch(x, a).left])
    modifies rt`paths
    ensures Probes(x, a, y, w, c) && Tells(rt, y, place, c, old(rt.State())) && y.at == x.at + 1
    ensures place == Probing || place.Done? || (place == Checking(TrToSource) && Lower(rt.State(), old(rt.State()), c))
    ensures place == Probing && rt.State() == old(rt.State()) ==> TriesLeft(rt, c) == old(TriesLeft(rt, c))
  {
    hide Views, SegSet, BufSet, Inv, Made, Plainly, Prefixes, TotalLeft, Uninitialised, Lists, Aim, Batch, Adds;
    ghost var x' := x.(mem := Remembered(x, a));
    assert Mem(rt) == x'.mem;
    if a.rr.Nothing? {
      return Probing, x'.(at := x.at + 1);
    }
    PrefixesPlain(a.rr.v, |a.rr.v|, RR, w.global, c);
    var segs := PrefixCandidates(a.rr.v, RR, w.global, rt);
    ghost var values := Prefixes(a.rr.v, |a.rr.v|, RR, rt.src, w.global);
    place, y := AddProbed(rt, segs, values, a, w, Probing, TrToSource, RecordRoutes, c, x');
  }

  /** One batch: none left, or what its answers bring. */
  method TryProbe(rt: ReverseTraceroute, a: Answer, ghost at: nat, w: World, ghost c: Context, ghost log: seq<Config>)
    returns (place: Place, ghost log': seq<Config>)
    requires Under(rt, log, Probing, at, w, c) && WorldOK(w, c) && a == w.script(at)
    modifies rt`paths, rt`rrHop2RateLimit, rt`rrHop2VPSLeft, rt`rrSpoofRRResponsive
    ensures Stepped(rt, log, log', place, at + 1, w, c, old(rt.State()))
    ensures place == Probing || place.Done? || (place == Before(Timestamp) && rt.State() == old(rt.State()))
            || ((place == Before(Timestamp) || place == Before(TrToSource)) && Lower(rt.State(), old(rt.State()), c))
    ensures place == Probing && rt.State() == old(rt.State()) ==>
      var t, t' := old(TriesLeft(rt, c)), TriesLeft(rt, c);
      t'.0 < t.0 || (t'.0 == t.0 && t'.1 < t.1)
  {
    hide Views, SegSet, BufSet, Inv, TriesLeft, IsLog, WorldOK, Next, Probes, Lists, Aim, Batch, Remembered, AnswerOK;
    ghost var x := End(log);
    ContextOf(rt.State(), c);
    WorldAt(w, c, at);
    ghost var y;
    var vps, target := NextBatch(rt, a, c, x);
    if vps == [] {
      place := Before(Timestamp);
      y := x.(place := place, mem := x.mem.(left := Lists(x, a)), at := at + 1);
      NothingToProbe(x, a, y, w, c);
    } else if NON_SPOOFED in vps {
      place, y := ProbeDirect(rt, target, a, w, c, x);
    } else {
      place, y := ProbeSpoofed(rt, vps, target, a, w, c, x);
    }
    ProbeNext(x, y, w, c);
    AddEntry(log, y, w, c);
    log' := log + [y];
    if place.Checking? {
      place, log' := CheckBackground(rt, a, at + 1, w, place.next, c, log');
    }
  }

  lemma NothingToProbe(x: Config, a: Answer, y: Config, w: World, c: Context)
    requires HasCurrent(x.st) && Aim(x, a) < 0
    requires y == x.(place := Before(Timestamp), mem := x.mem.(left := Lists(x, a)), at := x.at + 1)
    ensures Probes(x, a, y, w, c)
  {
  }

  /** Record route: batch after batch, until hops are found, no batch is left, or the search ends. */
  method StepRecordRoute(rt: ReverseTraceroute, w: World, clock: nat, ghost c: Context, ghost log: seq<Config>)
    returns (next: Place, clock': nat, ghost log': seq<Config>)
    requires Under(rt, log, Probing, clock, w, c) && WorldOK(w, c)
    modifies rt`paths, rt`rrHop2RateLimit, rt`rrHop2VPSLeft, rt`rrSpoofRRResponsive
    ensures Stepped(rt, log, log', next, clock', w, c, old(rt.State()))
    ensures next.Done? || next == Before(Timestamp)
            || (next == Before(TrToSource) && Lower(rt.State(), old(rt.State()), c))
  {
    hide Views, SegSet, BufSet, Inv, TriesLeft, IsLog, WorldOK;
    clock', log', next := clock, log, Probing;
    ghost var start := rt.State();
    while next == Probing
      invariant Stepped(rt, log, log', next, clock', w, c, start)
      invariant next == Probing || next.Done? || next == Before(Timestamp)
                || (next == Before(TrToSource) && Lower(rt.State(), start, c))
      decreases if next.Probing? then 1 else 0,
                if next.Probing? then Alive(rt.State(), c) else 0,
                if next.Probing? then Room(rt.State(), c) else 0,
                if next.Probing? then Unassumed(rt.State(), c) else 0,
                if next.Probing? then TriesLeft(rt, c).0 else {},
                if next.Probing? then TriesLeft(rt, c).1 else 0
    {
      next, log' := TryProbe(rt, w.script(clock'), clock', w, c, log');
      clock' := clock' + 1;
    }
  }

  // ----- timestamp -----

  lemma {:induction false} StampedPlain(lists: seq<seq<Hop>>, n: nat, kind: Kind, global: Hop -> bool, c: Context)
    requires n <= |lists| && ZERO in c.universe && !kind.DstSym? && forall s <- lists :: Known(s, c)
    ensures Plainly(Stamped(lists, n, kind, c.src, global), c)
  {
    if n > 0 {
      StampedPlain(lists, n - 1, kind, global, c);
      SanitizeKnown(lists[n-1], global, c);
    }
  }

  /** One more candidate with an array of its own. */
  method OneMore(segs: seq<RevSegment>, ghost values: seq<Seg>, kind: Kind, hops: seq<Hop>, global: Hop -> bool,
                 rt: ReverseTraceroute)
    returns (s: RevSegment)
    requires rt.Valid() && Made(segs, values, rt)
    ensures rt.Valid() && rt.View() == old(rt.View())
    ensures fresh(s) && Made(segs + [s], values + [Seg(kind, Sanitize(hops, global), rt.src)], rt)
  {
    hide Sanitize;
    assert forall i :: 0 <= i < |segs| ==> segs[i].View() == values[i];
    s := NewSegment(kind, hops, rt.src, global, rt);
    assert forall i :: 0 <= i < |segs| ==> segs[i].View() == values[i];
    assert Values(segs + [s]) == values + [s.View()];
  }

  method StampCandidates(lists: seq<seq<Hop>>, kind: Kind, global: Hop -> bool, rt: ReverseTraceroute)
    returns (segs: seq<RevSegment>)
    requires rt.Valid()
    ensures rt.Valid() && rt.View() == old(rt.View())
    ensures Made(segs, Stamped(lists, |lists|, kind, rt.src, global), rt)
    ensures forall i :: 0 <= i < |segs| ==> fresh(segs[i])
  {
    segs := [];
    NoneMade(rt);
    hide Sanitize, Made;
    for i := 0 to |lists|
      invariant rt.Valid() && rt.View() == old(rt.View())
      invariant Made(segs, Stamped(lists, i, kind, rt.src, global), rt)
      invariant forall k :: 0 <= k < |segs| ==> fresh(segs[k])
    {
      var s := OneMore(segs, Stamped(lists, i, kind, rt.src, global), kind, lists[i], global, rt);
      segs := segs + [s];
    }
  }

  /** The next adjacents for the target; the stack is as it was. */
  method NextAdjacents(rt: ReverseTraceroute, target: Hop, a: Answer, ghost c: Context, ghost x: Config)
    returns (adjs: seq<Hop>)
    requires From(rt, x, c)
    modifies rt`tsHop2AdjsLeft
    ensures Live(rt, c) && rt.State() == old(rt.State())
    ensures var left := Adjoining(x, target, a);
            if target !in left || left[target] == [] then adjs == [] && rt.tsHop2AdjsLeft == left
            else adjs == [left[target][0]] && rt.tsHop2AdjsLeft == left[target := left[target][1..]]
    ensures adjs != [] ==> var n, n' := old(AdjacentsLeft(rt, target)), AdjacentsLeft(rt, target);
                           (!n'.0 && n.0) || (n'.0 == n.0 && n'.1 < n.1)
  {
    hide Inv;
    ghost var before := rt.View();
    adjs := rt.GetTSAdjacents(target, a.adjacents);
    assert forall i :: 0 <= i < |rt.paths| ==> rt.paths[i].View() == before[i];
    assert rt.View() == before;
  }

  method MarkUnresponsive(rt: ReverseTraceroute, target: Hop, ghost c: Context)
    requires Live(rt, c)
    modifies rt`tsUnresponsive
    ensures Live(rt, c) && rt.State() == old(rt.State()) && rt.tsUnresponsive == old(rt.tsUnresponsive) + {target}
  {
    hide Inv;
    ghost var before := rt.View();
    rt.tsUnresponsive := rt.tsUnresponsive + {target};
    assert forall i :: 0 <= i < |rt.paths| ==> rt.paths[i].View() == before[i];
    assert rt.View() == before;
  }

  /** One adjacent: none left, or what a batch of timestamp probes brings. How replies are read is the answer's
      business. */
  method TryStamp(rt: ReverseTraceroute, target: Hop, a: Answer, ghost at: nat, w: World, ghost c: Context,
                  ghost log: seq<Config>) returns (place: Place, ghost log': seq<Config>)
    requires Under(rt, log, Stamping(target), at, w, c) && WorldOK(w, c) && a == w.script(at)
    modifies rt`paths, rt`tsHop2AdjsLeft, rt`tsUnresponsive
    ensures Stepped(rt, log, log', place, at + 1, w, c, old(rt.State()))
    ensures place == Stamping(target) || place.Done? || place == Before(BackgroundTRS)
            || (place == Before(TrToSource) && Lower(rt.State(), old(rt.State()), c))
    ensures place == Stamping(target) ==>
      var n, n' := old(AdjacentsLeft(rt, target)), AdjacentsLeft(rt, target);
      (!n'.0 && n.0) || (n'.0 == n.0 && n'.1 < n.1)
  {
    hide Views, SegSet, BufSet, Inv, IsLog, WorldOK, Next, Stamps, Adjoining, AnswerOK;
    ghost var x := End(log);
    ContextOf(rt.State(), c);
    WorldAt(w, c, at);
    ghost var y;
    var adjs := NextAdjacents(rt, target, a, c, x);
    if adjs == [] || (a.viaSpoofers && a.noSpoofers) {
      place := Before(BackgroundTRS);
      y := x.(place := place, mem := Mem(rt), at := at + 1);
      NothingToStamp(x, target, a, y, w, c);
    } else {
      place, y := AddStamped(rt, target, a, w, c, x);
    }
    StampNext(x, target, y, w, c);
    AddEntry(log, y, w, c);
    log' := log + [y];
    if place.Checking? {
      place, log' := CheckBackground(rt, a, at + 1, w, TrToSource, c, log');
    }
  }

  lemma NothingToStamp(x: Config, target: Hop, a: Answer, y: Config, w: World, c: Context)
    requires var adjs := Adjoining(x, target, a);
             if target !in adjs || adjs[target] == [] then
               y == x.(place := Before(BackgroundTRS), mem := x.mem.(adjs := adjs), at := x.at + 1)
             else
               && a.viaSpoofers && a.noSpoofers
               && y == x.(place := Before(BackgroundTRS), mem := x.mem.(adjs := adjs[target := adjs[target][1..]]),
                          at := x.at + 1)
    ensures Stamps(x, target, a, y, w, c)
  {
  }

  /** What a batch of timestamp probes brings. */
  method AddStamped(rt: ReverseTraceroute, target: Hop, a: Answer, w: World, ghost c: Context, ghost x: Config)
    returns (place: Place, ghost y: Config)
    requires Live(rt, c) && w.cm == c.cm && ZERO in c.universe && AnswerOK(a, c)
    requires x.st == rt.State() && x.place == Stamping(target) && !(a.viaSpoofers && a.noSpoofers)
    requires var adjs := Adjoining(x, target, a);
             && target in adjs && adjs[target] != []
             && Mem(rt) == x.mem.(adjs := adjs[target := adjs[target][1..]])
    modifies rt`paths, rt`tsUnresponsive
    ensures Stamps(x, target, a, y, w, c) && Tells(rt, y, place, c, old(rt.State())) && y.at == x.at + 1
    ensures place == Stamping(target) || place.Done?
            || (place == Checking(TrToSource) && Lower(rt.State(), old(rt.State()), c))
    ensures AdjacentsLeft(rt, target) == old(AdjacentsLeft(rt, target))
  {
    hide Views, SegSet, BufSet, Inv, Plainly, Made, Stamped, Adds, Adjoining;
    ghost var m := Mem(rt);
    if a.viaSpoofers {
      MarkUnresponsive(rt, target, c);
    }
    ghost var x' := x.(mem := Mem(rt));
    assert x'.mem == if a.viaSpoofers then m.(silent := m.silent + {target}) else m;
    if a.stamped.Nothing? {
      return Stamping(target), x'.(at := x.at + 1);
    }
    StampedPlain(a.stamped.v, |a.stamped.v|, a.stampKind, w.global, c);
    var segs := StampCandidates(a.stamped.v, a.stampKind, w.global, rt);
    ghost var values := Stamped(a.stamped.v, |a.stamped.v|, a.stampKind, rt.src, w.global);
    place, y := AddProbed(rt, segs, values, a, w, Stamping(target), TrToSource, Timestamps, c, x');
  }

  /** Timestamps: adjacent after adjacent, until hops are found, none is left, or the search ends. */
  method StepTimestamp(rt: ReverseTraceroute, target: Hop, w: World, clock: nat, ghost c: Context,
                       ghost log: seq<Config>) returns (next: Place, clock': nat, ghost log': seq<Config>)
    requires Under(rt, log, Stamping(target), clock, w, c) && WorldOK(w, c)
    modifies rt`paths, rt`tsHop2AdjsLeft, rt`tsUnresponsive
    ensures Stepped(rt, log, log', next, clock', w, c, old(rt.State()))
    ensures next.Done? || next == Before(BackgroundTRS)
            || (next == Before(TrToSource) && Lower(rt.State(), old(rt.State()), c))
  {
    hide Views, SegSet, BufSet, Inv, AdjacentsLeft, IsLog, WorldOK;
    clock', log', next := clock, log, Stamping(target);
    ghost var start := rt.State();
    while next == Stamping(target)
      invariant Stepped(rt, log, log', next, clock', w, c, start)
      invariant next == Stamping(target) || next.Done? || next == Before(BackgroundTRS)
                || (next == Before(TrToSource) && Lower(rt.State(), start, c))
      decreases next == Stamping(target), AdjacentsLeft(rt, target).0, AdjacentsLeft(rt, target).1
    {
      next, log' := TryStamp(rt, target, w.script(clock'), clock', w, c, log');
      clock' := clock' + 1;
    }
  }

  /** What bounds the batches for a target: one more than its adjacents while they are not fetched. */
  ghost function AdjacentsLeft(rt: ReverseTraceroute, target: Hop): (bool, nat)
    reads rt
  {
    if target in rt.tsHop2AdjsLeft then (false, |rt.tsHop2AdjsLeft[target]|) else (true, 0)
  }

  // ----- the run -----

  ghost function Rank(s: Step): nat {
    match s
    case TrToSource => 5
    case RecordRoute => 4
    case Timestamp => 3
    case BackgroundTRS => 2
    case AssumeSymmetric => 1
  }

  /** Enters the loop of record route. */
  lemma EnterProbing(rt: ReverseTraceroute, at: nat, w: World, c: Context, log: seq<Config>)
    returns (log': seq<Config>)
    requires Under(rt, log, Before(RecordRoute), at, w, c) && !w.script(at).canceled
    ensures log <= log' && Under(rt, log', Probing, at + 1, w, c)
  {
    hide Inv, IsLog, Next, Views, SegSet, BufSet;
    ContextOf(rt.State(), c);
    var x := End(log);
    var y := x.(place := Probing, at := at + 1);
    StepNext(x, RecordRoute, y, w, c);
    AddEntry(log, y, w, c);
    log' := log + [y];
  }

  /** Enters the loop of timestamps, unless the target does not answer them. */
  method EnterStamping(rt: ReverseTraceroute, ghost at: nat, w: World, ghost c: Context, ghost log: seq<Config>)
    returns (place: Place, ghost log': seq<Config>)
    requires Under(rt, log, Before(Timestamp), at, w, c) && !w.script(at).canceled
    ensures rt.State() == old(rt.State()) && log <= log' && Under(rt, log', place, at + 1, w, c)
    ensures place == Before(BackgroundTRS) || place.Stamping?
  {
    hide Inv, IsLog, Next, Views, SegSet, BufSet, LastOf;
    ContextOf(rt.State(), c);
    var target := LastOf(rt.TopSeg().hops);
    place := if target in rt.tsUnresponsive then Before(BackgroundTRS) else Stamping(target);
    ghost var x := End(log);
    ghost var y := x.(place := place, at := at + 1);
    StepNext(x, Timestamp, y, w, c);
    AddEntry(log, y, w, c);
    log' := log + [y];
  }

  /** One step: it ends the search, lowers its measure, or leaves the stack to a later kind of step. */
  method TakeStep(rt: ReverseTraceroute, step: Step, a: Answer, clock: nat, w: World, ghost c: Context,
                  ghost log: seq<Config>) returns (next: Place, clock': nat, ghost log': seq<Config>)
    requires Under(rt, log, Before(step), clock, w, c) && WorldOK(w, c) && a == w.script(clock) && !a.canceled
    modifies rt
    ensures Stepped(rt, log, log', next, clock', w, c, old(rt.State()))
    ensures next.Done?
            || (next.Before? && (Lower(rt.State(), old(rt.State()), c)
                                 || (rt.State() == old(rt.State()) && Rank(next.step) < Rank(step))))
  {
    hide Views, SegSet, BufSet, Inv, IsLog, WorldOK;
    WorldAt(w, c, clock);
    clock' := clock + 1;
    match step
    case TrToSource => next, log' := StepTrToSource(rt, a, clock, w, c, log);
    case RecordRoute =>
      log' := EnterProbing(rt, clock, w, c, log);
      next, clock', log' := StepRecordRoute(rt, w, clock', c, log');
    case Timestamp =>
      next, log' := EnterStamping(rt, clock, w, c, log);
      if next.Stamping? {
        next, clock', log' := StepTimestamp(rt, next.target, w, clock', c, log');
      }
    case BackgroundTRS => next, log' := StepBackground(rt, a, clock, w, c, log);
    case AssumeSymmetric => next, log' := StepAssumeSymmetric(rt, a, clock, w, c, log);
  }

  /** Runs a search to its end, from any path, whatever is answered. `log` is all it did, from where it started to
      its end; its stacks are a run of the search that is over. */
  method Run(rt: ReverseTraceroute, w: World, ghost c: Context) returns (e: Ending, ghost log: seq<Config>)
    requires Live(rt, c) && WorldOK(w, c)
    modifies rt
    ensures rt.Valid() && IsLog(log, w, c) && log[0] == Outset(old(rt.State()), old(Mem(rt)), c.backoff)
    ensures End(log).place == Done(e) && End(log).st == rt.State() && End(log).mem == Mem(rt)
    ensures Over(Turns(log), rt.State(), w, c, e) && Turns(log)[0] == Turn(old(rt.State()), 0, Start)
    ensures old(Clean(rt.State(), c)) && !MetError(Turns(log), w, c) ==> e != GrowPanic && c.src !in rt.deadEnd
  {
    hide Views, SegSet, BufSet, Inv, Clean, Over, MetError, WorldOK, Next;
    var place := Before(if rt.backoffEndhost then AssumeSymmetric else TrToSource);
    var clock := 0;
    ghost var first := Outset(rt.State(), Mem(rt), c.backoff);
    log := [first];
    assert IsLog(log, w, c);
    hide IsLog;
    while !place.Done?
      invariant [first] <= log && (place.Before? || place.Done?)
      invariant Stands(rt, log, place, clock, w, c) && (!place.Done? ==> Live(rt, c))
      decreases if place.Done? then 0 else 1,
                if place.Done? then 0 else Alive(rt.State(), c),
                if place.Done? then 0 else Room(rt.State(), c),
                if place.Done? then 0 else Unassumed(rt.State(), c),
                if place.Done? then 0 else Rank(place.step)
    {
      var a := w.script(clock);
      if a.canceled {
        log := CancelHere(rt, log, place.step, clock, w, c);
        place := Done(Canceled);
      } else {
        place, clock, log := TakeStep(rt, place.step, a, clock, w, c, log);
      }
    }
    e := place.e;
    LogStarts(log, first);
    LogIsOver(log, w, c);
    if Clean(first.st, c) && !MetError(Turns(log), w, c) {
      RunEndsSafe(Turns(log), rt.State(), first.st, w, c, e);
    }
  }

  lemma CancelHere(rt: ReverseTraceroute, log: seq<Config>, step: Step, at: nat, w: World, c: Context)
    returns (log': seq<Config>)
    requires Under(rt, log, Before(step), at, w, c) && w.script(at).canceled
    ensures log <= log' && Stands(rt, log', Done(Canceled), at, w, c)
  {
    hide Inv, IsLog, Steps, Views, SegSet, BufSet;
    ContextOf(rt.State(), c);
    var x := End(log);
    var y := x.(place := Done(Canceled));
    assert Next(x, y, w, c);
    AddEntry(log, y, w, c);
    log' := log + [y];
  }

  lemma LogStarts(log: seq<Config>, first: Config)
    requires [first] <= log && End(log).place.Done? && !first.place.Done?
    ensures log[0] == first && |log| > 1
  {
  }

  lemma RunEndsSafe(run: seq<Turn>, st': Stack, start: Stack, w: World, c: Context, e: Ending)
    requires Over(run, st', w, c, e) && run[0] == Turn(start, 0, Start) && Inv(start, c) && Clean(start, c)
    requires !MetError(run, w, c)
    ensures e != GrowPanic && c.src !in st'.dead
  {
    hide Over, Inv, Clean, MetError;
    EndSafe(run, st', w, c, e);
  }

  /** A whole measurement. It always ends; and if source and destination are in different clusters, and no
      loop removal fails, it never panics on growing and never gives up the source. */
  method Measure(src: Hop, dst: Hop, backoff: bool, w: World, ghost universe: set<Hop>)
    returns (rt: ReverseTraceroute, e: Ending, ghost log: seq<Config>)
    requires src in universe && dst in universe && src != ZERO
    requires WorldOK(w, Context(w.cm, universe, src, backoff))
    ensures var c := Context(w.cm, universe, src, backoff);
            var first := Sanitize([dst], w.global)[0];
            && rt.Valid() && Measurement(log, first, w, c) && End(log).place == Done(e) && End(log).st == rt.State()
            && Over(Turns(log), rt.State(), w, c, e) && Turns(log)[0] == Turn(Initial(src, first), 0, Start)
            && (first != src && w.cm(first) != w.cm(src) && !MetError(Turns(log), w, c) ==>
                e != GrowPanic && src !in rt.deadEnd)
  {
    hide Views, SegSet, BufSet, Inv, Clean, WorldOK, Over, MetError;
    ghost var c := Context(w.cm, universe, src, backoff);
    ghost var first := Sanitize([dst], w.global)[0];
    WorldAt(w, c, 0);
    rt := new ReverseTraceroute(src, dst, backoff, w.global);
    InitialOK(c, first);
    if first != src && w.cm(first) != w.cm(src) {
      NotReachedYet(src, first, w.cm);
    }
    e, log := Run(rt, w, c);
  }

  lemma NotReachedYet(src: Hop, dst: Hop, cm: ClusterMap)
    requires src != dst && cm(src) != cm(dst)
    ensures !PathReaches(Top(Initial(src, dst).paths), cm)
  {
    assert LastSeg(Initial(src, dst).paths[0]).hops == [dst];
  }
}
