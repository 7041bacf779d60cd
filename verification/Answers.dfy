/** What the outside answers, and the runs a search makes of it: which answer brought each move, and what
    the end of a run says. */
module Answers {
  import opened Hops
  import opened Segments
  import opened Search
  import opened Trim
  import opened Roots
  import opened Schedule
  import opened ReverseTraceroute
  import opened Candidates

  datatype Maybe<T> = Nothing | Just(v: T)

  /** What the network, the atlas and the services answer at one point of a run. */
  datatype Answer = Answer(
    canceled: bool,
    path: Maybe<seq<Hop>>,
    offers: nat -> Offer,
    rr: Maybe<seq<Hop>>,
    spoofed: seq<Spoofed>,
    adjacents: Adjacents,
    viaSpoofers: bool,
    noSpoofers: bool,
    stamped: Maybe<seq<seq<Hop>>>,
    stampKind: Kind,
    background: Maybe<seq<Hop>>,
    trace: Maybe<seq<Hop>>)

  /** Aliases, which addresses can be routed, and the answers in the order they come. */
  datatype World = World(cm: ClusterMap, global: Hop -> bool, script: nat -> Answer)

  ghost predicate Known(hops: seq<Hop>, c: Context) {
    forall h <- hops :: h in c.universe
  }

  /** Answers hold known addresses only; a traceroute has hops; timestamps never assume symmetry. */
  ghost predicate AnswerOK(a: Answer, c: Context) {
    && (a.path.Just? ==> Known(a.path.v, c))
    && (a.rr.Just? ==> Known(a.rr.v, c))
    && (forall s <- a.spoofed :: Known(s.rr, c))
    && (a.stamped.Just? ==> forall s <- a.stamped.v :: Known(s, c))
    && !a.stampKind.DstSym?
    && (a.background.Just? ==> Known(a.background.v, c))
    && (a.trace.Just? ==> a.trace.v != [] && Known(a.trace.v, c))
  }

  ghost predicate WorldOK(w: World, c: Context) {
    w.cm == c.cm && ZERO in c.universe && forall n: nat :: AnswerOK(w.script(n), c)
  }

  // ----- the candidates an answer makes -----

  function Stamped(lists: seq<seq<Hop>>, n: nat, kind: Kind, src: Hop, global: Hop -> bool): seq<Seg>
    requires n <= |lists|
  {
    if n == 0 then []
    else Stamped(lists, n - 1, kind, src, global) + [Seg(kind, Sanitize(lists[n-1], global), src)]
  }

  /** The hops of the current path, and the dead ends: what a first assumed hop must not be. */
  function Passed(st: Stack): set<Hop>
    requires st.paths != []
  {
    SetOf(HopsOf(Top(st.paths))) + st.dead
  }

  /** NewDstSymRevSegment with one hop to assume: back along the traceroute to the first hop that is neither
      silent, nor on the path, nor dead. */
  function Symmetric(st: Stack, trace: seq<Hop>, src: Hop, global: Hop -> bool): Seg
    requires st.paths != [] && trace != [] && src != ZERO
  {
    var rev := Backwards(src, trace);
    assert rev[|rev| - 1] in rev;
    Seg(DstSym(trace, 1), Sanitize(Select(rev, 1, Passed(st)), global), src)
  }

  /** A hop can be assumed: there is a traceroute, and the current path does not assume symmetry yet. */
  ghost predicate HasTrace(a: Answer, st: Stack, c: Context) {
    && a.trace.Just? && a.trace.v != [] && c.src != ZERO
    && st.paths != [] && Top(st.paths) != [] && !LastSeg(Top(st.paths)).kind.DstSym?
  }

  /** How a state came about: it is the first, candidates of one of four kinds were added to the one before, one
      more hop was assumed, or a path was given up. */
  datatype Cause = Start | RecordRoutes | SpoofedRoutes | Timestamps | Assumption | Growth | GivingUp

  /** The candidates a step makes of one answer: prefixes of a record route, of all answers to spoofed
      probes, what timestamps verified, or the hop assumed from a traceroute. */
  ghost predicate Makes(a: Answer, how: Cause, values: seq<Seg>, st: Stack, w: World, c: Context) {
    match how
    case RecordRoutes => a.rr.Just? && values == Prefixes(a.rr.v, |a.rr.v|, RR, c.src, w.global)
    case SpoofedRoutes => values == SpoofedValues(a.spoofed, |a.spoofed|, c.src, w.global)
    case Timestamps =>
      a.stamped.Just? && values == Stamped(a.stamped.v, |a.stamped.v|, a.stampKind, c.src, w.global)
    case Assumption => HasTrace(a, st, c) && values == [Symmetric(st, a.trace.v, c.src, w.global)]
    case _ => false
  }

  /** Candidates in the order they are tried: some order of those an answer makes. */
  ghost predicate Tried(a: Answer, how: Cause, cands: seq<Seg>, st: Stack, w: World, c: Context) {
    exists values :: Makes(a, how, values, st, w, c) && multiset(cands) == multiset(values)
  }

  lemma TriedByCandidates(a: Answer, how: Cause, cands: seq<Seg>, st: Stack, w: World, c: Context)
    requires Tried(a, how, cands, st, w, c)
    ensures how.RecordRoutes? || how.SpoofedRoutes? || how.Timestamps? || how.Assumption?
  {
  }

  /** Why the current path is given up: no traceroute, or the hop assumed from it cannot be stacked. */
  ghost predicate NoWayBack(a: Answer, st: Stack, w: World, c: Context) {
    a.trace.Just? ==>
      && HasTrace(a, st, c)
      && var s := Symmetric(st, a.trace.v, c.src, w.global);
         PushAll(ClonePath(Top(st.paths)), st.dead, [s], c.cm).paths == []
  }

  // ----- runs -----

  /** New candidates that one answer makes extend the current path. */
  ghost predicate ExtendsBy(a: Answer, how: Cause, cands: seq<Seg>, st: Stack, st': Stack, w: World, c: Context) {
    Tried(a, how, cands, st, w, c) && ExtendMove(st, st', cands, c)
  }

  /** A move that one answer brings. */
  ghost predicate Brings(a: Answer, how: Cause, st: Stack, st': Stack, w: World, c: Context) {
    match how
    case Start => false
    case Growth => GrowMove(st, st', c)
    case GivingUp => BacktrackMove(st, st', c) && NoWayBack(a, st, w, c)
    case _ => exists cands :: ExtendsBy(a, how, cands, st, st', w, c)
  }

  /** A state of a run, how many answers had been taken when it came about, and what brought it about. */
  datatype Turn = Turn(st: Stack, at: nat, how: Cause)

  /** The answer that brought this turn about did so after the one before. */
  ghost predicate Follows(t: Turn, t': Turn, w: World, c: Context) {
    t.at < t'.at && Brings(w.script(t'.at - 1), t'.how, t.st, t'.st, w, c)
  }

  ghost predicate IsRun(run: seq<Turn>, w: World, c: Context): (r: bool)
    ensures r ==> run != []
  {
    run != [] && forall i :: 0 <= i < |run| - 1 ==> Follows(run[i], run[i+1], w, c)
  }

  lemma RunAt(run: seq<Turn>, i: nat, w: World, c: Context)
    requires IsRun(run, w, c) && i < |run| - 1
    ensures Follows(run[i], run[i+1], w, c)
  {
  }

  function Last(run: seq<Turn>): Turn
    requires run != []
  {
    run[|run| - 1]
  }

  lemma AddTurn(run: seq<Turn>, st': Stack, at: nat, how: Cause, w: World, c: Context)
    requires IsRun(run, w, c) && Last(run).at <= at && Brings(w.script(at), how, Last(run).st, st', w, c)
    ensures IsRun(run + [Turn(st', at + 1, how)], w, c)
  {
    hide Brings;
    var more := run + [Turn(st', at + 1, how)];
    forall i | 0 <= i < |more| - 1
      ensures Follows(more[i], more[i+1], w, c)
    {
      assert more[i] == run[i];
      if i < |run| - 1 {
        assert more[i+1] == run[i+1];
      }
    }
  }

  // ----- errors -----

  /** One answer's candidates ran into a loop-removal error on a state of the run. */
  ghost predicate ErrsAt(run: seq<Turn>, i: nat, cands: seq<Seg>, w: World, c: Context)
    requires i < |run| - 1 && run[i+1].at > 0
  {
    && ExtendsBy(w.script(run[i+1].at - 1), run[i+1].how, cands, run[i].st, run[i+1].st, w, c)
    && PushAll(ClonePath(Top(run[i].st.paths)), run[i].st.dead, cands, c.cm).err
  }

  /** Some move of the run stacked paths although loop removal failed. */
  ghost predicate MetError(run: seq<Turn>, w: World, c: Context) {
    exists i: nat, cands :: i < |run| - 1 && run[i+1].at > 0 && ErrsAt(run, i, cands, w, c)
  }

  function Stacks(run: seq<Turn>): (s: seq<Stack>)
    ensures |s| == |run| && forall i :: 0 <= i < |s| ==> s[i] == run[i].st
  {
    seq(|run|, i requires 0 <= i < |run| => run[i].st)
  }

  /** A run without an error is a run of clean moves. */
  lemma ErrorFreeIsClean(run: seq<Turn>, w: World, c: Context, i: nat)
    requires IsRun(run, w, c) && !MetError(run, w, c) && i < |run| - 1
    ensures CleanMove(run[i].st, run[i+1].st, c)
  {
    hide ExtendMove, GrowMove, BacktrackMove, PushAll, Tried;
    RunAt(run, i, w, c);
    var a, st, st' := w.script(run[i+1].at - 1), run[i].st, run[i+1].st;
    if !GrowMove(st, st', c) && !BacktrackMove(st, st', c) {
      var cands :| ExtendsBy(a, run[i+1].how, cands, st, st', w, c);
      assert !ErrsAt(run, i, cands, w, c);
    }
  }

  /** A run from a safe state ends in one, unless it met an error. */
  lemma RunSafe(run: seq<Turn>, w: World, c: Context)
    requires IsRun(run, w, c) && Inv(run[0].st, c) && Clean(run[0].st, c) && !MetError(run, w, c)
    ensures Safe(Last(run).st, c)
  {
    hide CleanMove, Inv, Clean, Safe, MetError, IsRun;
    var s := Stacks(run);
    forall i | 0 <= i < |s| - 1
      ensures CleanMove(s[i], s[i+1], c)
    {
      ErrorFreeIsClean(run, w, c, i);
    }
    CleanMovesSafe(s, c);
  }

  // ----- ends -----

  /** How a run ends. The last four are panics of the program. */
  datatype Ending = Reached | GaveUp | Canceled | SplicePanic | NotAddedPanic | NotReachedPanic | GrowPanic

  /** An atlas traceroute spliced in at the end. The program panics if that is impossible, if it is not added,
      or if it does not reach. */
  ghost predicate SpliceEnding(hops: seq<Hop>, st: Stack, st': Stack, w: World, c: Context, e: Ending) {
    if hops == [] then e == SplicePanic && st' == st
    else
      var tr := Seg(TrToSrc, Sanitize(hops, w.global), c.src);
      && Spliceable(st.paths, tr)
      && match Splice(st.paths, st.dead, tr, c.cm)
         case Crashed => e == SplicePanic && st' == st
         case NotAdded => e == NotAddedPanic && st' == st
         case Added(paths) =>
           && st' == st.(paths := paths) && paths != []
           && e == if PathReaches(Top(paths), c.cm) then Reached else NotReachedPanic
  }

  ghost predicate SpliceEndingOf(a: Answer, st: Stack, st': Stack, w: World, c: Context, e: Ending) {
    || (a.path.Just? && SpliceEnding(a.path.v, st, st', w, c, e))
    || (a.background.Just? && SpliceEnding(a.background.v, st, st', w, c, e))
  }

  /** What an ending says of the last state of the run, `st`, the final one, and the answer that brought it:
      reaching by new candidates, by growing or by a traceroute; giving the last path up; or a panic for
      the very reason named. */
  ghost predicate Ends(a: Answer, st: Stack, st': Stack, w: World, c: Context, e: Ending) {
    match e
    case Reached =>
      && st'.paths != [] && PathReaches(Top(st'.paths), c.cm)
      && ((exists how, cands :: Tried(a, how, cands, st, w, c) && Called(st, st', cands, true, c))
          || (CanGrow(st) && !GrowthRefused(st) && st' == Grown(st))
          || SpliceEndingOf(a, st, st', w, c, e))
    case GaveUp =>
      && st.paths != [] && NonEmpty(st.paths) && !LastSeg(Top(st.paths)).kind.DstSym?
      && NoWayBack(a, st, w, c)
      && st' == FailTop(st, c.backoff) && Search.Failed(st'.paths, c.backoff)
    case Canceled => a.canceled && st' == st
    case GrowPanic => GrowthRefused(st) && st' == st
    case SplicePanic => SpliceEndingOf(a, st, st', w, c, e)
    case NotAddedPanic => SpliceEndingOf(a, st, st', w, c, e)
    case NotReachedPanic => SpliceEndingOf(a, st, st', w, c, e)
  }

  /** A run that has ended. */
  ghost predicate Over(run: seq<Turn>, st': Stack, w: World, c: Context, e: Ending) {
    IsRun(run, w, c) && exists n: nat :: Last(run).at <= n + 1 && Ends(w.script(n), Last(run).st, st', w, c, e)
  }

  lemma SpliceKeepsDead(hops: seq<Hop>, st: Stack, st': Stack, w: World, c: Context, e: Ending)
    requires SpliceEnding(hops, st, st', w, c, e)
    ensures st'.dead == st.dead
  {
    hide Splice, Sanitize, Spliceable;
  }

  /** However a run ends: without an error, the source is no dead end and no growth was refused. */
  lemma EndSafe(run: seq<Turn>, st': Stack, w: World, c: Context, e: Ending)
    requires Over(run, st', w, c, e) && Inv(run[0].st, c) && Clean(run[0].st, c) && !MetError(run, w, c)
    ensures e != GrowPanic && c.src !in st'.dead
  {
    hide IsRun, MetError, Inv, Clean, Tried, SpliceEnding, PathReaches, GrowthRefused, Grown, CanGrow, NoWayBack,
         FailTop;
    RunSafe(run, w, c);
    var st := Last(run).st;
    SafeSource(st, c);
    var n: nat :| Last(run).at <= n + 1 && Ends(w.script(n), st, st', w, c, e);
    var a := w.script(n);
    if SpliceEndingOf(a, st, st', w, c, e) {
      if a.path.Just? && SpliceEnding(a.path.v, st, st', w, c, e) {
        SpliceKeepsDead(a.path.v, st, st', w, c, e);
      } else {
        SpliceKeepsDead(a.background.v, st, st', w, c, e);
      }
    }
  }

  lemma SafeSource(st: Stack, c: Context)
    requires Safe(st, c)
    ensures c.src !in st.dead && !GrowthRefused(st)
    ensures st.paths != [] && NonEmpty(st.paths) ==> c.src !in FailTop(st, c.backoff).dead
  {
    if st.paths != [] && NonEmpty(st.paths) {
      BacktrackKeepsClean(st, c);
    }
  }

  /** Every stack of a run has its paths grow from one another. */
  lemma {:induction false} RunRooted(run: seq<Turn>, w: World, c: Context, n: nat)
    requires IsRun(run, w, c) && n < |run| && Rooted(run[0].st.paths)
    ensures Rooted(run[n].st.paths)
  {
    hide IsRun, Rooted;
    if n > 0 {
      RunRooted(run, w, c, n - 1);
      RunAt(run, n - 1, w, c);
      var t, t' := run[n-1], run[n-1+1];
      BringsMove(w.script(t'.at - 1), t'.how, t.st, t'.st, w, c);
      MoveKeepsRoots(t.st, t'.st, c);
    }
  }

  lemma BringsMove(a: Answer, how: Cause, st: Stack, st': Stack, w: World, c: Context)
    requires Brings(a, how, st, st', w, c)
    ensures Move(st, st', c)
  {
    hide ExtendMove, GrowMove, BacktrackMove, Tried, NoWayBack;
    if !GrowMove(st, st', c) && !BacktrackMove(st, st', c) {
      var cands :| ExtendsBy(a, how, cands, st, st', w, c);
      assert ExtendMove(st, st', cands, c);
    }
  }

  /** How a run comes to its end with a traceroute of at least one hop. It is not added if it meets no path, or
      cannot be put on the one it meets; the cut panics if the traceroute's first address is in the last segment
      of that, but behind the hop that shares its cluster; otherwise the run has reached if and only if the
      traceroute does. No whole segment is ever cut off. */
  lemma SpliceEnds(run: seq<Turn>, hops: seq<Hop>, st': Stack, w: World, c: Context, e: Ending)
    requires IsRun(run, w, c) && Rooted(run[0].st.paths)
    requires hops != [] && SpliceEnding(hops, Last(run).st, st', w, c, e)
    ensures var tr := Seg(TrToSrc, Sanitize(hops, w.global), c.src);
            && Rooted(Last(run).st.paths)
            && e == SpliceVerdict(Last(run).st, tr, c.cm)
  {
    hide IsRun, Rooted, Splice, FirstMeeting, CutFits, Sanitize, Spliceable, PathReaches, Reaches, Joins, Stump;
    var tr := Seg(TrToSrc, Sanitize(hops, w.global), c.src);
    RunRooted(run, w, c, |run| - 1);
    SpliceRooted(Last(run).st.paths, Last(run).st.dead, tr, c.cm);
  }

  /** The stack a splice leaves at the end of a run. */
  lemma SplicedTo(st: Stack, hops: seq<Hop>, w: World, c: Context) returns (st': Stack)
    requires Rooted(st.paths)
    requires hops != [] && Spliceable(st.paths, Seg(TrToSrc, Sanitize(hops, w.global), c.src))
    ensures var tr := Seg(TrToSrc, Sanitize(hops, w.global), c.src);
            var e := SpliceVerdict(st, tr, c.cm);
            && SpliceEnding(hops, st, st', w, c, e)
            && if e.Reached? || e.NotReachedPanic?
               then PutOnTop(st.paths, st'.paths, tr, Stump(Meet(st.paths, tr.hops[0], c.cm), tr.hops[0]), c.cm)
               else st' == st
  {
    hide Rooted, FirstMeeting, CutFits, Sanitize, Spliceable, PathReaches, Reaches, Joins, Stump;
    var tr := Seg(TrToSrc, Sanitize(hops, w.global), c.src);
    SpliceRooted(st.paths, st.dead, tr, c.cm);
    var r := Splice(st.paths, st.dead, tr, c.cm);
    st' := if r.Added? then st.(paths := r.paths) else st;
  }

  ghost function SpliceVerdict(st: Stack, tr: Seg, cm: ClusterMap): Ending
    requires Rooted(st.paths) && tr.hops != []
  {
    if FirstMeeting(st.paths, tr.hops[0], cm) == |st.paths| then NotAddedPanic
    else
      var m := Meet(st.paths, tr.hops[0], cm);
      if !CutFits(m.hops, m.keep, tr.hops[0]) then SplicePanic
      else if !Joins(tr.hops, Stump(m, tr.hops[0]), st.dead, cm) then NotAddedPanic
      else if Reaches(tr, cm) then Reached
      else NotReachedPanic
  }
}
