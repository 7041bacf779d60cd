/** The driver as a machine that takes one answer after the other: where it stands, what it does with the next
    answer, and what that says of whole measurements. */
module Driver {
  import opened Hops
  import opened Segments
  import opened Search
  import opened Trim
  import opened Schedule
  import opened ReverseTraceroute
  import opened Candidates
  import opened Answers

  datatype Step = TrToSource | RecordRoute | Timestamp | BackgroundTRS | AssumeSymmetric

  /** Where the driver stands: before a step; within the loops of record route and of timestamps, the latter for a
      target; before the look at the background traceroutes after new hops, with the step to take otherwise; or at
      the end. */
  datatype Place = Before(step: Step) | Probing | Stamping(target: Hop) | Checking(next: Step) | Done(e: Ending)

  /** What it remembers beside the stack: vantage points left and probes unanswered by hop, adjacents left, and the
      hops that do not answer timestamps. */
  datatype Memory = Memory(left: Left, resp: Responses, adjs: map<Hop, seq<Hop>>, silent: set<Hop>)

  /** `at` answers have been taken; the stack was last changed by `how`. */
  datatype Config = Config(place: Place, st: Stack, mem: Memory, at: nat, how: Cause)

  const NOTHING_KNOWN := Memory(map[], map[], map[], {})

  /** There is a current path, with a last segment. */
  ghost predicate HasCurrent(st: Stack) {
    st.paths != [] && NonEmpty(st.paths)
  }

  function Current(st: Stack): Seg
    requires st.paths != [] && Top(st.paths) != []
  {
    LastSeg(Top(st.paths))
  }

  function SpooferOf(k: Kind): Spoofer {
    if k.SpoofRR? then Some(k.spoofSource) else None
  }

  // ----- what one answer does -----

  /** A traceroute of the atlas is spliced in, which ends the measurement. */
  ghost predicate Ended(x: Config, hops: seq<Hop>, at: nat, y: Config, w: World, c: Context) {
    exists e ::
      y == x.(place := Done(e), st := y.st, at := at) && e != Canceled && e != GaveUp && e != GrowPanic
      && SpliceEnding(hops, x.st, y.st, w, c, e)
  }

  /** Candidates made of the answer are stacked. If any was added the measurement has reached, or the background
      traceroutes are looked at; if none, the driver stays where it is, also where an error came after some. */
  ghost predicate Adds(x: Config, a: Answer, how: Cause, next: Step, y: Config, w: World, c: Context) {
    exists cands, added :: Offers(x, a, how, cands, added, next, y, w, c)
  }

  ghost predicate Offers(x: Config, a: Answer, how: Cause, cands: seq<Seg>, added: bool, next: Step, y: Config,
                         w: World, c: Context) {
    && Tried(a, how, cands, x.st, w, c) && Called(x.st, y.st, cands, added, c)
    && y == x.(st := y.st, at := x.at + 1, how := if y.st == x.st then x.how else how,
               place := if !added then x.place
                        else if y.st.paths != [] && PathReaches(Top(y.st.paths), c.cm) then Done(Reached)
                        else Checking(next))
  }

  /** The lists once the hops of the current segment have been looked at, and the hop to probe next, -1 if none. */
  function Lists(x: Config, a: Answer): Left
    requires x.st.paths != [] && Top(x.st.paths) != []
  {
    Initialised(x.mem.left, Current(x.st).hops, a.offers, |Current(x.st).hops|)
  }

  function Aim(x: Config, a: Answer): (t: int)
    requires x.st.paths != [] && Top(x.st.paths) != []
    ensures var hops, init := Current(x.st).hops, Lists(x, a);
            -1 <= t < |hops| && (t >= 0 ==> hops[t] in init && init[hops[t]] != [])
  {
    Target(Current(x.st).hops, Lists(x, a), x.mem.resp)
  }

  /** The batch for the target, and the list after it. */
  function Batch(x: Config, a: Answer): Handed
    requires x.st.paths != [] && Top(x.st.paths) != [] && Aim(x, a) >= 0
  {
    Hand(Lists(x, a)[Current(x.st).hops[Aim(x, a)]], SpooferOf(Current(x.st).kind))
  }

  /** What is remembered of a batch: the list of the target is shorter; and a spoofed batch marks the target as one
      that answers, or counts the probes it did not answer. */
  function Remembered(x: Config, a: Answer): Memory
    requires x.st.paths != [] && Top(x.st.paths) != [] && Aim(x, a) >= 0
  {
    var target, h := Current(x.st).hops[Aim(x, a)], Batch(x, a);
    var m := x.mem.(left := Lists(x, a)[target := h.left]);
    if NON_SPOOFED in h.batch then m
    else if a.spoofed != [] then m.(resp := m.resp[target := -1])
    else m.(resp := AddUnresponsive(m.resp, target, |h.batch|))
  }

  /** One turn of the loop of record route: nothing is left to probe and timestamps are next; or a batch is handed
      out for the target, and its answers are made into candidates. */
  ghost predicate Probes(x: Config, a: Answer, y: Config, w: World, c: Context)
    requires HasCurrent(x.st)
  {
    if Aim(x, a) < 0 then y == x.(place := Before(Timestamp), mem := x.mem.(left := Lists(x, a)), at := x.at + 1)
    else
      var x' := x.(mem := Remembered(x, a));
      if NON_SPOOFED in Batch(x, a).batch then
        if a.rr.Nothing? then y == x'.(at := x.at + 1) else Adds(x', a, RecordRoutes, TrToSource, y, w, c)
      else
        if SpoofedValues(a.spoofed, |a.spoofed|, c.src, w.global) == [] then y == x'.(at := x.at + 1)
        else Adds(x', a, SpoofedRoutes, Timestamp, y, w, c)
  }

  /** The adjacents left once those of the target have been fetched. */
  function Adjoining(x: Config, target: Hop, a: Answer): map<Hop, seq<Hop>> {
    if target in x.mem.adjs || a.adjacents.NoAdjacents? then x.mem.adjs else x.mem.adjs[target := a.adjacents.hops]
  }

  /** One turn of the loop of timestamps: no adjacent is left, or no spoofer, and the background traceroutes are
      next; or one adjacent is tried. */
  ghost predicate Stamps(x: Config, target: Hop, a: Answer, y: Config, w: World, c: Context) {
    var adjs := Adjoining(x, target, a);
    if target !in adjs || adjs[target] == [] then
      y == x.(place := Before(BackgroundTRS), mem := x.mem.(adjs := adjs), at := x.at + 1)
    else
      var m := x.mem.(adjs := adjs[target := adjs[target][1..]]);
      if a.viaSpoofers && a.noSpoofers then y == x.(place := Before(BackgroundTRS), mem := m, at := x.at + 1)
      else
        var x' := x.(mem := if a.viaSpoofers then m.(silent := m.silent + {target}) else m);
        if a.stamped.Nothing? then y == x'.(at := x.at + 1) else Adds(x', a, Timestamps, TrToSource, y, w, c)
  }

  ghost predicate GivesUp(x: Config, y: Config, c: Context)
    requires HasCurrent(x.st)
  {
    var st' := FailTop(x.st, c.backoff);
    y == x.(st := st', at := x.at + 1, how := GivingUp,
            place := if Search.Failed(st'.paths, c.backoff) then Done(GaveUp) else Before(TrToSource))
  }

  /** One more hop is assumed of a path assuming symmetry. */
  ghost predicate Grows(x: Config, y: Config, c: Context) {
    if GrowthRefused(x.st) then y == x.(place := Done(GrowPanic), at := x.at + 1)
    else
      && CanGrow(x.st)
      && var st' := Grown(x.st);
         y == x.(st := st', at := x.at + 1, how := Growth,
                 place := if PathReaches(Top(st'.paths), c.cm) then Done(Reached) else Before(TrToSource))
  }

  /** A first hop is assumed of any other path; it is given up without a traceroute, or if that hop cannot be
      stacked. */
  ghost predicate Assumes(x: Config, a: Answer, y: Config, w: World, c: Context)
    requires HasCurrent(x.st)
  {
    if Current(x.st).kind.DstSym? then Grows(x, y, c)
    else if a.trace.Nothing? then GivesUp(x, y, c)
    else exists cands, added :: Assumed(x, a, cands, added, y, w, c)
  }

  ghost predicate Assumed(x: Config, a: Answer, cands: seq<Seg>, added: bool, y: Config, w: World, c: Context)
    requires HasCurrent(x.st)
  {
    && Tried(a, Assumption, cands, x.st, w, c)
    && if added then
         && Called(x.st, y.st, cands, true, c)
         && y == x.(st := y.st, at := x.at + 1, how := Assumption,
                    place := if y.st.paths != [] && PathReaches(Top(y.st.paths), c.cm) then Done(Reached)
                             else Before(TrToSource))
       else Called(x.st, x.st, cands, false, c) && GivesUp(x, y, c)
  }

  ghost predicate Steps(x: Config, step: Step, a: Answer, y: Config, w: World, c: Context)
    requires HasCurrent(x.st)
  {
    match step
    case TrToSource =>
      if a.path.Just? && a.path.v != [] then Ended(x, a.path.v, x.at + 1, y, w, c)
      else y == x.(place := Before(RecordRoute), at := x.at + 1)
    case RecordRoute => y == x.(place := Probing, at := x.at + 1)
    case Timestamp =>
      var target := LastHop(Top(x.st.paths));
      y == x.(place := if target in x.mem.silent then Before(BackgroundTRS) else Stamping(target), at := x.at + 1)
    case BackgroundTRS =>
      if a.background.Just? then Ended(x, a.background.v, x.at + 1, y, w, c)
      else y == x.(place := Before(AssumeSymmetric), at := x.at + 1)
    case AssumeSymmetric => Assumes(x, a, y, w, c)
  }

  /** How the driver goes on. Every place takes the next answer, but the look at the background traceroutes after
      new hops still goes by the last one. */
  ghost predicate Next(x: Config, y: Config, w: World, c: Context) {
    && HasCurrent(x.st)
    && match x.place
       case Before(step) =>
         if w.script(x.at).canceled then y == x.(place := Done(Canceled))
         else Steps(x, step, w.script(x.at), y, w, c)
       case Probing => Probes(x, w.script(x.at), y, w, c)
       case Stamping(target) => Stamps(x, target, w.script(x.at), y, w, c)
       case Checking(next) =>
         && x.at > 0
         && var a := w.script(x.at - 1);
            if a.background.Just? then Ended(x, a.background.v, x.at, y, w, c) else y == x.(place := Before(next))
       case Done(_) => false
  }

  lemma StepNext(x: Config, step: Step, y: Config, w: World, c: Context)
    requires x.place == Before(step) && HasCurrent(x.st) && !w.script(x.at).canceled
    requires Steps(x, step, w.script(x.at), y, w, c)
    ensures Next(x, y, w, c)
  {
    hide Steps;
  }

  lemma ProbeNext(x: Config, y: Config, w: World, c: Context)
    requires x.place == Probing && HasCurrent(x.st) && Probes(x, w.script(x.at), y, w, c)
    ensures Next(x, y, w, c)
  {
    hide Probes;
  }

  lemma StampNext(x: Config, target: Hop, y: Config, w: World, c: Context)
    requires x.place == Stamping(target) && HasCurrent(x.st) && Stamps(x, target, w.script(x.at), y, w, c)
    ensures Next(x, y, w, c)
  {
    hide Stamps;
  }

  // ----- whole measurements -----

  function End(log: seq<Config>): Config
    requires log != []
  {
    log[|log| - 1]
  }

  /** What the driver did, from one place to the next, with no answer left out. */
  ghost predicate IsLog(log: seq<Config>, w: World, c: Context): (r: bool)
    ensures r ==> log != []
  {
    log != [] && forall i :: 0 <= i < |log| - 1 ==> Next(log[i], log[i+1], w, c)
  }

  lemma LogAt(log: seq<Config>, i: nat, w: World, c: Context)
    requires IsLog(log, w, c) && i < |log| - 1
    ensures Next(log[i], log[i+1], w, c)
  {
  }

  lemma AddEntry(log: seq<Config>, y: Config, w: World, c: Context)
    requires IsLog(log, w, c) && Next(End(log), y, w, c)
    ensures IsLog(log + [y], w, c)
  {
    hide Next;
    var more := log + [y];
    forall i | 0 <= i < |more| - 1
      ensures Next(more[i], more[i+1], w, c)
    {
      assert more[i] == log[i];
      if i < |log| - 1 {
        assert more[i+1] == log[i+1];
      }
    }
  }

  lemma LogPrefix(log: seq<Config>, w: World, c: Context)
    requires IsLog(log, w, c) && |log| > 1
    ensures IsLog(log[..|log| - 1], w, c) && Next(log[|log| - 2], End(log), w, c)
  {
    hide Next;
    var less := log[..|log| - 1];
    forall i | 0 <= i < |less| - 1
      ensures Next(less[i], less[i+1], w, c)
    {
      assert less[i] == log[i] && less[i+1] == log[i+1];
    }
    assert log[|log| - 2 + 1] == End(log);
  }

  /** Where a measurement starts. */
  function Outset(st: Stack, mem: Memory, backoff: bool): Config {
    Config(Before(if backoff then AssumeSymmetric else TrToSource), st, mem, 0, Start)
  }

  /** The log of a measurement that has ended, of destination `dst`. */
  ghost predicate Measurement(log: seq<Config>, dst: Hop, w: World, c: Context) {
    IsLog(log, w, c) && log[0] == Outset(Initial(c.src, dst), NOTHING_KNOWN, c.backoff) && End(log).place.Done?
  }

  // ----- the moves of the search in it -----

  /** The changes of the stack, as a run of the search. */
  function Turns(log: seq<Config>): (run: seq<Turn>)
    requires log != []
    ensures run != [] && run[0] == Turn(log[0].st, log[0].at, Start)
  {
    if |log| == 1 then [Turn(log[0].st, log[0].at, Start)]
    else
      var less, x, y := log[..|log| - 1], log[|log| - 2], End(log);
      if y.place.Done? || y.st == x.st then Turns(less) else Turns(less) + [Turn(y.st, y.at, y.how)]
  }

  lemma AddsBrings(x: Config, a: Answer, how: Cause, next: Step, y: Config, w: World, c: Context)
    requires Adds(x, a, how, next, y, w, c) && !x.place.Done?
    ensures y.at == x.at + 1
    ensures !y.place.Done? && y.st != x.st ==> y.how == how && Brings(a, how, x.st, y.st, w, c)
    ensures y.place.Done? ==> Ends(a, x.st, y.st, w, c, y.place.e)
  {
    hide Makes, PushAll, ClonePath, PathReaches, Offered;
    var cands, added :| Offers(x, a, how, cands, added, next, y, w, c);
    TriedByCandidates(a, how, cands, x.st, w, c);
    if !y.place.Done? && y.st != x.st {
      var pushed := PushAll(ClonePath(Top(x.st.paths)), x.st.dead, cands, c.cm);
      assert pushed.paths == [] ==> x.st.paths + pushed.paths == x.st.paths;
      assert ExtendsBy(a, how, cands, x.st, y.st, w, c);
    }
  }

  lemma EndedEnds(x: Config, a: Answer, hops: seq<Hop>, at: nat, y: Config, w: World, c: Context)
    requires Ended(x, hops, at, y, w, c) && (a.path == Just(hops) || a.background == Just(hops))
    ensures y.place.Done? && Ends(a, x.st, y.st, w, c, y.place.e)
  {
    hide SpliceEnding;
    var e :| y == x.(place := Done(e), st := y.st, at := at) && e != Canceled && e != GaveUp && e != GrowPanic
      && SpliceEnding(hops, x.st, y.st, w, c, e);
    assert SpliceEndingOf(a, x.st, y.st, w, c, e);
    if e == Reached {
      SpliceReached(hops, x.st, y.st, w, c);
    }
  }

  lemma SpliceReached(hops: seq<Hop>, st: Stack, st': Stack, w: World, c: Context)
    requires SpliceEnding(hops, st, st', w, c, Reached)
    ensures st'.paths != [] && PathReaches(Top(st'.paths), c.cm)
  {
    hide Splice, Sanitize, Spliceable;
  }

  lemma GivesUpBrings(x: Config, a: Answer, y: Config, w: World, c: Context)
    requires HasCurrent(x.st) && GivesUp(x, y, c) && !Current(x.st).kind.DstSym? && NoWayBack(a, x.st, w, c)
    ensures y.at == x.at + 1 && y.how == GivingUp
    ensures !y.place.Done? ==> Brings(a, GivingUp, x.st, y.st, w, c)
    ensures y.place.Done? ==> Ends(a, x.st, y.st, w, c, y.place.e)
  {
    hide FailTop, Search.Failed, NoWayBack;
  }

  lemma GrowsBrings(x: Config, a: Answer, y: Config, w: World, c: Context)
    requires Grows(x, y, c)
    ensures y.at == x.at + 1
    ensures !y.place.Done? && y.st != x.st ==> y.how == Growth && Brings(a, Growth, x.st, y.st, w, c)
    ensures !y.place.Done? ==> y.st != x.st
    ensures y.place.Done? ==> Ends(a, x.st, y.st, w, c, y.place.e)
  {
    hide PathReaches, ReplaceLast, GrowSeg, Ignored;
    if !GrowthRefused(x.st) {
      assert |Grown(x.st).paths| == |x.st.paths| + 1;
      assert !y.place.Done? ==> GrowMove(x.st, y.st, c);
    }
  }

  /** A single candidate that was not added changes nothing. */
  lemma NotAssumed(x: Config, a: Answer, cands: seq<Seg>, w: World, c: Context)
    requires Tried(a, Assumption, cands, x.st, w, c) && Called(x.st, x.st, cands, false, c)
    ensures NoWayBack(a, x.st, w, c)
  {
    hide Symmetric, PushAll, ClonePath, Offered;
    var s := Symmetric(x.st, a.trace.v, c.src, w.global);
    assert multiset(cands) == multiset([s]);
    OnlyOneCandidate(cands, s);
    var pushed := PushAll(ClonePath(Top(x.st.paths)), x.st.dead, cands, c.cm);
    assert |x.st.paths + pushed.paths| == |x.st.paths|;
  }

  lemma OnlyOneCandidate(cands: seq<Seg>, s: Seg)
    requires multiset(cands) == multiset([s])
    ensures cands == [s]
  {
    assert |cands| == |multiset(cands)| == 1;
    assert cands[0] in multiset(cands);
  }

  lemma AssumesBrings(x: Config, a: Answer, y: Config, w: World, c: Context)
    requires HasCurrent(x.st) && Assumes(x, a, y, w, c)
    ensures y.at == x.at + 1
    ensures !y.place.Done? && y.st != x.st ==> Brings(a, y.how, x.st, y.st, w, c)
    ensures y.place.Done? ==> Ends(a, x.st, y.st, w, c, y.place.e)
  {
    hide Makes, Called, PathReaches, FailTop, Search.Failed, GrowthRefused, Grown, CanGrow, Ends, Brings, HasTrace;
    if Current(x.st).kind.DstSym? {
      GrowsBrings(x, a, y, w, c);
    } else if a.trace.Nothing? {
      NoTraceNoWay(a, x.st, w, c);
      GivesUpBrings(x, a, y, w, c);
    } else {
      var cands, added :| Assumed(x, a, cands, added, y, w, c);
      if added {
        CalledBrings(a, Assumption, cands, x.st, y.st, w, c);
      } else {
        NotAssumed(x, a, cands, w, c);
        GivesUpBrings(x, a, y, w, c);
      }
    }
  }

  lemma NoTraceNoWay(a: Answer, st: Stack, w: World, c: Context)
    requires a.trace.Nothing?
    ensures NoWayBack(a, st, w, c)
  {
  }

  lemma CalledBrings(a: Answer, how: Cause, cands: seq<Seg>, st: Stack, st': Stack, w: World, c: Context)
    requires Tried(a, how, cands, st, w, c) && Called(st, st', cands, true, c)
    ensures st'.paths != []
    ensures PathReaches(Top(st'.paths), c.cm) ==> Ends(a, st, st', w, c, Reached)
    ensures !PathReaches(Top(st'.paths), c.cm) ==> Brings(a, how, st, st', w, c)
  {
    hide Makes, PushAll, ClonePath, PathReaches, Offered;
    TriedByCandidates(a, how, cands, st, w, c);
    if !PathReaches(Top(st'.paths), c.cm) {
      assert ExtendsBy(a, how, cands, st, st', w, c);
    }
  }

  /** The answer an entry of the log goes by. */
  function Taken(x: Config): nat {
    if x.place.Checking? && x.at > 0 then x.at - 1 else x.at
  }

  /** From one place to the next: a change of the stack is a move that the answer brings, and an end has its reason
      in the answer. */
  lemma NextBrings(x: Config, y: Config, w: World, c: Context)
    requires Next(x, y, w, c)
    ensures x.at <= y.at
    ensures !y.place.Done? && y.st != x.st ==>
      y.at == x.at + 1 && Taken(x) == x.at && Brings(w.script(x.at), y.how, x.st, y.st, w, c)
    ensures y.place.Done? ==> x.at <= Taken(x) + 1 && Ends(w.script(Taken(x)), x.st, y.st, w, c, y.place.e)
  {
    hide Ended, Steps, Probes, Stamps, Brings, Ends;
    var a := w.script(Taken(x));
    match x.place
    case Before(step) =>
      if a.canceled {
        CanceledEnds(a, x.st, w, c);
      } else {
        StepsBrings(x, step, a, y, w, c);
      }
    case Probing => ProbesBrings(x, a, y, w, c);
    case Stamping(target) => StampsBrings(x, target, a, y, w, c);
    case Checking(next) =>
      if a.background.Just? {
        EndedEnds(x, a, a.background.v, x.at, y, w, c);
        EndedAt(x, a.background.v, x.at, y, w, c);
      }
  }

  lemma StepsBrings(x: Config, step: Step, a: Answer, y: Config, w: World, c: Context)
    requires HasCurrent(x.st) && Steps(x, step, a, y, w, c)
    ensures y.at == x.at + 1
    ensures !y.place.Done? && y.st != x.st ==> Brings(a, y.how, x.st, y.st, w, c)
    ensures y.place.Done? ==> Ends(a, x.st, y.st, w, c, y.place.e)
  {
    hide Ended, Assumes, Brings, Ends;
    if step == TrToSource && a.path.Just? && a.path.v != [] {
      EndedEnds(x, a, a.path.v, x.at + 1, y, w, c);
      EndedAt(x, a.path.v, x.at + 1, y, w, c);
    } else if step == BackgroundTRS && a.background.Just? {
      EndedEnds(x, a, a.background.v, x.at + 1, y, w, c);
      EndedAt(x, a.background.v, x.at + 1, y, w, c);
    } else if step == AssumeSymmetric {
      AssumesBrings(x, a, y, w, c);
    }
  }

  lemma CanceledEnds(a: Answer, st: Stack, w: World, c: Context)
    requires a.canceled
    ensures Ends(a, st, st, w, c, Canceled)
  {
  }

  lemma EndedAt(x: Config, hops: seq<Hop>, at: nat, y: Config, w: World, c: Context)
    requires Ended(x, hops, at, y, w, c)
    ensures y.place.Done? && y.at == at && y.mem == x.mem
  {
    hide SpliceEnding;
  }

  lemma ProbesBrings(x: Config, a: Answer, y: Config, w: World, c: Context)
    requires HasCurrent(x.st) && x.place.Probing? && Probes(x, a, y, w, c)
    ensures y.at == x.at + 1
    ensures !y.place.Done? && y.st != x.st ==> Brings(a, y.how, x.st, y.st, w, c)
    ensures y.place.Done? ==> Ends(a, x.st, y.st, w, c, y.place.e)
  {
    hide Adds, Brings, Ends, Lists, Aim, Batch, Remembered, SpoofedValues;
    if Aim(x, a) >= 0 {
      var x' := x.(mem := Remembered(x, a));
      if NON_SPOOFED in Batch(x, a).batch {
        if a.rr.Just? {
          AddsBrings(x', a, RecordRoutes, TrToSource, y, w, c);
        }
      } else if SpoofedValues(a.spoofed, |a.spoofed|, c.src, w.global) != [] {
        AddsBrings(x', a, SpoofedRoutes, Timestamp, y, w, c);
      }
    }
  }

  lemma StampsBrings(x: Config, target: Hop, a: Answer, y: Config, w: World, c: Context)
    requires x.place.Stamping? && Stamps(x, target, a, y, w, c)
    ensures y.at == x.at + 1
    ensures !y.place.Done? && y.st != x.st ==> Brings(a, y.how, x.st, y.st, w, c)
    ensures y.place.Done? ==> Ends(a, x.st, y.st, w, c, y.place.e)
  {
    hide Adds, Brings, Ends;
    var adjs := Adjoining(x, target, a);
    if target in adjs && adjs[target] != [] && !(a.viaSpoofers && a.noSpoofers) && a.stamped.Just? {
      var m := x.mem.(adjs := adjs[target := adjs[target][1..]]);
      var m' := if a.viaSpoofers then m.(silent := m.silent + {target}) else m;
      AddsBrings(x.(mem := m'), a, Timestamps, TrToSource, y, w, c);
    }
  }

  /** A log that goes on is a run of the search, to the stack it stands at. */
  lemma {:induction false} LogIsRun(log: seq<Config>, w: World, c: Context)
    requires IsLog(log, w, c) && !End(log).place.Done?
    ensures var run := Turns(log); IsRun(run, w, c) && Last(run).st == End(log).st && Last(run).at <= End(log).at
  {
    hide IsLog, IsRun, Next, Brings;
    if |log| == 1 {
      OneTurn(log, w, c);
    } else {
      LogPrefix(log, w, c);
      var less, x, y := log[..|log| - 1], log[|log| - 2], End(log);
      NotDone(x, y, w, c);
      LogIsRun(less, w, c);
      NextBrings(x, y, w, c);
      if y.st != x.st {
        AddTurn(Turns(less), y.st, x.at, y.how, w, c);
      }
    }
  }

  lemma OneTurn(log: seq<Config>, w: World, c: Context)
    requires |log| == 1
    ensures IsRun(Turns(log), w, c)
  {
  }

  lemma NotDone(x: Config, y: Config, w: World, c: Context)
    requires Next(x, y, w, c)
    ensures !x.place.Done?
  {
  }

  /** A log that has come to its end is a run that is over. */
  lemma LogIsOver(log: seq<Config>, w: World, c: Context)
    requires IsLog(log, w, c) && |log| > 1 && End(log).place.Done?
    ensures Over(Turns(log), End(log).st, w, c, End(log).place.e)
  {
    hide IsLog, IsRun, Next, Ends;
    LogPrefix(log, w, c);
    var less, x, y := log[..|log| - 1], log[|log| - 2], End(log);
    NotDone(x, y, w, c);
    LogIsRun(less, w, c);
    NextBrings(x, y, w, c);
    assert Turns(log) == Turns(less);
  }
}
