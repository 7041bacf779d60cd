/** What holds of every log of the driver: no answer is passed over, no way of going on is left untried, and who is
    asked to probe. */
module DriverLaws {
  import opened Hops
  import opened Segments
  import opened Search
  import opened Trim
  import opened Schedule
  import opened ReverseTraceroute
  import opened Candidates
  import opened Answers
  import opened Driver

  // ----- no answer is passed over -----

  /** A candidate that nothing speaks against: its last hop is no dead end and in the cluster of no hop of the
      current path, which holds no silent address. */
  ghost predicate Welcome(h: Hop, st: Stack, cm: ClusterMap)
    requires st.paths != []
  {
    && h !in st.dead && ZERO !in HopsOf(Top(st.paths))
    && forall p <- HopsOf(Top(st.paths)) :: cm(p) != cm(h)
  }

  lemma WelcomeKept(s: Seg, base: Path, cm: ClusterMap)
    requires s.hops != [] && forall p <- HopsOf(base) :: cm(p) != cm(LastOf(s.hops))
    ensures Kept(s.hops, HopsOf(base), cm) != []
  {
    hide HopsOf, Kept;
    var n := |s.hops| - 1;
    assert s.hops[n..] == [LastOf(s.hops)];
    KeptLongest(s.hops, HopsOf(base), cm, n);
  }

  lemma WelcomeStacked(st: Stack, st': Stack, cands: seq<Seg>, added: bool, s: Seg, c: Context)
    requires Called(st, st', cands, added, c) && s in cands && s.hops != [] && Welcome(LastOf(s.hops), st, c.cm)
    ensures added && |st'.paths| > |st.paths|
  {
    hide HopsOf, Kept, PushAll, Offered, ClonePath, LastOf;
    var base := ClonePath(Top(st.paths));
    CloneHops(Top(st.paths));
    PushErrs(base, st.dead, cands, c.cm);
    WelcomeKept(s, base, c.cm);
    var i :| 0 <= i < |cands| && cands[i] == s;
    var k := PushedComplete(base, st.dead, cands, c.cm, i);
  }

  /** If one of the candidates an answer makes is welcome, paths are stacked, and the search has reached or goes on
      from them. */
  lemma AddsWelcome(x: Config, a: Answer, how: Cause, next: Step, y: Config, values: seq<Seg>, s: Seg, w: World,
                    c: Context)
    requires Adds(x, a, how, next, y, w, c) && x.st.paths != []
    requires Makes(a, how, values, x.st, w, c) && s in values && s.hops != [] && Welcome(LastOf(s.hops), x.st, c.cm)
    ensures y.how == how && |y.st.paths| > |x.st.paths| && (y.place == Done(Reached) || y.place == Checking(next))
  {
    hide Called, Makes, Welcome, PathReaches;
    var cands, added :| Offers(x, a, how, cands, added, next, y, w, c);
    var others :| Makes(a, how, others, x.st, w, c) && multiset(cands) == multiset(others);
    SameValues(a, how, values, others, x.st, w, c);
    assert s in multiset(values) && s in multiset(cands);
    WelcomeStacked(x.st, y.st, cands, added, s, c);
  }

  lemma SameValues(a: Answer, how: Cause, v: seq<Seg>, v': seq<Seg>, st: Stack, w: World, c: Context)
    requires Makes(a, how, v, st, w, c) && Makes(a, how, v', st, w, c)
    ensures v == v'
  {
    hide Prefixes, SpoofedValues, Stamped, Symmetric;
  }

  /** The candidates of a record route: one for every hop that answered, of the hops up to it. */
  lemma {:induction false} PrefixesExactly(rr: seq<Hop>, n: nat, kind: Kind, src: Hop, global: Hop -> bool, s: Seg)
    requires n <= |rr|
    ensures s in Prefixes(rr, n, kind, src, global)
            <==> exists k :: 0 <= k < n && rr[k] != ZERO && s == Seg(kind, Sanitize(rr[..k + 1], global), src)
  {
    hide Sanitize;
    if n > 0 {
      PrefixesExactly(rr, n - 1, kind, src, global, s);
    }
  }

  /** Of spoofed probes: the same for the record route of each answer, with the vantage point that sent it. */
  lemma {:induction false} SpoofedExactly(rrs: seq<Spoofed>, n: nat, src: Hop, global: Hop -> bool, s: Seg)
    requires n <= |rrs|
    ensures s in SpoofedValues(rrs, n, src, global)
            <==> exists i :: 0 <= i < n && s in Prefixes(rrs[i].rr, |rrs[i].rr|, SpoofRR(rrs[i].vp), src, global)
  {
    hide Prefixes;
    if n > 0 {
      SpoofedExactly(rrs, n - 1, src, global, s);
    }
  }

  lemma LastOfPrefix(rr: seq<Hop>, k: nat, global: Hop -> bool)
    requires k < |rr| && global(rr[k])
    ensures var hops := Sanitize(rr[..k + 1], global); hops != [] && LastOf(hops) == rr[k]
  {
  }

  /** A hop of the direct probe's answer that is welcome is not passed over: the driver stacks paths of that record
      route. */
  lemma DirectUsed(x: Config, y: Config, w: World, c: Context, rr: seq<Hop>, k: nat)
    requires Next(x, y, w, c) && x.place == Probing && Aim(x, w.script(x.at)) >= 0
    requires NON_SPOOFED in Batch(x, w.script(x.at)).batch && w.script(x.at).rr == Just(rr)
    requires k < |rr| && rr[k] != ZERO && w.global(rr[k]) && Welcome(rr[k], x.st, c.cm)
    ensures y.how == RecordRoutes && |y.st.paths| > |x.st.paths|
    ensures y.place == Done(Reached) || y.place == Checking(TrToSource)
  {
    hide Adds, Aim, Batch, Remembered, Welcome, Sanitize, Prefixes;
    var a := w.script(x.at);
    var s := Seg(RR, Sanitize(rr[..k + 1], w.global), c.src);
    PrefixesExactly(rr, |rr|, RR, c.src, w.global, s);
    LastOfPrefix(rr, k, w.global);
    var values := Prefixes(rr, |rr|, RR, c.src, w.global);
    AddsWelcome(x.(mem := Remembered(x, a)), a, RecordRoutes, TrToSource, y, values, s, w, c);
  }

  /** Nor is one of the answers to spoofed probes. */
  lemma SpoofedUsed(x: Config, y: Config, w: World, c: Context, i: nat, k: nat)
    requires Next(x, y, w, c) && x.place == Probing && Aim(x, w.script(x.at)) >= 0
    requires NON_SPOOFED !in Batch(x, w.script(x.at)).batch
    requires i < |w.script(x.at).spoofed|
    requires var rr := w.script(x.at).spoofed[i].rr;
             k < |rr| && rr[k] != ZERO && w.global(rr[k]) && Welcome(rr[k], x.st, c.cm)
    ensures y.how == SpoofedRoutes && |y.st.paths| > |x.st.paths|
    ensures y.place == Done(Reached) || y.place == Checking(Timestamp)
  {
    hide Adds, Aim, Batch, Remembered, Welcome, Sanitize, Prefixes, SpoofedValues;
    var a := w.script(x.at);
    var rrs, rr := a.spoofed, a.spoofed[i].rr;
    var values := SpoofedValues(rrs, |rrs|, c.src, w.global);
    var s := Seg(SpoofRR(rrs[i].vp), Sanitize(rr[..k + 1], w.global), c.src);
    PrefixesExactly(rr, |rr|, SpoofRR(rrs[i].vp), c.src, w.global, s);
    SpoofedExactly(rrs, |rrs|, c.src, w.global, s);
    LastOfPrefix(rr, k, w.global);
    assert values != [];
    AddsWelcome(x.(mem := Remembered(x, a)), a, SpoofedRoutes, Timestamp, y, values, s, w, c);
  }

  /** Nor is a list of hops that timestamps verified. */
  lemma StampsUsed(x: Config, y: Config, target: Hop, w: World, c: Context, hops: seq<Hop>)
    requires Next(x, y, w, c) && x.place == Stamping(target) && !y.place.Before?
    requires w.script(x.at).stamped.Just? && hops in w.script(x.at).stamped.v
    requires hops != [] && w.global(LastOf(hops)) && Welcome(LastOf(hops), x.st, c.cm)
    ensures y.how == Timestamps && |y.st.paths| > |x.st.paths|
    ensures y.place == Done(Reached) || y.place == Checking(TrToSource)
  {
    hide Adds, Welcome, Sanitize, Stamped, Adjoining;
    var a := w.script(x.at);
    var values := Stamped(a.stamped.v, |a.stamped.v|, a.stampKind, c.src, w.global);
    var s := Seg(a.stampKind, Sanitize(hops, w.global), c.src);
    StampedExactly(a.stamped.v, |a.stamped.v|, a.stampKind, c.src, w.global, s);
    var i :| 0 <= i < |a.stamped.v| && a.stamped.v[i] == hops;
    assert hops[..|hops| - 1 + 1] == hops;
    LastOfPrefix(hops, |hops| - 1, w.global);
    var adjs := Adjoining(x, target, a);
    var m := x.mem.(adjs := adjs[target := adjs[target][1..]]);
    var m' := if a.viaSpoofers then m.(silent := m.silent + {target}) else m;
    AddsWelcome(x.(mem := m'), a, Timestamps, TrToSource, y, values, s, w, c);
  }

  lemma {:induction false} StampedExactly(lists: seq<seq<Hop>>, n: nat, kind: Kind, src: Hop, global: Hop -> bool,
                                          s: Seg)
    requires n <= |lists|
    ensures s in Stamped(lists, n, kind, src, global)
            <==> exists i :: 0 <= i < n && s == Seg(kind, Sanitize(lists[i], global), src)
  {
    hide Sanitize;
    if n > 0 {
      StampedExactly(lists, n - 1, kind, src, global, s);
    }
  }

  /** Nor is the first hop back along a traceroute; and a path that assumes symmetry assumes one more hop unless that
      is refused. */
  lemma TraceUsed(x: Config, y: Config, w: World, c: Context)
    requires Next(x, y, w, c) && x.place == Before(AssumeSymmetric) && !w.script(x.at).canceled
    ensures var a := w.script(x.at);
            && (Current(x.st).kind.DstSym? && !GrowthRefused(x.st) ==> CanGrow(x.st) && y.st == Grown(x.st))
            && (HasTrace(a, x.st, c) && Welcome(LastOf(Symmetric(x.st, a.trace.v, c.src, w.global).hops), x.st, c.cm)
                ==> y.how == Assumption && |y.st.paths| > |x.st.paths|)
  {
    hide Called, Tried, Welcome, PathReaches, GivesUp, Symmetric, Grown, CanGrow, GrowthRefused, LastOf;
    var a := w.script(x.at);
    if HasTrace(a, x.st, c) && Welcome(LastOf(Symmetric(x.st, a.trace.v, c.src, w.global).hops), x.st, c.cm) {
      var s := Symmetric(x.st, a.trace.v, c.src, w.global);
      var cands, added :| Assumed(x, a, cands, added, y, w, c);
      AssumedValue(a, cands, x.st, w, c);
      SymmetricSome(x.st, a.trace.v, c.src, w.global);
      WelcomeStacked(x.st, if added then y.st else x.st, cands, added, s, c);
    }
  }

  lemma AssumedValue(a: Answer, cands: seq<Seg>, st: Stack, w: World, c: Context)
    requires Tried(a, Assumption, cands, st, w, c)
    ensures HasTrace(a, st, c) && cands == [Symmetric(st, a.trace.v, c.src, w.global)]
  {
    hide Symmetric;
    OnlyOneCandidate(cands, Symmetric(st, a.trace.v, c.src, w.global));
  }

  lemma SymmetricSome(st: Stack, trace: seq<Hop>, src: Hop, global: Hop -> bool)
    requires st.paths != [] && trace != [] && src != ZERO
    ensures Symmetric(st, trace, src, global).hops != []
  {
    hide Passed, Count, Eligible;
    var rev := Backwards(src, trace);
    assert rev[|rev| - 1] in rev;
    assert IsSelection(rev, 1, Passed(st), Select(rev, 1, Passed(st)));
  }

  /** A traceroute of the atlas that is answered with always ends the measurement, as the splice does. */
  lemma AtlasUsed(x: Config, y: Config, hops: seq<Hop>, w: World, c: Context)
    requires Next(x, y, w, c)
    requires || (x.place == Before(TrToSource) && w.script(x.at).path == Just(hops) && hops != [])
             || (x.place == Before(BackgroundTRS) && w.script(x.at).background == Just(hops))
             || (x.place.Checking? && x.at > 0 && w.script(x.at - 1).background == Just(hops))
    ensures y.place.Done?
    ensures x.place.Checking? || !w.script(x.at).canceled ==> SpliceEnding(hops, x.st, y.st, w, c, y.place.e)
  {
    hide SpliceEnding, Assumes;
  }

  // ----- no way of going on is left untried -----

  /** No hop of the current segment can be probed any more: no vantage point is left for it, or ten spoofed probes
      and more went without any answer. */
  ghost predicate Spent(x: Config) {
    && HasCurrent(x.st)
    && forall h <- Current(x.st).hops ::
         h !in x.mem.left || x.mem.left[h] == [] || (h in x.mem.resp && x.mem.resp[h] != -1 && x.mem.resp[h] >= 10)
  }

  /** Record route is given up only when nothing is left to probe; and a hop has no list then only if no vantage
      points could be had for it. */
  lemma ProbingGivenUp(x: Config, y: Config, w: World, c: Context)
    requires Next(x, y, w, c) && x.place == Probing && y.place == Before(Timestamp)
    ensures y.st == x.st && Spent(y)
    ensures forall i :: 0 <= i < |Current(x.st).hops| && Current(x.st).hops[i] !in y.mem.left ==>
              w.script(x.at).offers(i).Nothing?
  {
    hide Initialised, Probeable, Remembered, Batch;
    var a := w.script(x.at);
    if Aim(x, a) >= 0 {
      NotLeft(x, a, y, w, c);
      assert false;
    }
    var hops, left := Current(x.st).hops, Lists(x, a);
    forall h | h in hops
      ensures h !in left || left[h] == [] || (h in x.mem.resp && x.mem.resp[h] != -1 && x.mem.resp[h] >= 10)
    {
      ProbeableExactly(h, left, x.mem.resp);
      var i :| 0 <= i < |hops| && hops[i] == h;
      assert !Probeable(hops[i], left, x.mem.resp);
    }
    forall i | 0 <= i < |hops| && hops[i] !in left
      ensures a.offers(i).Nothing?
    {
      InitialisedExactly(x.mem.left, hops, a.offers, |hops|, hops[i]);
    }
  }

  lemma NotLeft(x: Config, a: Answer, y: Config, w: World, c: Context)
    requires HasCurrent(x.st) && x.place == Probing && Aim(x, a) >= 0 && Probes(x, a, y, w, c)
    ensures y.place != Before(Timestamp)
  {
    hide Remembered, Batch, Tried, Called, SpoofedValues;
  }

  /** Timestamps are given up only when no adjacent or no spoofer is left. */
  lemma StampingGivenUp(x: Config, y: Config, target: Hop, w: World, c: Context)
    requires Next(x, y, w, c) && x.place == Stamping(target) && y.place == Before(BackgroundTRS)
    ensures y.st == x.st
    ensures var a := w.script(x.at);
            || (target !in y.mem.adjs && a.adjacents.NoAdjacents?)
            || (target in y.mem.adjs && y.mem.adjs[target] == [])
            || (a.viaSpoofers && a.noSpoofers)
  {
    hide Tried, Called;
  }

  /** Past record route nothing is left to probe, unless the path was found by spoofed probes, which go on with
      timestamps, or changed in the loop of timestamps. */
  ghost predicate Probed(x: Config) {
    Past(x.place) ==> Spent(x) || x.how == SpoofedRoutes || x.how == Timestamps
  }

  predicate Past(p: Place) {
    match p
    case Before(step) => step != TrToSource && step != RecordRoute
    case Checking(step) => step != TrToSource && step != RecordRoute
    case Stamping(_) => true
    case _ => false
  }

  lemma AddsKeeps(x: Config, a: Answer, how: Cause, next: Step, y: Config, w: World, c: Context)
    requires Adds(x, a, how, next, y, w, c)
    ensures y.mem == x.mem && (y.place == x.place || y.place.Done? || y.place == Checking(next))
    ensures y.st == x.st ==> y.how == x.how
    ensures y.st != x.st ==> y.how == how
    ensures y.place == Checking(next) && !x.place.Checking? ==> y.st != x.st
  {
    hide Tried, Offered, PushAll, ClonePath, PathReaches;
    var cands, added :| Offers(x, a, how, cands, added, next, y, w, c);
    if y.place == Checking(next) && !x.place.Checking? {
      assert |y.st.paths| > |x.st.paths|;
    }
  }

  lemma NextProbed(x: Config, y: Config, w: World, c: Context)
    requires Next(x, y, w, c) && Probed(x)
    ensures Probed(y)
  {
    hide Ended, Adds, Assumes, Spent, Remembered, Batch, Aim, Lists, SpoofedValues, Adjoining;
    var a := w.script(x.at);
    match x.place
    case Before(step) =>
      if step == AssumeSymmetric && !a.canceled {
        AssumesPlace(x, a, y, w, c);
      } else if y.place.Done? {
      } else if step == Timestamp || step == BackgroundTRS {
        EndedPlaces(x, y, w, c);
        SameSpent(x, y);
      } else {
        EndedPlaces(x, y, w, c);
      }
    case Probing =>
      if y.place == Before(Timestamp) {
        ProbingGivenUp(x, y, w, c);
      } else if Aim(x, a) >= 0 {
        ProbingPlaces(x, a, y, w, c);
      }
    case Stamping(target) =>
      StampingPlaces(x, target, a, y, w, c);
      if y.st == x.st {
        SameSpent(x, y);
      }
    case Checking(next) =>
      EndedPlaces(x, y, w, c);
      if !y.place.Done? {
        SameSpent(x, y);
      }
  }

  lemma SameSpent(x: Config, y: Config)
    requires y.st == x.st && y.mem.left == x.mem.left && y.mem.resp == x.mem.resp
    ensures Spent(y) == Spent(x)
  {
  }

  lemma AssumesPlace(x: Config, a: Answer, y: Config, w: World, c: Context)
    requires HasCurrent(x.st) && Assumes(x, a, y, w, c)
    ensures y.place.Done? || y.place == Before(TrToSource)
  {
    hide Tried, Called, PathReaches, FailTop, Search.Failed, Grown, CanGrow, GrowthRefused;
  }

  /** Where the simple steps lead. */
  lemma EndedPlaces(x: Config, y: Config, w: World, c: Context)
    requires Next(x, y, w, c) && (x.place.Before? || x.place.Checking?)
    requires x.place != Before(AssumeSymmetric)
    ensures y.place.Done?
            || (y.st == x.st && y.mem == x.mem && y.how == x.how
                && match x.place
                   case Before(TrToSource) => y.place == Before(RecordRoute)
                   case Before(RecordRoute) => y.place == Probing
                   case Before(Timestamp) => y.place == Before(BackgroundTRS) || y.place.Stamping?
                   case Before(BackgroundTRS) => y.place == Before(AssumeSymmetric)
                   case Checking(next) => y.place == Before(next)
                   case _ => false)
  {
    hide Ended, Assumes;
    var a := w.script(Taken(x));
    match x.place
    case Before(step) =>
      if a.canceled {
      } else if step == TrToSource && a.path.Just? && a.path.v != [] {
        EndedAt(x, a.path.v, x.at + 1, y, w, c);
      } else if step == BackgroundTRS && a.background.Just? {
        EndedAt(x, a.background.v, x.at + 1, y, w, c);
      }
    case Checking(next) =>
      if a.background.Just? {
        EndedAt(x, a.background.v, x.at, y, w, c);
      }
  }

  lemma ProbingPlaces(x: Config, a: Answer, y: Config, w: World, c: Context)
    requires HasCurrent(x.st) && x.place == Probing && Aim(x, a) >= 0 && Probes(x, a, y, w, c)
    ensures y.mem == Remembered(x, a)
    ensures y.place == Probing || y.place.Done? || y.place == Checking(TrToSource)
            || (y.place == Checking(Timestamp) && y.how == SpoofedRoutes)
  {
    hide Adds, Remembered, Batch, Aim, SpoofedValues;
    var x' := x.(mem := Remembered(x, a));
    if NON_SPOOFED in Batch(x, a).batch {
      if a.rr.Just? {
        AddsKeeps(x', a, RecordRoutes, TrToSource, y, w, c);
      }
    } else if SpoofedValues(a.spoofed, |a.spoofed|, c.src, w.global) != [] {
      AddsKeeps(x', a, SpoofedRoutes, Timestamp, y, w, c);
    }
  }

  lemma StampingPlaces(x: Config, target: Hop, a: Answer, y: Config, w: World, c: Context)
    requires x.place == Stamping(target) && Stamps(x, target, a, y, w, c)
    ensures y.mem.left == x.mem.left && y.mem.resp == x.mem.resp && (y.st == x.st ==> y.how == x.how)
    ensures y.st != x.st ==> y.how == Timestamps
    ensures y.place == x.place || y.place.Done? || y.place == Before(BackgroundTRS) || y.place == Checking(TrToSource)
  {
    hide Adds, Adjoining;
    var adjs := Adjoining(x, target, a);
    if target in adjs && adjs[target] != [] && !(a.viaSpoofers && a.noSpoofers) && a.stamped.Just? {
      var m := x.mem.(adjs := adjs[target := adjs[target][1..]]);
      var m' := if a.viaSpoofers then m.(silent := m.silent + {target}) else m;
      AddsKeeps(x.(mem := m'), a, Timestamps, TrToSource, y, w, c);
    }
  }

  /** In every log, from the first step on or, if that only backs off, from the second: past record route nothing is
      left to probe, with the exceptions said. */
  lemma {:induction false} LogProbed(log: seq<Config>, st: Stack, mem: Memory, w: World, c: Context, n: nat)
    requires IsLog(log, w, c) && log[0] == Outset(st, mem, c.backoff) && n < |log| && (n > 0 || !c.backoff)
    ensures Probed(log[n])
  {
    hide IsLog, Next, Probed;
    if n == 0 || (n == 1 && c.backoff) {
      FirstProbed(log, st, mem, w, c);
    } else {
      LogProbed(log, st, mem, w, c, n - 1);
      LogAt(log, n - 1, w, c);
      NextProbed(log[n - 1], log[n - 1 + 1], w, c);
    }
  }

  lemma FirstProbed(log: seq<Config>, st: Stack, mem: Memory, w: World, c: Context)
    requires IsLog(log, w, c) && log[0] == Outset(st, mem, c.backoff)
    ensures !c.backoff ==> Probed(log[0])
    ensures c.backoff && |log| > 1 ==> Probed(log[1])
  {
    hide IsLog, Assumes;
    if c.backoff && |log| > 1 {
      LogAt(log, 0, w, c);
      var a := w.script(log[0].at);
      if !a.canceled {
        AssumesPlace(log[0], a, log[0 + 1], w, c);
      }
    }
  }

  /** A path is given up only where assuming symmetry does not help, and after everything else: no hop of its last
      segment can be probed any more, unless it was found by spoofed probes or changed in the loop of timestamps. */
  lemma GivenUpLast(log: seq<Config>, st: Stack, mem: Memory, w: World, c: Context, n: nat)
    requires IsLog(log, w, c) && log[0] == Outset(st, mem, c.backoff) && n + 1 < |log| && (n > 0 || !c.backoff)
    requires log[n + 1].st.dead != log[n].st.dead
    ensures log[n].place == Before(AssumeSymmetric) && NoWayBack(w.script(log[n].at), log[n].st, w, c)
    ensures Spent(log[n]) || log[n].how == SpoofedRoutes || log[n].how == Timestamps
  {
    hide IsLog, Probed, NoWayBack;
    LogProbed(log, st, mem, w, c, n);
    LogAt(log, n, w, c);
    DeadAtLast(log[n], log[n + 1], w, c);
    hide Next;
    assert Probed(log[n]);
    ProbedHere(log[n]);
  }

  lemma ProbedHere(x: Config)
    requires Probed(x) && x.place == Before(AssumeSymmetric)
    ensures Spent(x) || x.how == SpoofedRoutes || x.how == Timestamps
  {
  }

  /** Only giving up a path makes a dead end. */
  lemma DeadAtLast(x: Config, y: Config, w: World, c: Context)
    requires Next(x, y, w, c) && y.st.dead != x.st.dead
    ensures x.place == Before(AssumeSymmetric) && NoWayBack(w.script(x.at), x.st, w, c)
  {
    hide Adds, Assumes, NoWayBack, Aim, Batch, Remembered, SpoofedValues, Adjoining;
    var a := w.script(x.at);
    match x.place
    case Before(step) =>
      if step == AssumeSymmetric && !a.canceled {
        AssumesDead(x, a, y, w, c);
      } else {
        EndedDead(x, y, w, c);
      }
    case Probing =>
      if Aim(x, a) >= 0 {
        ProbingDead(x, a, y, w, c);
      }
    case Stamping(target) => StampingDead(x, target, a, y, w, c);
    case Checking(next) => EndedDead(x, y, w, c);
  }

  lemma EndedDead(x: Config, y: Config, w: World, c: Context)
    requires Next(x, y, w, c) && (x.place.Before? || x.place.Checking?)
    requires x.place != Before(AssumeSymmetric) || w.script(x.at).canceled
    ensures y.st.dead == x.st.dead
  {
    hide Ended, Assumes;
    var a := w.script(Taken(x));
    match x.place
    case Before(step) =>
      if a.canceled {
      } else if step == TrToSource && a.path.Just? && a.path.v != [] {
        SplicedDead(x, a.path.v, x.at + 1, y, w, c);
      } else if step == BackgroundTRS && a.background.Just? {
        SplicedDead(x, a.background.v, x.at + 1, y, w, c);
      }
    case Checking(next) =>
      if a.background.Just? {
        SplicedDead(x, a.background.v, x.at, y, w, c);
      }
  }

  lemma SplicedDead(x: Config, hops: seq<Hop>, at: nat, y: Config, w: World, c: Context)
    requires Ended(x, hops, at, y, w, c)
    ensures y.st.dead == x.st.dead
  {
    hide SpliceEnding;
    var e :| y == x.(place := Done(e), st := y.st, at := at) && e != Canceled && e != GaveUp && e != GrowPanic
      && SpliceEnding(hops, x.st, y.st, w, c, e);
    SpliceKeepsDead(hops, x.st, y.st, w, c, e);
  }

  lemma AddsDead(x: Config, a: Answer, how: Cause, next: Step, y: Config, w: World, c: Context)
    requires Adds(x, a, how, next, y, w, c)
    ensures y.st.dead == x.st.dead
  {
    hide Tried, Offered, PushAll, ClonePath, PathReaches;
  }

  lemma ProbingDead(x: Config, a: Answer, y: Config, w: World, c: Context)
    requires HasCurrent(x.st) && Aim(x, a) >= 0 && Probes(x, a, y, w, c)
    ensures y.st.dead == x.st.dead
  {
    hide Adds, Remembered, Batch, Aim, SpoofedValues;
    var x' := x.(mem := Remembered(x, a));
    if NON_SPOOFED in Batch(x, a).batch {
      if a.rr.Just? {
        AddsDead(x', a, RecordRoutes, TrToSource, y, w, c);
      }
    } else if SpoofedValues(a.spoofed, |a.spoofed|, c.src, w.global) != [] {
      AddsDead(x', a, SpoofedRoutes, Timestamp, y, w, c);
    }
  }

  lemma StampingDead(x: Config, target: Hop, a: Answer, y: Config, w: World, c: Context)
    requires Stamps(x, target, a, y, w, c)
    ensures y.st.dead == x.st.dead
  {
    hide Adds, Adjoining;
    var adjs := Adjoining(x, target, a);
    if target in adjs && adjs[target] != [] && !(a.viaSpoofers && a.noSpoofers) && a.stamped.Just? {
      var m := x.mem.(adjs := adjs[target := adjs[target][1..]]);
      var m' := if a.viaSpoofers then m.(silent := m.silent + {target}) else m;
      AddsDead(x.(mem := m'), a, Timestamps, TrToSource, y, w, c);
    }
  }

  lemma AssumesDead(x: Config, a: Answer, y: Config, w: World, c: Context)
    requires HasCurrent(x.st) && Assumes(x, a, y, w, c) && y.st.dead != x.st.dead
    ensures NoWayBack(a, x.st, w, c)
  {
    hide Tried, Offered, PushAll, ClonePath, PathReaches, FailTop, Search.Failed, ReplaceLast, GrowSeg, Ignored;
    if !Current(x.st).kind.DstSym? {
      if a.trace.Just? {
        var cands, added :| Assumed(x, a, cands, added, y, w, c);
        if !added {
          NotAssumed(x, a, cands, w, c);
        }
      } else {
        NoTraceNoWay(a, x.st, w, c);
      }
    }
  }

  // ----- who is asked to probe -----

  lemma {:induction false} ServeMore(left: seq<VP>, sps: seq<Spoofer>, sp: Spoofer)
    requires var c := Serve(left, sps); |c.batches| == |sps| && c.left != []
    ensures var c, d := Serve(left, sps), Serve(left, sps + [sp]);
            && d.batches == c.batches + [Hand(c.left, sp).batch] && d.left == Hand(c.left, sp).left
    decreases sps
  {
    hide Hand;
    if sps == [] {
      assert [sp][1..] == [];
      assert Serve(Hand(left, sp).left, []) == Calls([], Hand(left, sp).left);
    } else {
      assert (sps + [sp])[1..] == sps[1..] + [sp];
      ServeMore(Hand(left, sps[0]).left, sps[1..], sp);
    }
  }

  /** The list of a hop changes only when a batch for that hop is taken from it. */
  lemma NextLeft(x: Config, y: Config, w: World, c: Context, h: Hop)
    requires Next(x, y, w, c) && h in x.mem.left
    ensures HasCurrent(x.st) && h in y.mem.left
    ensures y.mem.left[h] == x.mem.left[h]
            || (x.place == Probing && x.mem.left[h] != []
                && y.mem.left[h] == Hand(x.mem.left[h], SpooferOf(Current(x.st).kind)).left)
  {
    hide Ended, Adds, Assumes, Hand, Initialised, SpoofedValues, Adjoining, AddUnresponsive;
    var a := w.script(x.at);
    match x.place
    case Before(step) =>
      if step == AssumeSymmetric && !a.canceled {
        AssumesMemory(x, a, y, w, c);
      } else {
        SimpleMemory(x, y, w, c);
      }
    case Probing =>
      InitialisedExactly(x.mem.left, Current(x.st).hops, a.offers, |Current(x.st).hops|, h);
      if Aim(x, a) >= 0 {
        ProbingPlaces(x, a, y, w, c);
      }
    case Stamping(target) => StampingPlaces(x, target, a, y, w, c);
    case Checking(next) => SimpleMemory(x, y, w, c);
  }

  lemma AssumesMemory(x: Config, a: Answer, y: Config, w: World, c: Context)
    requires HasCurrent(x.st) && Assumes(x, a, y, w, c)
    ensures y.mem == x.mem
  {
    hide Tried, Called, PathReaches, FailTop, Search.Failed, Grown, CanGrow, GrowthRefused;
  }

  lemma SimpleMemory(x: Config, y: Config, w: World, c: Context)
    requires Next(x, y, w, c) && (x.place.Before? || x.place.Checking?)
    requires x.place != Before(AssumeSymmetric) || w.script(x.at).canceled
    ensures y.mem == x.mem
  {
    hide Ended, Assumes;
    var a := w.script(Taken(x));
    match x.place
    case Before(step) =>
      if a.canceled {
      } else if step == TrToSource && a.path.Just? && a.path.v != [] {
        EndedAt(x, a.path.v, x.at + 1, y, w, c);
      } else if step == BackgroundTRS && a.background.Just? {
        EndedAt(x, a.background.v, x.at + 1, y, w, c);
      }
    case Checking(next) =>
      if a.background.Just? {
        EndedAt(x, a.background.v, x.at, y, w, c);
      }
  }

  /** Over any stretch of a log the batches for a hop are those of Schedule.Serve, so what is proved of them there
      holds of whole measurements: nobody but a spoofing source is asked twice, and nobody is lost. */
  lemma {:induction false} LogServes(log: seq<Config>, w: World, c: Context, i: nat, j: nat, h: Hop)
    returns (sps: seq<Spoofer>)
    requires IsLog(log, w, c) && i <= j < |log| && h in log[i].mem.left
    ensures var served := Serve(log[i].mem.left[h], sps);
            h in log[j].mem.left && log[j].mem.left[h] == served.left && |served.batches| == |sps|
    decreases j - i
  {
    hide IsLog, Next, Hand;
    if i == j {
      sps := [];
    } else {
      sps := LogServes(log, w, c, i, j - 1, h);
      LogAt(log, j - 1, w, c);
      var x, y := log[j - 1], log[j - 1 + 1];
      NextLeft(x, y, w, c, h);
      if y.mem.left[h] != x.mem.left[h] {
        var sp := SpooferOf(Current(x.st).kind);
        ServeMore(log[i].mem.left[h], sps, sp);
        sps := sps + [sp];
      }
    }
  }

  /** A hop that ever answered a spoofed probe is never taken for one that does not. */
  lemma AnsweredForGood(x: Config, y: Config, w: World, c: Context, h: Hop)
    requires Next(x, y, w, c) && h in x.mem.resp && x.mem.resp[h] == -1
    ensures h in y.mem.resp && y.mem.resp[h] == -1
  {
    hide Ended, Adds, Assumes, Hand, Initialised, SpoofedValues, Adjoining;
    var a := w.script(x.at);
    match x.place
    case Before(step) =>
      if step == AssumeSymmetric && !a.canceled {
        AssumesMemory(x, a, y, w, c);
      } else {
        SimpleMemory(x, y, w, c);
      }
    case Probing =>
      if Aim(x, a) >= 0 {
        ProbingPlaces(x, a, y, w, c);
      }
    case Stamping(target) => StampingPlaces(x, target, a, y, w, c);
    case Checking(next) => SimpleMemory(x, y, w, c);
  }

  /** A batch of spoofed probes marks its target for good as one that answers if any came back, and otherwise adds
      all of them to those it did not answer. */
  lemma SpoofedCounted(x: Config, y: Config, w: World, c: Context, target: Hop)
    requires Next(x, y, w, c) && x.place == Probing && Aim(x, w.script(x.at)) >= 0
    requires NON_SPOOFED !in Batch(x, w.script(x.at)).batch
    requires target == Current(x.st).hops[Aim(x, w.script(x.at))]
    requires target in x.mem.resp ==> x.mem.resp[target] >= -1
    ensures var a := w.script(x.at);
            && target in y.mem.resp
            && (y.mem.resp[target] == -1 <==> a.spoofed != [] || (target in x.mem.resp && x.mem.resp[target] == -1))
            && (y.mem.resp[target] != -1 ==>
                  y.mem.resp[target] == |Batch(x, a).batch| + if target in x.mem.resp then x.mem.resp[target] else 0)
  {
    hide Adds, Aim, Batch, SpoofedValues, AddUnresponsive;
    var a := w.script(x.at);
    ProbingPlaces(x, a, y, w, c);
    ResponsesAdd(x.mem.resp, target, |Batch(x, a).batch|, target);
  }

  /** Timestamps by way of spoofers are tried once for a target: it is marked, and the next time left out. */
  lemma StampedOnce(x: Config, y: Config, target: Hop, w: World, c: Context)
    requires Next(x, y, w, c)
    ensures x.place == Stamping(target) && y.place != Before(BackgroundTRS) && w.script(x.at).viaSpoofers ==>
              target in y.mem.silent
    ensures x.place == Before(Timestamp) && !y.place.Done? && LastHop(Top(x.st.paths)) in x.mem.silent ==>
              y.place == Before(BackgroundTRS)
    ensures x.mem.silent <= y.mem.silent
  {
    hide Ended, Adds, Assumes, Remembered, Batch, Aim, Lists, SpoofedValues, Adjoining, LastOf;
    var a := w.script(x.at);
    match x.place
    case Before(step) =>
      if step == AssumeSymmetric && !a.canceled {
        AssumesMemory(x, a, y, w, c);
      } else {
        SimpleMemory(x, y, w, c);
      }
    case Probing =>
      if Aim(x, a) >= 0 {
        ProbingPlaces(x, a, y, w, c);
        RememberedSilent(x, a);
      }
    case Stamping(t) => StampingSilent(x, t, a, y, w, c);
    case Checking(next) => SimpleMemory(x, y, w, c);
  }

  lemma RememberedSilent(x: Config, a: Answer)
    requires HasCurrent(x.st) && Aim(x, a) >= 0
    ensures Remembered(x, a).silent == x.mem.silent
  {
  }

  lemma StampingSilent(x: Config, target: Hop, a: Answer, y: Config, w: World, c: Context)
    requires x.place == Stamping(target) && Stamps(x, target, a, y, w, c)
    ensures x.mem.silent <= y.mem.silent
    ensures y.place != Before(BackgroundTRS) && a.viaSpoofers ==> target in y.mem.silent
  {
    hide Adds, Adjoining;
    var adjs := Adjoining(x, target, a);
    if target in adjs && adjs[target] != [] && !(a.viaSpoofers && a.noSpoofers) && a.stamped.Just? {
      var m := x.mem.(adjs := adjs[target := adjs[target][1..]]);
      var m' := if a.viaSpoofers then m.(silent := m.silent + {target}) else m;
      AddsKeeps(x.(mem := m'), a, Timestamps, TrToSource, y, w, c);
    }
  }

  // ----- a measurement that one probe settles -----

  lemma FirstMoves(log: seq<Config>, dst: Hop, w: World, c: Context)
    requires Measurement(log, dst, w, c) && !c.backoff && HasCurrent(log[0].st)
    requires !w.script(0).canceled && !w.script(1).canceled && w.script(0).path.Nothing?
    ensures |log| > 3
    ensures log[2] == Config(Probing, Initial(c.src, dst), NOTHING_KNOWN, 2, Start)
    ensures Next(log[2], log[3], w, c)
  {
    hide IsLog;
    var x := log[0];
    assert !x.place.Done?;
    LogAt(log, 0, w, c);
    assert log[0 + 1] == x.(place := Before(RecordRoute), at := 1);
    LogAt(log, 1, w, c);
    assert log[1 + 1] == x.(place := Probing, at := 2);
    LogAt(log, 2, w, c);
  }

  lemma DirectFirst(x: Config, a: Answer, src: Hop, dst: Hop)
    requires x == Config(Probing, Initial(src, dst), NOTHING_KNOWN, 2, Start) && a.offers(0).Vantage?
    ensures Aim(x, a) == 0 && Batch(x, a).batch == [NON_SPOOFED]
  {
    hide Hand;
    var hops := Current(x.st).hops;
    assert hops == [dst];
    InitialisedExactly(map[], hops, a.offers, 1, dst);
    assert Lists(x, a)[dst] == [NON_SPOOFED] + a.offers(0).vps;
    ProbeableExactly(dst, Lists(x, a), map[]);
    HandFirst(a.offers(0).vps, None);
  }

  /** The direct probe of the destination is answered by the source, or another address of it: the measurement has
      reached, by way of that hop alone. */
  lemma OneProbe(log: seq<Config>, dst: Hop, h: Hop, w: World, c: Context)
    requires Measurement(log, dst, w, c) && !c.backoff
    requires !w.script(0).canceled && !w.script(1).canceled && w.script(0).path.Nothing?
    requires w.script(2).offers(0).Vantage? && w.script(2).rr == Just([h])
    requires w.global(h) && h != ZERO && dst != ZERO && c.cm(dst) != c.cm(h) && c.cm(h) == c.cm(c.src)
    ensures |log| == 4 && End(log).place == Done(Reached)
    ensures End(log).st.paths != [] && HopsOf(Top(End(log).st.paths)) == [dst, h]
  {
    hide IsLog, HopsOf, Adds, Aim, Batch, Remembered, Lists;
    FirstMoves(log, dst, w, c);
    var x, y, a := log[2], log[3], w.script(2);
    InitialHops(c.src, dst);
    DirectFirst(x, a, c.src, dst);
    DirectUsed(x, y, w, c, [h], 0);
    OneAdded(x.(mem := Remembered(x, a)), a, y, dst, h, w, c);
    if |log| > 4 {
      LogAt(log, 3, w, c);
    }
  }

  lemma InitialHops(src: Hop, dst: Hop)
    ensures var p := Initial(src, dst).paths[0]; HopsOf(p) == [dst] && HopsOf(ClonePath(p)) == [dst]
  {
    var p := Initial(src, dst).paths[0];
    assert p[..0] == [] && HopsOf([]) == [] && HopsOf(p) == [] + [dst] == [dst];
    CloneHops(p);
  }

  lemma OneAdded(x: Config, a: Answer, y: Config, dst: Hop, h: Hop, w: World, c: Context)
    requires Adds(x, a, RecordRoutes, TrToSource, y, w, c) && x.place == Probing && x.st == Initial(c.src, dst)
    requires a.rr == Just([h]) && |y.st.paths| > |x.st.paths| && w.global(h) && h != ZERO && c.cm(h) == c.cm(c.src)
    requires y.place == Done(Reached) || y.place == Checking(TrToSource)
    ensures y.place == Done(Reached) && y.st.paths != [] && HopsOf(Top(y.st.paths)) == [dst, h]
  {
    hide HopsOf, Offered, ClonePath, PushAll, Makes, PathReaches, Reaches;
    var s := Seg(RR, [h], c.src);
    var cands, added :| Offers(x, a, RecordRoutes, cands, added, TrToSource, y, w, c);
    OneValue(a, x.st, h, w, c);
    assert Tried(a, RecordRoutes, cands, x.st, w, c);
    var values :| Makes(a, RecordRoutes, values, x.st, w, c) && multiset(cands) == multiset(values);
    SameValues(a, RecordRoutes, values, [s], x.st, w, c);
    OnlyOneCandidate(cands, s);
    InitialHops(c.src, dst);
    OnePushed(Top(x.st.paths), x.st.dead, s, h, c.cm);
    OneReaches(s, h, c.cm);
    var pushed := PushAll(ClonePath(Top(x.st.paths)), x.st.dead, [s], c.cm).paths;
    assert y.st.paths == x.st.paths + pushed && Top(y.st.paths) == pushed[0];
    assert [dst] + [h] == [dst, h];
  }

  lemma OneReaches(s: Seg, h: Hop, cm: ClusterMap)
    requires s.hops == [h] && cm(h) == cm(s.src)
    ensures Reaches(s, cm)
  {
  }

  lemma OneValue(a: Answer, st: Stack, h: Hop, w: World, c: Context)
    requires a.rr == Just([h]) && w.global(h) && h != ZERO
    ensures Makes(a, RecordRoutes, [Seg(RR, [h], c.src)], st, w, c)
  {
    var rr := [h];
    PrefixesStep(rr, 0, RR, c.src, w.global);
    assert rr[..1] == rr && Sanitize(rr, w.global) == rr;
  }

  lemma OnePushed(p: Path, dead: set<Hop>, s: Seg, h: Hop, cm: ClusterMap)
    requires s.hops == [h] && PushAll(ClonePath(p), dead, [s], cm).paths != []
    ensures var pushed := PushAll(ClonePath(p), dead, [s], cm).paths;
            && |pushed| == 1 && HopsOf(pushed[0]) == HopsOf(ClonePath(p)) + [h]
            && PathReaches(pushed[0], cm) == Reaches(s, cm)
  {
    hide HopsOf, PushAll, Kept, ClonePath;
    var base := ClonePath(p);
    var kept := Kept([h], HopsOf(base), cm);
    PushOne(base, dead, s, cm);
    KeptSuffix([h], HopsOf(base), cm);
    assert |kept| == 1 && kept == [h][0..] == [h];
    HopsOfOnTop(base, s.(hops := kept));
    ExtendedReaches(base, s, cm);
  }
}
