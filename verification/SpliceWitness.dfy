/** Three runs, on answers the driver can get in this order, in which an atlas traceroute is spliced in and what
    the program calls impossible happens: the cut leaves the wrong hop, the cut panics, nothing is added. */
module SpliceWitness {
  import opened Hops
  import opened Segments
  import opened Search
  import opened Trim
  import opened Roots
  import opened Candidates
  import opened Answers
  import opened ErrorWitness

  const X := Hop("X")

  /** X is another address of A. */
  function Alias(h: Hop): string {
    if h == X then A.name else h.name
  }

  const CA := Context(Alias, {S, D, A, B, X, ZERO}, S, false)

  lemma AllDifferent()
    ensures S != D && S != A && S != B && S != ZERO && D != A && D != B && D != ZERO
    ensures A != B && A != ZERO && B != ZERO && X != S && X != D && X != A && X != B && X != ZERO
    ensures S != NONE && A != NONE && B != NONE && D != NONE
    ensures Alias(X) == Alias(A) != Alias(D) && Alias(B) != Alias(A) && Alias(S) != Alias(A)
  {
    Different();
    assert X.name[0] == 'X';
  }

  // ----- a dead hop under an assumed one -----

  /** 2: the direct probe of D is answered by A. 9: no traceroute to A, which becomes a dead end. 12: no answer to
      spoofed probes of D. 17: a traceroute to D by way of `y` and A. 18: an atlas traceroute from X. */
  function Script(y: Hop, n: nat): Answer {
    if n == 2 then SILENT.(offers := (i: nat) => BOTH, rr := Just([A]))
    else if n == 17 then SILENT.(trace := Just([y, A, D]))
    else if n == 18 then SILENT.(path := Just([X, S]))
    else SILENT
  }

  function WorldOf(y: Hop): World {
    World(Alias, (h: Hop) => h != ZERO, (n: nat) => Script(y, n))
  }

  const TO_A := Seg(RR, [A], S)

  /** Of the hops back from D the dead one is passed over, but kept. */
  function Assumed(y: Hop): Seg {
    Seg(DstSym([y, A, D], 1), [A, y], S)
  }

  const TS0 := Stack([P0], {})
  const TS1 := Stack([P0, P0 + [TO_A]], {})
  const TS2 := Stack([P0], {A})

  function TS3(y: Hop): Stack {
    Stack([P0, P0 + [Assumed(y)]], {A})
  }

  function RunOf(y: Hop): seq<Turn> {
    [Turn(TS0, 0, Start), Turn(TS1, 3, RecordRoutes), Turn(TS2, 10, GivingUp), Turn(TS3(y), 18, Assumption)]
  }

  /** Either of the two hops the traceroute goes by. */
  predicate Either(y: Hop) {
    y == B || y == X
  }

  lemma WorldsOK(y: Hop)
    requires Either(y)
    ensures ContextOK(CA) && D in CA.universe && WorldOK(WorldOf(y), CA)
  {
    AllDifferent();
    forall n: nat
      ensures AnswerOK(WorldOf(y).script(n), CA)
    {
      assert WorldOf(y).script(n) == Script(y, n);
    }
  }

  lemma Base()
    ensures HopsOf(P0) == [D] && ClonePath(P0) == P0 && HopsOf([]) == []
  {
    PathHops();
  }

  lemma FirstMade(y: Hop)
    ensures Makes(WorldOf(y).script(2), RecordRoutes, [TO_A], TS0, WorldOf(y), CA)
  {
    Different();
    var rr, global := [A], WorldOf(y).global;
    PrefixesStep(rr, 0, RR, S, global);
    assert rr[..1] == rr && Sanitize(rr, global) == rr;
  }

  lemma FirstMove()
    ensures ExtendMove(TS0, TS1, [TO_A], CA)
  {
    AllDifferent();
    Base();
    PushWhole(P0, {}, TO_A, [], Alias);
    assert [TO_A] + [] == [TO_A];
    hide HopsOf, PushAll;
    assert LastOf([A]) == A && TS0.paths == [P0];
  }

  lemma First(y: Hop)
    ensures Follows(RunOf(y)[0], RunOf(y)[1], WorldOf(y), CA)
  {
    hide Makes, ExtendMove;
    FirstMade(y);
    FirstMove();
    assert ExtendsBy(WorldOf(y).script(2), RecordRoutes, [TO_A], TS0, TS1, WorldOf(y), CA);
  }

  lemma Second(y: Hop)
    ensures Follows(RunOf(y)[1], RunOf(y)[2], WorldOf(y), CA)
  {
    AllDifferent();
    var w := WorldOf(y);
    var p := P0 + [TO_A];
    assert TS1.paths[..1] == TS2.paths && LastHop(p) == A && LastHop(P0) == D && {} + {A} == {A};
    assert PopDead(TS2.paths, {A}, false) == TS2.paths;
    assert PopDead(TS1.paths, {A}, false) == PopDead(TS1.paths[..1], {A}, false);
    assert FailTop(TS1, false) == TS2;
    assert w.script(9) == SILENT;
    assert NoWayBack(SILENT, TS1, w, CA);
  }

  lemma AssumedIs(y: Hop)
    requires Either(y)
    ensures Symmetric(TS2, [y, A, D], S, WorldOf(y).global) == Assumed(y)
  {
    AllDifferent();
    Base();
    var rev, ignore := Backwards(S, [y, A, D]), Passed(TS2);
    assert rev == [A, y, S];
    assert rev[..2] == [A, y] && [A, y][..1] == [A] && [A][..0] == [];
    assert Count([], ignore) == 0;
    assert !Eligible(A, ignore) && Eligible(y, ignore);
    assert Count([A], ignore) == 0;
    assert Count([A, y], ignore) == 1;
    assert Count(rev, ignore) >= 1;
    assert IsSelection(rev, 1, ignore, [A, y]);
    SelectionUnique(rev, 1, ignore, [A, y], Select(rev, 1, ignore));
    assert Sanitize([A, y], WorldOf(y).global) == [A, y];
  }

  lemma ThirdMade(y: Hop)
    requires Either(y)
    ensures Makes(WorldOf(y).script(17), Assumption, [Assumed(y)], TS2, WorldOf(y), CA)
  {
    hide Symmetric, HasTrace, WorldOf, Makes;
    TraceOf(y);
    AssumedIs(y);
    MakesAssumed(WorldOf(y).script(17), Assumed(y), TS2, WorldOf(y), CA);
  }

  lemma MakesAssumed(a: Answer, s: Seg, st: Stack, w: World, c: Context)
    requires HasTrace(a, st, c) && s == Symmetric(st, a.trace.v, c.src, w.global)
    ensures Makes(a, Assumption, [s], st, w, c)
  {
    hide Symmetric;
  }

  lemma TraceOf(y: Hop)
    ensures HasTrace(WorldOf(y).script(17), TS2, CA) && WorldOf(y).script(17).trace == Just([y, A, D])
  {
    Different();
    assert WorldOf(y).script(17) == Script(y, 17) && LastSeg(P0).kind == Dst;
  }

  lemma ThirdMove(y: Hop)
    requires Either(y)
    ensures ExtendMove(TS2, TS3(y), [Assumed(y)], CA)
  {
    AllDifferent();
    Base();
    var s := Assumed(y);
    PushWhole(P0, {A}, s, [], Alias);
    assert [s] + [] == [s];
    hide HopsOf, PushAll;
    assert LastOf([A, y]) == y && TS2.paths == [P0];
  }

  lemma Third(y: Hop)
    requires Either(y)
    ensures Follows(RunOf(y)[2], RunOf(y)[3], WorldOf(y), CA)
  {
    hide Makes, ExtendMove;
    ThirdMade(y);
    ThirdMove(y);
    assert ExtendsBy(WorldOf(y).script(17), Assumption, [Assumed(y)], TS2, TS3(y), WorldOf(y), CA);
  }

  lemma IsRunOf(y: Hop)
    requires Either(y)
    ensures IsRun(RunOf(y), WorldOf(y), CA)
  {
    hide Follows, WorldOf;
    First(y);
    Second(y);
    Third(y);
    forall i | 0 <= i < |RunOf(y)| - 1
      ensures Follows(RunOf(y)[i], RunOf(y)[i+1], WorldOf(y), CA)
    {
      assert i == 0 || i == 1 || i == 2;
    }
  }

  /** The atlas traceroute meets A, the first hop of what was assumed. */
  lemma MeetsA(y: Hop)
    requires Either(y)
    ensures Rooted(TS3(y).paths) && FirstMeeting(TS3(y).paths, X, Alias) == 1
    ensures Meet(TS3(y).paths, X, Alias) == Meeting([D], [A, y], 1)
  {
    AllDifferent();
    Base();
    IsRunOf(y);
    InitialRooted(S, D);
    RunRooted(RunOf(y), WorldOf(y), CA, 3);
    var paths := TS3(y).paths;
    HopsOfOnTop(P0, Assumed(y));
    assert HopsOf(paths[1]) == [D, A, y];
    assert FirstCluster([D], X, Alias) < 0;
    var k := FirstCluster([D, A, y], X, Alias);
    assert k == 1 by {
      assert Alias([D, A, y][0]) != Alias(X) == Alias([D, A, y][1]);
    }
    FirstMeetingUnique(paths, X, Alias, 1);
    assert Under(paths[1]) == P0;
  }

  lemma AtlasTrace(y: Hop)
    ensures Sanitize([X, S], WorldOf(y).global) == [X, S]
  {
    AllDifferent();
  }

  const ATLAS := Seg(TrToSrc, [X, S], S)

  /** The one hop that should stay is the one deleted. */
  lemma WrongStump()
    ensures CutFits([A, B], 1, X) && Stump(Meeting([D], [A, B], 1), X) == [D, B]
  {
    AllDifferent();
    assert FirstIndex([A, B], X) == -1;
    assert [A, B][..0] + [A, B][1..] == [B] && [D] + [B] == [D, B];
  }

  lemma AllKept()
    ensures Kept([X, S], [D, B], Alias) == [X, S] && Joins([X, S], [D, B], {A}, Alias)
  {
    hide Kept, Joins;
    AllDifferent();
    KeptApart([X, S], [D, B], {A}, Alias);
  }

  lemma KeptApart(hops: seq<Hop>, toDel: seq<Hop>, dead: set<Hop>, cm: ClusterMap)
    requires LastOf(hops) !in dead && ZERO !in hops && forall h <- hops :: h !in toDel
    ensures Kept(hops, toDel, cm) == hops && Joins(hops, toDel, dead, cm)
  {
    KeptWhole(hops, toDel, cm);
    SharedNone(hops, toDel);
    NothingLoopy(LastOf(hops), cm);
    hide Kept, Shared, Loopy, LastOf;
  }

  lemma NothingLoopy(h: Hop, cm: ClusterMap)
    ensures !Loopy(h, {}, cm)
  {
  }

  lemma VerdictB()
    ensures Rooted(TS3(B).paths) && SpliceVerdict(TS3(B), ATLAS, Alias) == Reached
    ensures FirstMeeting(TS3(B).paths, X, Alias) == 1 && Stump(Meet(TS3(B).paths, X, Alias), X) == [D, B]
  {
    hide FirstMeeting, Rooted, Joins, CutFits, Stump, HopsOf;
    MeetsA(B);
    WrongStump();
    AllKept();
  }

  lemma SharedNone(hops: seq<Hop>, toDel: seq<Hop>)
    requires forall h <- hops :: h !in toDel
    ensures Shared(hops, toDel) == {}
  {
  }

  lemma VerdictX()
    ensures Rooted(TS3(X).paths) && SpliceVerdict(TS3(X), ATLAS, Alias) == SplicePanic
  {
    hide FirstMeeting, Rooted, Joins, Stump, HopsOf;
    MeetsA(X);
    AllDifferent();
    assert [A, X][1] == X && FirstIndex([A, X], X) == 1;
  }

  lemma Spliceables(y: Hop)
    ensures Spliceable(TS3(y).paths, ATLAS)
  {
  }

  /** X is not an address of the path, so the cut deletes the hop the traceroute meets and leaves the one behind
      it: the path returned goes on from B, where the traceroute was never seen. */
  lemma WrongHopLeft() returns (st': Stack)
    ensures WorldOK(WorldOf(B), CA) && RunOf(B)[0] == Turn(Initial(S, D), 0, Start)
    ensures Over(RunOf(B), st', WorldOf(B), CA, Reached) && !MetError(RunOf(B), WorldOf(B), CA)
    ensures HopsOf(Top(TS3(B).paths)) == [D, A, B] && HopsOf(Top(st'.paths)) == [D, B, X, S]
  {
    hide IsRun, WorldOK, Over, HopsOf, SpliceVerdict, SpliceEnding, Rooted, FirstMeeting, Kept, Spliceable, Sanitize,
         Stump, MetError;
    WorldsOK(B);
    NoneSilent(B);
    IsRunOf(B);
    VerdictB();
    AllKept();
    AtlasTrace(B);
    Spliceables(B);
    Base();
    HopsOfOnTop(P0, Assumed(B));
    st' := SplicedTo(TS3(B), [X, S], WorldOf(B), CA);
    EndsWithPath(RunOf(B), [X, S], st', 18, WorldOf(B), CA, Reached);
    assert [D, B] + [X, S] == [D, B, X, S] && [D] + [A, B] == [D, A, B];
  }

  /** X is an address of the path, behind the hop of its cluster: the deletions run past the end. */
  lemma CutPanics()
    ensures WorldOK(WorldOf(X), CA) && RunOf(X)[0] == Turn(Initial(S, D), 0, Start)
    ensures Over(RunOf(X), TS3(X), WorldOf(X), CA, SplicePanic) && !MetError(RunOf(X), WorldOf(X), CA)
  {
    hide IsRun, WorldOK, Over, SpliceVerdict, SpliceEnding, Rooted, FirstMeeting, Spliceable, Sanitize, MetError;
    WorldsOK(X);
    NoneSilent(X);
    IsRunOf(X);
    VerdictX();
    AtlasTrace(X);
    Spliceables(X);
    var st' := SplicedTo(TS3(X), [X, S], WorldOf(X), CA);
    EndsWithPath(RunOf(X), [X, S], st', 18, WorldOf(X), CA, SplicePanic);
  }

  // ----- a silent hop on both sides -----

  /** 2: the direct probe of D is answered by a silent hop and A. 3: an atlas traceroute from A, with a silent hop. */
  function SilentScript(n: nat): Answer {
    if n == 2 then SILENT.(offers := (i: nat) => BOTH, rr := Just([ZERO, A]))
    else if n == 3 then SILENT.(path := Just([A, ZERO, S]))
    else SILENT
  }

  const WS := World(C.cm, W.global, (n: nat) => SilentScript(n))

  const SILENT_RUN := [Turn(ST0, 0, Start), Turn(ST1, 3, RecordRoutes)]

  lemma SilentOK()
    ensures WorldOK(WS, C)
  {
    Different();
    forall n: nat
      ensures AnswerOK(WS.script(n), C)
    {
      assert WS.script(n) == SilentScript(n);
    }
  }

  lemma SilentMade()
    ensures Makes(WS.script(2), RecordRoutes, [FIRST], ST0, WS, C)
  {
    Different();
    OnePrefix(A, RR);
    hide Prefixes, SpoofedValues, Stamped, Symmetric, HopsOf;
    assert WS.script(2).rr == Just([ZERO, A]);
  }

  lemma SilentIsRun()
    ensures WorldOK(WS, C) && IsRun(SILENT_RUN, WS, C)
  {
    hide ExtendMove, Makes, WorldOK;
    SilentOK();
    Step01();
    SilentMade();
    assert ExtendsBy(WS.script(2), RecordRoutes, [FIRST], ST0, ST1, WS, C);
    assert Follows(SILENT_RUN[0], SILENT_RUN[0+1], WS, C);
  }

  const SILENT_TRACE := Seg(TrToSrc, [A, ZERO, S], S)

  lemma MeetsBehindSilence()
    ensures Rooted(ST1.paths) && FirstMeeting(ST1.paths, A, C.cm) == 1
    ensures Meet(ST1.paths, A, C.cm) == Meeting([D], [ZERO, A], 2)
  {
    Different();
    SilentIsRun();
    InitialRooted(S, D);
    RunRooted(SILENT_RUN, WS, C, 1);
    PathHops();
    hide HopsOf, IsRun, Rooted;
    assert FirstCluster([D], A, C.cm) < 0;
    assert FirstCluster([D, ZERO, A], A, C.cm) == 2 by {
      assert [D, ZERO, A][0] == D && [D, ZERO, A][1] == ZERO && [D, ZERO, A][2] == A;
    }
    FirstMeetingUnique(ST1.paths, A, C.cm, 1);
    assert Under(P1) == P0;
  }

  lemma VerdictSilent()
    ensures Rooted(ST1.paths) && SpliceVerdict(ST1, SILENT_TRACE, C.cm) == NotAddedPanic
  {
    Different();
    MeetsBehindSilence();
    SilentKept();
    assert Stump(Meeting([D], [ZERO, A], 2), A) == [D, ZERO, A];
    hide FirstMeeting, Rooted, Kept;
    assert ZERO in [D, ZERO, A];
  }

  lemma SilentSpliceable()
    ensures Spliceable(ST1.paths, SILENT_TRACE) && Sanitize([A, ZERO, S], WS.global) == [A, ZERO, S]
  {
    Different();
  }

  /** The traceroute meets A and reaches, but a hop of it is silent and so is one of the path. */
  lemma NothingAdded()
    ensures WorldOK(WS, C) && IsRun(SILENT_RUN, WS, C) && SILENT_RUN[0] == Turn(Initial(S, D), 0, Start)
    ensures Over(SILENT_RUN, ST1, WS, C, NotAddedPanic) && !MetError(SILENT_RUN, WS, C)
  {
    hide IsRun, WorldOK, Over, SpliceVerdict, SpliceEnding, Rooted, FirstMeeting, Spliceable, Sanitize, MetError;
    SilentIsRun();
    FirstNotSilent();
    VerdictSilent();
    SilentSpliceable();
    var st' := SplicedTo(ST1, [A, ZERO, S], WS, C);
    EndsWithPath(SILENT_RUN, [A, ZERO, S], st', 3, WS, C, NotAddedPanic);
  }

  lemma SilentKept()
    ensures ZERO in Kept([A, ZERO, S], [D, ZERO, A], C.cm)
  {
    Different();
    var hops := [A, ZERO, S];
    var shared := Shared(hops, [D, ZERO, A]);
    assert shared == {A} by {
      assert A in hops && A in [D, ZERO, A];
    }
    assert hops[1..] == [ZERO, S];
    KeptLongest(hops, [D, ZERO, A], C.cm, 1);
    KeptSuffix(hops, [D, ZERO, A], C.cm);
    var kept := Kept(hops, [D, ZERO, A], C.cm);
    assert |kept| >= 2 && kept[|kept| - 2] == hops[1];
  }

  lemma FirstNotSilent()
    ensures !MetError(SILENT_RUN, WS, C)
  {
    Different();
    PathHops();
    hide HopsOf, MetError;
    SilentFree(SILENT_RUN, WS, C);
  }

  // ----- no error on the way -----

  /** Without a silent hop on any path extended, no loop removal fails. */
  lemma SilentFree(run: seq<Turn>, w: World, c: Context)
    requires forall i :: 0 <= i < |run| - 1 ==> run[i].st.paths != [] && ZERO !in HopsOf(Top(run[i].st.paths))
    ensures !MetError(run, w, c)
  {
    hide HopsOf, ExtendsBy, PushAll;
    forall i: nat, cands | i < |run| - 1 && run[i+1].at > 0
      ensures !ErrsAt(run, i, cands, w, c)
    {
      CloneHops(Top(run[i].st.paths));
      PushErrs(ClonePath(Top(run[i].st.paths)), run[i].st.dead, cands, c.cm);
    }
  }

  lemma NoneSilent(y: Hop)
    ensures !MetError(RunOf(y), WorldOf(y), CA)
  {
    AllDifferent();
    Base();
    HopsOfOnTop(P0, TO_A);
    hide HopsOf, MetError;
    forall i | 0 <= i < |RunOf(y)| - 1
      ensures RunOf(y)[i].st.paths != [] && ZERO !in HopsOf(Top(RunOf(y)[i].st.paths))
    {
      assert i == 0 || i == 1 || i == 2;
    }
    SilentFree(RunOf(y), WorldOf(y), CA);
  }

  // ----- the end of such a run -----

  lemma EndsWithPath(run: seq<Turn>, hops: seq<Hop>, st': Stack, n: nat, w: World, c: Context, e: Ending)
    requires IsRun(run, w, c) && Last(run).at <= n + 1 && w.script(n).path == Just(hops)
    requires SpliceEnding(hops, Last(run).st, st', w, c, e)
    requires e.Reached? || e.SplicePanic? || e.NotAddedPanic?
    ensures Over(run, st', w, c, e)
  {
    hide IsRun, SpliceEnding;
    assert SpliceEndingOf(w.script(n), Last(run).st, st', w, c, e);
    if e.Reached? {
      ReachedBySplice(hops, Last(run).st, st', w, c);
    }
    assert Ends(w.script(n), Last(run).st, st', w, c, e);
  }

  lemma ReachedBySplice(hops: seq<Hop>, st: Stack, st': Stack, w: World, c: Context)
    requires SpliceEnding(hops, st, st', w, c, Reached)
    ensures st'.paths != [] && PathReaches(Top(st'.paths), c.cm)
  {
    hide Splice, Sanitize, Spliceable;
  }
}
