/** Why the safety of the search speaks of runs without a loop-removal error: a run with one such error, on
    answers the driver can get in this order, that ends in the panic after a refused growth. */
module ErrorWitness {
  import opened Hops
  import opened Segments
  import opened Search
  import opened Schedule
  import opened ReverseTraceroute
  import opened Candidates
  import opened Answers

  const S := Hop("S")
  const D := Hop("D")
  const A := Hop("A")
  const B := Hop("B")

  const C := Context((h: Hop) => h.name, {S, D, A, B, ZERO}, S, false)

  const SILENT := Answer(
    canceled := false,
    path := Maybe.Nothing,
    offers := (n: nat) => Offer.Nothing,
    rr := Maybe.Nothing,
    spoofed := [],
    adjacents := NoAdjacents,
    viaSpoofers := false,
    noSpoofers := false,
    stamped := Maybe.Nothing,
    stampKind := RR,
    background := Maybe.Nothing,
    trace := Maybe.Nothing)

  const BOTH := Offer.Vantage(["V", "W"])

  /** Every second step of the driver asks once more for a canceled context; what is not listed is silence.
      2: the direct probe of D is answered. 5 and 6: two spoofed probes of A are, both by the source. 11: no
      traceroute. 18: a traceroute to A. */
  function Script(n: nat): Answer {
    if n == 2 then SILENT.(offers := (i: nat) => BOTH, rr := Just([ZERO, A]))
    else if n == 5 then SILENT.(offers := (i: nat) => if i == 1 then BOTH else Offer.Nothing)
    else if n == 6 then SILENT.(spoofed := [Spoofed([S], "V"), Spoofed([ZERO, S], "W")])
    else if n == 18 then SILENT.(trace := Just([B, A]))
    else SILENT
  }

  const W := World(C.cm, (h: Hop) => h != ZERO, (n: nat) => Script(n))

  const FIRST := Seg(RR, [ZERO, A], S)
  const SHORT := Seg(SpoofRR("V"), [S], S)
  const LONG := Seg(SpoofRR("W"), [ZERO, S], S)
  const BACK := Seg(DstSym([B, A], 1), [B], S)

  const P0: Path := [Seg(Dst, [D], S)]
  const P1: Path := P0 + [FIRST]

  const ST0 := Stack([P0], {})
  const ST1 := Stack([P0, P1], {})
  const ST2 := Stack([P0, P1, P1 + [SHORT]], {})
  const ST3 := Stack([P0, P1], {S})
  const ST4 := Stack([P0, P1, P1 + [BACK]], {S})

  const RUN := [
    Turn(ST0, 0, Start),
    Turn(ST1, 3, RecordRoutes),
    Turn(ST2, 7, SpoofedRoutes),
    Turn(ST3, 12, GivingUp),
    Turn(ST4, 19, Assumption)]

  lemma Different()
    ensures S != D && S != A && S != B && S != ZERO && D != A && D != B && D != ZERO
    ensures A != B && A != ZERO && B != ZERO
    ensures S != NONE && A != NONE && B != NONE && D != NONE
  {
    assert S.name[0] == 'S' && D.name[0] == 'D' && A.name[0] == 'A' && B.name[0] == 'B' && ZERO.name[0] == '0';
    assert |NONE.name| == 0;
  }

  lemma PathHops()
    ensures HopsOf(P0) == [D] && HopsOf(P1) == [D, ZERO, A]
    ensures ClonePath(P0) == P0 && ClonePath(P1) == P1
    ensures ClonePath(P1 + [BACK]) == P1 + [BACK]
  {
    assert P0[..0] == [] && HopsOf([]) == [];
    HopsOfOnTop([], P0[0]);
    assert [] + [P0[0]] == P0;
    HopsOfOnTop(P0, FIRST);
  }

  /** A candidate sharing no answering hop with the path is kept whole. */
  lemma KeptWhole(hops: seq<Hop>, toDel: seq<Hop>, cm: ClusterMap)
    requires forall h <- hops :: h in toDel ==> h == ZERO
    ensures Kept(hops, toDel, cm) == hops
  {
    assert Shared(hops, toDel) == {};
  }

  lemma PushWhole(base: Path, dead: set<Hop>, s: Seg, rest: seq<Seg>, cm: ClusterMap)
    requires s.hops != [] && LastOf(s.hops) !in dead
    requires forall h <- s.hops :: h in HopsOf(base) ==> h == ZERO
    ensures PushAll(base, dead, [s] + rest, cm)
            == if ZERO in s.hops && ZERO in HopsOf(base) then Pushed([], true)
               else PushAll(base, dead, rest, cm).(paths := [base + [s]] + PushAll(base, dead, rest, cm).paths)
  {
    hide Kept, HopsOf;
    KeptWhole(s.hops, HopsOf(base), cm);
    KeptDisjoint(s.hops, HopsOf(base), cm);
    assert ([s] + rest)[1..] == rest;
    assert s.(hops := s.hops) == s;
  }

  // ----- the candidates the answers make -----

  lemma OnePrefix(h: Hop, kind: Kind)
    requires h != ZERO
    ensures Prefixes([ZERO, h], 2, kind, S, W.global) == [Seg(kind, [ZERO, h], S)]
    ensures Prefixes([h], 1, kind, S, W.global) == [Seg(kind, [h], S)]
  {
    var two, one := [ZERO, h], [h];
    assert two[..2] == two && one[..1] == one;
    assert Sanitize(two, W.global) == two && Sanitize(one, W.global) == one;
    PrefixesStep(two, 0, kind, S, W.global);
    PrefixesStep(two, 1, kind, S, W.global);
    PrefixesStep(one, 0, kind, S, W.global);
  }

  lemma Tried01()
    ensures Tried(W.script(2), RecordRoutes, [FIRST], ST0, W, C)
  {
    Different();
    OnePrefix(A, RR);
    hide Prefixes, SpoofedValues, Symmetric;
    assert Makes(W.script(2), RecordRoutes, [FIRST], ST0, W, C);
  }

  lemma Tried12()
    ensures Tried(W.script(6), SpoofedRoutes, [SHORT, LONG], ST1, W, C)
  {
    Different();
    OnePrefix(S, SpoofRR("V"));
    OnePrefix(S, SpoofRR("W"));
    hide Prefixes, Symmetric;
    var rrs := W.script(6).spoofed;
    SpoofedNone(rrs, S, W.global);
    SpoofedStep(rrs, 0, S, W.global);
    SpoofedStep(rrs, 1, S, W.global);
    hide SpoofedValues;
    assert Makes(W.script(6), SpoofedRoutes, [SHORT, LONG], ST1, W, C);
  }

  /** Back from A along the traceroute, the first hop that is not on the path is B. */
  lemma BackIsSymmetric()
    ensures Symmetric(ST3, [B, A], S, W.global) == BACK
  {
    Different();
    PathHops();
    var rev, ignore := Backwards(S, [B, A]), Passed(ST3);
    assert rev == [B, S];
    assert rev[..1] == [B] && rev[..1][..0] == [] && [B][..0] == [];
    assert Count([], ignore) == 0;
    assert Eligible(B, ignore);
    assert Count([B], ignore) == 1;
    assert Count(rev, ignore) >= 1;
    assert IsSelection(rev, 1, ignore, [B]);
    SelectionUnique(rev, 1, ignore, [B], Select(rev, 1, ignore));
    assert Sanitize([B], W.global) == [B];
  }

  lemma Tried34()
    ensures Tried(W.script(18), Assumption, [BACK], ST3, W, C)
  {
    Different();
    BackIsSymmetric();
    hide Symmetric, SpoofedValues, Prefixes;
    assert Makes(W.script(18), Assumption, [BACK], ST3, W, C);
  }

  // ----- the moves -----

  lemma Step01()
    ensures ExtendMove(ST0, ST1, [FIRST], C)
  {
    Different();
    PathHops();
    PushWhole(P0, {}, FIRST, [], C.cm);
    assert [FIRST] + [] == [FIRST];
  }

  lemma Step12()
    ensures ExtendMove(ST1, ST2, [SHORT, LONG], C)
    ensures PushAll(ClonePath(Top(ST1.paths)), ST1.dead, [SHORT, LONG], C.cm).err
  {
    hide PushAll, Sorted, HopsOf, ClonePath;
    PathHops();
    Push12();
    Sorted12();
    assert Top(ST1.paths) == P1;
  }

  lemma Push12()
    ensures PushAll(P1, {}, [SHORT, LONG], C.cm) == Pushed([P1 + [SHORT]], true)
  {
    Different();
    PathHops();
    PushWhole(P1, {}, SHORT, [LONG], C.cm);
    PushWhole(P1, {}, LONG, [], C.cm);
    assert [SHORT] + [LONG] == [SHORT, LONG] && [LONG] + [] == [LONG];
  }

  lemma Sorted12()
    ensures Sorted([SHORT, LONG], C.cm) && Segments.Candidates([SHORT, LONG], S)
  {
    Different();
    assert NonNull([]) == 0;
    assert NonNull([S]) == 1 && NonNull([ZERO]) == 0 && NonNull([ZERO, S]) == 1 by {
      assert [S][..0] == [] && [ZERO][..0] == [] && [ZERO, S][..1] == [ZERO];
    }
  }

  lemma Step23()
    ensures BacktrackMove(ST2, ST3, C)
  {
    Different();
    assert ST2.paths[..2] == ST3.paths;
    assert LastHop(P1) == A && LastHop(P1 + [SHORT]) == S;
    assert Top(ST2.paths) == P1 + [SHORT] && Top(ST3.paths) == P1;
    assert |ST2.paths| == 3 && |ST3.paths| == 2 && {} + {S} == {S};
    assert NonEmpty(ST2.paths) && !LastSeg(P1 + [SHORT]).kind.DstSym?;
    assert PopDead(ST3.paths, {S}, false) == ST3.paths;
    assert PopDead(ST2.paths, {S}, false) == PopDead(ST2.paths[..2], {S}, false);
    assert FailTop(ST2, false) == ST3;
  }

  lemma Step34()
    ensures ExtendMove(ST3, ST4, [BACK], C)
  {
    Different();
    PathHops();
    PushWhole(P1, {S}, BACK, [], C.cm);
    assert [BACK] + [] == [BACK];
  }

  lemma Refused()
    ensures GrowthRefused(ST4)
  {
    Different();
    var p := Top(ST4.paths);
    var ignore := Ignored(p, ST4.dead);
    GrowEnds(BACK, ignore);
    var rev := Backwards(S, [B, A]);
    assert rev[1] == S;
    assert Count([], ignore) == 0;
    assert rev[..1][..0] == [];
    assert Count(rev[..1], ignore) <= 1 && Count(rev, ignore) <= 1;
  }

  lemma ScriptOK()
    ensures WorldOK(W, C)
  {
    forall n: nat
      ensures AnswerOK(W.script(n), C)
    {
      assert W.script(n) == Script(n);
    }
  }

  lemma IsRunOfScript()
    ensures IsRun(RUN, W, C)
  {
    hide ExtendMove, BacktrackMove, GrowMove, Tried, NoWayBack;
    Tried01();
    Step01();
    Tried12();
    Step12();
    Step23();
    Silence(ST2);
    Tried34();
    Step34();
    assert ExtendsBy(W.script(2), RecordRoutes, [FIRST], ST0, ST1, W, C);
    assert ExtendsBy(W.script(6), SpoofedRoutes, [SHORT, LONG], ST1, ST2, W, C);
    assert ExtendsBy(W.script(18), Assumption, [BACK], ST3, ST4, W, C);
    forall i | 0 <= i < |RUN| - 1
      ensures Follows(RUN[i], RUN[i+1], W, C)
    {
      assert i == 0 || i == 1 || i == 2 || i == 3;
    }
  }

  lemma Silence(st: Stack)
    ensures NoWayBack(W.script(11), st, W, C)
  {
    hide Symmetric, PushAll, HasTrace;
    assert W.script(11) == SILENT;
  }

  /** The search is not safe on all runs. The answers of this script come in the order the driver asks for
      them; the two spoofed answers make two candidates, the second of which fails loop removal after the
      first has been stacked. AddSegments then answers that nothing was added, the source is given up with the
      path that reached it, and the last growth is refused, where the program panics. */
  lemma UnsafeAfterError()
    ensures ContextOK(C) && D in C.universe && WorldOK(W, C)
    ensures RUN[0] == Turn(Initial(S, Sanitize([D], W.global)[0]), 0, Start) && !PathReaches(Top(RUN[0].st.paths), C.cm)
    ensures Over(RUN, ST4, W, C, GrowPanic) && MetError(RUN, W, C)
  {
    ScriptOK();
    IsRunOfScript();
    Refused();
    EndsInPanic();
    ErrorMet();
    Different();
    hide IsRun, Over, MetError, WorldOK;
  }

  lemma EndsInPanic()
    requires IsRun(RUN, W, C) && GrowthRefused(ST4)
    ensures Over(RUN, ST4, W, C, GrowPanic)
  {
    hide IsRun, GrowthRefused;
    assert Ends(W.script(25), ST4, ST4, W, C, GrowPanic);
    assert Last(RUN).at <= 25 + 1;
  }

  lemma ErrorMet()
    ensures MetError(RUN, W, C)
  {
    hide ExtendMove, Tried, PushAll;
    Tried12();
    Step12();
    assert ErrsAt(RUN, 1, [SHORT, LONG], W, C);
  }
}
