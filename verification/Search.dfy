/** The backtracking search as moves on a stack of paths and a set of dead ends: what every move
    keeps, why no run of moves goes on for ever, and when the source can become a dead end. */
module Search {
  import opened Hops
  import opened Segments

  type Path = seq<Seg>

  datatype Stack = Stack(paths: seq<Path>, dead: set<Hop>)

  /** What stays fixed during one search: aliases, the finite set of addresses the network can answer
      with, the source, and whether the search gives up rather than fail its first path. */
  datatype Context = Context(cm: ClusterMap, universe: set<Hop>, src: Hop, backoff: bool)

  function HopsOf(p: Path): (hops: seq<Hop>) {
    if p == [] then [] else HopsOf(p[..|p| - 1]) + p[|p| - 1].hops
  }

  function ClonePath(p: Path): (r: Path)
    ensures |r| == |p| && forall i :: 0 <= i < |p| ==> r[i] == CloneSeg(p[i])
  {
    seq(|p|, i requires 0 <= i < |p| => CloneSeg(p[i]))
  }

  function Top(paths: seq<Path>): (p: Path)
    requires paths != []
    ensures p in paths
  {
    paths[|paths| - 1]
  }

  function LastSeg(p: Path): Seg
    requires p != []
  {
    p[|p| - 1]
  }

  function LastHop(p: Path): Hop
    requires p != []
  {
    LastOf(LastSeg(p).hops)
  }

  predicate Failed(paths: seq<Path>, backoff: bool) {
    |paths| == 0 || (backoff && |paths| == 1 && |paths[0]| == 1 && paths[0][0].kind.Dst?)
  }

  // ----- AddSegments -----

  datatype Pushed = Pushed(paths: seq<Path>, err: bool)

  /** The paths AddSegments stacks on `base` for candidates already in order. It stops at the first
      candidate whose loop removal fails, keeping what it stacked before. */
  function PushAll(base: Path, dead: set<Hop>, cands: seq<Seg>, cm: ClusterMap): Pushed {
    if cands == [] then Pushed([], false)
    else if LastOf(cands[0].hops) in dead then PushAll(base, dead, cands[1..], cm)
    else
      var kept := Kept(cands[0].hops, HopsOf(base), cm);
      if StillLoops(kept, HopsOf(base)) then Pushed([], true)
      else
        var rest := PushAll(base, dead, cands[1..], cm);
        if kept == [] then rest
        else rest.(paths := [base + [cands[0].(hops := kept)]] + rest.paths)
  }

  /** `p` is `base` with what loop removal left of `c` on top. */
  ghost predicate Extends(p: Path, base: Path, dead: set<Hop>, c: Seg, cm: ClusterMap) {
    && LastOf(c.hops) !in dead
    && Kept(c.hops, HopsOf(base), cm) != []
    && (forall h <- Kept(c.hops, HopsOf(base), cm) :: h !in HopsOf(base))
    && p == base + [c.(hops := Kept(c.hops, HopsOf(base), cm))]
  }

  /** Each stacked path comes from a candidate. */
  lemma {:induction false} PushedFrom(base: Path, dead: set<Hop>, cands: seq<Seg>, cm: ClusterMap, paths: seq<Path>,
                                      k: nat)
    returns (i: nat)
    requires paths == PushAll(base, dead, cands, cm).paths && k < |paths|
    ensures i < |cands| && Extends(paths[k], base, dead, cands[i], cm)
  {
    hide Kept, HopsOf;
    if LastOf(cands[0].hops) in dead || Kept(cands[0].hops, HopsOf(base), cm) == [] {
      i := PushedFrom(base, dead, cands[1..], cm, paths, k);
      i := i + 1;
    } else if k == 0 {
      i := 0;
    } else {
      i := PushedFrom(base, dead, cands[1..], cm, paths[1..], k - 1);
      i := i + 1;
    }
  }

  /** Nothing usable is left out: without an error every candidate that is neither dead nor loopy
      all the way is stacked. */
  lemma {:induction false} PushedComplete(base: Path, dead: set<Hop>, cands: seq<Seg>, cm: ClusterMap, i: nat)
    returns (k: nat)
    requires !PushAll(base, dead, cands, cm).err
    requires i < |cands| && LastOf(cands[i].hops) !in dead
    requires Kept(cands[i].hops, HopsOf(base), cm) != []
    ensures var paths := PushAll(base, dead, cands, cm).paths;
            k < |paths| && Extends(paths[k], base, dead, cands[i], cm)
  {
    hide Kept, HopsOf, LastOf;
    if i == 0 {
      k := 0;
    } else {
      k := PushedComplete(base, dead, cands[1..], cm, i - 1);
      if |PushAll(base, dead, cands, cm).paths| > |PushAll(base, dead, cands[1..], cm).paths| {
        k := k + 1;
      }
    }
  }

  /** An error means a candidate, not dead, that still brings the silent address to a path holding it. */
  lemma {:induction false} PushErrs(base: Path, dead: set<Hop>, cands: seq<Seg>, cm: ClusterMap)
    ensures PushAll(base, dead, cands, cm).err
            <==> ZERO in HopsOf(base)
                 && exists c :: c in cands && LastOf(c.hops) !in dead && ZERO in Kept(c.hops, HopsOf(base), cm)
  {
    hide Kept, HopsOf, StillLoops;
    if cands != [] {
      PushErrs(base, dead, cands[1..], cm);
      KeptDisjoint(cands[0].hops, HopsOf(base), cm);
      assert forall c :: c in cands <==> c == cands[0] || c in cands[1..];
    }
  }

  /** The assumption behind ReverseTraceroute.Reaches: of the paths one call stacks, any of them
      reaches only if the last one does. */
  lemma {:induction false} ReachingPushedOnTop(base: Path, dead: set<Hop>, cands: seq<Seg>, src: Hop, cm: ClusterMap,
                                               paths: seq<Path>, k: nat)
    requires Candidates(cands, src) && Sorted(cands, cm)
    requires paths == PushAll(base, dead, cands, cm).paths && k < |paths|
    requires PathReaches(paths[k], cm)
    ensures PathReaches(Top(paths), cm)
  {
    hide Kept, HopsOf, Sorted, Candidates, Reaches, PathReaches, StillLoops;
    if Reaches(cands[0], cm) {
      forall i | 0 <= i < |cands|
        ensures Reaches(cands[i], cm)
      {
        ReachingOnTop(cands, src, cm, 0, i);
      }
      PushedReach(base, dead, cands, cm, paths, |paths| - 1);
    } else {
      var rest := PushAll(base, dead, cands[1..], cm).paths;
      TailSorted(cands, src, cm);
      ExtendedReaches(base, cands[0], cm);
      if paths == rest {
        ReachingPushedOnTop(base, dead, cands[1..], src, cm, rest, k);
      } else {
        assert k > 0;
        ReachingPushedOnTop(base, dead, cands[1..], src, cm, rest, k - 1);
      }
    }
  }

  /** If nothing stacked reaches, the path on top comes from a candidate that none of those that could be used is
      better than: the most hops answered, as it was offered, and the greatest last hop among those. */
  lemma TopIsBest(base: Path, dead: set<Hop>, cands: seq<Seg>, src: Hop, cm: ClusterMap, paths: seq<Path>)
    returns (i: nat)
    requires Candidates(cands, src) && Sorted(cands, cm)
    requires paths == PushAll(base, dead, cands, cm).paths && paths != [] && !PathReaches(Top(paths), cm)
    ensures i < |cands| && Extends(Top(paths), base, dead, cands[i], cm)
    ensures forall p <- paths ::
              exists j: nat :: j < |cands| && NoBetter(cands[j], cands[i]) && Extends(p, base, dead, cands[j], cm)
    ensures !PushAll(base, dead, cands, cm).err ==>
      forall j :: 0 <= j < |cands| && Usable(base, dead, cands[j], cm) ==> NoBetter(cands[j], cands[i])
  {
    hide PushAll, Extends, NoBetter, Usable, Sorted, Candidates;
    i := LastUsed(base, dead, cands, cm, paths);
    TopReaches(Top(paths), base, dead, cands[i], cm);
    forall j | 0 <= j <= i
      ensures NoBetter(cands[j], cands[i])
    {
      BetterOnTop(cands, src, cm, j, i);
    }
  }

  /** Neither a dead end nor loopy all the way. */
  ghost predicate Usable(base: Path, dead: set<Hop>, c: Seg, cm: ClusterMap) {
    LastOf(c.hops) !in dead && Kept(c.hops, HopsOf(base), cm) != []
  }

  /** The path on top comes from the last candidate that was stacked. */
  lemma {:induction false} LastUsed(base: Path, dead: set<Hop>, cands: seq<Seg>, cm: ClusterMap, paths: seq<Path>)
    returns (i: nat)
    requires paths == PushAll(base, dead, cands, cm).paths && paths != []
    ensures i < |cands| && Extends(Top(paths), base, dead, cands[i], cm)
    ensures forall p <- paths :: exists j: nat :: j <= i && Extends(p, base, dead, cands[j], cm)
    ensures !PushAll(base, dead, cands, cm).err ==>
      forall j :: 0 <= j < |cands| && Usable(base, dead, cands[j], cm) ==> j <= i
  {
    hide Kept, HopsOf, LastOf;
    var all, rest := PushAll(base, dead, cands, cm), PushAll(base, dead, cands[1..], cm);
    if rest.paths == [] {
      i := PushedFrom(base, dead, cands, cm, paths, 0);
      if !all.err {
        forall j | 0 < j < |cands| && Usable(base, dead, cands[j], cm)
          ensures false
        {
          var k := PushedComplete(base, dead, cands[1..], cm, j - 1);
        }
      }
    } else {
      i := LastUsed(base, dead, cands[1..], cm, rest.paths);
      i := i + 1;
      hide Usable, Extends;
      forall p | p in paths
        ensures exists j: nat :: j <= i && Extends(p, base, dead, cands[j], cm)
      {
        if p in rest.paths {
          var j: nat :| j <= i - 1 && Extends(p, base, dead, cands[1..][j], cm);
          assert Extends(p, base, dead, cands[j + 1], cm);
        } else {
          OnlyFirst(base, dead, cands, cm, p);
        }
      }
      forall j | 0 < j < |cands| && Usable(base, dead, cands[j], cm) && !all.err
        ensures j <= i
      {
        assert cands[1..][j - 1] == cands[j];
      }
    }
  }

  lemma OnlyFirst(base: Path, dead: set<Hop>, cands: seq<Seg>, cm: ClusterMap, p: Path)
    requires cands != [] && p in PushAll(base, dead, cands, cm).paths
    requires p !in PushAll(base, dead, cands[1..], cm).paths
    ensures Extends(p, base, dead, cands[0], cm)
  {
    hide Kept, HopsOf, LastOf;
  }

  lemma TopReaches(p: Path, base: Path, dead: set<Hop>, c: Seg, cm: ClusterMap)
    requires Extends(p, base, dead, c, cm) && !PathReaches(p, cm)
    ensures !Reaches(c, cm)
  {
    hide Kept, HopsOf;
    ExtendedReaches(base, c, cm);
  }

  /** Loop removal keeps the end of a segment. */
  lemma ExtendedReaches(base: Path, c: Seg, cm: ClusterMap)
    ensures var kept := Kept(c.hops, HopsOf(base), cm);
            kept != [] ==> PathReaches(base + [c.(hops := kept)], cm) == Reaches(c, cm)
  {
    hide Kept, HopsOf;
    KeptSuffix(c.hops, HopsOf(base), cm);
  }

  lemma TailSorted(cands: seq<Seg>, src: Hop, cm: ClusterMap)
    requires Candidates(cands, src) && Sorted(cands, cm) && cands != []
    ensures Candidates(cands[1..], src) && Sorted(cands[1..], cm)
  {
    var s := cands[1..];
    forall i | 0 <= i < |s| - 1
      ensures if Reaches(s[i], cm) then Reaches(s[i+1], cm) else Reaches(s[i+1], cm) || !Less(s[i+1], s[i], cm)
    {
      assert s[i] == cands[i+1] && s[i+1] == cands[i+1+1];
    }
  }

  lemma PushedReach(base: Path, dead: set<Hop>, cands: seq<Seg>, cm: ClusterMap, paths: seq<Path>, k: nat)
    requires forall i :: 0 <= i < |cands| ==> Reaches(cands[i], cm)
    requires paths == PushAll(base, dead, cands, cm).paths && k < |paths|
    ensures PathReaches(paths[k], cm)
  {
    var i := PushedFrom(base, dead, cands, cm, paths, k);
    KeptSuffix(cands[i].hops, HopsOf(base), cm);
  }

  predicate PathReaches(p: Path, cm: ClusterMap) {
    p != [] && Reaches(LastSeg(p), cm)
  }

  // ----- FailCurrPath -----

  predicate NonEmpty(paths: seq<Path>) {
    forall i :: 0 <= i < |paths| ==> paths[i] != []
  }

  function PopDead(paths: seq<Path>, dead: set<Hop>, backoff: bool): (r: seq<Path>)
    requires NonEmpty(paths)
    ensures r <= paths
  {
    if Failed(paths, backoff) || LastHop(Top(paths)) !in dead || LastSeg(Top(paths)).kind.DstSym? then paths
    else PopDead(paths[..|paths| - 1], dead, backoff)
  }

  function FailTop(st: Stack, backoff: bool): Stack
    requires st.paths != [] && NonEmpty(st.paths)
  {
    var dead := st.dead + {LastHop(Top(st.paths))};
    Stack(PopDead(st.paths, dead, backoff), dead)
  }

  /** Giving up the first path makes the destination a dead end. A search that gives up rather than fail its first
      path keeps that; any other is left with none, and both have failed. */
  lemma FirstPathFails(src: Hop, dst: Hop)
    ensures FailTop(Initial(src, dst), true) == Stack(Initial(src, dst).paths, {dst})
    ensures FailTop(Initial(src, dst), false) == Stack([], {dst})
    ensures Failed(Initial(src, dst).paths, true) && !Failed(Initial(src, dst).paths, false) && Failed([], false)
  {
    var paths := Initial(src, dst).paths;
    assert LastHop(Top(paths)) == dst && {} + {dst} == {dst};
    assert paths[..0] == [] && PopDead([], {dst}, false) == [];
    assert PopDead(paths, {dst}, false) == PopDead(paths[..|paths| - 1], {dst}, false);
  }

  /** Popping takes exactly the dead ends above the first path worth another try: everything popped
      was a dead end that does not assume symmetry, and what is on top now is not one. */
  lemma {:induction false} PopDeadExact(paths: seq<Path>, dead: set<Hop>, backoff: bool)
    requires NonEmpty(paths)
    ensures var r := PopDead(paths, dead, backoff);
            && (forall i :: |r| <= i < |paths| ==> LastHop(paths[i]) in dead && !LastSeg(paths[i]).kind.DstSym?)
            && (Failed(r, backoff) || LastHop(Top(r)) !in dead || LastSeg(Top(r)).kind.DstSym?)
  {
    if !(Failed(paths, backoff) || LastHop(Top(paths)) !in dead || LastSeg(Top(paths)).kind.DstSym?) {
      PopDeadExact(paths[..|paths| - 1], dead, backoff);
    }
  }

  // ----- AddHop and AddAndReplaceSegment -----

  function SetOf(s: seq<Hop>): (r: set<Hop>)
    ensures forall h :: h in r <==> h in s
  {
    set h | h in s
  }

  ghost predicate Growable(s: Seg) {
    s.kind.DstSym? && s.kind.tr != [] && s.src != ZERO
  }

  /** The symmetric segment with one more hop assumed. */
  function GrowSeg(s: Seg, ignore: set<Hop>): Seg
    requires Growable(s)
  {
    var rev := Backwards(s.src, s.kind.tr);
    assert rev[|rev| - 1] in rev;
    Seg(DstSym(s.kind.tr, s.kind.numHops + 1), Select(rev, s.kind.numHops + 1, ignore), s.src)
  }

  /** What a growing step leaves out: the hops below the last segment, and the dead ends. */
  function Ignored(p: Path, dead: set<Hop>): set<Hop>
    requires p != []
  {
    SetOf(HopsOf(p[..|p| - 1])) + dead
  }

  function ReplaceLast(p: Path, s: Seg): Path
    requires p != []
  {
    ClonePath(p)[..|p| - 1] + [s]
  }

  /** A grown segment ends in an eligible hop, or is the whole way back and ends in the source. */
  lemma GrowEnds(s: Seg, ignore: set<Hop>)
    requires Growable(s)
    ensures var g := GrowSeg(s, ignore);
            && g.hops != [] && (forall h <- g.hops :: h == s.src || h in s.kind.tr)
            && if s.kind.numHops + 1 <= Count(Backwards(s.src, s.kind.tr), ignore)
               then Eligible(LastOf(g.hops), ignore) && s.kind.numHops + 1 <= |s.kind.tr|
               else LastOf(g.hops) == s.src
  {
  }

  // ----- what every move keeps -----

  /** Segment `i` brings a hop that no earlier segment of the path has. */
  ghost predicate Novel(p: Path, i: nat)
    requires i < |p|
  {
    exists h :: h in p[i].hops && h !in HopsOf(p[..i])
  }

  ghost predicate SegOK(s: Seg, c: Context) {
    && s.src == c.src
    && s.hops != []
    && (forall h <- s.hops :: h in c.universe)
    && SymmetricOK(s, c)
  }

  ghost predicate SymmetricOK(s: Seg, c: Context) {
    s.kind.DstSym? ==>
      && 1 <= s.kind.numHops <= |s.kind.tr|
      && forall h <- s.kind.tr :: h in c.universe
  }

  ghost predicate PathOK(p: Path, c: Context) {
    && p != []
    && (forall i :: 0 <= i < |p| ==> SegOK(p[i], c) && Novel(p, i))
  }

  ghost predicate TopOK(p: Path, dead: set<Hop>)
    requires p != []
  {
    LastHop(p) !in dead || LastSeg(p).kind.DstSym?
  }

  ghost predicate ContextOK(c: Context) {
    c.src in c.universe && c.src != ZERO
  }

  ghost predicate Inv(st: Stack, c: Context) {
    && ContextOK(c)
    && (forall i :: 0 <= i < |st.paths| ==> PathOK(st.paths[i], c))
    && st.dead <= c.universe
    && st.paths != [] && TopOK(Top(st.paths), st.dead)
  }

  /** No path on the stack has reached, and the source has not been given up. */
  ghost predicate Clean(st: Stack, c: Context) {
    && (forall i :: 0 <= i < |st.paths| ==> !PathReaches(st.paths[i], c.cm))
    && c.src !in st.dead
  }

  function Initial(src: Hop, dst: Hop): Stack {
    Stack([[Seg(Dst, [dst], src)]], {})
  }

  lemma InitialOK(c: Context, dst: Hop)
    requires ContextOK(c) && dst in c.universe
    ensures Inv(Initial(c.src, dst), c)
    ensures !PathReaches(Top(Initial(c.src, dst).paths), c.cm) ==> Clean(Initial(c.src, dst), c)
  {
    var p := Initial(c.src, dst).paths[0];
    assert p[0].hops[0] in p[0].hops && Novel(p, 0);
  }

  // ----- depth -----

  lemma {:induction false} HopsOfWithin(p: Path, c: Context)
    requires forall i :: 0 <= i < |p| ==> SegOK(p[i], c)
    ensures forall h <- HopsOf(p) :: h in c.universe
  {
    if p != [] {
      HopsOfWithin(p[..|p| - 1], c);
    }
  }

  /** Every segment of a path brings a new hop, so a path is no deeper than its distinct hops. */
  lemma {:induction false} DistinctHops(p: Path)
    requires forall i :: 0 <= i < |p| ==> Novel(p, i)
    ensures |p| <= |SetOf(HopsOf(p))|
  {
    if p != [] {
      var q := p[..|p| - 1];
      forall i | 0 <= i < |q|
        ensures Novel(q, i)
      {
        assert Novel(p, i) && q[..i] == p[..i];
      }
      DistinctHops(q);
      assert Novel(p, |p| - 1);
      var h :| h in p[|p| - 1].hops && h !in HopsOf(q);
      SubsetSize(SetOf(HopsOf(q)) + {h}, SetOf(HopsOf(p)));
    }
  }

  lemma {:induction false} SubsetSize<T>(a: set<T>, b: set<T>)
    requires a <= b
    ensures |a| <= |b|
  {
    if a != {} {
      var x :| x in a;
      SubsetSize(a - {x}, b - {x});
    }
  }

  lemma DepthBound(p: Path, c: Context)
    requires PathOK(p, c)
    ensures |p| <= |c.universe|
  {
    DistinctHops(p);
    HopsOfWithin(p, c);
    SubsetSize(SetOf(HopsOf(p)), c.universe);
  }

  // ----- copies -----

  lemma {:induction false} CloneHops(p: Path)
    ensures HopsOf(ClonePath(p)) == HopsOf(p)
  {
    if p != [] {
      CloneHops(p[..|p| - 1]);
      assert ClonePath(p)[..|p| - 1] == ClonePath(p[..|p| - 1]);
    }
  }

  lemma ClonePrefix(p: Path, i: nat)
    requires i <= |p|
    ensures ClonePath(p)[..i] == ClonePath(p[..i])
    ensures HopsOf(ClonePath(p)[..i]) == HopsOf(p[..i])
  {
    assert ClonePath(p)[..i] == ClonePath(p[..i]);
    CloneHops(p[..i]);
  }

  lemma CloneOK(p: Path, c: Context)
    requires PathOK(p, c)
    ensures PathOK(ClonePath(p), c)
  {
    var q := ClonePath(p);
    forall i | 0 <= i < |q|
      ensures SegOK(q[i], c) && Novel(q, i)
    {
      ClonePrefix(p, i);
      assert SegOK(p[i], c) && Novel(p, i);
    }
  }

  /** A path stays well formed when a segment with a hop of its own is put on top. */
  lemma OnTopOK(base: Path, s: Seg, h: Hop, c: Context)
    requires base == [] || PathOK(base, c)
    requires SegOK(s, c) && h in s.hops && h !in HopsOf(base)
    ensures PathOK(base + [s], c)
  {
    var p := base + [s];
    forall i | 0 <= i < |p|
      ensures SegOK(p[i], c) && Novel(p, i)
    {
      assert p[..i] == base[..i];
      if i < |base| {
        assert Novel(base, i);
      } else {
        assert base[..i] == base;
      }
    }
  }

  lemma PrefixOK(p: Path, n: nat, c: Context)
    requires PathOK(p, c) && 0 < n <= |p|
    ensures PathOK(p[..n], c)
  {
    forall i | 0 <= i < n
      ensures SegOK(p[..n][i], c) && Novel(p[..n], i)
    {
      assert p[..n][..i] == p[..i];
      assert Novel(p, i);
    }
  }

  // ----- the moves -----

  /** Candidates the network can have answered with. */
  ghost predicate Offered(cands: seq<Seg>, c: Context) {
    && Candidates(cands, c.src) && Sorted(cands, c.cm)
    && forall s <- cands :: (forall h <- s.hops :: h in c.universe) && SymmetricOK(s, c)
  }

  function Extended(st: Stack, cands: seq<Seg>, cm: ClusterMap): Stack
    requires st.paths != []
  {
    st.(paths := st.paths + PushAll(ClonePath(Top(st.paths)), st.dead, cands, cm).paths)
  }

  /** One call of AddSegments: what it leaves, and what it answers. */
  ghost predicate Called(st: Stack, st': Stack, cands: seq<Seg>, added: bool, c: Context) {
    && st.paths != [] && Offered(cands, c)
    && st' == Extended(st, cands, c.cm)
    && var pushed := PushAll(ClonePath(Top(st.paths)), st.dead, cands, c.cm);
       added == (!pushed.err && pushed.paths != [])
  }

  /** AddSegments stacked something and the search goes on: either the new top does not reach, or the
      call ended in an error, which its callers take for nothing having been added. */
  ghost predicate ExtendMove(st: Stack, st': Stack, cands: seq<Seg>, c: Context) {
    && st.paths != [] && Offered(cands, c)
    && var pushed := PushAll(ClonePath(Top(st.paths)), st.dead, cands, c.cm);
      && pushed.paths != []
      && st' == Extended(st, cands, c.cm)
      && (pushed.err || !PathReaches(Top(st'.paths), c.cm))
  }

  /** The current path assumes symmetry, so one more hop can be assumed. */
  ghost predicate CanGrow(st: Stack) {
    st.paths != [] && Top(st.paths) != [] && Growable(LastSeg(Top(st.paths)))
  }

  /** The stack with one more hop of the forward traceroute assumed. */
  ghost function Grown(st: Stack): (st': Stack)
    requires CanGrow(st)
    ensures st'.paths != [] && st'.dead == st.dead
  {
    var p := Top(st.paths);
    st.(paths := st.paths + [ReplaceLast(p, GrowSeg(LastSeg(p), Ignored(p, st.dead)))])
  }

  /** One more hop of the forward traceroute is assumed, and the new top does not reach. */
  ghost predicate GrowMove(st: Stack, st': Stack, c: Context) {
    && CanGrow(st)
    && LastHop(Top(Grown(st).paths)) !in st.dead
    && st' == Grown(st)
    && !PathReaches(Top(st'.paths), c.cm)
  }

  /** The current path, not a symmetric one, is given up and the search has not failed. */
  ghost predicate BacktrackMove(st: Stack, st': Stack, c: Context) {
    && st.paths != [] && NonEmpty(st.paths)
    && !LastSeg(Top(st.paths)).kind.DstSym?
    && st' == FailTop(st, c.backoff)
    && !Failed(st'.paths, c.backoff)
  }

  ghost predicate Move(st: Stack, st': Stack, c: Context) {
    || (exists cands :: ExtendMove(st, st', cands, c))
    || GrowMove(st, st', c)
    || BacktrackMove(st, st', c)
  }

  /** A move in which no loop removal reported an error. */
  ghost predicate CleanMove(st: Stack, st': Stack, c: Context) {
    || (exists cands :: ExtendMove(st, st', cands, c)
          && !PushAll(ClonePath(Top(st.paths)), st.dead, cands, c.cm).err)
    || GrowMove(st, st', c)
    || BacktrackMove(st, st', c)
  }

  // ----- the invariant is kept -----

  lemma PushedOK(st: Stack, cands: seq<Seg>, c: Context, k: nat)
    requires Inv(st, c) && Offered(cands, c)
    requires k < |PushAll(ClonePath(Top(st.paths)), st.dead, cands, c.cm).paths|
    ensures var p := PushAll(ClonePath(Top(st.paths)), st.dead, cands, c.cm).paths[k];
            && PathOK(p, c) && |p| == |Top(st.paths)| + 1
            && LastHop(p) !in st.dead
  {
    var base := ClonePath(Top(st.paths));
    CloneOK(Top(st.paths), c);
    var paths := PushAll(base, st.dead, cands, c.cm).paths;
    var i := PushedFrom(base, st.dead, cands, c.cm, paths, k);
    var kept := Kept(cands[i].hops, HopsOf(base), c.cm);
    KeptSuffix(cands[i].hops, HopsOf(base), c.cm);
    assert cands[i] in cands;
    assert kept[0] in kept;
    OnTopOK(base, cands[i].(hops := kept), kept[0], c);
  }

  lemma ExtendKeeps(st: Stack, cands: seq<Seg>, c: Context)
    requires Inv(st, c) && Offered(cands, c)
    ensures Inv(Extended(st, cands, c.cm), c)
  {
    hide PushAll, PathOK, Offered, ClonePath;
    var pushed := PushAll(ClonePath(Top(st.paths)), st.dead, cands, c.cm).paths;
    forall p | p in pushed
      ensures PathOK(p, c) && p != [] && LastHop(p) !in st.dead
    {
      var k :| 0 <= k < |pushed| && pushed[k] == p;
      PushedOK(st, cands, c, k);
    }
    assert pushed != [] ==> pushed[|pushed| - 1] in pushed;
  }

  /** A grown path that does not reach is well formed and assumes at most as many hops as there are. */
  lemma GrownOK(st: Stack, c: Context)
    requires Inv(st, c) && Growable(LastSeg(Top(st.paths)))
    ensures var p := Top(st.paths);
            var g := GrowSeg(LastSeg(p), Ignored(p, st.dead));
            !Reaches(g, c.cm) ==> PathOK(ReplaceLast(p, g), c) && g.kind.numHops <= |g.kind.tr|
  {
    var p := Top(st.paths);
    assert p in st.paths && SegOK(LastSeg(p), c);
    var ignore := Ignored(p, st.dead);
    var g := GrowSeg(LastSeg(p), ignore);
    GrowEnds(LastSeg(p), ignore);
    if !Reaches(g, c.cm) {
      var base := ClonePath(p)[..|p| - 1];
      ClonePrefix(p, |p| - 1);
      CloneOK(p, c);
      if |p| > 1 { PrefixOK(ClonePath(p), |p| - 1, c); }
      assert LastOf(g.hops) in g.hops;
      OnTopOK(base, g, LastOf(g.hops), c);
    }
  }

  lemma BacktrackKeeps(st: Stack, c: Context)
    requires Inv(st, c) && !Failed(FailTop(st, c.backoff).paths, c.backoff)
    ensures Inv(FailTop(st, c.backoff), c)
  {
    var p := Top(st.paths);
    assert p in st.paths && SegOK(LastSeg(p), c);
    PopDeadExact(st.paths, st.dead + {LastHop(p)}, c.backoff);
  }

  lemma MoveKeepsInv(st: Stack, st': Stack, c: Context)
    requires Inv(st, c) && Move(st, st', c)
    ensures Inv(st', c)
  {
    hide PushAll, PathOK, GrowSeg, FailTop, ClonePath, Ignored, Offered;
    if GrowMove(st, st', c) {
      GrownOK(st, c);
    } else if BacktrackMove(st, st', c) {
      BacktrackKeeps(st, c);
    } else {
      var cands :| ExtendMove(st, st', cands, c);
      ExtendKeeps(st, cands, c);
    }
  }

  // ----- no run of moves is infinite -----

  ghost function Alive(st: Stack, c: Context): nat {
    |c.universe - st.dead|
  }

  ghost function Room(st: Stack, c: Context): nat
    requires Inv(st, c)
  {
    DepthBound(Top(st.paths), c);
    |c.universe| - |Top(st.paths)|
  }

  ghost function Unassumed(st: Stack, c: Context): nat
    requires Inv(st, c)
  {
    var s := LastSeg(Top(st.paths));
    assert Top(st.paths) in st.paths && SegOK(s, c);
    if s.kind.DstSym? then |s.kind.tr| - s.kind.numHops else 0
  }

  /** The hops not yet dead, then the room left above the current path, then the forward hops not yet
      assumed: each move lowers the first of them that it changes. */
  ghost predicate Lower(st': Stack, st: Stack, c: Context)
    requires Inv(st, c) && Inv(st', c)
  {
    || Alive(st', c) < Alive(st, c)
    || (Alive(st', c) == Alive(st, c)
        && (Room(st', c) < Room(st, c)
            || (Room(st', c) == Room(st, c) && Unassumed(st', c) < Unassumed(st, c))))
  }

  lemma ExtendLowers(st: Stack, cands: seq<Seg>, c: Context)
    requires Inv(st, c) && Offered(cands, c)
    requires PushAll(ClonePath(Top(st.paths)), st.dead, cands, c.cm).paths != []
    ensures Inv(Extended(st, cands, c.cm), c)
    ensures Room(Extended(st, cands, c.cm), c) < Room(st, c)
  {
    hide PushAll, PathOK, Offered, ClonePath, SegOK;
    var pushed := PushAll(ClonePath(Top(st.paths)), st.dead, cands, c.cm).paths;
    ExtendKeeps(st, cands, c);
    PushedOK(st, cands, c, |pushed| - 1);
  }

  /** A path given up ends in a hop that was not dead before. */
  lemma BacktrackLowers(st: Stack, c: Context)
    requires Inv(st, c) && !LastSeg(Top(st.paths)).kind.DstSym?
    ensures Alive(FailTop(st, c.backoff), c) < Alive(st, c)
  {
    var p := Top(st.paths);
    assert p in st.paths && SegOK(LastSeg(p), c);
    var h := LastHop(p);
    assert h in c.universe && h !in st.dead;
    assert c.universe - (st.dead + {h}) == (c.universe - st.dead) - {h};
  }

  lemma MoveLowers(st: Stack, st': Stack, c: Context)
    requires Inv(st, c) && Move(st, st', c)
    ensures Inv(st', c) && Lower(st', st, c)
  {
    MoveKeepsInv(st, st', c);
    if GrowMove(st, st', c) {
      GrownOK(st, c);
    } else if BacktrackMove(st, st', c) {
      BacktrackLowers(st, c);
    } else {
      var cands :| ExtendMove(st, st', cands, c);
      ExtendLowers(st, cands, c);
    }
  }

  /** Whatever the network answers, errors included, a search makes finitely many moves. */
  lemma {:induction false} SearchTerminates(run: nat -> Stack, c: Context, n: nat)
    requires Inv(run(n), c)
    ensures exists i :: n <= i && !Move(run(i), run(i + 1), c)
    decreases Alive(run(n), c), Room(run(n), c), Unassumed(run(n), c)
  {
    if Move(run(n), run(n + 1), c) {
      MoveLowers(run(n), run(n + 1), c);
      SearchTerminates(run, c, n + 1);
    }
  }

  // ----- loop freedom of the paths AddSegments builds -----

  ghost predicate LoopFree(hops: seq<Hop>) {
    forall i, j :: 0 <= i < j < |hops| && hops[i] == hops[j] ==> hops[i] == ZERO
  }

  /** At most one segment of the path holds the silent address. */
  ghost predicate SilentOnce(p: Path) {
    forall i, j :: 0 <= i < j < |p| && ZERO in p[i].hops ==> ZERO !in p[j].hops
  }

  lemma {:induction false} HopsOfSegment(p: Path, i: nat, h: Hop)
    requires i < |p| && h in p[i].hops
    ensures h in HopsOf(p)
  {
    if i < |p| - 1 {
      HopsOfSegment(p[..|p| - 1], i, h);
    }
  }

  lemma HopsOfOnTop(base: Path, s: Seg)
    ensures HopsOf(base + [s]) == HopsOf(base) + s.hops
  {
    assert (base + [s])[..|base|] == base;
  }

  lemma LoopFreeAppend(a: seq<Hop>, b: seq<Hop>)
    requires LoopFree(a) && LoopFree(b)
    requires forall h <- b :: h !in a
    ensures LoopFree(a + b)
  {
    assert forall k :: 0 <= k < |b| ==> b[k] in b;
    assert forall i, k :: 0 <= i < |a| && 0 <= k < |b| ==> a[i] != b[k];
    forall i, j | 0 <= i < j < |a + b| && (a + b)[i] == (a + b)[j]
      ensures (a + b)[i] == ZERO
    {
      if j < |a| {
        assert a[i] == a[j];
      } else if |a| <= i {
        assert b[i - |a|] == b[j - |a|];
      }
    }
  }

  lemma LoopFreeSuffix(a: seq<Hop>, n: nat)
    requires n <= |a| && LoopFree(a)
    ensures LoopFree(a[n..])
  {
    forall i, j | 0 <= i < j < |a[n..]| && a[n..][i] == a[n..][j]
      ensures a[n..][i] == ZERO
    {
      assert a[n + i] == a[n + j];
    }
  }

  /** Stacking a candidate that repeats no answering hop leaves a path that repeats none, if the
      current path repeats none. */
  lemma ExtendsLoopFree(p: Path, base: Path, dead: set<Hop>, s: Seg, cm: ClusterMap)
    requires Extends(p, base, dead, s, cm)
    requires LoopFree(HopsOf(base)) && LoopFree(s.hops)
    ensures LoopFree(HopsOf(p))
  {
    var kept := Kept(s.hops, HopsOf(base), cm);
    HopsOfOnTop(base, s.(hops := kept));
    LoopFreeSuffix(s.hops, CutAt(s.hops, Shared(s.hops, HopsOf(base)), cm, |s.hops|));
    LoopFreeAppend(HopsOf(base), kept);
  }

  /** And the silent address stays within one segment. */
  lemma ExtendsSilentOnce(p: Path, base: Path, dead: set<Hop>, s: Seg, cm: ClusterMap)
    requires Extends(p, base, dead, s, cm)
    requires SilentOnce(base)
    ensures SilentOnce(p)
  {
    forall i, j | 0 <= i < j < |p| && ZERO in p[i].hops
      ensures ZERO !in p[j].hops
    {
      if j == |base| {
        HopsOfSegment(base, i, ZERO);
      }
    }
  }

  // ----- the source never becomes a dead end, as long as loop removal does not fail -----

  /** A call of AddSegments whose new top does not reach stacks nothing that reaches. */
  lemma NothingReaches(base: Path, dead: set<Hop>, cands: seq<Seg>, c: Context, paths: seq<Path>)
    requires Offered(cands, c)
    requires paths == PushAll(base, dead, cands, c.cm).paths
    requires paths != [] ==> !PathReaches(Top(paths), c.cm)
    ensures forall k :: 0 <= k < |paths| ==> !PathReaches(paths[k], c.cm)
  {
    forall k | 0 <= k < |paths|
      ensures !PathReaches(paths[k], c.cm)
    {
      if PathReaches(paths[k], c.cm) {
        ReachingPushedOnTop(base, dead, cands, c.src, c.cm, paths, k);
      }
    }
  }

  lemma BacktrackKeepsClean(st: Stack, c: Context)
    requires Inv(st, c) && Clean(st, c)
    ensures Clean(FailTop(st, c.backoff), c)
  {
    assert !PathReaches(Top(st.paths), c.cm);
    assert SegOK(LastSeg(Top(st.paths)), c);
  }

  lemma CleanMoveKeepsClean(st: Stack, st': Stack, c: Context)
    requires Inv(st, c) && Clean(st, c) && CleanMove(st, st', c)
    ensures Clean(st', c)
  {
    hide PushAll, GrowSeg, FailTop, PathOK, Offered, ClonePath, Ignored;
    if GrowMove(st, st', c) {
    } else if BacktrackMove(st, st', c) {
      BacktrackKeepsClean(st, c);
    } else {
      var base := ClonePath(Top(st.paths));
      var cands :| ExtendMove(st, st', cands, c) && !PushAll(base, st.dead, cands, c.cm).err;
      var pushed := PushAll(base, st.dead, cands, c.cm).paths;
      assert Top(st'.paths) == Top(pushed);
      NothingReaches(base, st.dead, cands, c, pushed);
    }
  }

  /** AddAndReplaceSegment refuses a grown segment exactly when the source is a dead end and the
      forward traceroute has no further hop to offer. */
  lemma GrowRefused(st: Stack, c: Context)
    requires Inv(st, c) && Growable(LastSeg(Top(st.paths)))
    ensures var p := Top(st.paths);
            var s := LastSeg(p);
            GrowthRefused(st)
            <==> c.src in st.dead && Count(Backwards(s.src, s.kind.tr), Ignored(p, st.dead)) <= s.kind.numHops
  {
    var p := Top(st.paths);
    assert p in st.paths && SegOK(LastSeg(p), c);
    GrowEnds(LastSeg(p), Ignored(p, st.dead));
  }

  lemma CleanMoveIsMove(st: Stack, st': Stack, c: Context)
    requires CleanMove(st, st', c)
    ensures Move(st, st', c)
  {
    hide ExtendMove, GrowMove, BacktrackMove;
  }

  /** AddAndReplaceSegment would refuse the grown last segment, where the program panics. */
  ghost predicate GrowthRefused(st: Stack) {
    CanGrow(st) && LastHop(Top(Grown(st).paths)) in st.dead
  }

  ghost predicate CleanRun(run: seq<Stack>, c: Context, dst: Hop) {
    && run != [] && run[0] == Initial(c.src, dst)
    && forall i :: 0 <= i < |run| - 1 ==> CleanMove(run[i], run[i+1], c)
  }

  /** What a search that has met no such error can rely on. */
  ghost predicate Safe(st: Stack, c: Context) {
    Inv(st, c) && Clean(st, c) && !GrowthRefused(st)
  }

  /** Moves without such an error lead from a state that is safe to none but safe ones. */
  lemma {:induction false} CleanMovesSafe(run: seq<Stack>, c: Context)
    requires run != [] && forall i :: 0 <= i < |run| - 1 ==> CleanMove(run[i], run[i+1], c)
    requires Inv(run[0], c) && Clean(run[0], c)
    ensures Safe(run[|run| - 1], c)
  {
    hide Inv, Clean, CleanMove, GrowthRefused;
    if |run| > 1 {
      var before := run[..|run| - 1];
      assert forall i :: 0 <= i < |before| - 1 ==> CleanMove(before[i], before[i+1], c);
      CleanMovesSafe(before, c);
      assert CleanMove(run[|run| - 2], run[|run| - 2 + 1], c);
      CleanMoveIsMove(run[|run| - 2], run[|run| - 1], c);
      MoveKeepsInv(run[|run| - 2], run[|run| - 1], c);
      CleanMoveKeepsClean(run[|run| - 2], run[|run| - 1], c);
    }
    CleanIsSafe(run[|run| - 1], c);
  }

  /** On every run without such an error, from a destination that is not already the source: no stacked
      path reaches, the source is not a dead end, the current path ends in a live hop unless it assumes
      symmetry, and growing it is never refused. */
  lemma CleanRunSafe(run: seq<Stack>, c: Context, dst: Hop)
    requires ContextOK(c) && dst in c.universe && CleanRun(run, c, dst)
    requires !PathReaches(Top(Initial(c.src, dst).paths), c.cm)
    ensures Safe(run[|run| - 1], c)
  {
    InitialOK(c, dst);
    CleanMovesSafe(run, c);
  }

  lemma CleanIsSafe(st: Stack, c: Context)
    requires Inv(st, c) && Clean(st, c)
    ensures Safe(st, c)
  {
    if Growable(LastSeg(Top(st.paths))) {
      GrowRefused(st, c);
    }
  }
}
