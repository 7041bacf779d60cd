/** The values of segments: what a candidate holds, when it reaches, how loops are cut out of it,
    and the comparator that decides which candidate ends on top of the stack. */
module Segments {
  import opened Hops

  type VP = string

  /** The dynamic type of a segment; only a symmetric one remembers its forward traceroute. */
  datatype Kind =
    | Plain
    | Dst
    | DstSym(tr: seq<Hop>, numHops: nat)
    | TrToSrc
    | RR
    | SpoofRR(spoofSource: VP)
    | TsAdj
    | SpoofTsAdj(tsSource: VP)
    | SpoofTsAdjTsZero(tsSource: VP)
    | SpoofTsAdjTsZeroDoubleStamp(tsSource: VP)

  datatype Seg = Seg(kind: Kind, hops: seq<Hop>, src: Hop)

  /** TRtoSrcRevSegment has no Clone of its own, so a copy of one is a plain RevSegment. */
  function CloneKind(k: Kind): Kind {
    if k.TrToSrc? then Plain else k
  }

  function CloneSeg(s: Seg): Seg {
    s.(kind := CloneKind(s.kind))
  }

  /** NewRevSegment: addresses that are not global unicast are recorded as silent. */
  function Sanitize(hops: seq<Hop>, global: Hop -> bool): (r: seq<Hop>)
    ensures |r| == |hops|
    ensures forall i :: 0 <= i < |r| ==> r[i] == if global(hops[i]) then hops[i] else ZERO
  {
    seq(|hops|, i requires 0 <= i < |hops| => if global(hops[i]) then hops[i] else ZERO)
  }

  function LastOf(hops: seq<Hop>): Hop {
    if hops == [] then NONE else hops[|hops| - 1]
  }

  predicate Reaches(s: Seg, cm: ClusterMap) {
    LastOf(s.hops) == s.src || cm(LastOf(s.hops)) == cm(s.src)
  }

  function NonNull(hops: seq<Hop>): nat {
    if hops == [] then 0
    else NonNull(hops[..|hops| - 1]) + (if hops[|hops| - 1] != ZERO then 1 else 0)
  }

  /** RevSegment.Length(true): the hops that are not the silent address. */
  lemma {:induction false} NonNullCounts(hops: seq<Hop>)
    ensures NonNull(hops) == |hops| - multiset(hops)[ZERO]
  {
    if hops != [] {
      NonNullCounts(hops[..|hops| - 1]);
      assert hops == hops[..|hops| - 1] + [hops[|hops| - 1]];
    }
  }

  // ----- the comparator -----

  /** RevSegment.Order. Its receiver is always the embedded RevSegment, so only the type of the
      other segment can be found to be symmetric. */
  function Order(a: Seg, b: Seg, cm: ClusterMap): int {
    if b.kind.DstSym? then 1
    else if a.hops == b.hops then 0
    else if LastOf(a.hops) == LastOf(b.hops) then
      if NonNull(a.hops) != NonNull(b.hops) then
        if NonNull(a.hops) < NonNull(b.hops) then -1 else 1
      else OrderHops(a.hops, b.hops)
    else if Reaches(a, cm) then 1
    else if Reaches(b, cm) then -1
    else if NonNull(a.hops) != NonNull(b.hops) then
      if NonNull(a.hops) < NonNull(b.hops) then -1 else 1
    else Compare(LastOf(a.hops).name, LastOf(b.hops).name)
  }

  predicate Less(a: Seg, b: Seg, cm: ClusterMap) {
    Order(a, b, cm) < 0
  }

  /** What the callers of AddSegments hand over: candidates for one source, none of them symmetric. */
  ghost predicate Comparable(a: Seg, b: Seg) {
    a.src == b.src && !a.kind.DstSym? && !b.kind.DstSym?
  }

  /** A reference order on candidates: reaching above not reaching; two that do not reach compare by
      number of answering hops, then last hop, then the whole list; two that reach compare only when
      they end in the same hop. */
  ghost predicate Below(a: Seg, b: Seg, cm: ClusterMap) {
    if Reaches(a, cm) != Reaches(b, cm) then Reaches(b, cm)
    else if Reaches(a, cm) then
      && LastOf(a.hops) == LastOf(b.hops)
      && (NonNull(a.hops) < NonNull(b.hops)
          || (NonNull(a.hops) == NonNull(b.hops) && OrderHops(a.hops, b.hops) < 0))
    else
      var c := Compare(LastOf(a.hops).name, LastOf(b.hops).name);
      || NonNull(a.hops) < NonNull(b.hops)
      || (NonNull(a.hops) == NonNull(b.hops)
          && (c < 0 || (c == 0 && OrderHops(a.hops, b.hops) < 0)))
  }

  /** On comparable candidates the program's comparator is exactly the reference order. */
  lemma LessIsBelow(a: Seg, b: Seg, cm: ClusterMap)
    requires Comparable(a, b)
    ensures Less(a, b, cm) <==> Below(a, b, cm)
  {
    CompareAntisymmetric(LastOf(a.hops).name, LastOf(b.hops).name);
    OrderHopsAntisymmetric(a.hops, b.hops);
  }

  lemma LessAsymmetric(a: Seg, b: Seg, cm: ClusterMap)
    ensures !(Less(a, b, cm) && Less(b, a, cm))
  {
    CompareAntisymmetric(LastOf(a.hops).name, LastOf(b.hops).name);
    OrderHopsAntisymmetric(a.hops, b.hops);
  }

  lemma LessStrict(a: Seg, b: Seg, cm: ClusterMap)
    requires Comparable(a, b)
    ensures !Less(a, a, cm)
    ensures !(Less(a, b, cm) && Less(b, a, cm))
  {
    LessIsBelow(a, b, cm);
    LessIsBelow(b, a, cm);
    CompareAntisymmetric(LastOf(a.hops).name, LastOf(b.hops).name);
    OrderHopsAntisymmetric(a.hops, b.hops);
  }

  lemma LessTransitive(a: Seg, b: Seg, c: Seg, cm: ClusterMap)
    requires Comparable(a, b) && Comparable(b, c)
    requires Less(a, b, cm) && Less(b, c, cm)
    ensures Less(a, c, cm)
  {
    LessIsBelow(a, b, cm);
    LessIsBelow(b, c, cm);
    LessIsBelow(a, c, cm);
    var x, y, z := LastOf(a.hops).name, LastOf(b.hops).name, LastOf(c.hops).name;
    CompareAntisymmetric(x, y);
    CompareAntisymmetric(y, z);
    CompareAntisymmetric(x, z);
    if Compare(x, y) < 0 && Compare(y, z) < 0 { CompareTransitive(x, y, z); }
    if OrderHops(a.hops, b.hops) < 0 && OrderHops(b.hops, c.hops) < 0 {
      OrderHopsTransitive(a.hops, b.hops, c.hops);
    }
  }

  /** Two different candidates are ordered one way or the other, unless both reach in different hops. */
  lemma LessTotal(a: Seg, b: Seg, cm: ClusterMap)
    requires Comparable(a, b)
    ensures Less(a, b, cm) || Less(b, a, cm)
            <==> a.hops != b.hops
                 && !(Reaches(a, cm) && Reaches(b, cm) && LastOf(a.hops) != LastOf(b.hops))
  {
    LessIsBelow(a, b, cm);
    LessIsBelow(b, a, cm);
    CompareAntisymmetric(LastOf(a.hops).name, LastOf(b.hops).name);
    OrderHopsAntisymmetric(a.hops, b.hops);
  }

  /** Two segments compare as greater both ways exactly if both are symmetric, or both reach in different
      hops. */
  lemma GreaterBothWays(a: Seg, b: Seg, cm: ClusterMap)
    requires a.src == b.src && a.kind.DstSym? == b.kind.DstSym?
    ensures Order(a, b, cm) > 0 && Order(b, a, cm) > 0
            <==> a.kind.DstSym? || (Reaches(a, cm) && Reaches(b, cm) && LastOf(a.hops) != LastOf(b.hops))
  {
    CompareAntisymmetric(LastOf(a.hops).name, LastOf(b.hops).name);
    OrderHopsAntisymmetric(a.hops, b.hops);
  }

  /** All that is assumed of sort.Sort, whose comparator does not order two candidates that reach in different
      hops: it sorts those that do not reach, and puts none of them directly after one that does. */
  ghost predicate Sorted(s: seq<Seg>, cm: ClusterMap) {
    forall i :: 0 <= i < |s| - 1 ==>
      if Reaches(s[i], cm) then Reaches(s[i+1], cm) else Reaches(s[i+1], cm) || !Less(s[i+1], s[i], cm)
  }

  /** No two neighbours are the wrong way round. */
  ghost predicate InOrder(s: seq<Seg>, cm: ClusterMap) {
    forall i :: 0 <= i < |s| - 1 ==> !Less(s[i+1], s[i], cm)
  }

  /** Where an insertion sort puts candidate `x`: above the last of the first `j` it is not less than. */
  function InsertPosition(vals: seq<Seg>, cm: ClusterMap, perm: seq<nat>, x: nat, j: nat): (p: nat)
    requires x < |vals| && j <= |perm| && forall i :: 0 <= i < |perm| ==> perm[i] < |vals|
    requires j < |perm| ==> Less(vals[x], vals[perm[j]], cm)
    ensures p <= |perm|
    ensures p > 0 ==> !Less(vals[x], vals[perm[p-1]], cm)
    ensures p < |perm| ==> Less(vals[x], vals[perm[p]], cm)
  {
    if j == 0 || !Less(vals[x], vals[perm[j-1]], cm) then j
    else InsertPosition(vals, cm, perm, x, j - 1)
  }

  function InsertAt(s: seq<nat>, p: nat, x: nat): seq<nat>
    requires p <= |s|
  {
    s[..p] + [x] + s[p..]
  }

  /** A list of distinct numbers below `n`. */
  ghost predicate Choice(s: seq<nat>, n: nat) {
    (forall i :: 0 <= i < |s| ==> s[i] < n) && (forall i, j :: 0 <= i < j < |s| ==> s[i] != s[j])
  }

  lemma InsertChoice(s: seq<nat>, p: nat, x: nat)
    requires p <= |s| && Choice(s, x)
    ensures Choice(InsertAt(s, p, x), x + 1)
  {
  }

  /** Stands in for sort.Sort: the positions of the first `n` candidates in sorted order. */
  function SortIndices(vals: seq<Seg>, cm: ClusterMap, n: nat): (r: seq<nat>)
    requires n <= |vals|
    ensures |r| == n && Choice(r, n)
  {
    if n == 0 then []
    else
      var perm := SortIndices(vals, cm, n - 1);
      var p := InsertPosition(vals, cm, perm, n - 1, |perm|);
      InsertChoice(perm, p, n - 1);
      InsertAt(perm, p, n - 1)
  }

  function Pick(vals: seq<Seg>, perm: seq<nat>): (r: seq<Seg>)
    requires forall i :: 0 <= i < |perm| ==> perm[i] < |vals|
    ensures |r| == |perm| && forall i :: 0 <= i < |r| ==> r[i] == vals[perm[i]]
  {
    seq(|perm|, i requires 0 <= i < |perm| => vals[perm[i]])
  }

  /** Putting a value between neighbours it fits between keeps a list sorted. */
  lemma InsertSorted(s: seq<Seg>, x: Seg, p: nat, r: seq<Seg>, cm: ClusterMap)
    requires p <= |s| && InOrder(s, cm) && r == s[..p] + [x] + s[p..]
    requires p > 0 ==> !Less(x, s[p-1], cm)
    requires p < |s| ==> !Less(s[p], x, cm)
    ensures InOrder(r, cm)
    ensures multiset(r) == multiset(s) + multiset{x}
  {
    hide Less;
    assert s == s[..p] + s[p..];
    forall i | 0 <= i < |r| - 1
      ensures !Less(r[i+1], r[i], cm)
    {
      assert i + 1 < p ==> !Less(s[i+1], s[i], cm);
      assert i > p ==> !Less(s[i-1+1], s[i-1], cm);
    }
  }

  lemma PickInsert(vals: seq<Seg>, perm: seq<nat>, p: nat, x: nat)
    requires x < |vals| && p <= |perm| && forall i :: 0 <= i < |perm| ==> perm[i] < |vals|
    ensures forall i :: 0 <= i < |InsertAt(perm, p, x)| ==> InsertAt(perm, p, x)[i] < |vals|
    ensures Pick(vals, InsertAt(perm, p, x)) == Pick(vals, perm)[..p] + [vals[x]] + Pick(vals, perm)[p..]
  {
  }

  /** The result is a permutation, and no two neighbours are the wrong way round. */
  lemma {:induction false} SortIndicesSorts(vals: seq<Seg>, cm: ClusterMap, n: nat)
    requires n <= |vals|
    ensures InOrder(Pick(vals, SortIndices(vals, cm, n)), cm)
    ensures multiset(Pick(vals, SortIndices(vals, cm, n))) == multiset(vals[..n])
  {
    hide Less, InOrder, InsertAt, InsertPosition, Pick;
    if n == 0 {
      InOrderNone(Pick(vals, []), cm);
    } else {
      SortIndicesSorts(vals, cm, n - 1);
      var perm, x := SortIndices(vals, cm, n - 1), vals[n-1];
      var p := InsertPosition(vals, cm, perm, n - 1, |perm|);
      if p < n - 1 { LessAsymmetric(x, Pick(vals, perm)[p], cm); }
      PickInsert(vals, perm, p, n - 1);
      InsertSorted(Pick(vals, perm), x, p, Pick(vals, InsertAt(perm, p, n - 1)), cm);
      PrefixElements(vals, n);
    }
  }

  lemma PrefixElements(vals: seq<Seg>, n: nat)
    requires 0 < n <= |vals|
    ensures multiset(vals[..n]) == multiset(vals[..n-1]) + multiset{vals[n-1]}
  {
    assert vals[..n] == vals[..n-1] + [vals[n-1]];
  }

  lemma InOrderNone(s: seq<Seg>, cm: ClusterMap)
    requires s == []
    ensures InOrder(s, cm)
  {
  }

  /** What AddSegments may be given: one symmetric candidate, or any number of comparable ones. */
  ghost predicate Candidates(s: seq<Seg>, src: Hop) {
    && (forall c <- s :: c.src == src)
    && (|s| != 1 ==> forall c <- s :: !c.kind.DstSym?)
  }

  /** Neighbours in order are enough: the comparator puts every candidate that does not reach below every one
      that does. */
  lemma InOrderSorted(s: seq<Seg>, src: Hop, cm: ClusterMap)
    requires Candidates(s, src) && InOrder(s, cm)
    ensures Sorted(s, cm)
  {
    hide Reaches;
    forall i | 0 <= i < |s| - 1
      ensures if Reaches(s[i], cm) then Reaches(s[i+1], cm) else Reaches(s[i+1], cm) || !Less(s[i+1], s[i], cm)
    {
      assert s[i] in s && s[i+1] in s;
      LessIsBelow(s[i+1], s[i], cm);
    }
  }

  /** In sorted order nothing that does not reach comes after something that does. */
  lemma {:induction false} ReachingOnTop(s: seq<Seg>, src: Hop, cm: ClusterMap, i: nat, j: nat)
    requires Candidates(s, src) && Sorted(s, cm)
    requires i <= j < |s|
    requires Reaches(s[i], cm)
    ensures Reaches(s[j], cm)
    decreases j - i
  {
    if i < j {
      ReachingOnTop(s, src, cm, i, j - 1);
      assert Reaches(s[j-1+1], cm);
    }
  }

  /** No more hops of `a` answered than of `b`; if as many, its last hop is no greater. */
  ghost predicate NoBetter(a: Seg, b: Seg) {
    var x, y := |a.hops| - multiset(a.hops)[ZERO], |b.hops| - multiset(b.hops)[ZERO];
    x < y || (x == y && Compare(LastOf(a.hops).name, LastOf(b.hops).name) <= 0)
  }

  lemma NoBetterTransitive(a: Seg, b: Seg, c: Seg)
    requires NoBetter(a, b) && NoBetter(b, c)
    ensures NoBetter(a, c)
  {
    var x, y, z := LastOf(a.hops).name, LastOf(b.hops).name, LastOf(c.hops).name;
    CompareAntisymmetric(x, y);
    CompareAntisymmetric(y, z);
    if Compare(x, y) < 0 && Compare(y, z) < 0 {
      CompareTransitive(x, y, z);
    }
  }

  /** Of candidates that do not reach, each in sorted order is no better than those after it. */
  lemma {:induction false} BetterOnTop(s: seq<Seg>, src: Hop, cm: ClusterMap, i: nat, j: nat)
    requires Candidates(s, src) && Sorted(s, cm)
    requires i <= j < |s| && !Reaches(s[j], cm)
    ensures !Reaches(s[i], cm) && NoBetter(s[i], s[j])
    decreases j - i
  {
    hide Reaches, NoBetter;
    if i == j {
      NoBetterItself(s[i]);
    } else {
      assert !Reaches(s[i], cm) by {
        if Reaches(s[i], cm) {
          ReachingOnTop(s, src, cm, i, j);
        }
      }
      assert !Reaches(s[i+1], cm) by {
        if Reaches(s[i+1], cm) {
          ReachingOnTop(s, src, cm, i + 1, j);
        }
      }
      assert s[i] in s && s[i+1] in s;
      NotLess(s[i], s[i+1], cm);
      BetterOnTop(s, src, cm, i + 1, j);
      NoBetterTransitive(s[i], s[i+1], s[j]);
    }
  }

  lemma NoBetterItself(a: Seg)
    ensures NoBetter(a, a)
  {
    CompareAntisymmetric(LastOf(a.hops).name, LastOf(a.hops).name);
  }

  lemma NotLess(a: Seg, b: Seg, cm: ClusterMap)
    requires Comparable(a, b) && !Reaches(a, cm) && !Reaches(b, cm) && !Less(b, a, cm)
    ensures NoBetter(a, b)
  {
    LessIsBelow(b, a, cm);
    NonNullCounts(a.hops);
    NonNullCounts(b.hops);
    CompareAntisymmetric(LastOf(a.hops).name, LastOf(b.hops).name);
  }

  // ----- loop removal -----

  /** The nonzero hops of a segment that the path below already holds. */
  function Shared(seg: seq<Hop>, toDel: seq<Hop>): set<Hop> {
    set h | h in seg && h in toDel && h != ZERO
  }

  predicate Loopy(h: Hop, shared: set<Hop>, cm: ClusterMap) {
    exists c :: c in shared && cm(c) == cm(h)
  }

  /** The position after the last loopy hop among the first `n`. */
  function CutAt(seg: seq<Hop>, shared: set<Hop>, cm: ClusterMap, n: nat): (r: nat)
    requires n <= |seg|
    ensures r <= n
    ensures r > 0 ==> Loopy(seg[r-1], shared, cm)
    ensures forall k :: r <= k < n ==> !Loopy(seg[k], shared, cm)
  {
    if n == 0 then 0
    else if Loopy(seg[n-1], shared, cm) then n
    else CutAt(seg, shared, cm, n - 1)
  }

  /** What RemoveHops leaves of a segment. */
  function Kept(seg: seq<Hop>, toDel: seq<Hop>, cm: ClusterMap): seq<Hop> {
    seg[CutAt(seg, Shared(seg, toDel), cm, |seg|)..]
  }

  lemma KeptFrom(seg: seq<Hop>, toDel: seq<Hop>, cm: ClusterMap)
    ensures Kept(seg, toDel, cm) == seg[CutAt(seg, Shared(seg, toDel), cm, |seg|)..]
  {
  }

  /** What makes RemoveHops report an error. */
  predicate StillLoops(kept: seq<Hop>, toDel: seq<Hop>) {
    exists h :: h in kept && h in toDel
  }

  /** A suffix starting at `j` survives loop removal iff no hop of it is in the cluster of an answering hop that
      segment and path have in common; what is kept is the longest such suffix. */
  lemma KeptLongest(seg: seq<Hop>, toDel: seq<Hop>, cm: ClusterMap, j: nat)
    requires j <= |seg|
    ensures (forall h, c :: h in seg[j..] && c in seg && c in toDel && c != ZERO ==> cm(c) != cm(h))
            <==> |seg[j..]| <= |Kept(seg, toDel, cm)|
  {
    KeptNotLoopy(seg, toDel, cm, j);
    var shared := Shared(seg, toDel);
    hide Kept, Shared;
    if forall h <- seg[j..] :: !Loopy(h, shared, cm) {
      assert forall h, c :: h in seg[j..] && c in shared ==> cm(c) != cm(h);
    }
    SharedIs(seg, toDel);
  }

  lemma SharedIs(seg: seq<Hop>, toDel: seq<Hop>)
    ensures forall c :: c in Shared(seg, toDel) <==> c in seg && c in toDel && c != ZERO
  {
  }

  lemma KeptNotLoopy(seg: seq<Hop>, toDel: seq<Hop>, cm: ClusterMap, j: nat)
    requires j <= |seg|
    ensures (forall h <- seg[j..] :: !Loopy(h, Shared(seg, toDel), cm))
            <==> |seg[j..]| <= |Kept(seg, toDel, cm)|
  {
    var r := CutAt(seg, Shared(seg, toDel), cm, |seg|);
    if j < r {
      assert seg[r-1] == seg[j..][r-1-j] && seg[r-1] in seg[j..];
    } else {
      forall h | h in seg[j..]
        ensures !Loopy(h, Shared(seg, toDel), cm)
      {
        var k :| 0 <= k < |seg[j..]| && seg[j..][k] == h;
        assert h == seg[j + k];
      }
    }
  }

  lemma KeptSuffix(seg: seq<Hop>, toDel: seq<Hop>, cm: ClusterMap)
    ensures var kept := Kept(seg, toDel, cm);
            && |kept| <= |seg| && kept == seg[|seg| - |kept|..]
            && (kept != [] ==> LastOf(kept) == LastOf(seg))
            && (forall h <- kept :: h in seg)
  {
  }

  /** What is kept meets the path at most in the silent address, so an error is reported exactly
      when the silent address is on both sides. */
  lemma KeptDisjoint(seg: seq<Hop>, toDel: seq<Hop>, cm: ClusterMap)
    ensures forall h <- Kept(seg, toDel, cm) :: h in toDel ==> h == ZERO
    ensures StillLoops(Kept(seg, toDel, cm), toDel)
            <==> ZERO in Kept(seg, toDel, cm) && ZERO in toDel
  {
    var shared := Shared(seg, toDel);
    var r := CutAt(seg, shared, cm, |seg|);
    forall h | h in Kept(seg, toDel, cm) && h in toDel
      ensures h == ZERO
    {
      assert h in shared ==> Loopy(h, shared, cm);
    }
  }

  // ----- assuming symmetry -----

  function Reverse(s: seq<Hop>): (r: seq<Hop>)
    ensures |r| == |s|
    ensures forall k :: 0 <= k < |s| ==> r[k] == s[|s| - 1 - k]
  {
    if s == [] then [] else Reverse(s[1..]) + [s[0]]
  }

  /** The forward traceroute turned round, with its own end left out and the source added. */
  function Backwards(src: Hop, tr: seq<Hop>): (r: seq<Hop>)
    requires |tr| > 0
    ensures |r| == |tr| && r[|r| - 1] == src
    ensures forall h <- r :: h == src || h in tr
  {
    var r := Reverse([src] + tr[..|tr| - 1]);
    assert forall h <- r :: h == src || h in tr by {
      forall h | h in r
        ensures h == src || h in tr
      {
        var k :| 0 <= k < |r| && r[k] == h;
        assert h == ([src] + tr[..|tr| - 1])[|r| - 1 - k];
      }
    }
    r
  }

  lemma BackwardsAt(src: Hop, tr: seq<Hop>, k: nat)
    requires k + 1 < |tr|
    ensures Backwards(src, tr)[k] == tr[|tr| - 2 - k]
  {
    var there := [src] + tr[..|tr| - 1];
    assert Reverse(there)[k] == there[|there| - 1 - k];
  }

  predicate Eligible(h: Hop, ignore: set<Hop>) {
    h != ZERO && h !in ignore
  }

  function Count(s: seq<Hop>, ignore: set<Hop>): (r: nat)
    ensures r <= |s|
  {
    if s == [] then 0
    else Count(s[..|s| - 1], ignore) + (if Eligible(s[|s| - 1], ignore) then 1 else 0)
  }

  /** The hops counted are those that answered and are not to be ignored. */
  lemma {:induction false} CountExactly(s: seq<Hop>, ignore: set<Hop>)
    ensures Count(s, ignore) == |set k | 0 <= k < |s| && s[k] != ZERO && s[k] !in ignore|
  {
    var all := set k | 0 <= k < |s| && s[k] != ZERO && s[k] !in ignore;
    if s == [] {
      assert all == {};
    } else {
      var n, front := |s| - 1, s[..|s| - 1];
      CountExactly(front, ignore);
      var less := set k | 0 <= k < |front| && front[k] != ZERO && front[k] !in ignore;
      hide Count;
      assert n !in less;
      if s[n] != ZERO && s[n] !in ignore {
        assert all == less + {n};
      } else {
        assert all == less;
      }
    }
  }

  lemma {:induction false} CountMonotone(s: seq<Hop>, ignore: set<Hop>, i: nat)
    requires i <= |s|
    ensures Count(s[..i], ignore) <= Count(s, ignore)
    decreases |s|
  {
    if i == |s| {
      assert s[..i] == s;
    } else {
      CountMonotone(s[..|s| - 1], ignore, i);
      assert s[..|s| - 1][..i] == s[..i];
    }
  }

  /** What ndsrsSelectNonzeroHops promises: the shortest prefix with `n` eligible hops, or, when there
      are not that many, the whole list up to its last answering hop. */
  ghost predicate IsSelection(rev: seq<Hop>, n: nat, ignore: set<Hop>, r: seq<Hop>) {
    && r <= rev
    && if n <= Count(rev, ignore)
       then Count(r, ignore) == n && (n > 0 ==> r != [] && Eligible(r[|r| - 1], ignore)) && (n == 0 ==> r == [])
       else r != [] && r[|r| - 1] != ZERO && forall k :: |r| <= k < |rev| ==> rev[k] == ZERO
  }

  /** The promise leaves no choice. */
  lemma SelectionUnique(rev: seq<Hop>, n: nat, ignore: set<Hop>, r: seq<Hop>, r': seq<Hop>)
    requires IsSelection(rev, n, ignore, r) && IsSelection(rev, n, ignore, r')
    ensures r == r'
  {
    assert r == rev[..|r|] && r' == rev[..|r'|];
    if |r| < |r'| {
      SelectionNotShorter(rev, n, ignore, r, r');
    } else if |r'| < |r| {
      SelectionNotShorter(rev, n, ignore, r', r);
    }
  }

  lemma SelectionNotShorter(rev: seq<Hop>, n: nat, ignore: set<Hop>, r: seq<Hop>, r': seq<Hop>)
    requires IsSelection(rev, n, ignore, r) && IsSelection(rev, n, ignore, r')
    ensures |r| >= |r'|
  {
    assert r == rev[..|r|] && r' == rev[..|r'|];
    if n <= Count(rev, ignore) && |r| < |r'| {
      assert r'[..|r'| - 1][..|r|] == r;
      CountMonotone(r'[..|r'| - 1], ignore, |r|);
    }
  }

  /** The caller must leave the scan something to stop at; the program indexes out of range otherwise. */
  ghost predicate Selectable(rev: seq<Hop>, n: nat, ignore: set<Hop>) {
    n <= Count(rev, ignore) || exists h :: h in rev && h != ZERO
  }

  method SelectNonzeroHops(tr: seq<Hop>, hops: nat, hopsToIgnore: set<Hop>) returns (r: seq<Hop>)
    requires Selectable(tr, hops, hopsToIgnore)
    ensures IsSelection(tr, hops, hopsToIgnore, r)
  {
    hide Eligible;
    var i, found := 0, 0;
    while found < hops && i < |tr|
      invariant 0 <= i <= |tr| && found <= hops
      invariant found == Count(tr[..i], hopsToIgnore)
      invariant found == hops > 0 ==> i > 0 && Eligible(tr[i-1], hopsToIgnore)
      invariant hops == 0 ==> i == 0
    {
      assert tr[..i+1][..i] == tr[..i];
      if Eligible(tr[i], hopsToIgnore) {
        found := found + 1;
      }
      i := i + 1;
    }
    CountMonotone(tr, hopsToIgnore, i);
    if found == hops {
      return tr[..i];
    }
    assert tr[..i] == tr;
    var lastValidHop := |tr| - 1;
    while tr[lastValidHop] == ZERO
      invariant 0 <= lastValidHop < |tr|
      invariant forall k :: lastValidHop < k < |tr| ==> tr[k] == ZERO
      invariant exists k :: 0 <= k <= lastValidHop && tr[k] != ZERO
      decreases lastValidHop
    {
      lastValidHop := lastValidHop - 1;
    }
    return tr[..lastValidHop + 1];
  }

  /** The selection as a value: the segment a symmetric step assumes. */
  function Select(rev: seq<Hop>, n: nat, ignore: set<Hop>): (r: seq<Hop>)
    requires Selectable(rev, n, ignore)
    ensures IsSelection(rev, n, ignore, r)
  {
    if n <= Count(rev, ignore) then SelectEnough(rev, n, ignore) else StripSilent(rev)
  }

  function SelectEnough(rev: seq<Hop>, n: nat, ignore: set<Hop>): (r: seq<Hop>)
    requires n <= Count(rev, ignore)
    ensures IsSelection(rev, n, ignore, r)
  {
    if n == 0 then []
    else if n <= Count(rev[..|rev| - 1], ignore) then SelectEnough(rev[..|rev| - 1], n, ignore)
    else rev
  }

  function StripSilent(rev: seq<Hop>): (r: seq<Hop>)
    requires exists h :: h in rev && h != ZERO
    ensures r <= rev && r != [] && r[|r| - 1] != ZERO
    ensures forall k :: |r| <= k < |rev| ==> rev[k] == ZERO
  {
    assert rev == rev[..|rev| - 1] + [rev[|rev| - 1]];
    if rev[|rev| - 1] != ZERO then rev else StripSilent(rev[..|rev| - 1])
  }
}
