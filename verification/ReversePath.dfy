/** Segments and paths as the program holds them: objects whose hops are windows of shared arrays. */
module ReversePath {
  import opened Hops
  import opened Segments
  import opened Search

  /** A segment. Its hops are the `len` entries of `buf` from `lo` on; several segments may look at the
      same array. */
  class RevSegment {
    var kind: Kind
    const src: Hop
    var buf: array<Hop>
    var lo: nat
    var len: nat

    ghost predicate Valid()
      reads this
    {
      lo + len <= buf.Length
    }

    function Hops(): (hops: seq<Hop>)
      requires Valid()
      reads this, buf
      ensures |hops| == len
    {
      buf[lo..lo + len]
    }

    function View(): (s: Seg)
      requires Valid()
      reads this, buf
    {
      Seg(kind, Hops(), src)
    }

    constructor (kind: Kind, buf: array<Hop>, lo: nat, len: nat, src: Hop)
      requires lo + len <= buf.Length
      ensures Valid() && this.kind == kind && this.buf == buf && this.lo == lo && this.len == len && this.src == src
    {
      this.kind, this.buf, this.lo, this.len, this.src := kind, buf, lo, len, src;
    }

    /** A deep copy: the copy has an array of its own. */
    method Clone() returns (r: RevSegment)
      requires Valid()
      ensures fresh(r) && fresh(r.buf) && r.Valid() && r.View() == CloneSeg(View())
    {
      var copy := new Hop[len](i requires 0 <= i < len && Valid() reads this, buf => buf[lo + i]);
      assert copy[..] == Hops();
      r := new RevSegment(CloneKind(kind), copy, 0, len, src);
    }

    /** Deletes the hop at `idx` by shifting the later ones down in the shared array. */
    method RemoveAt(idx: nat)
      requires Valid() && idx < len
      modifies this`len, buf
      ensures Valid() && lo == old(lo)
      ensures Hops() == old(Hops())[..idx] + old(Hops())[idx + 1..]
    {
      hide View;
      ghost var before := Hops();
      ShiftDown(buf, lo + idx, lo + len);
      len := len - 1;
      OneLess(before, idx, Hops());
    }

    /** Cuts the segment, by moving its window, after the last hop sharing a cluster with a hop it has
        in common with `toDel`. */
    method RemoveHops(toDel: seq<Hop>, cm: ClusterMap) returns (err: bool)
      requires Valid()
      modifies this`lo, this`len
      ensures Valid()
      ensures View() == old(View()).(hops := Kept(old(Hops()), toDel, cm))
      ensures err <==> StillLoops(Hops(), toDel)
    {
      hide StillLoops, Kept;
      var cut := LoopEnd(Hops(), toDel, cm);
      lo, len := lo + cut, len - cut;
      assert Hops() == old(Hops())[cut..];
      err := StillShares(Hops(), toDel);
    }

    /** Assumes one more hop of the forward traceroute, starting over from its end. */
    method AddHop(hopsToIgnore: set<Hop>)
      requires Valid() && Growable(View())
      modifies this
      ensures Valid() && fresh(buf) && View() == GrowSeg(old(View()), hopsToIgnore)
    {
      hide GrowSeg, IsSelection, Select, Backwards, Count;
      ghost var view := View();
      GrowSelectable(view, hopsToIgnore);
      var n := kind.numHops + 1;
      var chosen := SelectNonzeroHops(Backwards(src, kind.tr), n, hopsToIgnore);
      GrownBy(view, hopsToIgnore, chosen);
      kind := DstSym(kind.tr, n);
      buf := ArrayOf(chosen);
      lo, len := 0, |chosen|;
      assert Hops() == chosen;
    }
  }

  lemma GrowSelectable(s: Seg, ignore: set<Hop>)
    requires Growable(s)
    ensures Selectable(Backwards(s.src, s.kind.tr), s.kind.numHops + 1, ignore)
  {
    var rev := Backwards(s.src, s.kind.tr);
    assert rev[|rev| - 1] in rev;
  }

  lemma GrownBy(s: Seg, ignore: set<Hop>, chosen: seq<Hop>)
    requires Growable(s) && IsSelection(Backwards(s.src, s.kind.tr), s.kind.numHops + 1, ignore, chosen)
    ensures GrowSeg(s, ignore) == Seg(DstSym(s.kind.tr, s.kind.numHops + 1), chosen, s.src)
  {
    hide IsSelection, Select;
    GrowSelectable(s, ignore);
    var rev, n := Backwards(s.src, s.kind.tr), s.kind.numHops + 1;
    SelectionUnique(rev, n, ignore, chosen, Select(rev, n, ignore));
  }

  method ArrayOf(hops: seq<Hop>) returns (buf: array<Hop>)
    ensures fresh(buf) && buf[..] == hops
  {
    buf := new Hop[|hops|](i requires 0 <= i < |hops| => hops[i]);
  }

  /** Moves the entries between the bounds down by one, over the first, and clears the last. */
  method ShiftDown(buf: array<Hop>, from: nat, to: nat)
    requires from < to <= buf.Length
    modifies buf
    ensures forall k :: from <= k < to - 1 ==> buf[k] == old(buf[k + 1])
    ensures forall k :: 0 <= k < from || to <= k < buf.Length ==> buf[k] == old(buf[k])
  {
    forall i | from <= i < to - 1 {
      buf[i] := buf[i + 1];
    }
    buf[to - 1] := NONE;
  }

  lemma OneLess(before: seq<Hop>, idx: nat, after: seq<Hop>)
    requires idx < |before| && |before| == |after| + 1
    requires forall k :: 0 <= k < idx ==> after[k] == before[k]
    requires forall k :: idx <= k < |after| ==> after[k] == before[k + 1]
    ensures after == before[..idx] + before[idx + 1..]
  {
  }

  /** The last position whose hop shares a cluster with `h`, or -1. */
  method RIndex(ss: seq<Hop>, h: Hop, cm: ClusterMap) returns (index: int)
    ensures -1 <= index < |ss|
    ensures index >= 0 ==> cm(h) == cm(ss[index])
    ensures forall k :: 0 <= k < |ss| && cm(h) == cm(ss[k]) ==> k <= index
  {
    index := -1;
    for i := 0 to |ss|
      invariant -1 <= index < i
      invariant index >= 0 ==> cm(h) == cm(ss[index])
      invariant forall k :: 0 <= k < i && cm(h) == cm(ss[k]) ==> k <= index
    {
      if cm(h) == cm(ss[i]) {
        index := i;
      }
    }
  }

  /** The answering hops that a segment shares with a path. */
  method Common(hops: seq<Hop>, toDel: seq<Hop>) returns (common: seq<Hop>)
    ensures SetOf(common) == Shared(hops, toDel)
  {
    var noZeros := [];
    for i := 0 to |toDel|
      invariant forall h :: h in noZeros <==> h in toDel[..i] && h != ZERO
    {
      if toDel[i] != ZERO {
        noZeros := noZeros + [toDel[i]];
      }
    }
    assert toDel[..|toDel|] == toDel;
    common := Union(hops, noZeros);
  }

  /** The position after the last hop in a cluster of a shared one. */
  method LoopEnd(hops: seq<Hop>, toDel: seq<Hop>, cm: ClusterMap) returns (cut: nat)
    ensures cut <= |hops| && hops[cut..] == Kept(hops, toDel, cm)
  {
    hide Shared, Kept, CutAt;
    KeptFrom(hops, toDel, cm);
    var common := Common(hops, toDel);
    var maxIndex := -1;
    if |common| > 0 {
      maxIndex := LastShared(hops, common, cm);
    } else {
      NothingShared(hops, cm);
    }
    cut := maxIndex + 1;
  }

  method StillShares(kept: seq<Hop>, toDel: seq<Hop>) returns (err: bool)
    ensures err <==> StillLoops(kept, toDel)
  {
    hide StillLoops;
    var common := Union(kept, toDel);
    err := |common| > 0;
    Remaining(kept, toDel, common);
  }

  lemma {:induction false} NothingShared(hops: seq<Hop>, cm: ClusterMap)
    ensures CutAt(hops, {}, cm, |hops|) == 0
  {
  }

  lemma Remaining(kept: seq<Hop>, toDel: seq<Hop>, common: seq<Hop>)
    requires forall h :: h in common <==> h in kept && h in toDel
    ensures StillLoops(kept, toDel) <==> |common| > 0
  {
    if |common| > 0 {
      assert common[0] in common;
    }
  }

  /** The last position of a hop sharing a cluster with one of `common`, or -1. */
  method LastShared(hops: seq<Hop>, common: seq<Hop>, cm: ClusterMap) returns (maxIndex: int)
    ensures maxIndex + 1 == CutAt(hops, SetOf(common), cm, |hops|)
  {
    maxIndex := -1;
    for i := 0 to |common|
      invariant -1 <= maxIndex < |hops|
      invariant maxIndex >= 0 ==> Loopy(hops[maxIndex], SetOf(common), cm)
      invariant forall k, c :: maxIndex < k < |hops| && 0 <= c < i ==> cm(common[c]) != cm(hops[k])
    {
      var tmp := RIndex(hops, common[i], cm);
      if tmp > maxIndex {
        maxIndex := tmp;
      }
    }
    assert forall k :: maxIndex < k < |hops| ==> !Loopy(hops[k], SetOf(common), cm);
  }

  /** The hops of longer and longer parts of a path. */
  lemma HopsOfPrefixes(p: Path, i: nat)
    requires i <= |p|
    ensures i == 0 ==> HopsOf(p[..i]) == []
    ensures i == |p| ==> HopsOf(p[..i]) == HopsOf(p)
    ensures i < |p| ==> HopsOf(p[..i+1]) == HopsOf(p[..i]) + p[i].hops
  {
    if i == |p| {
      assert p[..i] == p;
    } else {
      assert p[..i+1][..i] == p[..i];
    }
  }

  class ReversePath {
    var segs: seq<RevSegment>

    ghost predicate Valid()
      reads this, segs
    {
      forall i :: 0 <= i < |segs| ==> segs[i].Valid()
    }

    ghost function Bufs(): set<array<Hop>>
      reads this, segs
    {
      set i | 0 <= i < |segs| :: segs[i].buf
    }

    ghost function View(): (p: Path)
      requires Valid()
      reads this, segs, Bufs()
      ensures |p| == |segs|
    {
      seq(|segs|, i requires 0 <= i < |segs| && Valid() reads this, segs, Bufs() => segs[i].View())
    }

    constructor (segs: seq<RevSegment>)
      ensures this.segs == segs
    {
      this.segs := segs;
    }

    /** A deep copy: no segment and no array is shared, with the original or within the copy. */
    method Clone() returns (r: ReversePath)
      requires Valid()
      ensures fresh(r) && r.Valid() && r.View() == ClonePath(View())
      ensures Private(r)
      ensures forall i :: 0 <= i < |r.segs| ==> fresh(r.segs[i]) && fresh(r.segs[i].buf)
    {
      hide CloneSeg;
      ghost var view := View();
      var copies := CloneSegs();
      r := new ReversePath(copies);
      assert r.View() == ClonePath(view);
    }

    method CloneSegs() returns (copies: seq<RevSegment>)
      requires Valid()
      ensures View() == old(View()) && |copies| == |segs|
      ensures forall k :: 0 <= k < |copies| ==> fresh(copies[k]) && fresh(copies[k].buf) && copies[k].Valid()
      ensures forall k :: 0 <= k < |copies| ==> copies[k].View() == CloneSeg(View()[k])
      ensures forall k, l :: 0 <= k < l < |copies| ==> copies[k] != copies[l] && copies[k].buf != copies[l].buf
    {
      hide CloneSeg;
      copies := [];
      ghost var view := View();
      for i := 0 to |segs|
        invariant |copies| == i
        invariant forall k :: 0 <= k < i ==> fresh(copies[k]) && fresh(copies[k].buf) && copies[k].Valid()
        invariant forall k :: 0 <= k < i ==> copies[k].View() == CloneSeg(view[k])
        invariant forall k, l :: 0 <= k < l < i ==> copies[k] != copies[l] && copies[k].buf != copies[l].buf
      {
        var s := segs[i].Clone();
        copies := copies + [s];
      }
    }

    /** All hops, segment by segment. */
    method Hops() returns (hops: seq<Hop>)
      requires Valid()
      ensures hops == HopsOf(View())
    {
      hide HopsOf;
      ghost var view := View();
      hops := [];
      HopsOfPrefixes(view, 0);
      for i := 0 to |segs|
        invariant hops == HopsOf(view[..i])
      {
        assert view[i] == segs[i].View();
        HopsOfPrefixes(view, i);
        hops := hops + segs[i].Hops();
      }
      HopsOfPrefixes(view, |segs|);
      assert View() == view;
    }

    /** len(Hops()), counted over the first `n` segments. */
    function HopCount(n: nat): (c: nat)
      requires Valid() && n <= |segs|
      reads this, segs, Bufs()
      ensures c == |HopsOf(View()[..n])|
    {
      if n == 0 then 0
      else
        assert View()[..n][..n-1] == View()[..n-1] && View()[..n][n-1] == segs[n-1].View();
        HopCount(n - 1) + segs[n-1].len
    }

    function LastSeg(): RevSegment
      requires segs != []
      reads this
    {
      segs[|segs| - 1]
    }

    function LastHop(): (h: Hop)
      requires Valid() && segs != []
      reads this, segs, Bufs()
      ensures h == Search.LastHop(View())
    {
      assert View()[|segs| - 1] == LastSeg().View();
      LastOf(LastSeg().Hops())
    }

    method Pop()
      requires Valid() && segs != []
      modifies this
      ensures Valid() && segs == old(segs)[..|old(segs)| - 1]
      ensures View() == old(View())[..|old(View())| - 1]
    {
      segs := segs[..|segs| - 1];
    }

    method Add(s: RevSegment)
      requires Valid() && s.Valid()
      modifies this
      ensures Valid() && segs == old(segs) + [s]
      ensures View() == old(View()) + [s.View()]
    {
      segs := segs + [s];
    }
  }

  /** A copy of `p` with `s` in place of its last segment. */
  method CopyReplacing(p: ReversePath, s: RevSegment) returns (r: ReversePath)
    requires p.Valid() && p.segs != [] && s.Valid()
    ensures fresh(r) && r.Valid() && r.View() == ReplaceLast(p.View(), s.View())
    ensures r.segs != [] && r.segs[|r.segs| - 1] == s
    ensures forall i :: 0 <= i < |r.segs| - 1 ==> fresh(r.segs[i]) && fresh(r.segs[i].buf)
  {
    hide ClonePath, Private, RevSegment.View;
    ghost var v, pv := s.View(), p.View();
    r := p.Clone();
    r.Pop();
    r.Add(s);
    assert s.View() == v && p.View() == pv;
  }

  /** A copy of `p` with `s` on top. */
  method CopyAdding(p: ReversePath, s: RevSegment) returns (r: ReversePath)
    requires p.Valid() && s.Valid()
    ensures fresh(r) && r.Valid() && r.View() == ClonePath(p.View()) + [s.View()]
    ensures r.segs != [] && r.segs[|r.segs| - 1] == s
    ensures forall i :: 0 <= i < |r.segs| - 1 ==> fresh(r.segs[i]) && fresh(r.segs[i].buf)
  {
    hide ClonePath, Private, RevSegment.View;
    ghost var v, pv := s.View(), p.View();
    r := p.Clone();
    r.Add(s);
    assert s.View() == v && p.View() == pv;
  }

  /** No two segments of the path are the same object or look at the same array. */
  ghost predicate Private(p: ReversePath)
    reads p, p.segs
  {
    forall i, j :: 0 <= i < j < |p.segs| ==> p.segs[i] != p.segs[j] && p.segs[i].buf != p.segs[j].buf
  }
}
