/** AddBackgroundTRSegment on the stack of objects: the cutting loops, the splice, and its undoing. */
module Background {
  import opened Hops
  import opened Segments
  import opened Search
  import opened Trim
  import opened ReversePath

  lemma RemovedOne(hops: seq<Hop>, before: seq<Hop>, l: nat, gone: nat)
    requires l + gone < |hops| && |before| == |hops| - gone
    requires before == if gone == 0 then hops else hops[..l] + hops[l + gone..]
    ensures l < |before| && before[..l] + before[l + 1..] == hops[..l] + hops[l + gone + 1..]
  {
    assert before == hops[..l] + hops[l + gone..];
    assert before[..l] == hops[..l] && before[l + 1..] == hops[l + gone + 1..];
  }

  /** The inner loop: deletes the hop at `l` until `keep` hops are left. `ok` is false where the
      program indexes out of range. */
  method CutBack(seg: RevSegment, keep: nat, l: nat) returns (ok: bool)
    requires seg.Valid() && 0 < keep <= seg.len && l <= seg.len
    modifies seg`len, seg.buf
    ensures seg.Valid()
    ensures ok <==> old(seg.len) == keep || l <= keep
    ensures ok ==> seg.Hops() == if old(seg.len) == keep then old(seg.Hops())
                                 else old(seg.Hops())[..l] + old(seg.Hops())[l + old(seg.len) - keep..]
  {
    ghost var hops := seg.Hops();
    while seg.len > keep
      invariant seg.Valid() && keep <= seg.len <= |hops|
      invariant l <= seg.len
      invariant seg.Hops() == if |hops| == seg.len then hops else hops[..l] + hops[l + |hops| - seg.len..]
      decreases seg.len
    {
      if l == seg.len {
        return false;
      }
      RemovedOne(hops, seg.Hops(), l, |hops| - seg.len);
      seg.RemoveAt(l);
    }
    return true;
  }

  /** The inner loop on the segment at `j` of a private path touches no other segment. */
  method CutOnly(chunk: ReversePath, j: nat, seg: RevSegment, keep: nat, l: nat) returns (ok: bool)
    requires chunk.Valid() && Private(chunk) && j < |chunk.segs| && seg == chunk.segs[j]
    requires 0 < keep <= seg.len && l <= seg.len
    modifies seg`len, seg.buf
    ensures chunk.Valid() && Private(chunk)
    ensures chunk.View() == old(chunk.View())[j := seg.View()]
    ensures old(chunk.View())[j] == old(seg.View()) && seg.View() == old(seg.View()).(hops := seg.Hops())
    ensures ok <==> |old(seg.Hops())| == keep || l <= keep
    ensures ok ==> seg.Hops() == if |old(seg.Hops())| == keep then old(seg.Hops())
                                 else old(seg.Hops())[..l] + old(seg.Hops())[l + |old(seg.Hops())| - keep..]
  {
    hide RevSegment.Hops;
    ghost var v := chunk.View();
    ok := CutBack(seg, keep, l);
    assert forall i :: 0 <= i < |v| && i != j ==> chunk.segs[i].View() == v[i];
  }

  lemma CutIs(hops: seq<Hop>, keep: nat, first: Hop, l: nat)
    requires 0 < keep <= |hops| && l == FirstIndex(hops, first) + 1
    ensures CutFits(hops, keep, first) <==> |hops| == keep || l <= keep
    ensures CutFits(hops, keep, first) ==>
      l <= |hops|
        && CutSegment(hops, keep, first) == if |hops| == keep then hops else hops[..l] + hops[l + |hops| - keep..]
  {
  }

  method CutSegmentAt(chunk: ReversePath, j: nat, seg: RevSegment, keep: nat, first: Hop) returns (ok: bool)
    requires chunk.Valid() && Private(chunk) && j < |chunk.segs| && seg == chunk.segs[j]
    requires 0 < keep <= seg.len
    modifies seg`len, seg.buf
    ensures chunk.Valid() && Private(chunk) && chunk.segs == old(chunk.segs)
    ensures ok <==> CutFits(old(chunk.View())[j].hops, keep, first)
    ensures ok ==>
      chunk.View()
        == old(chunk.View())[j := old(chunk.View())[j].(hops := CutSegment(old(chunk.View())[j].hops, keep, first))]
  {
    hide FirstIndex, Private, CutFits, CutSegment, ReversePath.View;
    ghost var hops := seg.Hops();
    var l := FirstIndex(seg.Hops(), first) + 1;
    ok := CutOnly(chunk, j, seg, keep, l);
    CutIs(hops, keep, first, l);
  }

  /** One deletion of a whole segment. It stores nil over the slot `j` of the array, which the shortened
      slice still shows unless `j` was the last segment; the next look at the hops then panics. */
  method DeleteSegment(chunk: ReversePath, j: nat) returns (ok: bool)
    requires chunk.Valid() && j < |chunk.segs|
    modifies chunk
    ensures ok <==> j == |old(chunk.segs)| - 1
    ensures ok ==> chunk.Valid() && chunk.segs == old(chunk.segs)[..j] && chunk.View() == old(chunk.View())[..j]
  {
    ok := j == |chunk.segs| - 1;
    chunk.segs := chunk.segs[..j] + chunk.segs[j + 1..];
    assert ok ==> chunk.segs == old(chunk.segs)[..j];
  }

  /** Where the cut of `p` at `index` stands: before segment `t` it has changed nothing; after it, that
      segment is `cut`, and what lay above it is still there or, if it was one segment, gone. */
  ghost predicate Progress(view: Path, p: Path, t: nat, cut: Seg, j: nat, done: bool)
    requires t < |p|
  {
    if !done then view == p && j <= t
    else t <= j <= t + 1 && (view == p[..t] + [cut] + p[t+1..]
                             || (j == t + 1 && |p| == t + 2 && view == p[..t] + [cut]))
  }

  ghost function CutOf(p: Path, index: nat, first: Hop): Seg
    requires index < |HopsOf(p)|
  {
    var t := Locate(p, index);
    var keep := index - |HopsOf(p[..t])| + 1;
    if CutFits(p[t].hops, keep, first) then p[t].(hops := CutSegment(p[t].hops, keep, first)) else p[t]
  }

  lemma CountAround(a: Path, s: Seg, b: Path)
    ensures |HopsOf(a + [s] + b)| == |HopsOf(a)| + |s.hops| + |HopsOf(b)|
    ensures |HopsOf(a + [s])| == |HopsOf(a)| + |s.hops|
  {
    hide HopsOf;
    HopsOfOnTop(a, s);
    HopsOfAppend(a + [s], b);
  }

  lemma SplitAt(p: Path, t: nat)
    requires t < |p|
    ensures p == p[..t] + [p[t]] + p[t+1..]
  {
  }

  /** When no hop lies beyond the intersection any more, the path is what TrimPath says. */
  lemma CutFinished(view: Path, p: Path, index: nat, first: Hop, j: nat, done: bool)
    requires AllNonEmpty(p) && index < |HopsOf(p)|
    requires var t := Locate(p, index);
             var keep := index - |HopsOf(p[..t])| + 1;
             && Progress(view, p, t, CutOf(p, index, first), j, done)
             && (done ==> CutFits(p[t].hops, keep, first))
    requires |HopsOf(view)| <= index + 1
    ensures TrimPath(p, index, first) == Trimmed(view)
  {
    hide HopsOf, Locate, CutFits, CutSegment, FirstIndex, AllNonEmpty;
    var t := Locate(p, index);
    var keep := index - |HopsOf(p[..t])| + 1;
    SplitAt(p, t);
    CountAround(p[..t], p[t], p[t+1..]);
    TailNonEmpty(p, t);
    if !done {
      WholeFits(p[t].hops, keep, first);
    } else {
      CutLength(p[t].hops, keep, first);
      CountAround(p[..t], CutOf(p, index, first), p[t+1..]);
    }
  }

  lemma TailNonEmpty(p: Path, t: nat)
    requires AllNonEmpty(p) && t < |p|
    ensures |HopsOf(p[t+1..])| >= |p| - t - 1
  {
    HopsOfNonEmpty(p[t+1..]);
  }

  lemma WholeFits(hops: seq<Hop>, keep: nat, first: Hop)
    requires 0 < keep <= |hops|
    ensures |hops| == keep ==> CutFits(hops, keep, first) && CutSegment(hops, keep, first) == hops
  {
  }

  lemma CutLength(hops: seq<Hop>, keep: nat, first: Hop)
    requires 0 < keep <= |hops| && CutFits(hops, keep, first)
    ensures |CutSegment(hops, keep, first)| == keep
  {
  }

  /** The counters of the cutting loop: `k` hops lie below segment `j`. */
  ghost predicate CutState(view: Path, p: Path, index: nat, first: Hop, j: nat, k: nat, done: bool)
    requires index < |HopsOf(p)|
  {
    var t := Locate(p, index);
    var below := |HopsOf(p[..t])|;
    && Progress(view, p, t, CutOf(p, index, first), j, done)
    && (if done then CutFits(p[t].hops, index - below + 1, first) && k == (if j == t then below else index + 1)
        else k == |HopsOf(p[..j])|)
  }

  /** What the counters tell while hops beyond the intersection are left. */
  lemma CutBranches(view: Path, p: Path, index: nat, first: Hop, j: nat, k: nat, done: bool)
    requires AllNonEmpty(p) && index < |HopsOf(p)| && CutState(view, p, index, first, j, k, done)
    requires |HopsOf(view)| > index + 1
    ensures j < |view|
    ensures var t := Locate(p, index);
            var keep := index - |HopsOf(p[..t])| + 1;
            var len := |view[j].hops|;
            if k > index then
              done && j == t + 1 && k == index + 1 && view == p[..t] + [CutOf(p, index, first)] + p[t+1..]
            else if k + len - 1 > index then
              !done && j == t && view == p && k == |HopsOf(p[..t])| && keep < len
            else
              CutState(view, p, index, first, j + 1, k + len, done || j == t)
  {
    hide HopsOf, CutFits, CutSegment, FirstIndex, AllNonEmpty;
    var t := Locate(p, index);
    var keep := index - |HopsOf(p[..t])| + 1;
    SplitAt(p, t);
    if !done {
      HopsOfSplit(p, j);
      if j < t {
        HopsOfMonotone(p, j, t);
      } else {
        WholeFits(p[t].hops, keep, first);
      }
    } else {
      CutLength(p[t].hops, keep, first);
      CountAround(p[..t], CutOf(p, index, first), p[t+1..]);
      NoHops(p, t);
    }
  }

  lemma NoHops(p: Path, t: nat)
    requires t < |p| && |HopsOf(p[t+1..])| > 0
    ensures t + 1 < |p|
  {
  }

  /** Cutting segment `t`, and deleting the segment above it, are progress. */
  lemma CutProgress(p: Path, index: nat, first: Hop)
    requires index < |HopsOf(p)|
    requires var t := Locate(p, index); CutFits(p[t].hops, index - |HopsOf(p[..t])| + 1, first)
    ensures var t := Locate(p, index);
            && CutState(p[t := CutOf(p, index, first)], p, index, first, t, |HopsOf(p[..t])|, true)
            && (|p| == t + 2 ==>
                 var v := p[..t] + [CutOf(p, index, first)] + p[t+1..];
                 CutState(v[..t+1], p, index, first, t + 1, index + 1, true))
  {
    hide HopsOf, CutFits, CutSegment, FirstIndex, Locate;
    var t := Locate(p, index);
    var cut := CutOf(p, index, first);
    assert p[t := cut] == p[..t] + [cut] + p[t+1..];
    assert (p[..t] + [cut] + p[t+1..])[..t+1] == p[..t] + [cut];
  }

  /** One turn of the cutting loop. */
  method CutTurn(chunk: ReversePath, index: nat, first: Hop, j: nat, k: nat, ghost p: Path, ghost done: bool)
    returns (ok: bool, j': nat, k': nat, ghost done': bool)
    requires chunk.Valid() && Private(chunk) && AllNonEmpty(p) && index < |HopsOf(p)|
    requires CutState(chunk.View(), p, index, first, j, k, done)
    requires |HopsOf(chunk.View())| > index + 1
    modifies chunk, chunk.segs, chunk.Bufs()
    ensures ok ==> chunk.segs <= old(chunk.segs) && SameBufs(chunk, old(chunk.segs), old(BufsOf(chunk)))
    ensures !ok ==> TrimPath(p, index, first) == Panicked
    ensures ok ==> chunk.Valid() && Private(chunk) && CutState(chunk.View(), p, index, first, j', k', done')
    ensures ok ==> |chunk.segs| < |old(chunk.segs)|
                   || (|chunk.segs| == |old(chunk.segs)|
                       && (|HopsOf(chunk.View())| < |HopsOf(old(chunk.View()))|
                           || (|HopsOf(chunk.View())| == |HopsOf(old(chunk.View()))| && j < j' <= |chunk.segs|)))
  {
    hide HopsOf, Locate, CutFits, CutSegment, FirstIndex, CutState;
    j', k', done' := j, k, done;
    ghost var view := chunk.View();
    CutBranches(view, p, index, first, j, k, done);
    var seg := chunk.segs[j];
    assert view[j] == seg.View();
    hide ReversePath.View, RevSegment.Hops, AllNonEmpty;
    if k > index {
      CutDone(view, p, index, first, j, k);
      ok := DeleteSegment(chunk, j);
      if ok {
        CutProgress(p, index, first);
      }
    } else if k + seg.len - 1 > index {
      ok := CutSegmentAt(chunk, j, seg, index - k + 1, first);
      if ok {
        CutProgress(p, index, first);
        CutLength(p[j].hops, index - k + 1, first);
        CutShorter(p, j, chunk.View()[j]);
        done' := true;
      }
    } else {
      done' := done || j == Locate(p, index);
      ok, j', k' := true, j + 1, k + seg.len;
    }
  }

  /** Every segment left looks at the array it had. */
  ghost predicate SameBufs(chunk: ReversePath, segs: seq<RevSegment>, bufs: seq<array<Hop>>)
    reads chunk, chunk.segs
  {
    |bufs| == |segs| && chunk.segs <= segs && forall i :: 0 <= i < |chunk.segs| ==> chunk.segs[i].buf == bufs[i]
  }

  ghost function BufsOf(chunk: ReversePath): seq<array<Hop>>
    reads chunk, chunk.segs
  {
    seq(|chunk.segs|, i requires 0 <= i < |chunk.segs| reads chunk, chunk.segs => chunk.segs[i].buf)
  }

  lemma CutShorter(p: Path, j: nat, s: Seg)
    requires j < |p| && |s.hops| < |p[j].hops|
    ensures |HopsOf(p[j := s])| < |HopsOf(p)|
  {
    hide HopsOf;
    SplitAt(p, j);
    assert p[j := s] == p[..j] + [s] + p[j+1..];
    CountAround(p[..j], p[j], p[j+1..]);
    CountAround(p[..j], s, p[j+1..]);
  }

  /** The cutting loop on a private copy of a path. `ok` is false where the program panics. */
  method CutPath(chunk: ReversePath, index: nat, first: Hop) returns (ok: bool)
    requires chunk.Valid() && Private(chunk)
    requires AllNonEmpty(chunk.View()) && index < |HopsOf(chunk.View())|
    modifies chunk, chunk.segs, chunk.Bufs()
    ensures chunk.segs <= old(chunk.segs) || !ok
    ensures ok ==> chunk.Valid() && TrimPath(old(chunk.View()), index, first) == Trimmed(chunk.View())
    ensures !ok ==> TrimPath(old(chunk.View()), index, first) == Panicked
  {
    hide HopsOf, CutState, TrimPath, Private;
    ghost var p, done := chunk.View(), false;
    var j: nat, k: nat := 0, 0;
    CutBegins(p, index, first);
    while chunk.HopCount(|chunk.segs|) > index + 1
      invariant chunk.Valid() && Private(chunk)
      invariant SameBufs(chunk, old(chunk.segs), old(BufsOf(chunk)))
      invariant CutState(chunk.View(), p, index, first, j, k, done)
      decreases |chunk.segs|, |HopsOf(chunk.View())|, |chunk.segs| - j
    {
      Whole(chunk);
      ok, j, k, done := CutTurn(chunk, index, first, j, k, p, done);
      if !ok {
        return;
      }
    }
    Whole(chunk);
    CutEnds(chunk.View(), p, index, first, j, k, done);
    ok := true;
  }

  lemma Whole(chunk: ReversePath)
    requires chunk.Valid()
    ensures chunk.HopCount(|chunk.segs|) == |HopsOf(chunk.View())|
  {
    assert chunk.View()[..|chunk.segs|] == chunk.View();
  }

  lemma CutBegins(p: Path, index: nat, first: Hop)
    requires index < |HopsOf(p)|
    ensures CutState(p, p, index, first, 0, 0, false)
  {
    assert p[..0] == [];
  }

  lemma CutDone(view: Path, p: Path, index: nat, first: Hop, j: nat, k: nat)
    requires AllNonEmpty(p) && index < |HopsOf(p)| && CutState(view, p, index, first, j, k, true)
    requires j == Locate(p, index) + 1 && view == p[..j-1] + [CutOf(p, index, first)] + p[j..]
    ensures |view| == |p| && CutFits(p[j-1].hops, index - |HopsOf(p[..j-1])| + 1, first)
    ensures j < |p| - 1 ==> TrimPath(p, index, first) == Panicked
  {
  }

  lemma CutEnds(view: Path, p: Path, index: nat, first: Hop, j: nat, k: nat, done: bool)
    requires AllNonEmpty(p) && index < |HopsOf(p)| && CutState(view, p, index, first, j, k, done)
    requires |HopsOf(view)| <= index + 1
    ensures TrimPath(p, index, first) == Trimmed(view)
  {
    hide HopsOf, Locate, CutFits, TrimPath;
    CutFinished(view, p, index, first, j, done);
  }
}
