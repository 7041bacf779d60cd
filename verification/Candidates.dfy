/** From network answers to candidate segments, and what a call of AddSegments does to a search. */
module Candidates {
  import opened Hops
  import opened Segments
  import opened Search
  import opened ReversePath
  import opened ReverseTraceroute
  import opened Sequences

  /** A segment with an array of its own. */
  method NewSegment(kind: Kind, hops: seq<Hop>, src: Hop, global: Hop -> bool, ghost rt: ReverseTraceroute)
    returns (s: RevSegment)
    requires rt.Valid()
    ensures fresh(s) && fresh(s.buf) && s.Valid() && s.View() == Seg(kind, Sanitize(hops, global), src)
    ensures s !in SegSet(rt.paths)
    ensures rt.Valid() && rt.View() == old(rt.View())
  {
    ghost var before := rt.View();
    var clean := Sanitize(hops, global);
    var buf := new Hop[|hops|](i requires 0 <= i < |hops| => clean[i]);
    s := new RevSegment(kind, buf, 0, |hops|, src);
    assert s.Hops() == clean;
    assert forall i :: 0 <= i < |rt.paths| ==> rt.paths[i].View() == before[i];
  }

  /** The candidates of one record-route answer: a prefix for each answering hop. */
  function Prefixes(rr: seq<Hop>, n: nat, kind: Kind, src: Hop, global: Hop -> bool): (r: seq<Seg>)
    requires n <= |rr|
  {
    if n == 0 then []
    else Prefixes(rr, n - 1, kind, src, global)
         + (if rr[n-1] == ZERO then [] else [Seg(kind, Sanitize(rr[..n], global), src)])
  }

  lemma PrefixesStep(rr: seq<Hop>, i: nat, kind: Kind, src: Hop, global: Hop -> bool)
    requires i < |rr|
    ensures Prefixes(rr, i + 1, kind, src, global) ==
            Prefixes(rr, i, kind, src, global)
              + (if rr[i] == ZERO then [] else [Seg(kind, Sanitize(rr[..i + 1], global), src)])
  {
  }

  /** NewRevSegment cleans the hops it is given where they are. */
  method CleanPrefix(buf: array<Hop>, n: nat, global: Hop -> bool)
    requires n <= buf.Length
    modifies buf
    ensures forall k :: 0 <= k < n ==> buf[k] == if global(old(buf[k])) then old(buf[k]) else ZERO
    ensures forall k :: n <= k < buf.Length ==> buf[k] == old(buf[k])
  {
    for i := 0 to n
      invariant forall k :: 0 <= k < i ==> buf[k] == if global(old(buf[k])) then old(buf[k]) else ZERO
      invariant forall k :: i <= k < buf.Length ==> buf[k] == old(buf[k])
    {
      if !global(buf[i]) {
        buf[i] := ZERO;
      }
    }
  }

  /** Segments `segs` look at prefixes, no longer than `n`, of one array. */
  ghost predicate Windows(segs: seq<RevSegment>, buf: array<Hop>, n: nat)
    reads segs
  {
    && n <= buf.Length
    && forall i :: 0 <= i < |segs| ==> segs[i].Valid() && segs[i].buf == buf && segs[i].lo == 0 && segs[i].len <= n
  }

  /** The first `n` entries are cleaned, the others as answered. */
  ghost predicate Cleaned(buf: array<Hop>, rr: seq<Hop>, n: nat, global: Hop -> bool)
    reads buf
  {
    && n <= |rr| == buf.Length
    && (forall k :: 0 <= k < n ==> buf[k] == if global(rr[k]) then rr[k] else ZERO)
    && (forall k :: n <= k < |rr| ==> buf[k] == rr[k])
  }

  /** Cleaning a longer prefix changes nothing that is looked at already. */
  method CleanMore(buf: array<Hop>, ghost rr: seq<Hop>, n: nat, ghost m: nat, ghost segs: seq<RevSegment>,
                   global: Hop -> bool)
    requires m <= n <= |rr| && Cleaned(buf, rr, m, global) && Windows(segs, buf, m)
    modifies buf
    ensures Cleaned(buf, rr, n, global) && Windows(segs, buf, n)
    ensures forall i :: 0 <= i < |segs| ==> segs[i].View() == old(segs[i].View())
    ensures buf[..n] == Sanitize(rr[..n], global)
  {
    CleanPrefix(buf, n, global);
    assert buf[..m] == old(buf[..m]);
    forall i | 0 <= i < |segs|
      ensures segs[i].View() == old(segs[i].View())
    {
      assert segs[i].Hops() == buf[..m][..segs[i].len];
    }
  }

  /** Segments `segs` look at prefixes, no longer than `n`, of the array, and have these values. */
  ghost predicate Hold(segs: seq<RevSegment>, values: seq<Seg>, buf: array<Hop>, n: nat)
    reads segs, buf
  {
    && Windows(segs, buf, n) && Distinct(segs) && |segs| == |values|
    && forall k :: 0 <= k < |segs| ==> segs[k].View() == values[k]
  }

  /** One more segment, looking at the first `n` entries. */
  method WindowSegment(buf: array<Hop>, ghost rr: seq<Hop>, n: nat, ghost m: nat, ghost segs: seq<RevSegment>,
                       ghost values: seq<Seg>, kind: Kind, src: Hop, global: Hop -> bool) returns (s: RevSegment)
    requires m <= n <= |rr| && Cleaned(buf, rr, m, global) && Hold(segs, values, buf, m)
    modifies buf
    ensures Cleaned(buf, rr, n, global) && fresh(s)
    ensures Hold(segs + [s], values + [Seg(kind, Sanitize(rr[..n], global), src)], buf, n)
  {
    hide Sanitize;
    CleanMore(buf, rr, n, m, segs, global);
    ghost var clean := buf[..n];
    assert Hold(segs, values, buf, n);
    hide Cleaned;
    s := new RevSegment(kind, buf, 0, n, src);
    assert s.Hops() == clean;
    HoldMore(segs, values, s, buf, n);
  }

  lemma HoldMore(segs: seq<RevSegment>, values: seq<Seg>, s: RevSegment, buf: array<Hop>, n: nat)
    requires Hold(segs, values, buf, n) && s !in segs
    requires s.Valid() && s.buf == buf && s.lo == 0 && s.len <= n
    ensures Hold(segs + [s], values + [s.View()], buf, n)
  {
  }

  /** The candidates of one record-route answer. They all look at one array, which is cleaned in place
      while they are being made. */
  method PrefixSegments(rr: seq<Hop>, kind: Kind, src: Hop, global: Hop -> bool) returns (segs: seq<RevSegment>)
    ensures ValidSegs(segs) && Distinct(segs)
    ensures forall i :: 0 <= i < |segs| ==> fresh(segs[i]) && fresh(segs[i].buf)
    ensures Values(segs) == Prefixes(rr, |rr|, kind, src, global)
  {
    hide Sanitize, Hold, Cleaned, Prefixes, Windows, ValidSegs, Distinct, Values;
    var buf := RawArray(rr, global);
    segs := [];
    ghost var m, values: seq<Seg> := 0, [];
    HoldNone(buf);
    PrefixesNone(rr, kind, src, global);
    for i := 0 to |rr|
      invariant fresh(buf) && m <= i && Cleaned(buf, rr, m, global) && Hold(segs, values, buf, m)
      invariant forall k :: 0 <= k < |segs| ==> fresh(segs[k])
      invariant values == Prefixes(rr, i, kind, src, global)
    {
      PrefixesStep(rr, i, kind, src, global);
      StillRaw(buf, rr, m, i, global);
      if buf[i] != ZERO {
        var s := WindowSegment(buf, rr, i + 1, m, segs, values, kind, src, global);
        segs, values := segs + [s], values + [Seg(kind, Sanitize(rr[..i + 1], global), src)];
        m := i + 1;
      }
    }
    HoldValues(segs, values, buf, m);
  }

  method RawArray(rr: seq<Hop>, ghost global: Hop -> bool) returns (buf: array<Hop>)
    ensures fresh(buf) && Cleaned(buf, rr, 0, global)
  {
    buf := new Hop[|rr|](i requires 0 <= i < |rr| => rr[i]);
  }

  lemma HoldNone(buf: array<Hop>)
    ensures Hold([], [], buf, 0)
  {
  }

  lemma PrefixesNone(rr: seq<Hop>, kind: Kind, src: Hop, global: Hop -> bool)
    ensures Prefixes(rr, 0, kind, src, global) == []
  {
  }

  lemma StillRaw(buf: array<Hop>, rr: seq<Hop>, m: nat, i: nat, global: Hop -> bool)
    requires Cleaned(buf, rr, m, global) && m <= i < |rr|
    ensures buf.Length == |rr| && buf[i] == rr[i]
  {
  }

  lemma HoldValues(segs: seq<RevSegment>, values: seq<Seg>, buf: array<Hop>, n: nat)
    requires Hold(segs, values, buf, n)
    ensures ValidSegs(segs) && Distinct(segs) && Values(segs) == values
    ensures forall i :: 0 <= i < |segs| ==> segs[i].buf == buf
  {
  }

  // ----- candidates of whole answers, beside the stack they are meant for -----

  /** New candidates with these values; the stack of `rt` is as it was. */
  ghost predicate Made(segs: seq<RevSegment>, values: seq<Seg>, rt: ReverseTraceroute)
    requires rt.Valid()
    reads segs, (set i | 0 <= i < |segs| :: segs[i].buf), rt, rt.paths, SegSet(rt.paths)
  {
    Fresh(segs, rt.paths) && Values(segs) == values
  }

  method PrefixCandidates(rr: seq<Hop>, kind: Kind, global: Hop -> bool, rt: ReverseTraceroute)
    returns (segs: seq<RevSegment>)
    requires rt.Valid()
    ensures rt.Valid() && rt.View() == old(rt.View())
    ensures Made(segs, Prefixes(rr, |rr|, kind, rt.src, global), rt)
    ensures forall i :: 0 <= i < |segs| ==> fresh(segs[i]) && fresh(segs[i].buf)
  {
    hide Sanitize, Prefixes;
    ghost var before := rt.View();
    segs := PrefixSegments(rr, kind, rt.src, global);
    assert forall i :: 0 <= i < |rt.paths| ==> rt.paths[i].View() == before[i];
  }

  /** An answer to a spoofed probe: the hops, and the vantage point that sent it. */
  datatype Spoofed = Spoofed(rr: seq<Hop>, vp: VP)

  function SpoofedValues(rrs: seq<Spoofed>, n: nat, src: Hop, global: Hop -> bool): seq<Seg>
    requires n <= |rrs|
  {
    if n == 0 then []
    else
      SpoofedValues(rrs, n - 1, src, global)
      + Prefixes(rrs[n-1].rr, |rrs[n-1].rr|, SpoofRR(rrs[n-1].vp), src, global)
  }

  method SpoofedCandidates(rrs: seq<Spoofed>, global: Hop -> bool, rt: ReverseTraceroute)
    returns (segs: seq<RevSegment>)
    requires rt.Valid()
    ensures rt.Valid() && rt.View() == old(rt.View())
    ensures Made(segs, SpoofedValues(rrs, |rrs|, rt.src, global), rt)
    ensures forall i :: 0 <= i < |segs| ==> fresh(segs[i]) && fresh(segs[i].buf)
  {
    hide Sanitize, Prefixes, Made, Views, SegSet, BufSet, SpoofedValues;
    segs := [];
    NoneMade(rt);
    SpoofedNone(rrs, rt.src, global);
    for i := 0 to |rrs|
      invariant rt.Valid() && rt.View() == old(rt.View())
      invariant Made(segs, SpoofedValues(rrs, i, rt.src, global), rt)
      invariant forall k :: 0 <= k < |segs| ==> fresh(segs[k]) && fresh(segs[k].buf)
    {
      SpoofedStep(rrs, i, rt.src, global);
      segs := MoreCandidates(segs, SpoofedValues(rrs, i, rt.src, global), rrs[i], global, rt);
    }
  }

  lemma SpoofedNone(rrs: seq<Spoofed>, src: Hop, global: Hop -> bool)
    ensures SpoofedValues(rrs, 0, src, global) == []
  {
  }

  lemma SpoofedStep(rrs: seq<Spoofed>, i: nat, src: Hop, global: Hop -> bool)
    requires i < |rrs|
    ensures SpoofedValues(rrs, i + 1, src, global)
            == SpoofedValues(rrs, i, src, global) + Prefixes(rrs[i].rr, |rrs[i].rr|, SpoofRR(rrs[i].vp), src, global)
  {
  }

  lemma NoneMade(rt: ReverseTraceroute)
    requires rt.Valid()
    ensures Made([], [], rt)
  {
  }

  method MoreCandidates(segs: seq<RevSegment>, ghost values: seq<Seg>, a: Spoofed, global: Hop -> bool,
                        rt: ReverseTraceroute)
    returns (r: seq<RevSegment>)
    requires rt.Valid() && Made(segs, values, rt)
    ensures rt.Valid() && rt.View() == old(rt.View())
    ensures Made(r, values + Prefixes(a.rr, |a.rr|, SpoofRR(a.vp), rt.src, global), rt)
    ensures |segs| <= |r| && r[..|segs|] == segs
    ensures forall i :: |segs| <= i < |r| ==> fresh(r[i]) && fresh(r[i].buf)
  {
    hide Sanitize, Prefixes;
    var more := PrefixCandidates(a.rr, SpoofRR(a.vp), global, rt);
    assert forall i :: 0 <= i < |segs| ==> segs[i].View() == values[i];
    r := segs + more;
    assert Values(r) == values + Values(more);
  }
}
