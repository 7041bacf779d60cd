/** Hops of a path, clusters of hops, and the orders the segment comparator is built from. */
module Hops {
  import opened Sequences

  /** An address as the program stores it, a dotted-decimal string. */
  datatype Hop = Hop(name: string)

  /** The address a router that does not answer is recorded under. */
  const ZERO := Hop("0.0.0.0")

  /** What LastHop answers for an empty segment. */
  const NONE := Hop("")

  /** The alias resolution: a total function from addresses to cluster ids. */
  type ClusterMap = Hop -> string

  const DIRECT := Hop("non_spoofed")

  /** util/string's StringSet.Union, which is an intersection: what both lists hold, once each, the name of
      the direct probe before everything else. */
  method Union(ss: seq<Hop>, s: seq<Hop>) returns (ret: seq<Hop>)
    ensures forall h :: h in ret <==> h in ss && h in s
    ensures Distinct(ret)
    ensures DIRECT in ret ==> ret[0] == DIRECT
  {
    var mm: map<Hop, bool> := map[];
    for i := 0 to |ss|
      invariant forall h :: h in mm <==> h in ss[..i]
      invariant forall h :: h in mm ==> !mm[h]
    {
      mm := mm[ss[i] := false];
    }
    for i := 0 to |s|
      invariant forall h :: h in mm <==> h in ss
      invariant forall h :: h in mm ==> (mm[h] <==> h in s[..i])
    {
      if s[i] in mm {
        mm := mm[s[i] := true];
      }
    }
    ret := [];
    var keys, foundNonSpoofed := mm.Keys, false;
    while keys != {}
      invariant keys <= mm.Keys
      invariant forall h :: h in ret <==> h in mm && h !in keys && mm[h] && h != DIRECT
      invariant forall i, j :: 0 <= i < j < |ret| ==> ret[i] != ret[j]
      invariant foundNonSpoofed <==> DIRECT in mm && DIRECT !in keys && mm[DIRECT]
    {
      var k :| k in keys;
      keys := keys - {k};
      if k == DIRECT && mm[k] {
        foundNonSpoofed := true;
      } else if mm[k] {
        ret := ret + [k];
      }
    }
    if foundNonSpoofed {
      ret := [DIRECT] + ret;
    }
  }

  /** util/string's StringSliceIndex: the first position of `h`, or -1. */
  method IndexOf(s: seq<Hop>, h: Hop) returns (r: int)
    ensures r == FirstIndex(s, h)
  {
    for i := 0 to |s|
      invariant forall k :: 0 <= k < i ==> s[k] != h
    {
      if s[i] == h {
        FirstIndexUnique(s, h, i);
        return i;
      }
    }
    FirstIndexUnique(s, h, -1);
    return -1;
  }

  function FirstIndex(s: seq<Hop>, h: Hop): (r: int)
    ensures -1 <= r < |s|
    ensures r >= 0 ==> s[r] == h
    ensures forall k :: 0 <= k < (if r < 0 then |s| else r) ==> s[k] != h
  {
    if s == [] then -1
    else if s[0] == h then 0
    else
      var t := FirstIndex(s[1..], h);
      assert forall k :: 1 <= k < |s| ==> s[k] == s[1..][k-1];
      if t < 0 then -1 else t + 1
  }

  lemma FirstIndexUnique(s: seq<Hop>, h: Hop, r: int)
    requires -1 <= r < |s|
    requires r >= 0 ==> s[r] == h
    requires forall k :: 0 <= k < (if r < 0 then |s| else r) ==> s[k] != h
    ensures r == FirstIndex(s, h)
  {
  }

  // ----- strings.Compare -----

  function Compare(a: string, b: string): (r: int)
    ensures -1 <= r <= 1
  {
    if a == [] then (if b == [] then 0 else -1)
    else if b == [] then 1
    else if a[0] < b[0] then -1
    else if a[0] > b[0] then 1
    else Compare(a[1..], b[1..])
  }

  lemma {:induction false} CompareAntisymmetric(a: string, b: string)
    ensures Compare(a, b) == -Compare(b, a)
    ensures Compare(a, b) == 0 <==> a == b
  {
    if a != [] && b != [] && a[0] == b[0] {
      CompareAntisymmetric(a[1..], b[1..]);
      assert a == [a[0]] + a[1..] && b == [b[0]] + b[1..];
    }
  }

  /** The first character that differs decides; if none does, a proper prefix comes first. */
  lemma {:induction false} CompareIsLexicographic(a: string, b: string)
    ensures Compare(a, b) < 0
            <==> (|a| < |b| && a == b[..|a|])
                 || exists k :: 0 <= k < |a| && k < |b| && a[..k] == b[..k] && a[k] < b[k]
  {
    if a != [] && b != [] && a[0] == b[0] {
      CompareIsLexicographic(a[1..], b[1..]);
      SamePrefixes(a, b);
      if k :| 0 <= k < |a[1..]| && k < |b[1..]| && a[1..][..k] == b[1..][..k] && a[1..][k] < b[1..][k] {
        assert a[..k + 1] == b[..k + 1] && a[k + 1] < b[k + 1];
      }
      if k :| 0 <= k < |a| && k < |b| && a[..k] == b[..k] && a[k] < b[k] {
        assert k > 0 && a[1..][..k - 1] == b[1..][..k - 1] && a[1..][k - 1] < b[1..][k - 1];
      }
    } else if a != [] && b != [] {
      assert a[..0] == b[..0];
      assert forall k :: 0 < k <= |a| && k <= |b| ==> a[..k][0] != b[..k][0];
    }
  }

  /** Prefixes of lists that start alike are the same exactly if they are without the first entry. */
  lemma SamePrefixes<T>(a: seq<T>, b: seq<T>)
    requires a != [] && b != [] && a[0] == b[0]
    ensures forall k :: 0 <= k < |a| && k < |b| ==> (a[1..][..k] == b[1..][..k] <==> a[..k + 1] == b[..k + 1])
    ensures |a| <= |b| ==> (a[1..] == b[1..][..|a| - 1] <==> a == b[..|a|])
  {
    forall k | 0 <= k < |a| && k < |b|
      ensures a[1..][..k] == b[1..][..k] <==> a[..k + 1] == b[..k + 1]
    {
      assert a[..k + 1] == [a[0]] + a[1..][..k] && b[..k + 1] == [b[0]] + b[1..][..k];
    }
    if |a| <= |b| {
      assert a == [a[0]] + a[1..] && b[..|a|] == [b[0]] + b[1..][..|a| - 1];
    }
  }

  lemma {:induction false} CompareTransitive(a: string, b: string, c: string)
    requires Compare(a, b) < 0 && Compare(b, c) < 0
    ensures Compare(a, c) < 0
  {
    if a != [] && b != [] && c != [] && a[0] == b[0] == c[0] {
      CompareTransitive(a[1..], b[1..], c[1..]);
    }
  }

  // ----- OrderStringArray: length first, then the first differing entry -----

  function OrderHops(a: seq<Hop>, b: seq<Hop>): (r: int)
    ensures -1 <= r <= 1
  {
    if |a| > |b| then 1
    else if |a| < |b| then -1
    else if a == [] then 0
    else
      var c := Compare(a[0].name, b[0].name);
      if c != 0 then c else OrderHops(a[1..], b[1..])
  }

  lemma {:induction false} OrderHopsAntisymmetric(a: seq<Hop>, b: seq<Hop>)
    ensures OrderHops(a, b) == -OrderHops(b, a)
    ensures OrderHops(a, b) == 0 <==> a == b
  {
    if |a| == |b| && a != [] {
      CompareAntisymmetric(a[0].name, b[0].name);
      OrderHopsAntisymmetric(a[1..], b[1..]);
      assert a == [a[0]] + a[1..] && b == [b[0]] + b[1..];
    }
  }

  /** The shorter list comes first; of two as long, the first hop that differs decides. */
  lemma {:induction false} OrderHopsIsLexicographic(a: seq<Hop>, b: seq<Hop>)
    ensures OrderHops(a, b) < 0
            <==> |a| < |b|
                 || (|a| == |b| && exists k :: 0 <= k < |a| && a[..k] == b[..k] && Compare(a[k].name, b[k].name) < 0)
  {
    if |a| == |b| && a != [] {
      CompareAntisymmetric(a[0].name, b[0].name);
      if a[0] == b[0] {
        OrderHopsIsLexicographic(a[1..], b[1..]);
        SamePrefixes(a, b);
        if k :| 0 <= k < |a[1..]| && a[1..][..k] == b[1..][..k] && Compare(a[1..][k].name, b[1..][k].name) < 0 {
          assert a[..k + 1] == b[..k + 1] && Compare(a[k + 1].name, b[k + 1].name) < 0;
        }
        if k :| 0 <= k < |a| && a[..k] == b[..k] && Compare(a[k].name, b[k].name) < 0 {
          assert k > 0 && a[1..][..k - 1] == b[1..][..k - 1] && Compare(a[1..][k - 1].name, b[1..][k - 1].name) < 0;
        }
      } else {
        assert a[..0] == b[..0];
        assert forall k :: 0 < k <= |a| ==> a[..k][0] != b[..k][0];
      }
    }
  }

  lemma {:induction false} OrderHopsTransitive(a: seq<Hop>, b: seq<Hop>, c: seq<Hop>)
    requires OrderHops(a, b) < 0 && OrderHops(b, c) < 0
    ensures OrderHops(a, c) < 0
  {
    if |a| == |b| == |c| && a != [] {
      CompareAntisymmetric(a[0].name, b[0].name);
      CompareAntisymmetric(b[0].name, c[0].name);
      if a[0] == b[0] && b[0] == c[0] {
        OrderHopsTransitive(a[1..], b[1..], c[1..]);
      } else if a[0] != b[0] && b[0] != c[0] {
        CompareTransitive(a[0].name, b[0].name, c[0].name);
      }
    }
  }
}
