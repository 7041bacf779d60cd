/** Which sources are being traced to which destination: nobody may trace from a source that somebody else
    is already tracing from to the same destination. */
module Leasing {

  /** What a slice holds, whatever its order. */
  ghost function Held(a: array<nat>): multiset<nat>
    reads a
  {
    multiset(a[..])
  }

  ghost predicate DuplicateFree(m: multiset<nat>) {
    forall x :: m[x] <= 1
  }

  // ----- sorting -----

  predicate Sorted(s: seq<nat>) {
    forall i :: 0 < i < |s| ==> s[i - 1] <= s[i]
  }

  function Insert(x: nat, s: seq<nat>): seq<nat> {
    if s == [] || x <= s[0] then [x] + s else [s[0]] + Insert(x, s[1..])
  }

  lemma HeadTail(s: seq<nat>)
    requires s != []
    ensures multiset(s) == multiset{s[0]} + multiset(s[1..])
  {
    assert s == [s[0]] + s[1..];
  }

  lemma PrefixOne(x: nat, s: seq<nat>)
    ensures multiset([x] + s) == multiset{x} + multiset(s)
  {
  }

  lemma {:induction false} InsertExact(x: nat, s: seq<nat>)
    requires Sorted(s)
    ensures Sorted(Insert(x, s)) && |Insert(x, s)| == |s| + 1
    ensures Insert(x, s)[0] == if s == [] || x <= s[0] then x else s[0]
    ensures multiset(Insert(x, s)) == multiset{x} + multiset(s)
  {
    if s == [] || x <= s[0] {
      PrefixOne(x, s);
    } else {
      InsertExact(x, s[1..]);
      HeadTail(s);
      PrefixOne(s[0], Insert(x, s[1..]));
    }
  }

  /** The sorted rearrangement; for numbers there is only one. */
  function Arranged(s: seq<nat>): seq<nat> {
    if s == [] then [] else Insert(s[0], Arranged(s[1..]))
  }

  lemma {:induction false} ArrangedExact(s: seq<nat>)
    ensures Sorted(Arranged(s)) && |Arranged(s)| == |s| && multiset(Arranged(s)) == multiset(s)
  {
    if s != [] {
      ArrangedExact(s[1..]);
      hide Insert, Sorted;
      InsertExact(s[0], Arranged(s[1..]));
      assert s == [s[0]] + s[1..];
    }
  }

  method SortInPlace(a: array<nat>)
    modifies a
    ensures Sorted(a[..]) && Held(a) == old(Held(a))
  {
    hide Arranged, Sorted;
    var r := Arranged(a[..]);
    ArrangedExact(a[..]);
    for i := 0 to a.Length
      invariant a[..i] == r[..i]
    {
      a[i] := r[i];
    }
    assert a[..] == r;
  }

  // ----- merging -----

  /** All of both, once where both have it, and what only the second has. */
  function Merge(o: seq<nat>, d: seq<nat>): (r: (seq<nat>, seq<nat>))
    decreases |o| + |d|
  {
    if o == [] then (d, d)
    else if d == [] then (o, [])
    else if o[0] < d[0] then
      var r := Merge(o[1..], d);
      ([o[0]] + r.0, r.1)
    else if o[0] > d[0] then
      var r := Merge(o, d[1..]);
      ([d[0]] + r.0, [d[0]] + r.1)
    else
      var r := Merge(o[1..], d[1..]);
      ([o[0]] + r.0, r.1)
  }

  lemma {:induction false} HeadLeast(x: nat, s: seq<nat>)
    requires Sorted(s) && s != [] && x < s[0]
    ensures multiset(s)[x] == 0
  {
    assert s == [s[0]] + s[1..];
    if |s| > 1 {
      HeadLeast(x, s[1..]);
    }
  }

  lemma OnlyFirst(x: nat, o: multiset<nat>, d: multiset<nat>, added: multiset<nat>)
    requires d[x] == 0 && added == d - o
    ensures added == d - (multiset{x} + o) && multiset{x} + (o + added) == (multiset{x} + o) + added
  {
  }

  lemma OnlySecond(x: nat, o: multiset<nat>, d: multiset<nat>, added: multiset<nat>)
    requires o[x] == 0 && added == d - o
    ensures multiset{x} + added == (multiset{x} + d) - o && multiset{x} + (o + added) == o + (multiset{x} + added)
  {
  }

  lemma InBoth(x: nat, o: multiset<nat>, d: multiset<nat>, added: multiset<nat>)
    requires added == d - o
    ensures added == (multiset{x} + d) - (multiset{x} + o) && multiset{x} + (o + added) == (multiset{x} + o) + added
  {
  }

  lemma TailSorted(s: seq<nat>)
    requires Sorted(s) && s != []
    ensures Sorted(s[1..])
  {
  }

  ghost predicate Exact(o: seq<nat>, d: seq<nat>, r: (seq<nat>, seq<nat>)) {
    multiset(r.1) == multiset(d) - multiset(o) && multiset(r.0) == multiset(o) + multiset(r.1)
  }

  lemma ExactFirst(o: seq<nat>, d: seq<nat>, r: (seq<nat>, seq<nat>))
    requires o != [] && multiset(d)[o[0]] == 0 && Exact(o[1..], d, r)
    ensures Exact(o, d, ([o[0]] + r.0, r.1))
  {
    HeadTail(o);
    OnlyFirst(o[0], multiset(o[1..]), multiset(d), multiset(r.1));
    PrefixOne(o[0], r.0);
  }

  lemma ExactSecond(o: seq<nat>, d: seq<nat>, r: (seq<nat>, seq<nat>))
    requires d != [] && multiset(o)[d[0]] == 0 && Exact(o, d[1..], r)
    ensures Exact(o, d, ([d[0]] + r.0, [d[0]] + r.1))
  {
    HeadTail(d);
    OnlySecond(d[0], multiset(o), multiset(d[1..]), multiset(r.1));
    PrefixOne(d[0], r.0);
    PrefixOne(d[0], r.1);
  }

  lemma ExactBoth(o: seq<nat>, d: seq<nat>, r: (seq<nat>, seq<nat>))
    requires o != [] && d != [] && o[0] == d[0] && Exact(o[1..], d[1..], r)
    ensures Exact(o, d, ([o[0]] + r.0, r.1))
  {
    HeadTail(o);
    HeadTail(d);
    InBoth(o[0], multiset(o[1..]), multiset(d[1..]), multiset(r.1));
    PrefixOne(o[0], r.0);
  }

  lemma ExactEmpty(o: seq<nat>, d: seq<nat>)
    requires o == [] || d == []
    ensures Exact(o, d, Merge(o, d))
  {
  }

  /** Merging sorted lists adds exactly the second list's surplus over the first. */
  lemma {:induction false} MergeExact(o: seq<nat>, d: seq<nat>)
    requires Sorted(o) && Sorted(d)
    ensures Exact(o, d, Merge(o, d))
    decreases |o| + |d|
  {
    hide Sorted, Exact;
    if o == [] || d == [] {
      ExactEmpty(o, d);
    } else {
      TailSorted(o);
      TailSorted(d);
      if o[0] < d[0] {
        HeadLeast(o[0], d);
        MergeExact(o[1..], d);
        ExactFirst(o, d, Merge(o[1..], d));
      } else if o[0] > d[0] {
        HeadLeast(d[0], o);
        MergeExact(o, d[1..]);
        ExactSecond(o, d, Merge(o, d[1..]));
      } else {
        MergeExact(o[1..], d[1..]);
        ExactBoth(o, d, Merge(o[1..], d[1..]));
      }
    }
  }

  /** What the merge still has to do from positions `i` and `j`. */
  lemma MergeStep(o: seq<nat>, d: seq<nat>, i: nat, j: nat)
    requires i < |o| && j < |d|
    ensures Merge(o[i..], d[j..]) ==
      (if o[i] < d[j] then var r := Merge(o[i + 1..], d[j..]); ([o[i]] + r.0, r.1)
       else if o[i] > d[j] then var r := Merge(o[i..], d[j + 1..]); ([d[j]] + r.0, [d[j]] + r.1)
       else var r := Merge(o[i + 1..], d[j + 1..]); ([o[i]] + r.0, r.1))
  {
    assert o[i..][1..] == o[i + 1..] && d[j..][1..] == d[j + 1..];
  }

  ghost predicate Rest(all: (seq<nat>, seq<nat>), merged: seq<nat>, added: seq<nat>, r: (seq<nat>, seq<nat>)) {
    all.0 == merged + r.0 && all.1 == added + r.1
  }

  lemma RestMerged(all: (seq<nat>, seq<nat>), merged: seq<nat>, added: seq<nat>, x: nat, r: (seq<nat>, seq<nat>))
    requires Rest(all, merged, added, ([x] + r.0, r.1))
    ensures Rest(all, merged + [x], added, r)
  {
    assert merged + ([x] + r.0) == merged + [x] + r.0;
  }

  lemma RestAdded(all: (seq<nat>, seq<nat>), merged: seq<nat>, added: seq<nat>, x: nat, r: (seq<nat>, seq<nat>))
    requires Rest(all, merged, added, ([x] + r.0, [x] + r.1))
    ensures Rest(all, merged + [x], added + [x], r)
  {
    assert merged + ([x] + r.0) == merged + [x] + r.0;
    assert added + ([x] + r.1) == added + [x] + r.1;
  }

  lemma Step(all: (seq<nat>, seq<nat>), o: seq<nat>, d: seq<nat>, i: nat, j: nat, merged: seq<nat>, added: seq<nat>)
    requires i < |o| && j < |d| && Rest(all, merged, added, Merge(o[i..], d[j..]))
    ensures o[i] < d[j] ==> Rest(all, merged + [o[i]], added, Merge(o[i + 1..], d[j..]))
    ensures o[i] > d[j] ==> Rest(all, merged + [d[j]], added + [d[j]], Merge(o[i..], d[j + 1..]))
    ensures o[i] == d[j] ==> Rest(all, merged + [o[i]], added, Merge(o[i + 1..], d[j + 1..]))
  {
    hide Rest, Merge;
    MergeStep(o, d, i, j);
    if o[i] < d[j] {
      RestMerged(all, merged, added, o[i], Merge(o[i + 1..], d[j..]));
    } else if o[i] > d[j] {
      RestAdded(all, merged, added, d[j], Merge(o[i..], d[j + 1..]));
    } else {
      RestMerged(all, merged, added, o[i], Merge(o[i + 1..], d[j + 1..]));
    }
  }

  /** Until one of the lists is used up. */
  method MergeHeads(o: seq<nat>, d: seq<nat>) returns (i: nat, j: nat, merged: seq<nat>, added: seq<nat>)
    ensures (i == |o| && j <= |d|) || (j == |d| && i <= |o|)
    ensures Rest(Merge(o, d), merged, added, Merge(o[i..], d[j..]))
  {
    merged, added, i, j := [], [], 0, 0;
    ghost var all := Merge(o, d);
    assert o[0..] == o && d[0..] == d;
    hide Merge;
    assert Rest(all, merged, added, Merge(o[i..], d[j..]));
    hide Rest;
    while i < |o| && j < |d|
      invariant i <= |o| && j <= |d|
      invariant Rest(all, merged, added, Merge(o[i..], d[j..]))
      decreases |o| - i + |d| - j
    {
      Step(all, o, d, i, j, merged, added);
      if o[i] < d[j] {
        merged, i := merged + [o[i]], i + 1;
      } else if o[i] > d[j] {
        merged, added, j := merged + [d[j]], added + [d[j]], j + 1;
      } else {
        merged, i, j := merged + [o[i]], i + 1, j + 1;
      }
    }
  }

  method MergeSlices(o: seq<nat>, d: seq<nat>) returns (merged: seq<nat>, added: seq<nat>)
    ensures merged == Merge(o, d).0 && added == Merge(o, d).1
  {
    var i, j;
    i, j, merged, added := MergeHeads(o, d);
    ghost var all, tail := Merge(o, d), d[j..];
    OneLeft(o[i..], tail);
    hide Merge, Rest;
    while i < |o|
      invariant i <= |o| && (i < |o| ==> tail == [])
      invariant Rest(all, merged, added, (if tail == [] then o[i..] else tail, tail))
    {
      SliceHead(o, i);
      RestMerged(all, merged, added, o[i], (o[i + 1..], tail));
      merged, i := merged + [o[i]], i + 1;
    }
    while j < |d|
      invariant j <= |d| && Rest(all, merged, added, (d[j..], d[j..]))
    {
      SliceHead(d, j);
      RestAdded(all, merged, added, d[j], (d[j + 1..], d[j + 1..]));
      merged, added, j := merged + [d[j]], added + [d[j]], j + 1;
    }
    NoRest(all, merged, added);
  }

  lemma SliceHead(s: seq<nat>, i: nat)
    requires i < |s|
    ensures s[i..] == [s[i]] + s[i + 1..]
  {
  }

  lemma OneLeft(o: seq<nat>, d: seq<nat>)
    requires o == [] || d == []
    ensures Merge(o, d) == (if d == [] then o else d, d)
  {
  }

  lemma NoRest(all: (seq<nat>, seq<nat>), merged: seq<nat>, added: seq<nat>)
    requires Rest(all, merged, added, ([], []))
    ensures all.0 == merged && all.1 == added
  {
  }

  /** Sorts both arrays where they are, and merges them into new ones. */
  method MergeArrays(running: array<nat>, dsts: array<nat>) returns (stored: array<nat>, added: array<nat>)
    modifies running, dsts
    ensures fresh(stored) && fresh(added)
    ensures Held(running) == old(Held(running)) && Held(dsts) == old(Held(dsts))
    ensures Held(added) == old(Held(dsts)) - old(Held(running))
    ensures Held(stored) == old(Held(running)) + Held(added)
  {
    hide Sorted, Merge;
    SortInPlace(running);
    SortInPlace(dsts);
    var o, d := running[..], dsts[..];
    var merged, plus := MergeSlices(o, d);
    MergeExact(o, d);
    stored := FromSeq(merged);
    added := FromSeq(plus);
  }

  lemma AllSurplus(m: multiset<nat>)
    ensures m - multiset{} == m && multiset{} + m == m
  {
  }

  method FromSeq(s: seq<nat>) returns (a: array<nat>)
    ensures fresh(a) && a[..] == s
  {
    a := new nat[|s|](i requires 0 <= i < |s| => s[i]);
  }

  // ----- the table -----

  class RunningTraces {
    var dstToSrcs: map<nat, array<nat>>

    constructor ()
      ensures dstToSrcs == map[]
    {
      dstToSrcs := map[];
    }

    /** The sources being traced from to `ip`. */
    ghost function Running(ip: nat): multiset<nat>
      reads this, if ip in dstToSrcs then {dstToSrcs[ip]} else {}
    {
      if ip in dstToSrcs then Held(dstToSrcs[ip]) else multiset{}
    }

    /** Gives the caller its surplus over what is running. The first list for a destination is stored as it
        is and given back, so caller and table share it; later calls sort it under the caller's hands. */
    method TryAdd(ip: nat, dsts: array<nat>) returns (added: array<nat>)
      modifies this, dsts, if ip in dstToSrcs then {dstToSrcs[ip]} else {}
      ensures Held(added) == old(Held(dsts)) - old(Running(ip))
      ensures Running(ip) == old(Running(ip)) + Held(added)
      ensures dstToSrcs.Keys == old(dstToSrcs.Keys) + {ip}
      ensures forall k :: k in old(dstToSrcs) && k != ip ==> dstToSrcs[k] == old(dstToSrcs[k])
      ensures Held(dsts) == old(Held(dsts))
      ensures ip in old(dstToSrcs) ==> old(Held(dstToSrcs[ip])) == Held(old(dstToSrcs[ip]))
      ensures ip !in old(dstToSrcs) ==> added == dsts && dstToSrcs[ip] == dsts && dsts[..] == old(dsts[..])
      ensures ip in old(dstToSrcs) ==> fresh(added) && fresh(dstToSrcs[ip])
    {
      hide Held;
      if ip in dstToSrcs {
        var stored;
        stored, added := MergeArrays(dstToSrcs[ip], dsts);
        dstToSrcs := dstToSrcs[ip := stored];
      } else {
        AllSurplus(Held(dsts));
        dstToSrcs := dstToSrcs[ip := dsts];
        added := dsts;
      }
    }

    /** Takes `done` off the sources of `ip`, and `ip` off the table when none is left. */
    method Remove(ip: nat, done: array<nat>)
      modifies this
      ensures Running(ip) == Without(old(Running(ip)), Held(done))
      ensures ip in old(dstToSrcs) ==>
        dstToSrcs.Keys == old(dstToSrcs.Keys) - (if Running(ip) == multiset{} then {ip} else {})
      ensures forall k :: k in old(dstToSrcs) && k != ip ==> k in dstToSrcs && dstToSrcs[k] == old(dstToSrcs[k])
      ensures ip !in old(dstToSrcs) ==> dstToSrcs == old(dstToSrcs)
    {
      hide Without, Held;
      if ip in dstToSrcs {
        var size, stored := Unfinished(dstToSrcs[ip], done);
        if size > 0 {
          dstToSrcs := dstToSrcs[ip := stored];
        } else {
          dstToSrcs := map k | k in dstToSrcs && k != ip :: dstToSrcs[k];
        }
      } else {
        NothingWithout(Held(done));
      }
    }
  }

  /** The elements of `m` that `done` has none of, once each. */
  ghost function Without(m: multiset<nat>, done: multiset<nat>): (r: multiset<nat>)
    ensures forall x :: r[x] == if x in m && x !in done then 1 else 0
  {
    multiset(set x | x in m && x !in done)
  }

  /** The two loops that mark what is running and unmark what is done, and the one that collects what is
      still marked, in whatever order the map gives it. */
  method Unchecked(running: array<nat>, done: array<nat>) returns (left: seq<nat>)
    ensures multiset(left) == Without(Held(running), Held(done))
  {
    hide Without;
    var checked: map<nat, bool> := map[];
    for i := 0 to running.Length
      invariant forall x :: x in checked <==> x in running[..i]
      invariant forall x :: x in checked ==> checked[x]
    {
      checked := checked[running[i] := true];
    }
    for i := 0 to done.Length
      invariant forall x :: x in running[..] ==> x in checked
      invariant forall x :: x in checked && checked[x] <==> x in running[..] && x !in done[..i]
    {
      checked := checked[done[i] := false];
    }
    left := [];
    var keys := checked.Keys;
    while keys != {}
      invariant keys <= checked.Keys
      invariant forall x :: multiset(left)[x] == if x in checked && x !in keys && checked[x] then 1 else 0
    {
      var k :| k in keys;
      keys := keys - {k};
      if checked[k] {
        left := left + [k];
      }
    }
    assert done[..done.Length] == done[..];
    assert forall x :: multiset(left)[x] == Without(Held(running), Held(done))[x];
  }

  method Unfinished(running: array<nat>, done: array<nat>) returns (size: nat, stored: array<nat>)
    ensures fresh(stored) && Held(stored) == Without(Held(running), Held(done))
    ensures size == 0 <==> Held(stored) == multiset{}
  {
    hide Without;
    var left := Unchecked(running, done);
    stored := FromSeq(left);
    size := |left|;
    assert |left| == |multiset(left)|;
  }

  lemma NothingWithout(done: multiset<nat>)
    ensures Without(multiset{}, done) == multiset{}
  {
  }

  // ----- leases -----

  datatype Grant = Grant(dst: nat, srcs: array<nat>)

  /** What the grants for `d` hold together. */
  ghost function Out(values: seq<(nat, multiset<nat>)>, d: nat): multiset<nat> {
    if values == [] then multiset{}
    else
      var last := values[|values| - 1];
      Out(values[..|values| - 1], d) + if last.0 == d then last.1 else multiset{}
  }

  lemma {:induction false} OutHolds(values: seq<(nat, multiset<nat>)>, d: nat, i: nat, x: nat)
    requires i < |values| && values[i].0 == d
    ensures values[i].1[x] <= Out(values, d)[x]
  {
    if i < |values| - 1 {
      OutHolds(values[..|values| - 1], d, i, x);
    }
  }

  /** Two grants for one destination count twice what both hold. */
  lemma {:induction false} OutHoldsBoth(values: seq<(nat, multiset<nat>)>, d: nat, i: nat, j: nat, x: nat)
    requires i < j < |values| && values[i].0 == values[j].0 == d
    ensures values[i].1[x] + values[j].1[x] <= Out(values, d)[x]
  {
    var front := values[..|values| - 1];
    if j < |values| - 1 {
      OutHoldsBoth(front, d, i, j, x);
    } else {
      OutHolds(front, d, i, x);
    }
  }

  lemma {:induction false} OutWithout(values: seq<(nat, multiset<nat>)>, d: nat, i: nat)
    requires i < |values|
    ensures Out(values, d)
            == Out(values[..i] + values[i + 1..], d) + if values[i].0 == d then values[i].1 else multiset{}
  {
    var front := values[..|values| - 1];
    var less := values[..i] + values[i + 1..];
    if i < |values| - 1 {
      OutWithout(front, d, i);
      assert less[..|less| - 1] == front[..i] + front[i + 1..];
    } else {
      assert less == front;
    }
  }

  /** How fillAtlas can end once it has sources to run. */
  datatype FillEnd = BurstTooHigh | NeverReady | CallFailed | Finished

  /** The table, with the lists that callers have been given and not handed back. */
  class Leases {
    const rt: RunningTraces
    ghost var grants: seq<Grant>

    ghost function Arrays(): set<object>
      reads this, rt
    {
      (set g | g in grants :: g.srcs) + (set k | k in rt.dstToSrcs :: rt.dstToSrcs[k])
    }

    ghost function Values(): (v: seq<(nat, multiset<nat>)>)
      reads this, rt, Arrays()
      ensures |v| == |grants|
      ensures forall i :: 0 <= i < |v| ==> v[i] == (grants[i].dst, Held(grants[i].srcs))
    {
      assert forall g :: g in grants ==> g.srcs in Arrays();
      seq(|grants|, i requires 0 <= i < |grants| reads this, rt, Arrays() =>
        assert grants[i] in grants; (grants[i].dst, Held(grants[i].srcs)))
    }

    /** For every destination: what runs is exactly what is granted, each source once. */
    ghost predicate Valid()
      reads this, rt, Arrays()
    {
      forall d :: rt.Running(d) == Out(Values(), d) && DuplicateFree(rt.Running(d))
    }

    /** No source is in the hands of two callers for one destination, and what is in somebody's hands is what
        the table says is running. */
    lemma NeverTwice(i: nat, j: nat, x: nat)
      requires Valid() && i < j < |grants| && grants[i].dst == grants[j].dst
      ensures !(x in Held(grants[i].srcs) && x in Held(grants[j].srcs))
      ensures x in Held(grants[i].srcs) ==> x in rt.Running(grants[i].dst)
    {
      var d := grants[i].dst;
      OutHoldsBoth(Values(), d, i, j, x);
      assert rt.Running(d) == Out(Values(), d) && DuplicateFree(rt.Running(d));
    }

    constructor ()
      ensures Valid() && grants == [] && fresh(rt)
    {
      rt := new RunningTraces();
      grants := [];
    }

    /** Sorting under the callers' hands changes nothing that they hold. */
    method Give(dst: nat, srcs: array<nat>) returns (added: array<nat>)
      modifies rt, srcs, if dst in rt.dstToSrcs then {rt.dstToSrcs[dst]} else {}
      ensures grants == old(grants) && Values() == old(Values())
      ensures Held(added) == old(Held(srcs)) - old(rt.Running(dst))
      ensures rt.Running(dst) == old(rt.Running(dst)) + Held(added)
      ensures forall d :: d != dst ==> rt.Running(d) == old(rt.Running(d))
    {
      hide Held, Values;
      ghost var before := Values();
      added := rt.TryAdd(dst, srcs);
      assert forall i :: 0 <= i < |grants| ==> Held(grants[i].srcs) == before[i].1;
    }

    /** A caller asks for sources and is given those that nobody else has. */
    method Acquire(dst: nat, srcs: array<nat>) returns (added: array<nat>)
      requires Valid() && DuplicateFree(Held(srcs))
      modifies this, rt, srcs, if dst in rt.dstToSrcs then {rt.dstToSrcs[dst]} else {}
      ensures Valid()
      ensures grants == old(grants) + [Grant(dst, added)]
      ensures Values() == old(Values()) + [(dst, Held(added))]
      ensures Held(added) == old(Held(srcs)) - old(rt.Running(dst))
    {
      hide Held, Values, Out, DuplicateFree, Arrays, RunningTraces.Running;
      ghost var before, asked, had := Values(), Held(srcs), rt.Running(dst);
      added := Give(dst, srcs);
      grants := grants + [Grant(dst, added)];
      assert Values() == before + [(dst, Held(added))];
      forall d: nat ensures rt.Running(d) == Out(Values(), d) && DuplicateFree(rt.Running(d)) {
        OutMore(before, (dst, Held(added)), d);
        SurplusFree(had, asked);
      }
    }

    method TakeBack(dst: nat, srcs: array<nat>)
      modifies rt
      ensures Values() == old(Values())
      ensures rt.Running(dst) == Without(old(rt.Running(dst)), Held(srcs))
      ensures forall d :: d != dst ==> rt.Running(d) == old(rt.Running(d))
    {
      hide Held, Values, Without;
      rt.Remove(dst, srcs);
    }

    /** A caller hands back a list it was given. */
    method Release(ghost i: nat, dst: nat, srcs: array<nat>)
      requires Valid() && i < |grants| && grants[i] == Grant(dst, srcs)
      modifies this, rt
      ensures Valid()
      ensures grants == old(grants[..i] + grants[i + 1..])
      ensures Values() == old(Values()[..i] + Values()[i + 1..])
    {
      hide Held, Values, Out, DuplicateFree, Arrays, Without, RunningTraces.Running;
      ghost var before, had := Values(), rt.Running(dst);
      TakeBack(dst, srcs);
      grants := grants[..i] + grants[i + 1..];
      assert Values() == before[..i] + before[i + 1..];
      forall d: nat ensures rt.Running(d) == Out(Values(), d) && DuplicateFree(rt.Running(d)) {
        OutWithout(before, d, i);
        if d == dst {
          RestFree(had, Held(srcs), Out(before[..i] + before[i + 1..], d));
        }
      }
    }

    /** fillAtlas: asks for sources, and hands them back however it ends, unless the rate limiter refuses the burst:
        then the grant is left behind, and no one else is given these sources again. */
    method FillAtlas(dst: nat, srcs: array<nat>, end: FillEnd) returns (ran: array<nat>)
      requires Valid() && DuplicateFree(Held(srcs))
      modifies this, rt, srcs, if dst in rt.dstToSrcs then {rt.dstToSrcs[dst]} else {}
      ensures Valid()
      ensures Held(ran) == old(Held(srcs)) - old(rt.Running(dst))
      ensures var left := ran.Length == 0 || end.BurstTooHigh?;
              && grants == old(grants) + (if left then [Grant(dst, ran)] else [])
              && Values() == old(Values()) + (if left then [(dst, Held(ran))] else [])
    {
      hide Held, Values, DuplicateFree, Arrays, RunningTraces.Running;
      ghost var n := |grants|;
      ran := Acquire(dst, srcs);
      if ran.Length == 0 || end.BurstTooHigh? {
        return;
      }
      Release(n, dst, ran);
    }
  }

  lemma RestFree(had: multiset<nat>, done: multiset<nat>, rest: multiset<nat>)
    requires had == rest + done && DuplicateFree(had)
    ensures Without(had, done) == rest && DuplicateFree(rest)
  {
    hide Without;
    var left := Without(had, done);
    forall x: nat
      ensures left[x] == rest[x] && rest[x] <= 1
    {
      assert had[x] == rest[x] + done[x] && had[x] <= 1;
    }
    assert left == rest;
  }

  lemma OutMore(values: seq<(nat, multiset<nat>)>, v: (nat, multiset<nat>), d: nat)
    ensures Out(values + [v], d) == Out(values, d) + if v.0 == d then v.1 else multiset{}
  {
    assert (values + [v])[..|values|] == values;
  }

  /** A request that names a source twice can be given one that is already running: the grant avoids what
      is running exactly when nothing running is asked for twice. */
  lemma FreshExactly(had: multiset<nat>, asked: multiset<nat>)
    requires DuplicateFree(had)
    ensures (asked - had) !! had <==> forall x <- had :: asked[x] <= 1
  {
    if forall x <- had :: asked[x] <= 1 {
      forall x ensures !(x in asked - had && x in had) {
        if x in had {
          assert (asked - had)[x] == 0;
        }
      }
    } else {
      var x :| x in had && asked[x] > 1;
      assert x in asked - had;
    }
  }

  /** Source 1 runs and is asked for twice: it is granted a second time. */
  lemma GrantedTwice()
    ensures DuplicateFree(multiset{1}) && var r := Merge([1], [1, 1]); r.0 == [1, 1] && r.1 == [1]
    ensures multiset{1, 1} - multiset{1} == multiset{1}
  {
    var o, d: seq<nat> := [1], [1, 1];
    assert o[1..] == [] && d[1..] == [1];
    assert Merge(o[1..], d[1..]) == ([1], [1]);
    assert Merge(o, d) == ([1] + [1], [1]) && [1] + [1] == [1, 1];
  }

  lemma SurplusFree(had: multiset<nat>, asked: multiset<nat>)
    requires DuplicateFree(had) && DuplicateFree(asked)
    ensures DuplicateFree(had + (asked - had))
  {
  }
}
