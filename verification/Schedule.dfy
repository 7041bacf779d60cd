/** Which vantage points probe a hop next: the batches GetRRVPs hands out, over any number of calls. */
module Schedule {
  import opened Hops
  import opened Segments
  import opened Sequences

  const NON_SPOOFED: VP := "non_spoofed"
  const RATE_LIMIT := 5

  datatype Handed = Handed(batch: seq<VP>, left: seq<VP>)
  datatype Spoofer = None | Some(vp: VP)

  function Without(s: seq<VP>, v: VP): (r: seq<VP>)
    ensures forall x :: x in r <==> x in s && x != v
    ensures |r| <= |s| && (v in s ==> |r| < |s|) && (v !in s ==> r == s)
  {
    if s == [] then []
    else
      assert s == [s[0]] + s[1..];
      if s[0] == v then Without(s[1..], v) else [s[0]] + Without(s[1..], v)
  }

  function Min(a: nat, b: nat): nat {
    if a <= b then a else b
  }

  /** One call for a hop with vantage points left; `sp` is the spoofing source of the segment the path
      ends in, if it was found by a spoofed probe. */
  function Hand(left: seq<VP>, sp: Spoofer): Handed
    requires left != []
  {
    if NON_SPOOFED in left[..Min(RATE_LIMIT, |left|)] then Handed([NON_SPOOFED], left[1..])
    else if sp.Some? then
      var rest := Without(left, sp.vp);
      var n := Min(RATE_LIMIT - 1, |rest|);
      Handed([sp.vp] + rest[..n], rest[n..])
    else
      var n := Min(RATE_LIMIT, |left|);
      Handed(left[..n], left[n..])
  }

  lemma {:induction false} WithoutDistinct(s: seq<VP>, v: VP)
    requires Distinct(s)
    ensures Distinct(Without(s, v))
  {
    if s != [] {
      assert forall i :: 1 <= i < |s| ==> s[i] == s[1..][i-1];
      WithoutDistinct(s[1..], v);
      var r := Without(s[1..], v);
      forall i | 0 <= i < |r|
        ensures r[i] != s[0]
      {
        assert r[i] in s[1..];
      }
    }
  }

  /** The direct probe is handed out alone, before every vantage point. */
  lemma HandFirst(vps: seq<VP>, sp: Spoofer)
    ensures Hand([NON_SPOOFED] + vps, sp) == Handed([NON_SPOOFED], vps)
  {
    var left := [NON_SPOOFED] + vps;
    assert left[..Min(RATE_LIMIT, |left|)][0] == NON_SPOOFED;
    assert left[1..] == vps;
  }

  /** A later batch holds at most five, and five unless none is left. If the segment was found by a spoofed probe,
      its spoofing source comes first, whether it is on the list or not. The others are the next on the list, in
      its order, and what stays is the rest of the list; the spoofing source, if it was on it, is gone. */
  lemma HandLater(left: seq<VP>, sp: Spoofer)
    requires left != [] && Distinct(left) && NON_SPOOFED !in left
    ensures var h := Hand(left, sp);
            && 0 < |h.batch| <= 5 && (h.left != [] ==> |h.batch| == 5)
            && (sp.Some? ==> h.batch[0] == sp.vp)
            && var own := if sp.Some? then h.batch[1..] else h.batch;
               && (forall k :: 0 <= k < |left| && sp == Some(left[k]) ==> own + h.left == left[..k] + left[k + 1..])
               && (sp.None? || sp.vp !in left ==> own + h.left == left)
  {
    var n := Min(RATE_LIMIT, |left|);
    assert NON_SPOOFED !in left[..n];
    if sp.Some? {
      var rest := Without(left, sp.vp);
      var m := Min(RATE_LIMIT - 1, |rest|);
      assert ([sp.vp] + rest[..m])[1..] == rest[..m] && rest[..m] + rest[m..] == rest;
      forall k | 0 <= k < |left| && sp == Some(left[k])
        ensures rest == left[..k] + left[k + 1..]
      {
        WithoutOne(left, k);
      }
    } else {
      assert left[..n] + left[n..] == left;
    }
  }

  lemma {:induction false} WithoutOne(s: seq<VP>, k: nat)
    requires Distinct(s) && k < |s|
    ensures Without(s, s[k]) == s[..k] + s[k + 1..]
  {
    assert forall i :: 1 <= i < |s| ==> s[1..][i-1] == s[i];
    if k == 0 {
      assert s[0] !in s[1..];
    } else {
      WithoutOne(s[1..], k - 1);
      assert s[..k] == [s[0]] + s[1..][..k - 1] && s[1..][k..] == s[k + 1..];
    }
  }

  /** So the list shrinks, what leaves it is in the batch, nothing of the batch stays in it, and the batch holds
      nothing else but possibly the spoofing source. */
  lemma HandParts(left: seq<VP>, sp: Spoofer)
    requires left != [] && Distinct(left) && NON_SPOOFED !in left
    ensures var h := Hand(left, sp);
            && 0 < |h.batch| <= RATE_LIMIT && |h.left| < |left|
            && Distinct(h.left) && Distinct(h.batch)
            && (forall v :: v in left <==> v in h.left || (v in h.batch && v in left))
            && (forall v <- h.batch :: v !in h.left)
            && (forall v <- h.batch :: v in left || sp == Some(v))
  {
    var n := Min(RATE_LIMIT, |left|);
    assert NON_SPOOFED !in left[..n];
    if sp.Some? {
      var rest := Without(left, sp.vp);
      WithoutDistinct(left, sp.vp);
      var m := Min(RATE_LIMIT - 1, |rest|);
      Cut(rest, m);
      assert forall v <- rest[..m] :: v != sp.vp;
    } else {
      Cut(left, n);
    }
  }

  lemma Cut(s: seq<VP>, n: nat)
    requires n <= |s| && Distinct(s)
    ensures Distinct(s[..n]) && Distinct(s[n..])
    ensures forall v :: v in s <==> v in s[..n] || v in s[n..]
    ensures forall v <- s[..n] :: v !in s[n..]
  {
    assert s == s[..n] + s[n..];
  }

  // ----- all calls for one hop -----

  datatype Calls = Calls(batches: seq<seq<VP>>, left: seq<VP>)

  /** The batches of successive calls, one for each entry of `sps`, until none is left. */
  function Serve(left: seq<VP>, sps: seq<Spoofer>): (c: Calls)
    ensures |c.batches| <= |sps| && (|c.batches| < |sps| ==> c.left == [])
    decreases sps
  {
    if sps == [] || left == [] then Calls([], left)
    else
      var h := Hand(left, sps[0]);
      var rest := Serve(h.left, sps[1..]);
      Calls([h.batch] + rest.batches, rest.left)
  }

  /** Lists the calls start from: no vantage point twice, and the direct probe handed out already. */
  ghost predicate Ready(left: seq<VP>) {
    Distinct(left) && NON_SPOOFED !in left
  }

  lemma HandReady(left: seq<VP>, sp: Spoofer)
    requires Ready(left) && left != []
    ensures Ready(Hand(left, sp).left)
  {
    hide Hand;
    HandParts(left, sp);
  }

  /** Every batch is within the limit, and there are no more batches than vantage points. */
  lemma {:induction false} ServeBounded(left: seq<VP>, sps: seq<Spoofer>)
    requires Ready(left)
    ensures var c := Serve(left, sps);
            && |c.batches| <= |left|
            && forall i :: 0 <= i < |c.batches| ==> 0 < |c.batches[i]| <= RATE_LIMIT && Distinct(c.batches[i])
    decreases sps
  {
    hide Hand;
    if sps != [] && left != [] {
      HandParts(left, sps[0]);
      HandReady(left, sps[0]);
      ServeBounded(Hand(left, sps[0]).left, sps[1..]);
    }
  }

  /** What is left was there before. */
  lemma {:induction false} ServeLeft(left: seq<VP>, sps: seq<Spoofer>)
    requires Ready(left)
    ensures forall v <- Serve(left, sps).left :: v in left
    decreases sps
  {
    hide Hand;
    if sps != [] && left != [] {
      HandParts(left, sps[0]);
      HandReady(left, sps[0]);
      ServeLeft(Hand(left, sps[0]).left, sps[1..]);
    }
  }

  /** No vantage point is lost: each is still left or in some batch. */
  lemma {:induction false} ServeComplete(left: seq<VP>, sps: seq<Spoofer>, v: VP)
    requires Ready(left) && v in left
    ensures var c := Serve(left, sps);
            v in c.left || exists i :: 0 <= i < |c.batches| && v in c.batches[i]
    decreases sps
  {
    hide Hand;
    if sps != [] {
      HandParts(left, sps[0]);
      HandReady(left, sps[0]);
      var h := Hand(left, sps[0]);
      var c := Serve(left, sps);
      if v in h.batch {
        assert c.batches[0] == h.batch;
      } else {
        ServeComplete(h.left, sps[1..], v);
        var rest := Serve(h.left, sps[1..]);
        if v !in rest.left {
          var i :| 0 <= i < |rest.batches| && v in rest.batches[i];
          assert c.batches[i+1] == rest.batches[i];
        }
      }
    }
  }

  /** A batch holds vantage points of the list that are gone from it for good, and at most the spoofing
      source of the segment besides. */
  lemma {:induction false} ServeFrom(left: seq<VP>, sps: seq<Spoofer>, i: nat, v: VP)
    requires Ready(left)
    requires i < |Serve(left, sps).batches| && v in Serve(left, sps).batches[i]
    ensures v !in Serve(left, sps).left && (v in left || sps[i] == Some(v))
    decreases sps
  {
    hide Hand;
    HandParts(left, sps[0]);
    HandReady(left, sps[0]);
    var h := Hand(left, sps[0]);
    if i == 0 {
      ServeLeft(h.left, sps[1..]);
    } else {
      ServeFrom(h.left, sps[1..], i - 1, v);
    }
  }

  /** Nobody is handed out twice, except the spoofing source of the segment of the later call. */
  lemma {:induction false} ServeOnce(left: seq<VP>, sps: seq<Spoofer>, i: nat, j: nat, v: VP)
    requires Ready(left)
    requires i < j < |Serve(left, sps).batches| && v in Serve(left, sps).batches[i] && v in Serve(left, sps).batches[j]
    ensures sps[j] == Some(v)
    decreases sps
  {
    hide Hand;
    HandParts(left, sps[0]);
    HandReady(left, sps[0]);
    var h := Hand(left, sps[0]);
    if i == 0 {
      ServeFrom(h.left, sps[1..], j - 1, v);
    } else {
      ServeOnce(h.left, sps[1..], i - 1, j - 1, v);
    }
  }

  /** All calls for a hop from its initial list on: the direct probe comes first, alone and only once;
      then the vantage points, in at most as many batches as there are. */
  lemma ServeInitial(vps: seq<VP>, sps: seq<Spoofer>)
    requires Ready(vps) && sps != [] && forall i :: 0 <= i < |sps| ==> sps[i] != Some(NON_SPOOFED)
    ensures var c := Serve([NON_SPOOFED] + vps, sps);
            && 0 < |c.batches| <= |vps| + 1
            && c.batches[0] == [NON_SPOOFED]
            && (forall i :: 0 < i < |c.batches| ==> NON_SPOOFED !in c.batches[i])
            && (|sps| > |vps| + 1 ==> c.left == [])
  {
    hide Hand;
    HandFirst(vps, sps[0]);
    var rest := Serve(vps, sps[1..]);
    ServeBounded(vps, sps[1..]);
    forall i | 0 <= i < |rest.batches|
      ensures NON_SPOOFED !in rest.batches[i]
    {
      if NON_SPOOFED in rest.batches[i] {
        ServeFrom(vps, sps[1..], i, NON_SPOOFED);
      }
    }
  }

  // ----- which hop of the last segment is probed -----

  const MAX_UNRESPONSIVE := 10

  type Left = map<Hop, seq<VP>>
  type Responses = map<Hop, int>

  /** Some vantage point is left, and the hop does not look unresponsive to spoofed probes. */
  predicate Probeable(h: Hop, left: Left, resp: Responses) {
    && !(h in resp && resp[h] != -1 && resp[h] >= MAX_UNRESPONSIVE)
    && h in left && left[h] != []
  }

  /** A hop can be probed while vantage points are left for it and spoofed probes did not stay without any answer
      ten times or more. */
  lemma ProbeableExactly(h: Hop, left: Left, resp: Responses)
    ensures Probeable(h, left, resp)
            <==> h in left && left[h] != [] && (h in resp && resp[h] != -1 ==> resp[h] < 10)
  {
  }

  /** The hop nearest the source that can be probed, searched from the end. */
  function Target(hops: seq<Hop>, left: Left, resp: Responses): (t: int)
    ensures -1 <= t < |hops|
    ensures t >= 0 ==> Probeable(hops[t], left, resp)
    ensures forall i :: t < i < |hops| ==> !Probeable(hops[i], left, resp)
  {
    if hops == [] then -1
    else if Probeable(hops[|hops| - 1], left, resp) then |hops| - 1
    else Target(hops[..|hops| - 1], left, resp)
  }

  /** Vantage points left over all hops of the segment: what bounds the retry loop of recordRoute. */
  ghost function TotalLeft(hops: seq<Hop>, left: Left): nat {
    if hops == [] then 0
    else TotalLeft(hops[1..], left) + (if hops[0] in left then |left[hops[0]]| else 0)
  }

  lemma {:induction false} TotalShrinks(hops: seq<Hop>, left: Left, h: Hop, rest: seq<VP>)
    requires h in left && |rest| < |left[h]|
    ensures TotalLeft(hops, left[h := rest]) <= TotalLeft(hops, left)
    ensures h in hops ==> TotalLeft(hops, left[h := rest]) < TotalLeft(hops, left)
  {
    if hops != [] {
      TotalShrinks(hops[1..], left, h, rest);
    }
  }

  /** Any call shrinks the target's list, whatever the list holds. */
  lemma HandShrinks(left: seq<VP>, sp: Spoofer)
    requires left != []
    ensures |Hand(left, sp).left| < |left| && Hand(left, sp).batch != []
  {
  }

  /** Marks a target unresponsive to `cnt` more spoofed probes, unless it has ever answered one. */
  function AddUnresponsive(resp: Responses, h: Hop, cnt: nat): Responses {
    if h !in resp then resp[h := cnt]
    else if resp[h] == -1 then resp
    else resp[h := resp[h] + cnt]
  }

  /** Unanswered probes add up, for this target alone, until it answers. */
  lemma ResponsesAdd(resp: Responses, h: Hop, cnt: nat, x: Hop)
    requires h in resp ==> resp[h] >= -1
    ensures var r := AddUnresponsive(resp, h, cnt);
            && (x != h ==> (x in r <==> x in resp) && (x in resp ==> r[x] == resp[x]))
            && h in r
            && (h in resp && resp[h] == -1 <==> r[h] == -1)
            && (r[h] != -1 ==> r[h] == cnt + if h in resp then resp[h] else 0)
  {
  }

  // ----- what bounds the retries for one segment -----

  /** What the vantage point service answers. */
  datatype Offer = Nothing | Vantage(vps: seq<VP>)

  /** The lists once the first `n` hops have been looked at. */
  function Initialised(left: Left, hops: seq<Hop>, offers: nat -> Offer, n: nat): Left
    requires n <= |hops|
  {
    if n == 0 then left
    else
      var before := Initialised(left, hops, offers, n - 1);
      if hops[n-1] in before || offers(n - 1).Nothing? then before
      else before[hops[n-1] := [NON_SPOOFED] + offers(n - 1).vps]
  }

  /** Lists there are stay as they are; a hop without one gets one from the first offer made for it, the direct
      probe in front. */
  lemma {:induction false} InitialisedExactly(left: Left, hops: seq<Hop>, offers: nat -> Offer, n: nat, h: Hop)
    requires n <= |hops|
    ensures var init := Initialised(left, hops, offers, n);
            && (h in init <==> h in left || exists i: nat :: i < n && hops[i] == h && offers(i).Vantage?)
            && (h in left ==> init[h] == left[h])
            && (h in init && h !in left ==>
                  exists i: nat :: i < n && hops[i] == h && offers(i).Vantage?
                    && init[h] == [NON_SPOOFED] + offers(i).vps
                    && forall j: nat :: j < i && hops[j] == h ==> offers(j).Nothing?)
  {
    if n > 0 {
      InitialisedExactly(left, hops, offers, n - 1, h);
    }
  }

  ghost function Uninitialised(hops: seq<Hop>, left: Left): set<Hop> {
    set h | h in hops && h !in left
  }

  lemma {:induction false} InitialisedGrows(left: Left, hops: seq<Hop>, offers: nat -> Offer, n: nat)
    requires n <= |hops|
    ensures var init := Initialised(left, hops, offers, n);
            init == left || Uninitialised(hops, init) < Uninitialised(hops, left)
    ensures Uninitialised(hops, Initialised(left, hops, offers, n)) <= Uninitialised(hops, left)
  {
    if n > 0 {
      InitialisedGrows(left, hops, offers, n - 1);
      var before := Initialised(left, hops, offers, n - 1);
      if hops[n-1] !in before && !offers(n - 1).Nothing? {
        assert hops[n-1] in Uninitialised(hops, before);
      }
    }
  }

  /** A call that hands a batch out leaves fewer hops uninitialised, or fewer vantage points left. */
  lemma CallLowers(left: Left, hops: seq<Hop>, offers: nat -> Offer, h: Hop, sp: Spoofer)
    requires h in hops
    requires var init := Initialised(left, hops, offers, |hops|); h in init && init[h] != []
    ensures var init := Initialised(left, hops, offers, |hops|);
            var left' := init[h := Hand(init[h], sp).left];
            || Uninitialised(hops, left') < Uninitialised(hops, left)
            || (Uninitialised(hops, left') == Uninitialised(hops, left)
                && TotalLeft(hops, left') < TotalLeft(hops, left))
  {
    hide Hand, Initialised;
    var init := Initialised(left, hops, offers, |hops|);
    InitialisedGrows(left, hops, offers, |hops|);
    HandShrinks(init[h], sp);
    var left' := init[h := Hand(init[h], sp).left];
    assert Uninitialised(hops, left') == Uninitialised(hops, init);
    TotalShrinks(hops, init, h, Hand(init[h], sp).left);
  }
}
