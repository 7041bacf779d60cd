/** A caller walking the list of sources it was given while a later request sorts the same array under the lock
    that the walk does not take: reads and swaps in any order. */
module LeaseWalk {

  /** The walk reads its next place, or the sort exchanges two places. */
  datatype Beat = Read | Swap(i: nat, j: nat)

  function Exchanged(a: seq<nat>, i: nat, j: nat): (r: seq<nat>)
    requires i < |a| && j < |a|
    ensures |r| == |a|
  {
    a[i := a[j]][j := a[i]]
  }

  /** The walk has `n` more places to read, and the swaps are within the array. */
  ghost predicate Legal(beats: seq<Beat>, size: nat, n: nat)
    decreases |beats|
  {
    if beats == [] then n == 0
    else
      match beats[0]
      case Read => n > 0 && Legal(beats[1..], size, n - 1)
      case Swap(i, j) => i < size && j < size && Legal(beats[1..], size, n)
  }

  /** What the walk reads from place `k` on. */
  function Visits(a: seq<nat>, k: nat, beats: seq<Beat>): seq<nat>
    requires k <= |a| && Legal(beats, |a|, |a| - k)
    decreases |beats|
  {
    if beats == [] then []
    else
      match beats[0]
      case Read => [a[k]] + Visits(a, k + 1, beats[1..])
      case Swap(i, j) => Visits(Exchanged(a, i, j), k, beats[1..])
  }

  /** A swap over the place the walk has come to: one of its places has been read, the other has not. */
  predicate Crosses(b: Beat, k: nat) {
    b.Swap? && (b.i < k) != (b.j < k)
  }

  /** Of the places of such a swap, the one read already, and the one still to be read. */
  function Ahead(i: nat, j: nat, k: nat): nat {
    if i < k then i else j
  }

  function Behind(i: nat, j: nat, k: nat): nat {
    if i < k then j else i
  }

  /** What the swaps carry over the walk: out of the part still to be read, and back into it. */
  datatype Carried = Carried(missed: multiset<nat>, again: multiset<nat>)

  function CarriedOver(a: seq<nat>, k: nat, beats: seq<Beat>): Carried
    requires k <= |a| && Legal(beats, |a|, |a| - k)
    decreases |beats|
  {
    if beats == [] then Carried(multiset{}, multiset{})
    else
      match beats[0]
      case Read => CarriedOver(a, k + 1, beats[1..])
      case Swap(i, j) =>
        var rest := CarriedOver(Exchanged(a, i, j), k, beats[1..]);
        if !Crosses(beats[0], k) then rest
        else
          Carried(rest.missed + multiset{a[Behind(i, j, k)]}, rest.again + multiset{a[Ahead(i, j, k)]})
  }

  lemma SetOne(s: seq<nat>, i: nat, x: nat)
    requires i < |s|
    ensures multiset(s[i := x]) + multiset{s[i]} == multiset(s) + multiset{x}
  {
    assert s == s[..i] + [s[i]] + s[i + 1..];
    assert s[i := x] == s[..i] + [x] + s[i + 1..];
  }

  lemma BothOneMore(x: nat, visited: seq<nat>, left: seq<nat>, c: Carried)
    requires multiset(visited) + c.missed == multiset(left) + c.again
    ensures multiset([x] + visited) + c.missed == multiset([x] + left) + c.again
  {
    var v, l := multiset(visited), multiset(left);
    assert multiset([x] + visited) == v + multiset{x} && multiset([x] + left) == l + multiset{x};
    forall y: nat
      ensures (v + multiset{x} + c.missed)[y] == (l + multiset{x} + c.again)[y]
    {
      assert (v + c.missed)[y] == (l + c.again)[y];
    }
  }

  /** What a swap does to the places from `k` on. */
  lemma ExchangedFrom(a: seq<nat>, i: nat, j: nat, k: nat)
    requires i < |a| && j < |a| && k <= |a|
    ensures var r, s := multiset(Exchanged(a, i, j)[k..]), multiset(a[k..]);
            if Crosses(Swap(i, j), k) then r + multiset{a[Behind(i, j, k)]} == s + multiset{a[Ahead(i, j, k)]}
            else r == s
  {
    if i < k <= j {
      ExchangedAcross(a, i, j, k);
    } else if j < k <= i {
      ExchangedAcross(a, j, i, k);
      assert Exchanged(a, i, j) == Exchanged(a, j, i);
    } else if k <= i && k <= j {
      ExchangedAhead(a, i, j, k);
    } else {
      assert Exchanged(a, i, j)[k..] == a[k..];
    }
  }

  lemma ExchangedAcross(a: seq<nat>, i: nat, j: nat, k: nat)
    requires i < k <= j < |a|
    ensures multiset(Exchanged(a, i, j)[k..]) + multiset{a[j]} == multiset(a[k..]) + multiset{a[i]}
  {
    assert Exchanged(a, i, j)[k..] == a[k..][j - k := a[i]];
    SetOne(a[k..], j - k, a[i]);
  }

  lemma ExchangedAhead(a: seq<nat>, i: nat, j: nat, k: nat)
    requires k <= i < |a| && k <= j < |a|
    ensures multiset(Exchanged(a, i, j)[k..]) == multiset(a[k..])
  {
    var t := a[k..][i - k := a[j]];
    assert Exchanged(a, i, j)[k..] == t[j - k := a[i]];
    SetOne(a[k..], i - k, a[j]);
    SetOne(t, j - k, a[i]);
    assert t[j - k] == a[j];
  }

  lemma Balance(visited: multiset<nat>, rest: Carried, from': multiset<nat>, from: multiset<nat>, back: nat, front: nat)
    requires visited + rest.missed == from' + rest.again && from' + multiset{back} == from + multiset{front}
    ensures visited + (rest.missed + multiset{back}) == from + (rest.again + multiset{front})
  {
    forall x: nat
      ensures (visited + (rest.missed + multiset{back}))[x] == (from + (rest.again + multiset{front}))[x]
    {
      assert (visited + rest.missed)[x] == (from' + rest.again)[x];
      assert (from' + multiset{back})[x] == (from + multiset{front})[x];
    }
  }

  /** Nothing is lost but what is carried past the walk, and nothing read twice but what is carried back. */
  lemma {:induction false} VisitsConserve(a: seq<nat>, k: nat, beats: seq<Beat>)
    requires k <= |a| && Legal(beats, |a|, |a| - k)
    ensures var c := CarriedOver(a, k, beats);
            multiset(Visits(a, k, beats)) + c.missed == multiset(a[k..]) + c.again
    decreases |beats|
  {
    hide Exchanged;
    if beats != [] {
      match beats[0] {
        case Read =>
          VisitsConserve(a, k + 1, beats[1..]);
          assert a[k..] == [a[k]] + a[k + 1..];
          var visited := Visits(a, k + 1, beats[1..]);
          assert Visits(a, k, beats) == [a[k]] + visited;
          assert CarriedOver(a, k, beats) == CarriedOver(a, k + 1, beats[1..]);
          BothOneMore(a[k], visited, a[k + 1..], CarriedOver(a, k, beats));
        case Swap(i, j) =>
          var b := Exchanged(a, i, j);
          VisitsConserve(b, k, beats[1..]);
          ExchangedFrom(a, i, j, k);
          if Crosses(beats[0], k) {
            var rest := CarriedOver(b, k, beats[1..]);
            Balance(multiset(Visits(b, k, beats[1..])), rest, multiset(b[k..]), multiset(a[k..]), a[Behind(i, j, k)],
                    a[Ahead(i, j, k)]);
          }
      }
    }
  }

  /** A whole walk visits each source as often as it was granted exactly if the swaps carry back over it what they
      carry past it. */
  lemma VisitsEachExactly(a: seq<nat>, beats: seq<Beat>)
    requires Legal(beats, |a|, |a|)
    ensures var c := CarriedOver(a, 0, beats);
            multiset(Visits(a, 0, beats)) == multiset(a) <==> c.missed == c.again
  {
    hide Visits, CarriedOver, Legal;
    VisitsConserve(a, 0, beats);
    assert a[0..] == a;
    var c := CarriedOver(a, 0, beats);
    Cancel(multiset(a), c.missed, c.again, multiset(Visits(a, 0, beats)));
  }

  lemma Cancel(all: multiset<nat>, missed: multiset<nat>, again: multiset<nat>, visited: multiset<nat>)
    requires visited + missed == all + again
    ensures visited == all <==> missed == again
  {
    if visited == all {
      forall x: nat
        ensures missed[x] == again[x]
      {
        assert (visited + missed)[x] == (all + again)[x];
      }
    } else if missed == again {
      forall x: nat
        ensures visited[x] == all[x]
      {
        assert (visited + missed)[x] == (all + again)[x];
      }
    }
  }

  /** No swap happens across the place the walk has come to. */
  ghost predicate Clear(k: nat, beats: seq<Beat>)
    decreases |beats|
  {
    beats != [] ==> !Crosses(beats[0], k) && Clear(if beats[0].Read? then k + 1 else k, beats[1..])
  }

  /** In particular if no swap crosses it. */
  lemma {:induction false} ClearCarriesNothing(a: seq<nat>, k: nat, beats: seq<Beat>)
    requires k <= |a| && Legal(beats, |a|, |a| - k) && Clear(k, beats)
    ensures CarriedOver(a, k, beats) == Carried(multiset{}, multiset{})
    decreases |beats|
  {
    if beats != [] {
      match beats[0] {
        case Read => ClearCarriesNothing(a, k + 1, beats[1..]);
        case Swap(i, j) => ClearCarriesNothing(Exchanged(a, i, j), k, beats[1..]);
      }
    }
  }

  /** The first of two sources is read, then they are put in order: it is read again, and the other never. */
  lemma SourceMissed()
    ensures Legal([Read, Swap(0, 1), Read], 2, 2) && Exchanged([2, 1], 0, 1) == [1, 2]
    ensures Visits([2, 1], 0, [Read, Swap(0, 1), Read]) == [2, 2]
  {
    var beats := [Read, Swap(0, 1), Read];
    assert beats[1..] == [Swap(0, 1), Read] && beats[1..][1..] == [Read] && [Read][1..] == [];
    assert Legal([], 2, 0) && Legal([Read], 2, 1) && Legal(beats[1..], 2, 1);
    assert Exchanged([2, 1], 0, 1) == [1, 2];
    assert Visits([1, 2], 1, [Read]) == [2];
    assert Visits([2, 1], 1, beats[1..]) == [2];
    assert Visits([2, 1], 0, beats) == [2] + [2];
  }
}
