/** Delivery of spoofed probes: ids registered in groups, a countdown and a buffered channel per group,
    and a kill signal, as atomic steps in any order. */
module SpoofDelivery {
  import opened Sequences

  type Id = nat

  /** A group of ids registered by one call of Add. `buf` is what is in its channel now, `sent` all that
      was ever sent into it; the channel holds as many as there are ids. */
  datatype Group = Group(ids: seq<Id>, count: int, buf: seq<Id>, sent: seq<Id>, closed: bool, killed: bool,
                         cleaned: bool)

  datatype State = State(sm: map<Id, nat>, groups: seq<Group>)

  /** What a step comes to. Blocking would hold both locks for ever; sending on or closing a closed
      channel panics. */
  datatype Outcome = Done(s: State) | Blocks | Panics

  datatype Event =
    | Add(ids: seq<Id>)
    | Notify(id: Id, preferKill: bool)
    | Receive(g: nat)
    | Kill(g: nat)
    | Cleanup(g: nat)

  function SetOf(s: seq<Id>): (r: set<Id>)
    ensures forall x :: x in r <==> x in s
  {
    set x | x in s
  }

  /** The ids of group `g` that are still registered. */
  ghost function Mapped(sm: map<Id, nat>, g: nat): set<Id> {
    set id | id in sm && sm[id] == g
  }

  // ----- the steps -----

  function Register(sm: map<Id, nat>, ids: seq<Id>, g: nat): (r: map<Id, nat>)
    ensures forall id :: id in r <==> id in sm || id in ids
    ensures forall id :: id in ids ==> r[id] == g
    ensures forall id :: id in sm && id !in ids ==> r[id] == sm[id]
  {
    map id | id in sm.Keys + SetOf(ids) :: if id in ids then g else sm[id]
  }

  function DoAdd(s: State, ids: seq<Id>): State {
    State(Register(s.sm, ids, |s.groups|), s.groups + [Group(ids, |ids|, [], [], false, false, false)])
  }

  /** channel.Send: counts down, then sends or gives way to the kill signal; the last one closes. */
  function Send(g: Group, id: Id, preferKill: bool): (r: SendResult)
  {
    var g1 := g.(count := g.count - 1);
    var canSend := |g.buf| < |g.ids| || g.closed;
    if g.killed && (preferKill || !canSend) then Sent(g1)
    else if !canSend then WouldBlock
    else if g.closed then WouldPanic
    else
      var g2 := g1.(buf := g.buf + [id], sent := g.sent + [id]);
      if g2.count == 0 then Sent(g2.(closed := true)) else Sent(g2)
  }

  datatype SendResult = Sent(g: Group) | WouldBlock | WouldPanic

  /** Notify: a registered id is sent to its group and forgotten; any other is only logged. */
  function DoNotify(s: State, id: Id, preferKill: bool): Outcome {
    if id !in s.sm || s.sm[id] >= |s.groups| then Done(s)
    else
      match Send(s.groups[s.sm[id]], id, preferKill)
      case Sent(g) => Done(State(s.sm - {id}, s.groups[s.sm[id] := g]))
      case WouldBlock => Blocks
      case WouldPanic => Panics
  }

  /** The goroutine waiting for the kill signal removes the ids left over. */
  function DoCleanup(s: State, g: nat): State
    requires g < |s.groups|
  {
    State(s.sm - SetOf(s.groups[g].ids), s.groups[g := s.groups[g].(cleaned := true)])
  }

  /** New ids are distinct and differ from those of every group still waiting for its cleanup. */
  ghost predicate Fresh(s: State, ids: seq<Id>) {
    ids != [] && Distinct(ids) && forall g :: 0 <= g < |s.groups| && !s.groups[g].cleaned ==>
      NoneOf(s.groups[g].ids, ids)
  }

  ghost predicate NoneOf(a: seq<Id>, b: seq<Id>) {
    forall id <- a :: id !in b
  }

  /** When an event can happen. The consumer of a group takes what is in the channel, and kills its group
      once, whenever it ends. */
  ghost predicate Enabled(s: State, e: Event) {
    match e
    case Add(ids) => Fresh(s, ids)
    case Notify(_, _) => true
    case Receive(g) => g < |s.groups| && s.groups[g].buf != [] && !s.groups[g].killed
    case Kill(g) => g < |s.groups| && !s.groups[g].killed
    case Cleanup(g) => g < |s.groups| && s.groups[g].killed && !s.groups[g].cleaned
  }

  function Step(s: State, e: Event): Outcome {
    match e
    case Add(ids) => Done(DoAdd(s, ids))
    case Notify(id, preferKill) => DoNotify(s, id, preferKill)
    case Receive(g) =>
      if g < |s.groups| && s.groups[g].buf != [] then
        Done(s.(groups := s.groups[g := s.groups[g].(buf := s.groups[g].buf[1..])]))
      else Done(s)
    case Kill(g) => if g < |s.groups| then Done(s.(groups := s.groups[g := s.groups[g].(killed := true)])) else Done(s)
    case Cleanup(g) => if g < |s.groups| then Done(DoCleanup(s, g)) else Done(s)
  }

  // ----- what every step keeps -----

  ghost predicate GroupOK(sm: map<Id, nat>, gr: Group, g: nat) {
    var m := Mapped(sm, g);
    && Distinct(gr.ids) && gr.ids != []
    && (forall id <- m :: id in gr.ids)
    && Distinct(gr.sent) && (forall id <- gr.sent :: id in gr.ids && id !in m)
    && |gr.buf| <= |gr.sent| && gr.buf == gr.sent[|gr.sent| - |gr.buf|..]
    && (gr.cleaned ==> m == {} && gr.killed)
    && (!gr.cleaned ==> gr.count == |m|)
    && (gr.closed ==> m == {})
    && (!gr.killed ==> (forall id <- gr.ids :: id in gr.sent || id in m) && (gr.closed <==> m == {}))
  }

  ghost predicate Inv(s: State) {
    && (forall id <- s.sm :: s.sm[id] < |s.groups|)
    && (forall g :: 0 <= g < |s.groups| ==> GroupOK(s.sm, s.groups[g], g))
    && (forall g, h :: 0 <= g < h < |s.groups| && !s.groups[g].cleaned && !s.groups[h].cleaned
          ==> NoneOf(s.groups[g].ids, s.groups[h].ids))
  }

  lemma {:induction false} DistinctSize(s: seq<Id>, t: set<Id>)
    requires Distinct(s) && forall id <- s :: id in t
    ensures |s| <= |t|
  {
    if s != [] {
      var x, r := s[|s| - 1], s[..|s| - 1];
      assert x !in r;
      DistinctSize(r, t - {x});
    }
  }

  /** A registered id leaves room in its group's channel. */
  lemma RoomForMapped(sm: map<Id, nat>, gr: Group, g: nat, id: Id)
    requires GroupOK(sm, gr, g) && id in Mapped(sm, g)
    ensures |gr.buf| < |gr.ids|
  {
    DistinctSize(gr.sent, SetOf(gr.ids) - {id});
    SizeOfSet(gr.ids);
  }

  lemma {:induction false} SizeOfSet(s: seq<Id>)
    ensures |SetOf(s)| <= |s|
    ensures Distinct(s) ==> |SetOf(s)| == |s|
  {
    if s != [] {
      var x, r := s[|s| - 1], s[..|s| - 1];
      SizeOfSet(r);
      assert s == r + [x];
      assert SetOf(s) == SetOf(r) + {x};
    }
  }

  // ----- the invariant over all interleavings -----

  lemma MappedAfterAdd(sm: map<Id, nat>, ids: seq<Id>, n: nat, g: nat)
    requires forall id <- ids :: id !in sm
    requires forall id <- sm :: sm[id] < n
    ensures g < n ==> Mapped(Register(sm, ids, n), g) == Mapped(sm, g)
    ensures Mapped(Register(sm, ids, n), n) == SetOf(ids)
  {
  }

  lemma MappedUncleaned(s: State, id: Id)
    requires Inv(s) && id in s.sm
    ensures var g := s.sm[id]; !s.groups[g].cleaned && id in s.groups[g].ids && id in Mapped(s.sm, g)
  {
    var g := s.sm[id];
    assert GroupOK(s.sm, s.groups[g], g) && id in Mapped(s.sm, g);
  }

  lemma FreshUnmapped(s: State, ids: seq<Id>)
    requires Inv(s) && Fresh(s, ids)
    ensures forall id <- ids :: id !in s.sm
  {
    forall id | id in s.sm
      ensures id !in ids
    {
      MappedUncleaned(s, id);
      assert NoneOf(s.groups[s.sm[id]].ids, ids);
    }
  }

  lemma AddKeeps(s: State, ids: seq<Id>)
    requires Inv(s) && Fresh(s, ids)
    ensures Inv(DoAdd(s, ids))
  {
    hide GroupOK, Register, NoneOf, Distinct, Mapped;
    var s' := DoAdd(s, ids);
    var n := |s.groups|;
    FreshUnmapped(s, ids);
    forall g | 0 <= g < |s'.groups|
      ensures GroupOK(s'.sm, s'.groups[g], g)
    {
      MappedAfterAdd(s.sm, ids, n, g);
      if g < n {
        GroupFramed(s.sm, s'.sm, s.groups[g], g);
      } else {
        NewGroupOK(s'.sm, ids, n);
      }
    }
  }

  lemma GroupFramed(sm: map<Id, nat>, sm': map<Id, nat>, gr: Group, g: nat)
    requires GroupOK(sm, gr, g) && Mapped(sm', g) == Mapped(sm, g)
    ensures GroupOK(sm', gr, g)
  {
  }

  lemma NewGroupOK(sm: map<Id, nat>, ids: seq<Id>, n: nat)
    requires ids != [] && Distinct(ids) && Mapped(sm, n) == SetOf(ids)
    ensures GroupOK(sm, Group(ids, |ids|, [], [], false, false, false), n)
  {
    SizeOfSet(ids);
    assert ids[0] in SetOf(ids);
  }

  /** A notification of a registered id neither blocks nor panics; it takes exactly this id off its group
      and, unless it gives way to a kill, sends it, closing the channel with the last one. */
  lemma SendOK(sm: map<Id, nat>, gr: Group, g: nat, id: Id, preferKill: bool)
    requires GroupOK(sm, gr, g) && !gr.cleaned && id in sm && sm[id] == g
    ensures var r := Send(gr, id, preferKill);
            && r.Sent? && GroupOK(sm - {id}, r.g, g)
            && r.g.ids == gr.ids && r.g.killed == gr.killed && r.g.cleaned == gr.cleaned
            && !gr.closed && (r.g.sent == gr.sent + [id] || (gr.killed && r.g.sent == gr.sent))
  {
    assert id in Mapped(sm, g);
    RoomForMapped(sm, gr, g, id);
    assert Mapped(sm - {id}, g) == Mapped(sm, g) - {id};
    var r := Send(gr, id, preferKill);
    if r.g.sent != gr.sent {
      assert forall x :: x in gr.sent + [id] <==> x in gr.sent || x == id;
      DistinctAppend(gr.sent, id);
      if r.g.count == 0 {
        assert |Mapped(sm - {id}, g)| == 0;
      }
    }
  }

  lemma DistinctAppend(s: seq<Id>, id: Id)
    requires Distinct(s) && id !in s
    ensures Distinct(s + [id])
  {
  }

  lemma NotifyKeeps(s: State, id: Id, preferKill: bool)
    requires Inv(s)
    ensures var o := DoNotify(s, id, preferKill); o.Done? && Inv(o.s)
  {
    hide GroupOK, Send;
    if id in s.sm {
      var g := s.sm[id];
      MappedUncleaned(s, id);
      SendOK(s.sm, s.groups[g], g, id, preferKill);
      var s' := DoNotify(s, id, preferKill).s;
      forall h | 0 <= h < |s'.groups|
        ensures GroupOK(s'.sm, s'.groups[h], h)
      {
        if h != g {
          assert Mapped(s'.sm, h) == Mapped(s.sm, h);
          GroupFramed(s.sm, s'.sm, s.groups[h], h);
        }
      }
    }
  }

  lemma Separate(s: State, g: nat, h: nat, id: nat)
    requires Inv(s) && g < |s.groups| && h < |s.groups| && !s.groups[g].cleaned && !s.groups[h].cleaned
    ensures g != h ==> !(id in s.groups[g].ids && id in s.groups[h].ids)
  {
    hide GroupOK;
    if g < h {
      assert NoneOf(s.groups[g].ids, s.groups[h].ids);
    } else if h < g {
      assert NoneOf(s.groups[h].ids, s.groups[g].ids);
    }
  }

  /** The cleanup of a group takes no id away from another. */
  lemma CleanupOwn(s: State, g: nat)
    requires Inv(s) && g < |s.groups| && !s.groups[g].cleaned
    ensures forall id :: id in s.sm && id in s.groups[g].ids ==> s.sm[id] == g
    ensures forall h :: 0 <= h < |s.groups| && h != g ==> Mapped(DoCleanup(s, g).sm, h) == Mapped(s.sm, h)
    ensures Mapped(DoCleanup(s, g).sm, g) == {}
  {
    forall id | id in s.sm && id in s.groups[g].ids
      ensures s.sm[id] == g
    {
      MappedUncleaned(s, id);
      var h := s.sm[id];
      Separate(s, g, h, id);
    }
    assert GroupOK(s.sm, s.groups[g], g);
  }

  lemma CleanupKeeps(s: State, g: nat)
    requires Inv(s) && g < |s.groups| && s.groups[g].killed && !s.groups[g].cleaned
    ensures Inv(DoCleanup(s, g))
  {
    CleanupOwn(s, g);
    var s' := DoCleanup(s, g);
    forall h | 0 <= h < |s'.groups|
      ensures GroupOK(s'.sm, s'.groups[h], h)
    {
      assert GroupOK(s.sm, s.groups[h], h);
    }
  }

  lemma ChannelKeeps(s: State, g: nat, gr: Group)
    requires Inv(s) && g < |s.groups| && GroupOK(s.sm, gr, g)
    requires gr.ids == s.groups[g].ids && gr.cleaned == s.groups[g].cleaned
    ensures Inv(s.(groups := s.groups[g := gr]))
  {
    hide GroupOK;
  }

  /** Every enabled step, whatever came before, neither blocks nor panics, and keeps the invariant. */
  lemma StepKeeps(s: State, e: Event)
    requires Inv(s) && Enabled(s, e)
    ensures Step(s, e).Done? && Inv(Step(s, e).s)
  {
    hide GroupOK, Send;
    match e
    case Add(ids) => AddKeeps(s, ids);
    case Notify(id, preferKill) => NotifyKeeps(s, id, preferKill);
    case Receive(g) => ReceiveOK(s.sm, s.groups[g], g); ChannelKeeps(s, g, s.groups[g].(buf := s.groups[g].buf[1..]));
    case Kill(g) => KillOK(s.sm, s.groups[g], g); ChannelKeeps(s, g, s.groups[g].(killed := true));
    case Cleanup(g) => CleanupKeeps(s, g);
  }

  lemma ReceiveOK(sm: map<Id, nat>, gr: Group, g: nat)
    requires GroupOK(sm, gr, g) && gr.buf != []
    ensures GroupOK(sm, gr.(buf := gr.buf[1..]), g)
  {
  }

  lemma KillOK(sm: map<Id, nat>, gr: Group, g: nat)
    requires GroupOK(sm, gr, g)
    ensures GroupOK(sm, gr.(killed := true), g)
  {
  }

  // ----- whole runs -----

  const EMPTY := State(map[], [])

  /** A run: each event enabled where it happens, each step done. */
  ghost predicate Run(states: seq<State>, events: seq<Event>) {
    && |states| == |events| + 1 && states[0] == EMPTY
    && forall i :: 0 <= i < |events| ==>
      Enabled(states[i], events[i]) && Step(states[i], events[i]) == Done(states[i+1])
  }

  lemma {:induction false} RunInv(states: seq<State>, events: seq<Event>, n: nat)
    requires Run(states, events) && n <= |events|
    ensures Inv(states[n])
  {
    hide Inv, Step, Enabled;
    if n == 0 {
      EmptyInv();
    } else {
      RunInv(states, events, n - 1);
      StepKeeps(states[n-1], events[n-1]);
    }
  }

  lemma EmptyInv()
    ensures Inv(EMPTY)
  {
  }

  /** In every state of every run: each registered id belongs to a group that has not been cleaned up and
      finds room in its channel, which is open; no id is delivered twice, and only ids of the group are; what
      is in the channel is the last that was sent into it, so its consumer takes ids in the order they were sent;
      and a group that was not killed has delivered exactly the ids no longer registered, its channel
      being closed exactly when that is all of them. */
  lemma Delivery(states: seq<State>, events: seq<Event>, n: nat, g: nat)
    requires Run(states, events) && n <= |events| && g < |states[n].groups|
    ensures var s := states[n];
            var gr := s.groups[g];
            && Distinct(gr.sent) && (forall id <- gr.sent :: id in gr.ids && (id in s.sm ==> s.sm[id] != g))
            && |gr.sent| <= |gr.ids|
            && |gr.buf| <= |gr.sent| && gr.buf == gr.sent[|gr.sent| - |gr.buf|..]
            && (!gr.killed ==> (forall id <- gr.ids :: id in gr.sent <==> !(id in s.sm && s.sm[id] == g)))
            && (!gr.killed ==> (gr.closed <==> forall id <- gr.ids :: id in gr.sent))
            && (forall id :: id in s.sm && s.sm[id] == g ==> !gr.closed && |gr.buf| < |gr.ids| && !gr.cleaned)
  {
    RunInv(states, events, n);
    var s, gr := states[n], states[n].groups[g];
    assert GroupOK(s.sm, gr, g);
    DistinctSize(gr.sent, SetOf(gr.ids));
    SizeOfSet(gr.ids);
    forall id | id in s.sm && s.sm[id] == g
      ensures !gr.closed && |gr.buf| < |gr.ids| && !gr.cleaned
    {
      assert id in Mapped(s.sm, g);
      RoomForMapped(s.sm, gr, g, id);
    }
    assert forall id :: id in Mapped(s.sm, g) <==> id in s.sm && s.sm[id] == g;
  }

  /** Ids come from a 32-bit counter: two of them are equal exactly when a multiple of 2^32 was handed
      out in between. */
  function SpoofId(n: nat): (id: Id)
    ensures id < 0x1_0000_0000
  {
    (n + 1) % 0x1_0000_0000
  }

  lemma SpoofIdsFresh(i: nat, j: nat)
    requires i <= j
    ensures SpoofId(i) == SpoofId(j) <==> (j - i) % 0x1_0000_0000 == 0
    ensures SpoofId(0) == 1 && SpoofId(0xFFFF_FFFE) == 0xFFFF_FFFF && SpoofId(0xFFFF_FFFF) == 0
  {
  }

  // ----- ids that come back too early -----

  /** Steps that are done, in any order, whether or not the ids added are fresh. */
  ghost predicate Steps(states: seq<State>, events: seq<Event>) {
    && |states| == |events| + 1
    && forall i :: 0 <= i < |events| ==> Step(states[i], events[i]) == Done(states[i+1])
  }

  ghost predicate RegisteredTo(s: State, id: Id, n: nat) {
    id in s.sm && s.sm[id] == n
  }

  /** What takes an id off the group it is registered to: its answer, a group added with the same id, and the
      cleanup of any group that was added with it. */
  ghost predicate Takes(s: State, e: Event, id: Id) {
    match e
    case Add(ids) => id in ids
    case Notify(x, _) => x == id
    case Cleanup(g) => g < |s.groups| && id in s.groups[g].ids
    case _ => false
  }

  lemma StepTakes(s: State, e: Event, s': State, id: Id, n: nat)
    requires Step(s, e) == Done(s') && n < |s.groups|
    ensures |s.groups| <= |s'.groups| && forall g :: 0 <= g < |s.groups| ==> s'.groups[g].ids == s.groups[g].ids
    ensures RegisteredTo(s', id, n) <==> RegisteredTo(s, id, n) && !Takes(s, e, id)
    ensures id in s'.groups[n].sent ==> id in s.groups[n].sent || (RegisteredTo(s, id, n) && Takes(s, e, id))
  {
  }

  /** An id stays registered to its group exactly until one of these happens. */
  lemma {:induction false} RegisteredExactly(states: seq<State>, events: seq<Event>, k: nat, id: Id, n: nat)
    requires Steps(states, events) && k <= |events|
    requires n < |states[0].groups| && RegisteredTo(states[0], id, n) && id !in states[0].groups[n].sent
    ensures |states[0].groups| <= |states[k].groups|
    ensures forall g :: 0 <= g < |states[0].groups| ==> states[k].groups[g].ids == states[0].groups[g].ids
    ensures RegisteredTo(states[k], id, n) <==> forall i :: 0 <= i < k ==> !Takes(states[i], events[i], id)
    ensures RegisteredTo(states[k], id, n) ==> id !in states[k].groups[n].sent
  {
    hide Step, Takes;
    if k > 0 {
      RegisteredExactly(states, events, k - 1, id, n);
      StepTakes(states[k-1], events[k-1], states[k-1+1], id, n);
    }
  }

  /** An id neither registered to a group nor delivered to it never will be delivered. */
  lemma {:induction false} NeverSent(states: seq<State>, events: seq<Event>, j: nat, k: nat, id: Id, n: nat)
    requires Steps(states, events) && j <= k <= |events|
    requires n < |states[j].groups| && !RegisteredTo(states[j], id, n) && id !in states[j].groups[n].sent
    ensures n < |states[k].groups| && !RegisteredTo(states[k], id, n) && id !in states[k].groups[n].sent
  {
    hide Step, Takes;
    if j < k {
      NeverSent(states, events, j, k - 1, id, n);
      StepTakes(states[k-1], events[k-1], states[k-1+1], id, n);
    }
  }

  /** The cleanup of a group, any number of steps after a later group was added, takes an id off that one exactly
      if both were added with it and nothing else took it before; and then it is never delivered. */
  lemma ReuseExactly(states: seq<State>, events: seq<Event>, ids: seq<Id>, id: Id, g: nat, m: nat)
    requires Steps(states, events) && events != [] && events[0] == Add(ids) && id in ids
    requires g < |states[0].groups| && 0 < m < |events| && events[m] == Cleanup(g)
    ensures var n := |states[0].groups|;
            var lost := RegisteredTo(states[m], id, n) && !RegisteredTo(states[m+1], id, n);
            && (lost <==> id in states[0].groups[g].ids && forall i :: 0 < i < m ==> !Takes(states[i], events[i], id))
            && (lost ==> forall k :: m < k <= |events| ==>
                  n < |states[k].groups| && !RegisteredTo(states[k], id, n) && id !in states[k].groups[n].sent)
  {
    hide Step;
    var n := |states[0].groups|;
    var later, after := states[1..], events[1..];
    JustAdded(states[0], ids, states[0+1], id);
    assert Steps(later, after);
    RegisteredExactly(later, after, m - 1, id, n);
    assert later[m-1] == states[m] && later[0] == states[1];
    assert forall i :: 0 <= i < m - 1 ==> later[i] == states[i+1] && after[i] == events[i+1];
    assert forall i :: 0 < i < m ==> states[i] == later[i-1] && events[i] == after[i-1];
    StepTakes(states[m], events[m], states[m+1], id, n);
    if RegisteredTo(states[m], id, n) && !RegisteredTo(states[m+1], id, n) {
      hide Takes;
      CleanupSends(states[m], g, states[m+1], n);
      forall k | m < k <= |events|
        ensures n < |states[k].groups| && !RegisteredTo(states[k], id, n) && id !in states[k].groups[n].sent
      {
        NeverSent(states, events, m + 1, k, id, n);
      }
    }
  }

  lemma JustAdded(s: State, ids: seq<Id>, s': State, id: Id)
    requires Step(s, Add(ids)) == Done(s') && id in ids
    ensures |s'.groups| == |s.groups| + 1 && forall g :: 0 <= g < |s.groups| ==> s'.groups[g] == s.groups[g]
    ensures RegisteredTo(s', id, |s.groups|) && s'.groups[|s.groups|].sent == []
  {
  }

  lemma CleanupSends(s: State, g: nat, s': State, n: nat)
    requires Step(s, Cleanup(g)) == Done(s') && g < |s.groups| && n < |s.groups|
    ensures |s'.groups| == |s.groups| && s'.groups[n].sent == s.groups[n].sent
  {
  }

  const WAITING := Group([7], 1, [], [], false, false, false)

  /** The only id of group 0 is delivered, and the group is killed but not cleaned up yet. */
  const ONE_DELIVERED: seq<Event> := [Add([7]), Notify(7, false), Receive(0), Kill(0)]

  const AFTER_EACH: seq<State> := [
    EMPTY,
    State(map[7 := 0], [WAITING]),
    State(map[], [Group([7], 0, [7], [7], true, false, false)]),
    State(map[], [Group([7], 0, [], [7], true, false, false)]),
    State(map[], [Group([7], 0, [], [7], true, true, false)])]

  lemma OneDelivered()
    ensures Run(AFTER_EACH, ONE_DELIVERED)
  {
    var s1, s2, s3, s4 := AFTER_EACH[1], AFTER_EACH[2], AFTER_EACH[3], AFTER_EACH[4];
    assert Step(EMPTY, Add([7])) == Done(s1) by { assert SetOf([7]) == {7}; }
    assert Step(s1, Notify(7, false)) == Done(s2) by {
      assert Send(WAITING, 7, false) == Sent(s2.groups[0]);
      assert s1.sm - {7} == map[] && s1.groups[0 := s2.groups[0]] == s2.groups;
    }
    assert Step(s2, Receive(0)) == Done(s3) by {
      assert s2.groups[0].buf[1..] == [] && s2.groups[0 := s3.groups[0]] == s3.groups;
    }
    assert Step(s3, Kill(0)) == Done(s4) by {
      assert s3.groups[0 := s4.groups[0]] == s4.groups;
    }
    assert Fresh(EMPTY, [7]);
    hide Step;
    forall i | 0 <= i < |ONE_DELIVERED|
      ensures Enabled(AFTER_EACH[i], ONE_DELIVERED[i]) && Step(AFTER_EACH[i], ONE_DELIVERED[i]) == Done(AFTER_EACH[i+1])
    {
      assert i == 0 || i == 1 || i == 2 || i == 3;
    }
  }

  /** Why ids must not come back before the cleanup: after that run, group 1 with the same id loses it to the
      cleanup of group 0, and then waits for ever. */
  lemma ReusedTooEarly()
    ensures Run(AFTER_EACH, ONE_DELIVERED) && !Fresh(AFTER_EACH[4], [7])
    ensures var s := DoAdd(AFTER_EACH[4], [7]);
            && 7 in s.sm && s.sm[7] == 1 && Enabled(s, Cleanup(0))
            && var t := DoCleanup(s, 0);
               7 !in t.sm && t.groups[1] == WAITING && forall preferKill :: Step(t, Notify(7, preferKill)) == Done(t)
  {
    OneDelivered();
    hide Run;
    var s4 := AFTER_EACH[4];
    assert 7 in [7] && 7 in s4.groups[0].ids;
    var s := DoAdd(s4, [7]);
    assert s.groups == [s4.groups[0], WAITING];
  }

  lemma RegisterNone(sm: map<Id, nat>, ids: seq<Id>, g: nat)
    requires ids == []
    ensures Register(sm, ids, g) == sm
  {
  }

  lemma RegisterOne(sm: map<Id, nat>, ids: seq<Id>, id: Id, g: nat)
    ensures Register(sm, ids + [id], g) == Register(sm, ids, g)[id := g]
  {
  }

  // ----- the map as the object its methods change under one lock -----

  /** channel.Send: the select takes a case that is ready, and blocks when none is. */
  method SendProbe(g: Group, id: Id, preferKill: bool) returns (r: SendResult)
    ensures r == Send(g, id, preferKill)
  {
    var c := g.(count := g.count - 1);
    var sendReady := |c.buf| < |c.ids| || c.closed;
    if c.killed && (preferKill || !sendReady) {
      return Sent(c);
    }
    if !sendReady {
      return WouldBlock;
    }
    if c.closed {
      return WouldPanic;
    }
    c := c.(buf := c.buf + [id], sent := c.sent + [id]);
    if c.count == 0 {
      c := c.(closed := true);
    }
    return Sent(c);
  }

  class SpoofMap {
    var sm: map<Id, nat>
    var groups: seq<Group>

    ghost function Now(): State
      reads this
    {
      State(sm, groups)
    }

    constructor ()
      ensures Now() == EMPTY
    {
      sm, groups := map[], [];
    }

    method Add(ids: seq<Id>)
      requires Inv(Now()) && Fresh(Now(), ids)
      modifies this
      ensures Inv(Now()) && Now() == DoAdd(old(Now()), ids)
    {
      hide Inv, Fresh, Register;
      AddKeeps(Now(), ids);
      RegisterNone(sm, ids[..0], |groups|);
      var ch := |groups|;
      groups := groups + [Group(ids, |ids|, [], [], false, false, false)];
      for i := 0 to |ids|
        invariant groups == old(groups) + [Group(ids, |ids|, [], [], false, false, false)]
        invariant sm == Register(old(sm), ids[..i], ch)
      {
        RegisterOne(old(sm), ids[..i], ids[i], ch);
        sm := sm[ids[i] := ch];
        assert ids[..i+1] == ids[..i] + [ids[i]];
      }
      assert ids[..|ids|] == ids;
    }

    /** Never blocks, never panics: `preferKill` is how the choice falls when the channel has room and the
        group was killed. */
    method Notify(id: Id, preferKill: bool)
      requires Inv(Now())
      modifies this
      ensures Inv(Now()) && Done(Now()) == DoNotify(old(Now()), id, preferKill)
    {
      NotifyKeeps(Now(), id, preferKill);
      if id !in sm {
        return;
      }
      var g := sm[id];
      MappedUncleaned(Now(), id);
      SendOK(sm, groups[g], g, id, preferKill);
      hide Inv, Send;
      var sent := SendProbe(groups[g], id, preferKill);
      groups := groups[g := sent.g];
      sm := sm - {id};
    }

    method Clean(g: nat)
      requires Inv(Now()) && Enabled(Now(), Cleanup(g))
      modifies this
      ensures Inv(Now()) && Now() == DoCleanup(old(Now()), g)
    {
      CleanupKeeps(Now(), g);
      var ids := groups[g].ids;
      for i := 0 to |ids|
        invariant groups == old(groups)
        invariant sm == old(sm) - SetOf(ids[..i])
      {
        sm := sm - {ids[i]};
        assert ids[..i+1] == ids[..i] + [ids[i]];
      }
      assert ids[..|ids|] == ids;
      groups := groups[g := groups[g].(cleaned := true)];
    }
  }
}
