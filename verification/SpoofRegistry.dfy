/** The table of expected spoofed probes at a measurement host: a probe is expected from when it is
    registered, its answer is noted when it is received, and a ticker sends what was noted, sorted by the
    address that asked for it. */
module SpoofRegistry {

  datatype Option<T> = None | Some(value: T)

  datatype Probe = Probe(id: nat, senderIp: nat, data: nat)

  /** When an id was registered, and the probe received for it. */
  datatype Entry = Entry(t: nat, probe: Option<Probe>)

  type Table = map<nat, Entry>

  /** Seconds after which an entry is old. */
  const LIFETIME := 60

  /** The most entries one cleaning looks at. */
  const BATCH := 10000

  predicate Old(e: Entry, now: nat) {
    now > e.t + LIFETIME
  }

  /** An entry is old after a minute, not before. */
  lemma AMinute(e: Entry, now: nat)
    ensures Old(e, now) <==> now - e.t > 60
  {
  }

  // ----- the table's steps -----

  predicate Registrable(m: Table, id: nat, now: nat) {
    id in m ==> Old(m[id], now)
  }

  function Registered(m: Table, id: nat, now: nat): Table {
    if Registrable(m, id, now) then m[id := Entry(now, None)] else m
  }

  function Received(m: Table, p: Probe): Table {
    if p.id in m then m[p.id := m[p.id].(probe := Some(p))] else m
  }

  predicate Answered(m: Table, id: nat) {
    id in m && m[id].probe.Some?
  }

  function Unanswered(m: Table): Table {
    map id | id in m && m[id].probe.None? :: m[id]
  }

  function Cleaned(m: Table, visited: set<nat>, now: nat): Table {
    map id | id in m && !(id in visited && Old(m[id], now)) :: m[id]
  }

  /** Every probe noted is noted under its own id. */
  ghost predicate Keyed(m: Table) {
    forall id :: Answered(m, id) ==> m[id].probe.value.id == id
  }

  // ----- one tick -----

  type Batches = map<nat, seq<Probe>>

  function Batch(b: Batches, ip: nat): seq<Probe> {
    if ip in b then b[ip] else []
  }

  /** The batches hold exactly the probes of `ids`, each once, in the batch of its sender. */
  ghost predicate Sorted(m: Table, ids: set<nat>, b: Batches) {
    && (forall ip, k :: ip in b && 0 <= k < |b[ip]| ==>
          && b[ip][k].senderIp == ip && b[ip][k].id in ids
          && b[ip][k].id in m && m[b[ip][k].id].probe == Some(b[ip][k]))
    && (forall ip, k, l :: ip in b && 0 <= k < l < |b[ip]| ==> b[ip][k].id != b[ip][l].id)
    && (forall id :: id in ids && Answered(m, id) ==> m[id].probe.value in Batch(b, m[id].probe.value.senderIp))
    && (forall ip :: ip in b ==> b[ip] != [])
  }

  /** One more probe goes to the end of its sender's batch. */
  lemma SortOne(m: Table, ids: set<nat>, b: Batches, id: nat)
    requires Sorted(m, ids, b) && Keyed(m) && id !in ids && Answered(m, id)
    ensures var p := m[id].probe.value;
            Sorted(m, ids + {id}, b[p.senderIp := Batch(b, p.senderIp) + [p]])
  {
    var p := m[id].probe.value;
    var b' := b[p.senderIp := Batch(b, p.senderIp) + [p]];
    forall i | i in ids + {id} && Answered(m, i)
      ensures m[i].probe.value in Batch(b', m[i].probe.value.senderIp)
    {
      if i == id {
        assert Batch(b', p.senderIp)[|Batch(b, p.senderIp)|] == p;
      } else {
        var q := m[i].probe.value;
        assert q in Batch(b, q.senderIp);
      }
    }
  }

  lemma SortNone(m: Table, ids: set<nat>, b: Batches, id: nat)
    requires Sorted(m, ids, b) && !Answered(m, id)
    ensures Sorted(m, ids + {id}, b)
  {
  }

  class SpoofMap {
    var spoofs: Table

    ghost predicate Valid()
      reads this
    {
      Keyed(spoofs)
    }

    constructor ()
      ensures Valid() && spoofs == map[]
    {
      spoofs := map[];
    }

    /** False when the id is in use. An entry older than a minute may be taken over. */
    method Register(id: nat, now: nat) returns (ok: bool)
      requires Valid()
      modifies this
      ensures Valid()
      ensures ok == Registrable(old(spoofs), id, now) && spoofs == Registered(old(spoofs), id, now)
    {
      if id in spoofs {
        if now > spoofs[id].t + LIFETIME {
          spoofs := spoofs[id := Entry(now, None)];
          return true;
        }
        return false;
      }
      spoofs := spoofs[id := Entry(now, None)];
      return true;
    }

    /** False when nobody expects the probe. */
    method Receive(p: Probe) returns (ok: bool)
      requires Valid()
      modifies this
      ensures Valid()
      ensures ok == (p.id in old(spoofs)) && spoofs == Received(old(spoofs), p)
    {
      if p.id in spoofs {
        spoofs := spoofs[p.id := spoofs[p.id].(probe := Some(p))];
        return true;
      }
      return false;
    }

    /** One tick of the sender: every answered entry leaves the table and its probe goes to exactly one batch,
        that of its sender; the others stay as they are. */
    method SendSpoofs() returns (dests: Batches)
      requires Valid()
      modifies this
      ensures Valid() && spoofs == Unanswered(old(spoofs))
      ensures Sorted(old(spoofs), old(spoofs).Keys, dests)
    {
      dests := map[];
      ghost var m := spoofs;
      var keys := spoofs.Keys;
      while keys != {}
        invariant keys <= m.Keys
        invariant spoofs == map id | id in m && (id in keys || m[id].probe.None?) :: m[id]
        invariant Sorted(m, m.Keys - keys, dests)
      {
        hide Sorted, Keyed;
        var id :| id in keys;
        ghost var rest := keys - {id};
        assert m.Keys - rest == (m.Keys - keys) + {id};
        if spoofs[id].probe.Some? {
          var p := spoofs[id].probe.value;
          SortOne(m, m.Keys - keys, dests, id);
          dests := dests[p.senderIp := Batch(dests, p.senderIp) + [p]];
          spoofs := map i | i in spoofs && i != id :: spoofs[i];
        } else {
          SortNone(m, m.Keys - keys, dests, id);
        }
        keys := keys - {id};
      }
      assert m.Keys - keys == m.Keys;
    }

    /** One tick of the cleaner: it looks at all entries, or at some ten thousand of them, and drops the old. */
    method CleanOld(now: nat) returns (ghost visited: set<nat>)
      requires Valid()
      modifies this
      ensures Valid() && visited <= old(spoofs).Keys
      ensures |visited| == if |old(spoofs).Keys| < BATCH then |old(spoofs).Keys| else BATCH
      ensures spoofs == Cleaned(old(spoofs), visited, now)
    {
      visited := {};
      var keys, count := spoofs.Keys, 0;
      ghost var m := spoofs;
      while keys != {}
        invariant keys !! visited && keys + visited == m.Keys
        invariant count == |visited| < BATCH
        invariant spoofs == Cleaned(m, visited, now)
      {
        hide Cleaned, Keyed;
        var id :| id in keys;
        CleanOne(m, visited, now, id);
        keys := keys - {id};
        visited := visited + {id};
        if now > spoofs[id].t + LIFETIME {
          spoofs := map i | i in spoofs && i != id :: spoofs[i];
        }
        count := count + 1;
        if count == BATCH {
          Counted(visited, m.Keys);
          break;
        }
      }
    }
  }

  lemma CleanOne(m: Table, visited: set<nat>, now: nat, id: nat)
    requires id in m && id !in visited
    ensures var c := Cleaned(m, visited, now);
            && id in c && c[id] == m[id]
            && Cleaned(m, visited + {id}, now)
               == if now > m[id].t + LIFETIME then map i | i in c && i != id :: c[i] else c
  {
  }

  lemma Counted(a: set<nat>, b: set<nat>)
    requires a <= b
    ensures |a| <= |b|
  {
    assert b == a + (b - a);
  }

  // ----- runs -----

  datatype Event =
    | Register(id: nat, now: nat)
    | Receive(p: Probe)
    | Tick
    | Clean(visited: set<nat>, at: nat)

  function Step(m: Table, e: Event): Table {
    match e
    case Register(id, now) => Registered(m, id, now)
    case Receive(p) => Received(m, p)
    case Tick => Unanswered(m)
    case Clean(visited, at) => Cleaned(m, visited, at)
  }

  function Run(es: seq<Event>): Table {
    if es == [] then map[] else Step(Run(es[..|es| - 1]), es[|es| - 1])
  }

  predicate Registers(es: seq<Event>, k: nat, id: nat)
    requires k < |es|
  {
    es[k].Register? && es[k].id == id && Registrable(Run(es[..k]), id, es[k].now)
  }

  predicate Sends(es: seq<Event>, k: nat, id: nat)
    requires k < |es|
  {
    es[k].Tick? && Answered(Run(es[..k]), id)
  }

  /** How many registrations of `id` succeeded in the first `n` events. */
  function Registrations(es: seq<Event>, n: nat, id: nat): nat
    requires n <= |es|
  {
    if n == 0 then 0 else Registrations(es, n - 1, id) + if Registers(es, n - 1, id) then 1 else 0
  }

  /** How many probes with `id` were sent in the first `n` events. */
  function Sendings(es: seq<Event>, n: nat, id: nat): nat
    requires n <= |es|
  {
    if n == 0 then 0 else Sendings(es, n - 1, id) + if Sends(es, n - 1, id) then 1 else 0
  }

  lemma RunStep(es: seq<Event>, n: nat)
    requires n < |es|
    ensures Run(es[..n + 1]) == Step(Run(es[..n]), es[n])
  {
    assert es[..n + 1][..n] == es[..n];
  }

  /** At most one probe is sent for each registration, and none is left for an id that is still expected. */
  lemma {:induction false} OneForEach(es: seq<Event>, n: nat, id: nat)
    requires n <= |es|
    ensures Sendings(es, n, id) + (if id in Run(es[..n]) then 1 else 0) <= Registrations(es, n, id)
  {
    if n > 0 {
      OneForEach(es, n - 1, id);
      RunStep(es, n - 1);
    }
  }

  lemma StepKeyed(m: Table, e: Event)
    requires Keyed(m)
    ensures Keyed(Step(m, e))
  {
    assert forall id :: Answered(Step(m, e), id) && !Answered(m, id) ==> e.Receive? && id == e.p.id;
    assert forall id :: Answered(Step(m, e), id) && !(e.Receive? && id == e.p.id) ==> Answered(m, id);
  }

  lemma {:induction false} RunKeyed(es: seq<Event>)
    ensures Keyed(Run(es))
  {
    if es != [] {
      RunKeyed(es[..|es| - 1]);
      StepKeyed(Run(es[..|es| - 1]), es[|es| - 1]);
    }
  }

  /** What is noted for an id is the last probe received for it, and the last registration of the id is
      earlier than that. */
  lemma {:induction false} NotedWasReceived(es: seq<Event>, id: nat) returns (r: nat, k: nat)
    requires Answered(Run(es), id)
    ensures r < k < |es| && Registers(es, r, id)
    ensures es[k] == Receive(Run(es)[id].probe.value) && es[k].p.id == id
    ensures forall j :: r < j < |es| ==> !Registers(es, j, id) && !Sends(es, j, id)
    ensures forall j :: k < j < |es| && es[j].Receive? ==> es[j].p.id != id
    decreases |es|
  {
    var n := |es| - 1;
    var front := es[..n];
    SameBefore(es, n);
    if es[n].Receive? && es[n].p.id == id {
      k := n;
      r := LastRegistered(front, id);
    } else {
      r, k := NotedWasReceived(front, id);
    }
    assert Registers(front, r, id);
    assert forall j :: r < j < n ==>
      Registers(es, j, id) == Registers(front, j, id) && Sends(es, j, id) == Sends(front, j, id);
  }

  lemma SameBefore(es: seq<Event>, n: nat)
    requires n == |es| - 1
    ensures forall j: nat :: j < n ==> es[..n][..j] == es[..j]
  {
  }

  /** An expected id was registered, and neither registered nor sent since. */
  lemma {:induction false} LastRegistered(es: seq<Event>, id: nat) returns (r: nat)
    requires id in Run(es)
    ensures r < |es| && Registers(es, r, id)
    ensures forall j :: r < j < |es| ==> !Registers(es, j, id) && !Sends(es, j, id)
    decreases |es|
  {
    var n := |es| - 1;
    var front := es[..n];
    SameBefore(es, n);
    if Registers(es, n, id) {
      r := n;
    } else {
      r := LastRegistered(front, id);
      assert forall j :: r < j < n ==>
        Registers(es, j, id) == Registers(front, j, id) && Sends(es, j, id) == Sends(front, j, id);
    }
    assert Registers(es, r, id);
  }

  /** Whether an event could drop an entry registered at `t`. */
  predicate Spares(e: Event, t: nat) {
    match e
    case Register(_, now) => now <= t + LIFETIME
    case Receive(_) => true
    case Tick => false
    case Clean(_, at) => at <= t + LIFETIME
  }

  /** Until the next tick, and while it is not old, an answered entry keeps its place, so the tick sends a
      probe for it. */
  lemma {:induction false} YoungIsSent(es: seq<Event>, k: nat, id: nat)
    requires k < |es| && es[|es| - 1].Tick? && Answered(Run(es[..k]), id)
    requires forall j :: k <= j < |es| - 1 ==> Spares(es[j], Run(es[..k])[id].t)
    ensures Sends(es, |es| - 1, id)
    decreases |es| - k
  {
    if k < |es| - 1 {
      RunStep(es, k);
      assert Spares(es[k], Run(es[..k])[id].t);
      YoungIsSent(es, k + 1, id);
    }
  }
}
