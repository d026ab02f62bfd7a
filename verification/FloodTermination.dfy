/** Every broadcast dies out, even if servers forget what they have seen. */
module FloodTermination {
  import opened Mesh
  import opened Flood
  import opened Cardinality

  function Pow(n: nat, k: nat): (p: nat)
    ensures n > 0 ==> p > 0
  {
    if k == 0 then 1 else Times(n, Pow(n, k - 1))
  }

  function Times(a: nat, b: nat): (c: nat)
    ensures a > 0 && b > 0 ==> c > 0
  {
    Product(a, b);
    a * b
  }

  lemma Product(a: nat, b: nat)
    ensures 0 <= a * b && (a > 0 && b > 0 ==> a * b > 0)
  {
  }

  /** How many deliveries a copy can still cause, counting its own. */
  function Weight(n: nat, p: Packet): nat {
    Pow(n, if p.msg.ttl < 0 then 0 else p.msg.ttl)
  }

  function Potential(n: nat, flight: seq<Packet>): nat {
    if flight == [] then 0 else Potential(n, flight[..|flight| - 1]) + Weight(n, flight[|flight| - 1])
  }

  lemma {:induction false} PotentialOfSum(n: nat, a: seq<Packet>, b: seq<Packet>)
    ensures Potential(n, a + b) == Potential(n, a) + Potential(n, b)
  {
    if b == [] {
      assert a + b == a;
    } else {
      PotentialOfSum(n, a, b[..|b| - 1]);
      assert (a + b)[..|a + b| - 1] == a + b[..|b| - 1];
    }
  }

  lemma PotentialWithout(n: nat, flight: seq<Packet>, i: nat)
    requires i < |flight|
    ensures Potential(n, flight) == Potential(n, Without(flight, i)) + Weight(n, flight[i])
  {
    assert flight == flight[..i] + ([flight[i]] + flight[i + 1..]);
    PotentialOfSum(n, flight[..i], [flight[i]] + flight[i + 1..]);
    PotentialOfSum(n, [flight[i]], flight[i + 1..]);
    PotentialOfSum(n, flight[..i], flight[i + 1..]);
    assert [flight[i]][..0] == [];
    assert Potential(n, [flight[i]]) == Weight(n, flight[i]);
  }

  /** A fan-out reaches fewer than all servers: never the sender itself. */
  lemma FanoutSize(t: Topology, s: string, skip: set<string>)
    requires t.Valid() && s in t.peers
    ensures |Fanout(t.peers[s], skip)| < |t.servers|
  {
    var sent := Fanout(t.peers[s], skip);
    var names := set n | n in sent;
    DistinctSize(sent);
    forall n | n in names
      ensures n in t.servers && n != s
    {
      assert t.Linked(s, n);
      assert t.Linked(n, s);
    }
    assert names <= t.servers - {s};
    SubsetSize(names, t.servers - {s});
  }

  lemma {:induction false} PotentialOfPackets(n: nat, src: string, sent: seq<string>, c: Control)
    requires 0 <= c.ttl
    ensures Potential(n, Packets(src, sent, c)) == Times(|sent|, Pow(n, c.ttl))
  {
    if sent == [] {
      assert Packets(src, sent, c) == [];
      ZeroTimes(Pow(n, c.ttl));
    } else {
      var init := sent[..|sent| - 1];
      PotentialOfPackets(n, src, init, c);
      assert Packets(src, sent, c)[..|sent| - 1] == Packets(src, init, c);
      OneMore(|init|, Pow(n, c.ttl));
    }
  }

  lemma ZeroTimes(p: nat)
    ensures Times(0, p) == 0
  {
  }

  lemma OneMore(k: nat, p: nat)
    ensures Times(k + 1, p) == Times(k, p) + p
  {
  }

  lemma FewerTimes(k: nat, n: nat, p: nat)
    requires k < n && p > 0
    ensures Times(k, p) < Times(n, p)
  {
    OneMore(k, p);
    MoreTimes(k + 1, n, p);
  }

  lemma {:induction false} MoreTimes(k: nat, n: nat, p: nat)
    requires k <= n
    ensures Times(k, p) <= Times(n, p)
    decreases n
  {
    if k < n {
      MoreTimes(k, n - 1, p);
      OneMore(n - 1, p);
    }
  }

  /** Every delivery lowers the potential, whatever the servers remember: accepted or not, deduplicated or not. */
  lemma DeliveryLowersPotential(t: Topology, n: Net, i: nat)
    requires t.Valid() && Enabled(t, n, Deliver(i))
    ensures Potential(|t.servers|, Step(t, n, Deliver(i)).flight) < Potential(|t.servers|, n.flight)
  {
    var size, p := |t.servers|, n.flight[i];
    PotentialWithout(size, n.flight, i);
    assert size > 0;
    if Accepts(p.dst, n.seen[p.dst], p.msg) {
      PotentialOfSum(size, Without(n.flight, i), Copies(t, p));
      if p.msg.ttl > 1 {
        var copy := Relayed(p.dst, p.msg);
        var skip := {p.src} + PathSet(copy);
        FanoutSize(t, p.dst, skip);
        PotentialOfPackets(size, p.dst, Fanout(t.peers[p.dst], skip), copy);
        FewerTimes(|Fanout(t.peers[p.dst], skip)|, size, Pow(size, p.msg.ttl - 1));
      }
    }
  }

  /** Deliveries in a run, and originations. */
  function Deliveries(es: seq<Event>): nat {
    if es == [] then 0 else (if es[0].Deliver? then 1 else 0) + Deliveries(es[1..])
  }

  function Originations(es: seq<Event>): nat {
    if es == [] then 0 else (if es[0].Originate? then 1 else 0) + Originations(es[1..])
  }

  lemma OriginationCost(t: Topology, n: Net, e: Event)
    requires t.Valid() && Enabled(t, n, e) && e.Originate?
    ensures Potential(|t.servers|, Step(t, n, e).flight)
            <= Potential(|t.servers|, n.flight) + Pow(|t.servers|, MAX_TTL + 1)
  {
    var size, sent := |t.servers|, Fanout(t.peers[e.server], {});
    FanoutSize(t, e.server, {});
    PotentialOfSum(size, n.flight, Packets(e.server, sent, Fresh(e.server, e.id, e.payload)));
    PotentialOfPackets(size, e.server, sent, Fresh(e.server, e.id, e.payload));
    MoreTimes(|sent|, size, Pow(size, MAX_TTL));
  }

  /** Over any run, with ids forgotten at any time, deliveries are bounded by what was in flight at the start
      and what each broadcast can cause. */
  lemma {:induction false} DeliveriesBounded(t: Topology, n: Net, es: seq<Event>)
    requires t.Valid() && Feasible(t, n, es)
    ensures Deliveries(es) + Potential(|t.servers|, After(t, n, es).flight)
            <= Potential(|t.servers|, n.flight) + Times(Originations(es), Pow(|t.servers|, MAX_TTL + 1))
    decreases |es|
  {
    var cost := Pow(|t.servers|, MAX_TTL + 1);
    if es == [] {
      ZeroTimes(cost);
    } else {
      DeliveriesBounded(t, Step(t, n, es[0]), es[1..]);
      match es[0] {
        case Originate(_, _, _) =>
          OriginationCost(t, n, es[0]);
          OneMore(Originations(es[1..]), cost);
        case Deliver(i) =>
          DeliveryLowersPotential(t, n, i);
        case Forget(_, _) =>
      }
    }
  }

  // ---- sends ----

  /** Copies put in flight by one step. */
  function SentBy(t: Topology, n: Net, e: Event): nat
    requires Enabled(t, n, e)
  {
    match e
    case Originate(s, _, _) => |Fanout(t.peers[s], {})|
    case Deliver(i) =>
      if Accepts(n.flight[i].dst, n.seen[n.flight[i].dst], n.flight[i].msg) then |Copies(t, n.flight[i])| else 0
    case Forget(_, _) => 0
  }

  function Sends(t: Topology, n: Net, es: seq<Event>): nat
    requires Feasible(t, n, es)
    decreases |es|
  {
    if es == [] then 0 else SentBy(t, n, es[0]) + Sends(t, Step(t, n, es[0]), es[1..])
  }

  /** Every copy sent is delivered or still in flight. */
  lemma {:induction false} SendsBalance(t: Topology, n: Net, es: seq<Event>)
    requires Feasible(t, n, es)
    ensures |n.flight| + Sends(t, n, es) == Deliveries(es) + |After(t, n, es).flight|
    decreases |es|
  {
    if es != [] {
      SendsBalance(t, Step(t, n, es[0]), es[1..]);
    }
  }

  lemma {:induction false} EachCopyWeighs(n: nat, flight: seq<Packet>)
    requires n > 0
    ensures |flight| <= Potential(n, flight)
  {
    if flight != [] {
      EachCopyWeighs(n, flight[..|flight| - 1]);
    }
  }

  /** Starting from a quiet network, k broadcasts cause at most k * N^11 sends, however the run goes. */
  lemma SendsBounded(t: Topology, n: Net, es: seq<Event>)
    requires t.Valid() && t.servers != {} && n.flight == [] && Feasible(t, n, es)
    ensures Sends(t, n, es) <= Times(Originations(es), Pow(|t.servers|, MAX_TTL + 1))
  {
    SendsBalance(t, n, es);
    EachCopyWeighs(|t.servers|, After(t, n, es).flight);
    DeliveriesBounded(t, n, es);
  }
}
