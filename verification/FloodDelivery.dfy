/** Every server connected to the originator accepts a broadcast exactly once. */
module FloodDelivery {
  import opened Mesh
  import opened Flood
  import opened Cardinality

  /** A server remembers the id: it has accepted the message or sent it. */
  predicate Has(n: Net, s: string, id: string) {
    s in n.seen && id in n.seen[s]
  }

  predicate Coming(n: Net, s: string, id: string) {
    exists i :: 0 <= i < |n.flight| && n.flight[i].dst == s && n.flight[i].msg.id == id
  }

  /** How often server s accepted message id. */
  function Count(log: seq<Acceptance>, s: string, id: string): nat {
    if log == [] then 0
    else Count(log[..|log| - 1], s, id) + (if log[|log| - 1].server == s && log[|log| - 1].id == id then 1 else 0)
  }

  ghost predicate Walk(t: Topology, w: seq<string>, a: string, b: string) {
    && |w| > 0 && w[0] == a && w[|w| - 1] == b
    && forall i :: 0 <= i < |w| - 1 ==> t.Linked(w[i], w[i + 1])
  }

  ghost predicate Connected(t: Topology, a: string, b: string) {
    exists w :: Walk(t, w, a, b)
  }

  // ---- ids that were never given out leave no trace ----

  ghost predicate Tracked(n: Net) {
    && (forall i :: 0 <= i < |n.flight| ==> n.flight[i].msg.id in n.used)
    && (forall s :: s in n.seen ==> n.seen[s] <= n.used)
    && (forall i :: 0 <= i < |n.log| ==> n.log[i].id in n.used)
  }

  lemma StepKeepsTracked(t: Topology, n: Net, e: Event)
    requires Enabled(t, n, e) && Tracked(n)
    ensures Tracked(Step(t, n, e))
    ensures Step(t, n, e).seen.Keys == n.seen.Keys
  {
  }

  lemma {:induction false} RunKeepsTracked(t: Topology, n: Net, es: seq<Event>)
    requires Feasible(t, n, es) && Tracked(n)
    ensures Tracked(After(t, n, es))
    ensures After(t, n, es).seen.Keys == n.seen.Keys
    decreases |es|
  {
    if es != [] {
      StepKeepsTracked(t, n, es[0]);
      RunKeepsTracked(t, Step(t, n, es[0]), es[1..]);
    }
  }

  lemma {:induction false} NoCount(log: seq<Acceptance>, s: string, id: string)
    requires forall i :: 0 <= i < |log| ==> log[i].id != id
    ensures Count(log, s, id) == 0
  {
    if log != [] {
      NoCount(log[..|log| - 1], s, id);
    }
  }

  // ---- the invariant of one broadcast ----

  datatype Broadcast = Broadcast(origin: string, id: string, payload: string)

  predicate Distinct(names: seq<string>) {
    forall i, j :: 0 <= i < j < |names| ==> names[i] != names[j]
  }

  /** No way from here that visits nobody twice passes more than eleven servers. */
  ghost predicate Compact(t: Topology, origin: string) {
    forall w, x :: Walk(t, w, origin, x) && Distinct(w) ==> |w| <= MAX_TTL + 1
  }

  /** Each copy has lost one hop for every server on its path, which is the way it came, and everyone on the path
      has the message. */
  ghost predicate GoodCopy(t: Topology, n: Net, b: Broadcast, p: Packet) {
    && t.Linked(p.src, p.dst) && Has(n, p.src, b.id)
    && p.msg.origin == b.origin && p.msg.payload == b.payload
    && p.msg.ttl >= 1 && p.msg.ttl + |p.msg.path| == MAX_TTL + 1
    && Distinct(p.msg.path) && Walk(t, p.msg.path, b.origin, p.src)
    && forall k :: 0 <= k < |p.msg.path| ==> Has(n, p.msg.path[k], b.id)
  }

  ghost predicate GoodFlight(t: Topology, n: Net, b: Broadcast) {
    forall i :: 0 <= i < |n.flight| && n.flight[i].msg.id == b.id ==> GoodCopy(t, n, b, n.flight[i])
  }

  /** Whoever has the message has passed it to every neighbour, or a copy is on its way there. */
  ghost predicate Covered(t: Topology, n: Net, b: Broadcast) {
    forall x, y :: t.Linked(x, y) && Has(n, x, b.id) ==> Has(n, y, b.id) || Coming(n, y, b.id)
  }

  ghost predicate Counted(n: Net, b: Broadcast) {
    && (forall s :: s in n.seen ==>
         Count(n.log, s, b.id) == if s != b.origin && Has(n, s, b.id) then 1 else 0)
    && (forall i :: 0 <= i < |n.log| && n.log[i].id == b.id ==> n.log[i].payload == b.payload)
  }

  ghost predicate Reached(t: Topology, n: Net, b: Broadcast) {
    forall s :: Has(n, s, b.id) ==> Connected(t, b.origin, s)
  }

  ghost predicate Inv(t: Topology, n: Net, b: Broadcast) {
    && n.seen.Keys == t.servers && b.id != "" && b.id in n.used
    && Has(n, b.origin, b.id)
    && GoodFlight(t, n, b) && Covered(t, n, b) && Counted(n, b) && Reached(t, n, b)
  }

  // ---- origination ----

  lemma OriginateEstablishes(t: Topology, n: Net, b: Broadcast)
    requires t.Valid() && Tracked(n) && n.seen.Keys == t.servers
    requires Enabled(t, n, Originate(b.origin, b.id, b.payload))
    ensures Inv(t, Step(t, n, Originate(b.origin, b.id, b.payload)), b)
  {
    var m := Step(t, n, Originate(b.origin, b.id, b.payload));
    var sent := Fanout(t.peers[b.origin], {});
    assert Walk(t, [b.origin], b.origin, b.origin);
    forall s | s in m.seen
      ensures Count(m.log, s, b.id) == 0
      ensures Has(m, s, b.id) ==> s == b.origin
    {
      NoCount(m.log, s, b.id);
    }
    forall x, y | t.Linked(x, y) && Has(m, x, b.id)
      ensures Has(m, y, b.id) || Coming(m, y, b.id)
    {
      var k :| 0 <= k < |sent| && sent[k] == y;
      assert m.flight[|n.flight| + k].dst == y;
    }
  }

  // ---- delivery ----

  lemma CountAppend(log: seq<Acceptance>, a: Acceptance, s: string, id: string)
    ensures Count(log + [a], s, id) == Count(log, s, id) + (if a.server == s && a.id == id then 1 else 0)
  {
    assert (log + [a])[..|log|] == log;
  }

  /** A packet of another broadcast changes nothing. */
  lemma OtherDelivery(t: Topology, n: Net, i: nat, b: Broadcast)
    requires t.Valid() && Inv(t, n, b) && Enabled(t, n, Deliver(i)) && n.flight[i].msg.id != b.id
    ensures Inv(t, Step(t, n, Deliver(i)), b)
  {
    hide Connected, Fanout, Coming;
    var m, p := Step(t, n, Deliver(i)), n.flight[i];
    assert forall s :: Has(m, s, b.id) <==> Has(n, s, b.id);
    forall s | s in m.seen
      ensures Count(m.log, s, b.id) == Count(n.log, s, b.id)
    {
      CountAppend(n.log, Acceptance(p.dst, p.msg.id, p.msg.payload), s, b.id);
    }
    forall x, y | t.Linked(x, y) && Has(m, x, b.id)
      ensures Has(m, y, b.id) || Coming(m, y, b.id)
    {
      if !Has(n, y, b.id) {
        StillComing(n, y, b.id, i, m);
      }
    }
  }

  /** Removing one packet and adding others leaves the rest coming. */
  lemma StillComing(n: Net, y: string, id: string, i: nat, m: Net)
    requires Coming(n, y, id) && i < |n.flight|
    requires n.flight[i].dst != y || n.flight[i].msg.id != id
    requires |m.flight| >= |n.flight| - 1 && m.flight[..|n.flight| - 1] == Without(n.flight, i)
    ensures Coming(m, y, id)
  {
    var j :| 0 <= j < |n.flight| && n.flight[j].dst == y && n.flight[j].msg.id == id;
    var k := if j < i then j else j - 1;
    assert Without(n.flight, i)[k] == n.flight[j];
    assert m.flight[..|n.flight| - 1][k] == m.flight[k];
  }

  /** A copy that is turned away finds a server that has the message already. */
  lemma RejectedDelivery(t: Topology, n: Net, i: nat, b: Broadcast)
    requires t.Valid() && Inv(t, n, b) && Enabled(t, n, Deliver(i)) && n.flight[i].msg.id == b.id
    requires !Accepts(n.flight[i].dst, n.seen[n.flight[i].dst], n.flight[i].msg)
    ensures Has(n, n.flight[i].dst, b.id)
    ensures Inv(t, Step(t, n, Deliver(i)), b)
  {
    var m, p := Step(t, n, Deliver(i)), n.flight[i];
    assert GoodCopy(t, n, b, p);
    forall x, y | t.Linked(x, y) && Has(m, x, b.id)
      ensures Has(m, y, b.id) || Coming(m, y, b.id)
    {
      if !Has(n, y, b.id) {
        StillComing(n, y, b.id, i, m);
      }
    }
  }

  /** At the last hop everybody next to the receiver is on the path already: one more would be a twelfth. */
  lemma PathExhausts(t: Topology, origin: string, p: Packet, y: string)
    requires Compact(t, origin) && Walk(t, p.msg.path, origin, p.src) && Distinct(p.msg.path)
    requires |p.msg.path| == MAX_TTL && p.dst !in p.msg.path
    requires t.Linked(p.src, p.dst) && t.Linked(p.dst, y) && y != p.dst
    ensures y in p.msg.path
  {
    hide Compact;
    if y !in p.msg.path {
      var w := p.msg.path + [p.dst] + [y];
      assert Walk(t, w, origin, y) && Distinct(w);
      NoLongerWay(t, origin, w, y);
    }
  }

  lemma NoLongerWay(t: Topology, origin: string, w: seq<string>, y: string)
    requires Compact(t, origin) && Walk(t, w, origin, y) && Distinct(w)
    ensures |w| <= MAX_TTL + 1
  {
  }

  /** Up to eleven servers are always compact. */
  lemma FewAreCompact(t: Topology, origin: string)
    requires t.Valid() && |t.servers| <= MAX_TTL + 1
    ensures Compact(t, origin)
  {
    forall w, x | Walk(t, w, origin, x) && Distinct(w)
      ensures |w| <= MAX_TTL + 1
    {
      if |w| > 1 {
        forall i | 0 <= i < |w|
          ensures w[i] in t.servers
        {
          if i < |w| - 1 {
            assert t.Linked(w[i], w[i + 1]);
          } else {
            assert t.Linked(w[i - 1], w[i - 1 + 1]);
            assert t.Linked(w[i], w[i - 1]);
          }
        }
        DistinctSize(w);
        var visited := set n | n in w;
        SubsetSize(visited, t.servers);
      }
    }
  }

  lemma LongerWalk(t: Topology, a: string, b: string, c: string)
    requires Connected(t, a, b) && t.Linked(b, c)
    ensures Connected(t, a, c)
  {
    var w :| Walk(t, w, a, b);
    assert Walk(t, w + [c], a, c);
  }

  /** Acceptance counts once, and hands the message to every neighbour that may still lack it. */
  lemma AcceptedDelivery(t: Topology, n: Net, i: nat, b: Broadcast)
    requires t.Valid() && Compact(t, b.origin)
    requires Inv(t, n, b) && Enabled(t, n, Deliver(i)) && n.flight[i].msg.id == b.id
    requires Accepts(n.flight[i].dst, n.seen[n.flight[i].dst], n.flight[i].msg)
    ensures Inv(t, Step(t, n, Deliver(i)), b)
  {
    var m, p := Step(t, n, Deliver(i)), n.flight[i];
    assert GoodCopy(t, n, b, p);
    assert forall s :: Has(m, s, b.id) <==> Has(n, s, b.id) || s == p.dst;
    CoveredAfter(t, n, i, b);
    CopiesAreGood(t, n, m, p, b);
    FlightAfter(t, n, m, i, b);
    CountedAfter(n, m, p, b);
    hide Covered, Counted, Accepts, GoodCopy, GoodFlight;
    LongerWalk(t, b.origin, p.src, p.dst);
  }

  /** The first acceptance is the only one. */
  lemma CountedAfter(n: Net, m: Net, p: Packet, b: Broadcast)
    requires Counted(n, b) && p.msg.id == b.id && p.msg.payload == b.payload
    requires p.dst in n.seen && !Has(n, p.dst, b.id) && p.dst != b.origin && m.seen.Keys == n.seen.Keys
    requires forall s :: Has(m, s, b.id) <==> Has(n, s, b.id) || s == p.dst
    requires m.log == n.log + [Acceptance(p.dst, p.msg.id, p.msg.payload)]
    ensures Counted(m, b)
  {
    forall s | s in m.seen
      ensures Count(m.log, s, b.id) == if s != b.origin && Has(m, s, b.id) then 1 else 0
    {
      CountAppend(n.log, Acceptance(p.dst, p.msg.id, p.msg.payload), s, b.id);
    }
  }

  lemma FlightAfter(t: Topology, n: Net, m: Net, i: nat, b: Broadcast)
    requires i < |n.flight| && n.flight[i].dst in t.peers && GoodFlight(t, n, b)
    requires m.flight == Without(n.flight, i) + Copies(t, n.flight[i])
    requires forall s :: Has(n, s, b.id) ==> Has(m, s, b.id)
    requires forall k :: 0 <= k < |Copies(t, n.flight[i])| ==> GoodCopy(t, m, b, Copies(t, n.flight[i])[k])
    ensures GoodFlight(t, m, b)
  {
    hide Copies;
    var kept := |n.flight| - 1;
    forall j | 0 <= j < |m.flight| && m.flight[j].msg.id == b.id
      ensures GoodCopy(t, m, b, m.flight[j])
    {
      if j < kept {
        assert m.flight[j] == n.flight[if j < i then j else j + 1];
      } else {
        assert m.flight[j] == Copies(t, n.flight[i])[j - kept];
      }
    }
  }

  lemma CopiesAreGood(t: Topology, n: Net, m: Net, p: Packet, b: Broadcast)
    requires t.Valid() && p.dst in t.peers && p.dst in n.seen && GoodCopy(t, n, b, p)
    requires Accepts(p.dst, n.seen[p.dst], p.msg)
    requires Has(m, p.dst, b.id) && forall s :: Has(n, s, b.id) ==> Has(m, s, b.id)
    ensures forall k :: 0 <= k < |Copies(t, p)| ==> GoodCopy(t, m, b, Copies(t, p)[k])
  {
    var copy := Relayed(p.dst, p.msg);
    assert Distinct(copy.path);
    assert forall k :: 0 <= k < |copy.path| ==> Has(m, copy.path[k], b.id);
  }

  lemma CoveredAfter(t: Topology, n: Net, i: nat, b: Broadcast)
    requires t.Valid() && Compact(t, b.origin)
    requires Inv(t, n, b) && Enabled(t, n, Deliver(i)) && n.flight[i].msg.id == b.id
    requires Accepts(n.flight[i].dst, n.seen[n.flight[i].dst], n.flight[i].msg)
    ensures Covered(t, Step(t, n, Deliver(i)), b)
  {
    var m, p := Step(t, n, Deliver(i)), n.flight[i];
    assert GoodCopy(t, n, b, p);
    forall x, y | t.Linked(x, y) && Has(m, x, b.id)
      ensures Has(m, y, b.id) || Coming(m, y, b.id)
    {
      assert t.Linked(y, x);
      if !Has(m, y, b.id) {
        if x != p.dst {
          StillComing(n, y, b.id, i, m);
        } else if p.msg.ttl == 1 {
          PathExhausts(t, b.origin, p, y);
        } else {
          PassedOn(t, n, i, m, y);
        }
      }
    }
  }

  /** A neighbour that is neither the sender nor on the path gets a copy. */
  lemma PassedOn(t: Topology, n: Net, i: nat, m: Net, y: string)
    requires i < |n.flight| && n.flight[i].dst in t.peers && n.flight[i].msg.ttl > 1
    requires t.Linked(n.flight[i].dst, y)
    requires y != n.flight[i].src && y !in n.flight[i].msg.path && y != n.flight[i].dst
    requires m.flight == Without(n.flight, i) + Copies(t, n.flight[i])
    ensures Coming(m, y, n.flight[i].msg.id)
  {
    var p := n.flight[i];
    var copy := Relayed(p.dst, p.msg);
    var sent := Fanout(t.peers[p.dst], {p.src} + PathSet(copy));
    assert y in sent;
    var k :| 0 <= k < |sent| && sent[k] == y;
    assert m.flight[|n.flight| - 1 + k] == Packet(p.dst, y, copy);
  }

  // ---- whole runs ----

  /** No server forgets this id while the run lasts. */
  predicate Remembered(es: seq<Event>, id: string) {
    forall i :: 0 <= i < |es| ==> !(es[i].Forget? && es[i].id == id)
  }

  lemma StepKeepsInv(t: Topology, n: Net, e: Event, b: Broadcast)
    requires t.Valid() && Compact(t, b.origin)
    requires Inv(t, n, b) && Enabled(t, n, e) && !(e.Forget? && e.id == b.id)
    ensures Inv(t, Step(t, n, e), b)
  {
    match e {
      case Deliver(i) =>
        if n.flight[i].msg.id != b.id {
          OtherDelivery(t, n, i, b);
        } else if Accepts(n.flight[i].dst, n.seen[n.flight[i].dst], n.flight[i].msg) {
          AcceptedDelivery(t, n, i, b);
        } else {
          RejectedDelivery(t, n, i, b);
        }
      case _ => OtherStep(t, n, e, b);
    }
  }

  lemma OtherStep(t: Topology, n: Net, e: Event, b: Broadcast)
    requires t.Valid() && Inv(t, n, b) && Enabled(t, n, e) && !e.Deliver? && e.id != b.id
    ensures Inv(t, Step(t, n, e), b)
  {
    var m := Step(t, n, e);
    assert forall s :: Has(m, s, b.id) <==> Has(n, s, b.id);
    forall x, y | t.Linked(x, y) && Has(m, x, b.id)
      ensures Has(m, y, b.id) || Coming(m, y, b.id)
    {
      if !Has(n, y, b.id) {
        var i :| 0 <= i < |n.flight| && n.flight[i].dst == y && n.flight[i].msg.id == b.id;
        assert m.flight[i] == n.flight[i];
      }
    }
  }

  lemma {:induction false} RunKeepsInv(t: Topology, n: Net, es: seq<Event>, b: Broadcast)
    requires t.Valid() && Compact(t, b.origin)
    requires Feasible(t, n, es) && Remembered(es, b.id) && Inv(t, n, b)
    ensures Inv(t, After(t, n, es), b)
    decreases |es|
  {
    if es != [] {
      StepKeepsInv(t, n, es[0], b);
      RunKeepsInv(t, Step(t, n, es[0]), es[1..], b);
    }
  }

  /** With nothing in flight, having the message spreads along every walk. */
  lemma {:induction false} WalkHas(t: Topology, n: Net, b: Broadcast, w: seq<string>, s: string)
    requires Inv(t, n, b) && Walk(t, w, b.origin, s)
    requires forall i :: 0 <= i < |n.flight| ==> n.flight[i].msg.id != b.id
    ensures Has(n, s, b.id)
    decreases |w|
  {
    if |w| > 1 {
      var init := w[..|w| - 1];
      WalkHas(t, n, b, init, init[|init| - 1]);
      assert t.Linked(w[|w| - 2], w[|w| - 1]);
    }
  }

  /** A broadcast in the middle of any traffic, none of it forgotten afterwards. */
  ghost predicate Scenario(t: Topology, before: seq<Event>, b: Broadcast, after: seq<Event>) {
    && Feasible(t, Start(t), before)
    && Enabled(t, After(t, Start(t), before), Originate(b.origin, b.id, b.payload))
    && Feasible(t, Step(t, After(t, Start(t), before), Originate(b.origin, b.id, b.payload)), after)
    && Remembered(after, b.id)
  }

  ghost function End(t: Topology, before: seq<Event>, b: Broadcast, after: seq<Event>): Net
    requires Scenario(t, before, b, after)
  {
    After(t, Step(t, After(t, Start(t), before), Originate(b.origin, b.id, b.payload)), after)
  }

  /** No copy of this message is in flight. */
  ghost predicate Quiet(n: Net, id: string) {
    forall i :: 0 <= i < |n.flight| ==> n.flight[i].msg.id != id
  }

  /** s has accepted the message as often as it should: once if it is connected to the originator and another
      server, otherwise never; and always with the originator's payload. */
  ghost predicate Told(t: Topology, n: Net, b: Broadcast, s: string) {
    && Count(n.log, s, b.id) == (if s != b.origin && Connected(t, b.origin, s) then 1 else 0)
    && forall i :: 0 <= i < |n.log| && n.log[i].id == b.id ==> n.log[i].payload == b.payload
  }

  /** Nobody ever accepts twice. And whatever else is going on, before and after, in whatever order copies arrive:
      once no copy of a broadcast is left, exactly the servers connected to the originator have accepted it, each
      exactly once, and the originator has not accepted it back. */
  lemma DeliveredExactlyOnce(t: Topology, before: seq<Event>, b: Broadcast, after: seq<Event>, s: string)
    requires t.Valid() && Compact(t, b.origin) && s in t.servers && Scenario(t, before, b, after)
    ensures Count(End(t, before, b, after).log, s, b.id) <= (if s != b.origin && Connected(t, b.origin, s) then 1 else 0)
    ensures Quiet(End(t, before, b, after), b.id) ==> Told(t, End(t, before, b, after), b, s)
  {
    var n := After(t, Start(t), before);
    RunKeepsTracked(t, Start(t), before);
    OriginateEstablishes(t, n, b);
    var start := Step(t, n, Originate(b.origin, b.id, b.payload));
    RunKeepsInv(t, start, after, b);
    var end := After(t, start, after);
    if Quiet(end, b.id) && Connected(t, b.origin, s) {
      var w :| Walk(t, w, b.origin, s);
      WalkHas(t, end, b, w, s);
    }
  }
}
