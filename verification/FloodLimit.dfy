/** Eleven servers is the most that ten hops are sure to cover: on a line of twelve the far end is missed. */
module FloodLimit {
  import opened Mesh
  import opened Flood
  import opened FloodDelivery

  predicate IsLine(names: seq<string>) {
    |names| == MAX_TTL + 2 && Distinct(names)
  }

  function Neighbours(names: seq<string>, i: nat): seq<string>
    requires i < |names|
  {
    (if i == 0 then [] else [names[i - 1]]) + (if i + 1 == |names| then [] else [names[i + 1]])
  }

  predicate TableAt(t: Topology, names: seq<string>, i: nat)
    requires i < |names|
  {
    names[i] in t.peers && t.peers[names[i]] == Neighbours(names, i)
  }

  /** The line, and any number of servers without connections. */
  ghost predicate LineTopology(t: Topology, names: seq<string>) {
    && t.servers == t.peers.Keys
    && (forall i :: 0 <= i < |names| ==> TableAt(t, names, i))
    && forall s :: s in t.servers && s !in names ==> t.peers[s] == []
  }

  lemma LineIsValid(t: Topology, names: seq<string>)
    requires IsLine(names) && LineTopology(t, names)
    ensures t.Valid()
  {
    forall a, b | t.Linked(a, b)
      ensures t.Linked(b, a) && a != b
    {
      var i :| 0 <= i < |names| && names[i] == a;
      assert TableAt(t, names, i);
      if i > 0 && b == names[i - 1] {
        assert TableAt(t, names, i - 1);
      } else {
        assert TableAt(t, names, i + 1);
      }
    }
  }

  /** The one copy on the line after k servers have relayed it. */
  function Copy(names: seq<string>, k: nat, b: Broadcast): Packet
    requires k + 1 < |names|
  {
    Packet(names[k], names[k + 1], Control(names[0], b.id, MAX_TTL - k, names[..k + 1], b.payload))
  }

  ghost predicate AtHop(t: Topology, names: seq<string>, n: Net, k: nat, b: Broadcast)
    requires IsLine(names)
  {
    && LineTopology(t, names) && n.seen.Keys == t.servers
    && k <= MAX_TTL
    && n.flight == (if k < MAX_TTL then [Copy(names, k, b)] else [])
    && (forall j :: k < j < |names| ==> !Has(n, names[j], b.id))
    && (forall i :: 0 <= i < |n.log| ==> n.log[i].server != names[|names| - 1])
  }

  lemma HopAccepts(names: seq<string>, k: nat, b: Broadcast, seen: set<string>)
    requires IsLine(names) && k < MAX_TTL && b.id !in seen
    ensures Accepts(names[k + 1], seen, Copy(names, k, b).msg)
  {
    var path := Copy(names, k, b).msg.path;
    assert forall j :: 0 <= j < |path| ==> path[j] == names[j];
  }

  lemma HopCopies(t: Topology, names: seq<string>, k: nat, b: Broadcast)
    requires IsLine(names) && k < MAX_TTL && LineTopology(t, names)
    ensures names[k + 1] in t.peers && names[k + 1] in t.servers
    ensures Copies(t, Copy(names, k, b)) == if k + 1 < MAX_TTL then [Copy(names, k + 1, b)] else []
  {
    hide Fanout, Distinct, Copies;
    var p := Copy(names, k, b);
    assert TableAt(t, names, k + 1);
    hide LineTopology;
    if k + 1 < MAX_TTL {
      assert Neighbours(names, k + 1) == [names[k], names[k + 2]];
      assert names[..k + 1] + [names[k + 1]] == names[..k + 2];
      NotBefore(names, k + 2);
      OneCopy(t, p, names[k + 2]);
    } else {
      NoCopy(t, p);
    }
  }

  lemma OneCopy(t: Topology, p: Packet, next: string)
    requires p.dst in t.peers && t.peers[p.dst] == [p.src, next] && p.msg.ttl > 1
    requires next !in p.msg.path + [p.dst] && next != p.src
    ensures Copies(t, p) == [Packet(p.dst, next, Relayed(p.dst, p.msg))]
  {
    hide Fanout;
    LastOfTwo(p.src, next, {p.src} + PathSet(Relayed(p.dst, p.msg)));
  }

  lemma NoCopy(t: Topology, p: Packet)
    requires p.dst in t.peers && p.msg.ttl <= 1
    ensures Copies(t, p) == []
  {
  }

  lemma Hop(t: Topology, names: seq<string>, n: Net, k: nat, b: Broadcast)
    requires IsLine(names) && k < MAX_TTL && AtHop(t, names, n, k, b)
    ensures Enabled(t, n, Deliver(0)) && AtHop(t, names, Step(t, n, Deliver(0)), k + 1, b)
  {
    hide Accepts, Copies, LineTopology;
    HopCopies(t, names, k, b);
    assert !Has(n, names[k + 1], b.id);
    HopAccepts(names, k, b, n.seen[names[k + 1]]);
    assert n.flight[0] == Copy(names, k, b);
    assert Without(n.flight, 0) == [];
  }

  lemma NotBefore(names: seq<string>, k: nat)
    requires Distinct(names) && k < |names|
    ensures names[k] !in names[..k] && forall j :: 0 <= j < k ==> names[j] != names[k]
  {
  }

  lemma LastOfTwo(a: string, b: string, skip: set<string>)
    requires a in skip && b !in skip
    ensures Fanout([a, b], skip) == [b]
  {
    assert [a, b][..1] == [a] && [a][..0] == [];
    assert Fanout([a], skip) == [];
  }

  function Hops(k: nat): seq<Event> {
    if k == 0 then [] else [Deliver(0)] + Hops(k - 1)
  }

  lemma {:induction false} RunHops(t: Topology, names: seq<string>, n: Net, k: nat, b: Broadcast)
    requires IsLine(names) && AtHop(t, names, n, k, b)
    ensures Feasible(t, n, Hops(MAX_TTL - k)) && AtHop(t, names, After(t, n, Hops(MAX_TTL - k)), MAX_TTL, b)
    decreases MAX_TTL - k
  {
    if k < MAX_TTL {
      Hop(t, names, n, k, b);
      RunHops(t, names, Step(t, n, Deliver(0)), k + 1, b);
      assert Hops(MAX_TTL - k)[1..] == Hops(MAX_TTL - k - 1);
    }
  }

  /** On such a network the delivery theorem is false: a run ends quietly and the far end has not heard. */
  lemma TwelfthIsMissed(t: Topology, names: seq<string>, b: Broadcast)
    requires IsLine(names) && LineTopology(t, names) && b.origin == names[0] && b.id != ""
    ensures t.Valid() && Scenario(t, [], b, Hops(MAX_TTL))
    ensures End(t, [], b, Hops(MAX_TTL)).flight == []
    ensures names[MAX_TTL + 1] in t.servers && !Told(t, End(t, [], b, Hops(MAX_TTL)), b, names[MAX_TTL + 1])
  {
    hide LineTopology, IsLine, AtHop, Step, Enabled, Feasible, After, Hops, Walk, Scenario, End, Told;
    LineIsValid(t, names);
    OriginateOnLine(t, names, b);
    FarEnd(t, names);
    var start := Step(t, Start(t), Originate(b.origin, b.id, b.payload));
    RunHops(t, names, start, 0, b);
    HopsOnlyDeliver(MAX_TTL, b.id);
    var end := After(t, start, Hops(MAX_TTL));
    QuietAtLast(t, names, end, b);
    EndIs(t, b, Hops(MAX_TTL));
    NotTold(t, end, b, names[MAX_TTL + 1]);
  }

  lemma FarEnd(t: Topology, names: seq<string>)
    requires IsLine(names) && LineTopology(t, names)
    ensures |names| == MAX_TTL + 2
    ensures names[MAX_TTL + 1] in t.servers && names[MAX_TTL + 1] != names[0]
    ensures Connected(t, names[0], names[MAX_TTL + 1])
  {
    assert TableAt(t, names, MAX_TTL + 1);
    LineWalk(t, names);
  }

  lemma QuietAtLast(t: Topology, names: seq<string>, n: Net, b: Broadcast)
    requires IsLine(names) && AtHop(t, names, n, MAX_TTL, b)
    ensures n.flight == [] && Count(n.log, names[MAX_TTL + 1], b.id) == 0
  {
    NoneAt(n.log, names[MAX_TTL + 1], b.id);
  }

  /** With nothing before it, a scenario starts from the empty network. */
  lemma EndIs(t: Topology, b: Broadcast, after: seq<Event>)
    requires Enabled(t, Start(t), Originate(b.origin, b.id, b.payload))
    requires Feasible(t, Step(t, Start(t), Originate(b.origin, b.id, b.payload)), after) && Remembered(after, b.id)
    ensures Scenario(t, [], b, after)
    ensures End(t, [], b, after) == After(t, Step(t, Start(t), Originate(b.origin, b.id, b.payload)), after)
  {
  }

  lemma NotTold(t: Topology, n: Net, b: Broadcast, s: string)
    requires Connected(t, b.origin, s) && s != b.origin && Count(n.log, s, b.id) == 0
    ensures !Told(t, n, b, s)
  {
  }

  // ---- how many servers are too many ----

  /** Every broadcast in every run tells everybody. */
  ghost predicate AlwaysDelivers(t: Topology) {
    forall before, b, after, s :: Scenario(t, before, b, after) && s in t.servers
      ==> Quiet(End(t, before, b, after), b.id) ==> Told(t, End(t, before, b, after), b, s)
  }

  function Name(i: nat): (s: string)
    ensures |s| == i
  {
    seq(i, _ => 'x')
  }

  function FirstNames(n: nat): (names: set<string>)
    ensures |names| == n && forall s :: s in names ==> |s| < n && s == Name(|s|)
    ensures forall i: nat :: i < n ==> Name(i) in names
  {
    if n == 0 then {}
    else
      assert Name(n - 1) !in FirstNames(n - 1);
      FirstNames(n - 1) + {Name(n - 1)}
  }

  function LineNames(): seq<string> {
    seq(MAX_TTL + 2, i requires 0 <= i => Name(i))
  }

  /** A line of twelve among n servers. */
  function LineAmong(n: nat): Topology
    requires n >= MAX_TTL + 2
  {
    var servers := FirstNames(n);
    Topology(servers, map s | s in servers :: if |s| < MAX_TTL + 2 then Neighbours(LineNames(), |s|) else [])
  }

  lemma LineAmongIs(n: nat)
    requires n >= MAX_TTL + 2
    ensures IsLine(LineNames()) && LineTopology(LineAmong(n), LineNames()) && |LineAmong(n).servers| == n
  {
    hide Name, Distinct, Neighbours;
    var names, t := LineNames(), LineAmong(n);
    LineNamesAre();
    forall i | 0 <= i < |names|
      ensures TableAt(t, names, i)
    {
      assert names[i] == Name(i) && |names[i]| == i;
    }
    forall s | s in t.servers && s !in names
      ensures t.peers[s] == []
    {
      ShortIsListed(s);
    }
  }

  lemma LineNamesAre()
    ensures IsLine(LineNames())
  {
    hide Name;
  }

  lemma ShortIsListed(s: string)
    requires s == Name(|s|)
    ensures |s| < MAX_TTL + 2 ==> s in LineNames()
  {
    hide Name;
    if |s| < MAX_TTL + 2 {
      assert LineNames()[|s|] == s;
    }
  }

  /** Eleven is the limit exactly: every valid network of n servers always delivers if and only if n is at most
      eleven. */
  lemma ElevenIsTheLimit(n: nat)
    ensures (forall t: Topology :: t.Valid() && |t.servers| == n ==> AlwaysDelivers(t)) <==> n <= MAX_TTL + 1
  {
    if n <= MAX_TTL + 1 {
      forall t: Topology | t.Valid() && |t.servers| == n
        ensures AlwaysDelivers(t)
      {
        forall before, b, after, s | Scenario(t, before, b, after) && s in t.servers
          ensures Quiet(End(t, before, b, after), b.id) ==> Told(t, End(t, before, b, after), b, s)
        {
          FewAreCompact(t, b.origin);
          DeliveredExactlyOnce(t, before, b, after, s);
        }
      }
    } else {
      var t, names := LineAmong(n), LineNames();
      var b := Broadcast(names[0], "m", "p");
      LineAmongIs(n);
      TwelfthIsMissed(t, names, b);
      hide Scenario, End, Told;
      assert Quiet(End(t, [], b, Hops(MAX_TTL)), b.id);
      assert !AlwaysDelivers(t);
    }
  }

  lemma LineWalk(t: Topology, names: seq<string>)
    requires IsLine(names) && LineTopology(t, names)
    ensures Walk(t, names, names[0], names[MAX_TTL + 1])
  {
    forall i | 0 <= i < |names| - 1
      ensures t.Linked(names[i], names[i + 1])
    {
      assert TableAt(t, names, i);
    }
  }

  lemma OriginateOnLine(t: Topology, names: seq<string>, b: Broadcast)
    requires IsLine(names) && LineTopology(t, names) && b.origin == names[0] && b.id != ""
    ensures Enabled(t, Start(t), Originate(b.origin, b.id, b.payload))
    ensures AtHop(t, names, Step(t, Start(t), Originate(b.origin, b.id, b.payload)), 0, b)
  {
    hide Fanout;
    OnlyOne(names[1]);
    assert TableAt(t, names, 0);
    var start := Step(t, Start(t), Originate(b.origin, b.id, b.payload));
    assert TableAt(t, names, 0);
    assert Neighbours(names, 0) == [names[1]];
    assert names[..0 + 1] == [names[0]];
    assert start.flight == [Copy(names, 0, b)];
  }

  lemma OnlyOne(a: string)
    ensures Fanout([a], {}) == [a]
  {
    assert [a][..0] == [];
  }

  lemma {:induction false} HopsOnlyDeliver(k: nat, id: string)
    ensures Remembered(Hops(k), id)
  {
    if k > 0 {
      HopsOnlyDeliver(k - 1, id);
    }
  }

  lemma {:induction false} NoneAt(log: seq<Acceptance>, s: string, id: string)
    requires forall i :: 0 <= i < |log| ==> log[i].server != s
    ensures Count(log, s, id) == 0
  {
    if log != [] {
      NoneAt(log[..|log| - 1], s, id);
    }
  }
}
