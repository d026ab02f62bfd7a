/** The federation as a whole: servers, links, copies in flight, and the steps they can take in any order. */
module Flood {
  import opened Mesh

  // ---- the network ----

  /** Who is connected to whom. Each server sees its connections as a table that may repeat a name. */
  datatype Topology = Topology(servers: set<string>, peers: map<string, seq<string>>) {
    predicate Linked(a: string, b: string) {
      a in peers && b in peers[a]
    }

    /** Links run both ways, between known servers, and nobody is its own peer. */
    ghost predicate Valid() {
      && peers.Keys == servers
      && (forall a, b :: Linked(a, b) ==> Linked(b, a))
      && (forall a :: !Linked(a, a))
    }
  }

  datatype Packet = Packet(src: string, dst: string, msg: Control)

  /** The handler of `server` took message `id` with this payload. */
  datatype Acceptance = Acceptance(server: string, id: string, payload: string)

  /** Copies in flight, ids each server remembers, everything accepted so far, and the ids given out. */
  datatype Net = Net(flight: seq<Packet>, seen: map<string, set<string>>, log: seq<Acceptance>, used: set<string>)

  datatype Event =
    | Originate(server: string, id: string, payload: string)
    | Deliver(index: nat)
    | Forget(server: string, id: string)

  function Packets(src: string, sent: seq<string>, c: Control): (ps: seq<Packet>)
    ensures |ps| == |sent|
  {
    seq(|sent|, i requires 0 <= i < |sent| => Packet(src, sent[i], c))
  }

  function Start(t: Topology): Net {
    Net([], map s | s in t.servers :: {}, [], {})
  }

  /** Ids are never given out twice. */
  predicate Enabled(t: Topology, n: Net, e: Event) {
    match e
    case Originate(s, id, _) => s in t.peers && s in n.seen && id != "" && id !in n.used
    case Deliver(i) => i < |n.flight| && n.flight[i].dst in t.peers && n.flight[i].dst in n.seen
    case Forget(s, _) => s in n.seen
  }

  function Fresh(s: string, id: string, payload: string): Control {
    Control(s, id, MAX_TTL, [s], payload)
  }

  /** The copies a server sends on when it has accepted a packet. */
  function Copies(t: Topology, p: Packet): seq<Packet>
    requires p.dst in t.peers
  {
    var copy := Relayed(p.dst, p.msg);
    if p.msg.ttl > 1 then Packets(p.dst, Fanout(t.peers[p.dst], {p.src} + PathSet(copy)), copy) else []
  }

  function Without(flight: seq<Packet>, i: nat): seq<Packet>
    requires i < |flight|
  {
    flight[..i] + flight[i + 1..]
  }

  function Step(t: Topology, n: Net, e: Event): Net
    requires Enabled(t, n, e)
  {
    match e
    case Originate(s, id, payload) =>
      n.(flight := n.flight + Packets(s, Fanout(t.peers[s], {}), Fresh(s, id, payload)),
         seen := n.seen[s := n.seen[s] + {id}],
         used := n.used + {id})
    case Deliver(i) =>
      var p := n.flight[i];
      var rest := n.(flight := Without(n.flight, i));
      if !Accepts(p.dst, n.seen[p.dst], p.msg) then rest
      else
        rest.(flight := rest.flight + Copies(t, p),
              seen := if p.msg.id == "" then n.seen else n.seen[p.dst := n.seen[p.dst] + {p.msg.id}],
              log := n.log + [Acceptance(p.dst, p.msg.id, p.msg.payload)])
    case Forget(s, id) => n.(seen := n.seen[s := n.seen[s] - {id}])
  }

  /** es can happen, one after the other, from n. */
  predicate Feasible(t: Topology, n: Net, es: seq<Event>)
    decreases |es|
  {
    es == [] || (Enabled(t, n, es[0]) && Feasible(t, Step(t, n, es[0]), es[1..]))
  }

  function After(t: Topology, n: Net, es: seq<Event>): Net
    requires Feasible(t, n, es)
    decreases |es|
  {
    if es == [] then n else After(t, Step(t, n, es[0]), es[1..])
  }
}
