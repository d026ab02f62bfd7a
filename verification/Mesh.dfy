/** Message deduplication, hop limits and fan-out between federated servers. */
module Mesh {
  const MAX_TTL := 10
  /** Thirty seconds, in milliseconds. */
  const DEDUP_WINDOW := 30000

  /** The mesh fields of a control message, and its payload. */
  datatype Control = Control(origin: string, id: string, ttl: int, path: seq<string>, payload: string)

  // ---- specification ----

  /** The gate in front of every handler. Messages without an id are never deduplicated. */
  predicate Accepts(name: string, seen: set<string>, c: Control) {
    && c.origin != name
    && c.ttl > 0
    && name !in c.path
    && (c.id == "" || c.id !in seen)
  }

  function Relayed(name: string, c: Control): Control {
    c.(ttl := c.ttl - 1, path := c.path + [name])
  }

  /** The peers that get a copy: each name once, in the order of the connection table. */
  function Fanout(peers: seq<string>, skip: set<string>): (sent: seq<string>)
    ensures forall n :: n in sent <==> n in peers && n !in skip
    ensures forall i, j :: 0 <= i < j < |sent| ==> sent[i] != sent[j]
  {
    if peers == [] then []
    else
      var earlier := Fanout(peers[..|peers| - 1], skip);
      var last := peers[|peers| - 1];
      if last in skip || last in earlier then earlier else earlier + [last]
  }

  function PathSet(c: Control): set<string> {
    set n | n in c.path
  }

  // ---- the router ----

  class MeshRouter {
    const serverName: string
    /** When each message id was last marked. */
    var seen: map<string, int>

    constructor (serverName: string)
      ensures this.serverName == serverName && seen == map[]
    {
      this.serverName := serverName;
      seen := map[];
    }

    /** Fills in whatever the caller left empty. A fresh id comes from outside. */
    method PrepareOutgoing(ctrl: Control, freshId: string, now: int) returns (out: Control)
      modifies this
      ensures out.origin == ctrl.origin && out.payload == ctrl.payload
      ensures out.id == if ctrl.id == "" then freshId else ctrl.id
      ensures out.ttl == if ctrl.ttl == 0 then MAX_TTL else ctrl.ttl
      ensures out.path == if ctrl.path == [] then [serverName] else ctrl.path
      ensures seen == old(seen)[out.id := now]
    {
      out := ctrl;
      if out.id == "" {
        out := out.(id := freshId);
      }
      if out.ttl == 0 {
        out := out.(ttl := MAX_TTL);
      }
      if |out.path| == 0 {
        out := out.(path := [serverName]);
      }
      MarkSeen(out.id, now);
    }

    /** Check and mark in one step. */
    method ShouldProcess(ctrl: Control, now: int) returns (ok: bool)
      modifies this
      ensures ok == Accepts(serverName, old(seen).Keys, ctrl)
      ensures ok <==> && ctrl.origin != serverName && ctrl.ttl > 0 && serverName !in ctrl.path
                      && (ctrl.id == "" || ctrl.id !in old(seen))
      ensures seen == if ok && ctrl.id != "" then old(seen)[ctrl.id := now] else old(seen)
    {
      if ctrl.origin == serverName {
        return false;
      }
      if ctrl.ttl <= 0 {
        return false;
      }
      var inPath := IsInPath(ctrl, serverName);
      if inPath {
        return false;
      }
      if ctrl.id != "" && ctrl.id in seen {
        return false;
      }
      if ctrl.id != "" {
        MarkSeen(ctrl.id, now);
      }
      return true;
    }

    method MarkSeen(id: string, now: int)
      modifies this
      ensures seen == old(seen)[id := now]
    {
      seen := seen[id := now];
    }

    /** One tick of the cleanup loop: forgets exactly the ids marked more than thirty seconds ago. */
    method Cleanup(now: int)
      modifies this
      ensures seen == map id | id in old(seen) && old(seen)[id] >= now - DEDUP_WINDOW :: old(seen)[id]
    {
      var cutoff := now - DEDUP_WINDOW;
      var todo, before := seen.Keys, seen;
      while todo != {}
        invariant todo <= before.Keys && seen.Keys <= before.Keys
        invariant forall id :: id in before ==> (id in seen <==> id in todo || before[id] >= cutoff)
        invariant forall id :: id in seen ==> seen[id] == before[id]
        decreases |todo|
      {
        var id :| id in todo;
        if seen[id] < cutoff {
          seen := seen - {id};
        }
        todo := todo - {id};
      }
    }

    /** A fresh copy with one hop less and this server at the end of the path. */
    method PrepareRelay(ctrl: Control) returns (copy: Control)
      ensures copy == Relayed(serverName, ctrl)
      ensures copy == Control(ctrl.origin, ctrl.id, ctrl.ttl - 1, ctrl.path + [serverName], ctrl.payload)
    {
      var newPath := ctrl.path + [serverName];
      copy := Control(ctrl.origin, ctrl.id, ctrl.ttl - 1, newPath, ctrl.payload);
    }

    /** What every relaying handler does with a message from `from`: the gate, then the fan-out of one copy. */
    method Handle(ctrl: Control, from: string, peers: seq<string>, now: int)
      returns (accepted: bool, copy: Control, sent: seq<string>)
      modifies this
      ensures accepted == Accepts(serverName, old(seen).Keys, ctrl)
      ensures accepted <==> && ctrl.origin != serverName && ctrl.ttl > 0 && serverName !in ctrl.path
                            && (ctrl.id == "" || ctrl.id !in old(seen))
      ensures seen == if accepted && ctrl.id != "" then old(seen)[ctrl.id := now] else old(seen)
      ensures copy == Relayed(serverName, ctrl)
      ensures copy == Control(ctrl.origin, ctrl.id, ctrl.ttl - 1, ctrl.path + [serverName], ctrl.payload)
      ensures forall n :: n in sent <==> accepted && ctrl.ttl > 1 && n in peers && n != from && n !in ctrl.path
                                         && n != serverName
      ensures sent == if accepted && ctrl.ttl > 1 then Fanout(peers, {from} + PathSet(copy)) else []
    {
      accepted := ShouldProcess(ctrl, now);
      copy := PrepareRelay(ctrl);
      sent := [];
      var relay := ShouldRelay(ctrl);
      if accepted && relay {
        sent := RelayToPeers(copy, from, peers);
      }
    }
  }

  method ShouldRelay(ctrl: Control) returns (ok: bool)
    ensures ok <==> ctrl.ttl > 1
  {
    ok := ctrl.ttl > 1;
  }

  method IsInPath(ctrl: Control, name: string) returns (found: bool)
    ensures found <==> name in ctrl.path
  {
    for i := 0 to |ctrl.path|
      invariant name !in ctrl.path[..i]
    {
      if ctrl.path[i] == name {
        return true;
      }
    }
    assert ctrl.path[..|ctrl.path|] == ctrl.path;
    return false;
  }

  // ---- fan-out ----

  /** `broadcastToAllPeers`: the connection table may list a remote twice, once for each direction. */
  method BroadcastToAllPeers(peers: seq<string>) returns (sent: seq<string>)
    ensures sent == Fanout(peers, {})
  {
    sent := [];
    var seen: set<string> := {};
    for i := 0 to |peers|
      invariant sent == Fanout(peers[..i], {})
      invariant seen == set n | n in sent
    {
      assert peers[..i + 1][..i] == peers[..i];
      if peers[i] !in seen {
        seen := seen + {peers[i]};
        sent := sent + [peers[i]];
      }
    }
    assert peers[..|peers|] == peers;
  }

  /** `relayToPeers`: not to the sender, not to anyone on the path, and to nobody twice. */
  method RelayToPeers(ctrl: Control, excludeName: string, peers: seq<string>) returns (sent: seq<string>)
    ensures sent == Fanout(peers, {excludeName} + PathSet(ctrl))
  {
    sent := [];
    var seen := {excludeName};
    ghost var skip := {excludeName} + PathSet(ctrl);
    for i := 0 to |peers|
      invariant sent == Fanout(peers[..i], skip)
      invariant seen == {excludeName} + set n | n in sent
    {
      assert peers[..i + 1][..i] == peers[..i];
      var inPath := IsInPath(ctrl, peers[i]);
      if !(peers[i] in seen || inPath) {
        seen := seen + {peers[i]};
        sent := sent + [peers[i]];
      }
    }
    assert peers[..|peers|] == peers;
  }
}
