/** Calls from a core network: route locks, and frames held back until a call has proved itself. */
module Netstack {
  type Frame = seq<bv8>

  /** Times are milliseconds on one clock. */
  datatype RouteLock = RouteLock(callID: string, expiresAt: int)

  class BridgeCall {
    const netstackID: string
    const trafficID: string
    const routeKey: string
    const createdAt: int
    var state: string
    var lastEventAt: int
    var frameCount: nat
    var started: bool
    var pendingFrames: seq<Frame>
    /** Every frame that counted for this call, and every frame passed on to the subscribers. */
    ghost var received: seq<Frame>
    ghost var forwarded: seq<Frame>

    constructor (netstackID: string, trafficID: string, routeKey: string, now: int)
      ensures this.netstackID == netstackID && this.trafficID == trafficID && this.routeKey == routeKey
      ensures createdAt == now && Untouched()
    {
      this.netstackID, this.trafficID, this.routeKey, createdAt := netstackID, trafficID, routeKey, now;
      state, lastEventAt, frameCount, started, pendingFrames := "new", now, 0, false, [];
      received, forwarded := [], [];
    }

    ghost predicate Untouched()
      reads this
    {
      !started && frameCount == 0 && pendingFrames == received == forwarded == []
    }

    /** Nothing is passed on before activation, and nothing is held back after it. */
    ghost predicate InOrder(minFrames: nat)
      reads this
    {
      && frameCount == |received|
      && (if started then pendingFrames == [] && forwarded == received
          else pendingFrames == received && forwarded == [] && frameCount < minFrames)
    }
  }

  // ---- the tables ----

  ghost predicate OwnsRoute(calls: map<string, BridgeCall>, locks: map<string, RouteLock>, id: string)
    requires id in calls
  {
    && calls[id].netstackID == id
    && calls[id].routeKey in locks
    && locks[calls[id].routeKey].callID == id
  }

  ghost predicate NamesCall(calls: map<string, BridgeCall>, locks: map<string, RouteLock>, r: string)
    requires r in locks
  {
    locks[r].callID in calls && calls[locks[r].callID].routeKey == r
  }

  /** Each tracked call holds the lock of its own route, and each lock names the tracked call of its route. */
  ghost predicate Locked(calls: map<string, BridgeCall>, locks: map<string, RouteLock>) {
    && (forall id :: id in calls ==> OwnsRoute(calls, locks, id))
    && (forall r :: r in locks ==> NamesCall(calls, locks, r))
  }

  /** Traffic is only ever dispatched to tracked calls, under their own traffic id. */
  ghost predicate Dispatched(traffic: map<string, BridgeCall>, calls: map<string, BridgeCall>) {
    forall t :: t in traffic ==>
      && t != ""
      && traffic[t].trafficID == t
      && traffic[t].netstackID in calls
      && calls[traffic[t].netstackID] == traffic[t]
  }

  // ---- one traffic id, one call ----

  /** Every tracked call that has a traffic id is the one its traffic id dispatches to. */
  ghost predicate Complete(traffic: map<string, BridgeCall>, calls: map<string, BridgeCall>) {
    forall id :: id in calls && calls[id].trafficID != "" ==>
      calls[id].trafficID in traffic && traffic[calls[id].trafficID] == calls[id]
  }

  ghost predicate Named(calls: map<string, BridgeCall>) {
    forall id :: id in calls ==> calls[id].netstackID == id
  }

  lemma LockedIsNamed(calls: map<string, BridgeCall>, locks: map<string, RouteLock>)
    requires Locked(calls, locks)
    ensures Named(calls)
  {
    forall id | id in calls
      ensures calls[id].netstackID == id
    {
      assert OwnsRoute(calls, locks, id);
    }
  }

  /** The traffic ids of some calls. */
  ghost function TrafficOf(calls: map<string, BridgeCall>, ids: set<string>): set<string> {
    set id | id in ids && id in calls :: calls[id].trafficID
  }

  /** No other of these calls has the traffic id of c. */
  ghost predicate Unshared(calls: map<string, BridgeCall>, c: BridgeCall) {
    c.trafficID == "" || forall id :: id in calls ==> calls[id].trafficID != c.trafficID
  }

  /** Removing calls together with their traffic ids never leaves another call without its own. */
  lemma CompleteWithout(traffic: map<string, BridgeCall>, calls: map<string, BridgeCall>, ids: set<string>)
    requires Complete(traffic, calls) && Named(calls)
    ensures Complete(traffic - TrafficOf(calls, ids), calls - ids)
  {
    var t, c := traffic - TrafficOf(calls, ids), calls - ids;
    forall id | id in c && c[id].trafficID != ""
      ensures c[id].trafficID in t && t[c[id].trafficID] == c[id]
    {
      forall other | other in calls && calls[other].trafficID == calls[id].trafficID
        ensures other == id
      {
        assert traffic[calls[id].trafficID] == calls[id] == calls[other];
      }
    }
  }

  lemma DropKeepsComplete(traffic: map<string, BridgeCall>, calls: map<string, BridgeCall>,
                          locks: map<string, RouteLock>, id: string)
    requires Locked(calls, locks) && Complete(traffic, calls) && id in calls
    ensures Complete(traffic - {calls[id].trafficID}, calls - {id})
  {
    LockedIsNamed(calls, locks);
    CompleteWithout(traffic, calls, {id});
    assert TrafficOf(calls, {id}) == {calls[id].trafficID};
  }

  /** A registration keeps every traffic id dispatched to its own call exactly when it does not share one. */
  lemma CompleteWithIff(traffic: map<string, BridgeCall>, calls: map<string, BridgeCall>, c: BridgeCall)
    requires Complete(traffic, calls) && Named(calls) && c.netstackID !in calls
    ensures Complete(if c.trafficID == "" then traffic else traffic[c.trafficID := c], calls[c.netstackID := c])
            <==> Unshared(calls, c)
  {
    var t := if c.trafficID == "" then traffic else traffic[c.trafficID := c];
    var cs := calls[c.netstackID := c];
    if !Unshared(calls, c) {
      var id :| id in calls && calls[id].trafficID == c.trafficID;
      assert id in cs && cs[id] == calls[id] && cs[id].netstackID != c.netstackID;
      assert t[cs[id].trafficID] == c;
    }
  }

  /** The tables after a registration. */
  ghost function WithCall(calls: map<string, BridgeCall>, c: BridgeCall): map<string, BridgeCall> {
    (calls - Replaced(calls, c)) + map[c.netstackID := c]
  }

  ghost function WithTraffic(traffic: map<string, BridgeCall>, calls: map<string, BridgeCall>, c: BridgeCall)
    : map<string, BridgeCall>
  {
    (traffic - TrafficOf(calls, Replaced(calls, c))) + (if c.trafficID == "" then map[] else map[c.trafficID := c])
  }

  /** The tables after a registration, entry by entry: calls on its route go, it comes under its own id, and a traffic
      entry goes exactly when a call that makes way has that traffic id. */
  ghost predicate Admitted(calls: map<string, BridgeCall>, traffic: map<string, BridgeCall>, c: BridgeCall,
                           after: map<string, BridgeCall>, left: map<string, BridgeCall>)
  {
    && (forall id :: id in after <==> id == c.netstackID || (id in calls && calls[id].routeKey != c.routeKey))
    && (forall id :: id in after ==> after[id] == if id == c.netstackID then c else calls[id])
    && (forall t :: t in left <==> || (t == c.trafficID && t != "")
                                   || (t in traffic && forall id :: id in calls && calls[id].trafficID == t ==>
                                         id != c.netstackID && calls[id].routeKey != c.routeKey))
    && (forall t :: t in left ==> left[t] == if t == c.trafficID && t != "" then c else traffic[t])
  }

  lemma AdmittedIs(calls: map<string, BridgeCall>, traffic: map<string, BridgeCall>, c: BridgeCall)
    ensures Admitted(calls, traffic, c, WithCall(calls, c), WithTraffic(traffic, calls, c))
  {
    var left, ids := WithTraffic(traffic, calls, c), Replaced(calls, c);
    forall t
      ensures t in left <==> || (t == c.trafficID && t != "")
                             || (t in traffic && forall id :: id in calls && calls[id].trafficID == t ==>
                                   id != c.netstackID && calls[id].routeKey != c.routeKey)
    {
      if t in traffic {
        SurvivesIff(traffic, calls, ids, t);
      }
    }
  }

  /** The same for the whole of a registration, displaced calls included. */
  lemma RegistrationIff(traffic: map<string, BridgeCall>, calls: map<string, BridgeCall>, locks: map<string, RouteLock>,
                        c: BridgeCall)
    requires Locked(calls, locks) && Complete(traffic, calls)
    ensures Complete(WithTraffic(traffic, calls, c), WithCall(calls, c)) <==> Unshared(calls - Replaced(calls, c), c)
  {
    LockedIsNamed(calls, locks);
    CompleteWithout(traffic, calls, Replaced(calls, c));
    var left, rest := traffic - TrafficOf(calls, Replaced(calls, c)), calls - Replaced(calls, c);
    CompleteWithIff(left, rest, c);
    PlusOne(left, c.trafficID, c);
    PlusOne(rest, c.netstackID, c);
  }

  /** An entry survives the removal of calls exactly when none of them has its traffic id. */
  lemma SurvivesIff(traffic: map<string, BridgeCall>, calls: map<string, BridgeCall>, ids: set<string>, t: string)
    requires t in traffic
    ensures t in traffic - TrafficOf(calls, ids) <==> forall id :: id in ids && id in calls ==> calls[id].trafficID != t
  {
  }

  /** Where no traffic id is shared, an entry survives an eviction exactly when its own call's lock has not run
      out. */
  lemma CompleteSurvivesIff(traffic: map<string, BridgeCall>, calls: map<string, BridgeCall>,
                            locks: map<string, RouteLock>, t: string, now: int)
    requires Locked(calls, locks) && Dispatched(traffic, calls) && Complete(traffic, calls) && t in traffic
    ensures traffic[t].routeKey in locks
    ensures t in traffic - TrafficOf(calls, Holders(locks, Expired(locks, now)))
            <==> now < locks[traffic[t].routeKey].expiresAt
  {
    var c, ids := traffic[t], Holders(locks, Expired(locks, now));
    EvictedIffExpired(calls, locks, c.netstackID, now);
    LockedIsNamed(calls, locks);
    forall id | id in ids && id in calls && calls[id].trafficID == t
      ensures id == c.netstackID
    {
      assert traffic[t] == calls[id];
    }
  }

  lemma NothingOfNobody(calls: map<string, BridgeCall>)
    ensures TrafficOf(calls, {}) == {}
  {
  }

  lemma TrafficOfOneMore(calls: map<string, BridgeCall>, ids: set<string>, id: string)
    requires id in calls
    ensures TrafficOf(calls, ids + {id}) == TrafficOf(calls, ids) + {calls[id].trafficID}
    ensures TrafficOf(calls, {}) == {}
  {
    var after := TrafficOf(calls, ids + {id});
    forall t | t in TrafficOf(calls, ids) + {calls[id].trafficID}
      ensures t in after
    {
      if t in TrafficOf(calls, ids) {
        var i :| i in ids && i in calls && calls[i].trafficID == t;
        assert i in ids + {id};
      } else {
        assert id in ids + {id};
      }
    }
  }

  /** Two tracked calls never share a route. */
  lemma OneCallPerRoute(calls: map<string, BridgeCall>, locks: map<string, RouteLock>, a: string, b: string)
    requires Locked(calls, locks) && a in calls && b in calls && calls[a].routeKey == calls[b].routeKey
    ensures a == b
  {
    assert OwnsRoute(calls, locks, a) && OwnsRoute(calls, locks, b);
  }

  lemma HolderOfRoute(calls: map<string, BridgeCall>, locks: map<string, RouteLock>, r: string)
    requires Locked(calls, locks) && r in locks
    ensures locks[r].callID in calls && calls[locks[r].callID].routeKey == r
    ensures calls[locks[r].callID].netstackID == locks[r].callID
  {
    assert NamesCall(calls, locks, r);
    assert OwnsRoute(calls, locks, locks[r].callID);
  }

  lemma OwnerOfRoute(calls: map<string, BridgeCall>, locks: map<string, RouteLock>, id: string)
    requires Locked(calls, locks) && id in calls
    ensures OwnsRoute(calls, locks, id)
  {
  }

  /** A new call displaces the holder of its route and the bearer of its id, and nobody else. */
  lemma DisplacedAre(calls: map<string, BridgeCall>, locks: map<string, RouteLock>, c: BridgeCall)
    requires Locked(calls, locks)
    ensures Replaced(calls, c)
            == (if c.netstackID in calls then {c.netstackID} else {})
               + (if c.routeKey in locks then {locks[c.routeKey].callID} else {})
  {
    if c.routeKey in locks {
      HolderOfRoute(calls, locks, c.routeKey);
    }
    forall id | id in calls && calls[id].routeKey == c.routeKey
      ensures c.routeKey in locks && id == locks[c.routeKey].callID
    {
      assert OwnsRoute(calls, locks, id);
    }
  }

  lemma TrafficOfReplaced(calls: map<string, BridgeCall>, locks: map<string, RouteLock>, c: BridgeCall)
    requires Locked(calls, locks)
    ensures c.routeKey in locks ==> locks[c.routeKey].callID in calls
    ensures TrafficOf(calls, Replaced(calls, c))
            == (if c.netstackID in calls then {calls[c.netstackID].trafficID} else {})
               + (if c.routeKey in locks then {calls[locks[c.routeKey].callID].trafficID} else {})
  {
    DisplacedAre(calls, locks, c);
    if c.routeKey in locks {
      HolderOfRoute(calls, locks, c.routeKey);
      TrafficOfOneMore(calls, if c.netstackID in calls then {c.netstackID} else {}, locks[c.routeKey].callID);
    }
    if c.netstackID in calls {
      TrafficOfOneMore(calls, {}, c.netstackID);
    }
    NothingOfNobody(calls);
    assert {} + {c.netstackID} == {c.netstackID};
  }

  lemma OnlyUnderItsId(calls: map<string, BridgeCall>, locks: map<string, RouteLock>, id: string)
    requires Locked(calls, locks) && id in calls
    ensures calls[id] !in (calls - {id}).Values
  {
    assert OwnsRoute(calls, locks, id);
    forall i | i in calls - {id}
      ensures calls[i] != calls[id]
    {
      assert OwnsRoute(calls, locks, i);
    }
  }

  /** Without a call and its lock. */
  lemma LockedWithout(calls: map<string, BridgeCall>, locks: map<string, RouteLock>, id: string)
    requires Locked(calls, locks) && id in calls
    ensures Locked(calls - {id}, locks - {calls[id].routeKey})
    ensures calls[id].routeKey in locks && locks[calls[id].routeKey].callID == id
  {
    assert OwnsRoute(calls, locks, id);
    var c, l := calls - {id}, locks - {calls[id].routeKey};
    forall i | i in c
      ensures OwnsRoute(c, l, i)
    {
      assert OwnsRoute(calls, locks, i);
      if calls[i].routeKey == calls[id].routeKey {
        OneCallPerRoute(calls, locks, i, id);
      }
    }
    forall r | r in l
      ensures NamesCall(c, l, r)
    {
      assert NamesCall(calls, locks, r);
    }
  }

  /** With a call on a route that is free, under an id that is free. */
  lemma LockedWith(calls: map<string, BridgeCall>, locks: map<string, RouteLock>, c: BridgeCall, expires: int)
    requires Locked(calls, locks) && c.netstackID !in calls && c.routeKey !in locks
    ensures Locked(calls[c.netstackID := c], locks[c.routeKey := RouteLock(c.netstackID, expires)])
  {
    var cs, ls := calls[c.netstackID := c], locks[c.routeKey := RouteLock(c.netstackID, expires)];
    forall i | i in cs
      ensures OwnsRoute(cs, ls, i)
    {
      if i != c.netstackID {
        assert OwnsRoute(calls, locks, i);
      }
    }
    forall r | r in ls
      ensures NamesCall(cs, ls, r)
    {
      if r != c.routeKey {
        assert NamesCall(calls, locks, r);
      }
    }
  }

  lemma DispatchedWith(traffic: map<string, BridgeCall>, calls: map<string, BridgeCall>, c: BridgeCall)
    requires Dispatched(traffic, calls) && c.netstackID !in calls
    ensures Dispatched(traffic, calls[c.netstackID := c])
    ensures c.trafficID != "" ==> Dispatched(traffic[c.trafficID := c], calls[c.netstackID := c])
  {
  }

  /** A lock may be extended. */
  lemma LockedLonger(calls: map<string, BridgeCall>, locks: map<string, RouteLock>, r: string, expires: int)
    requires Locked(calls, locks) && r in locks
    ensures Locked(calls, locks[r := RouteLock(locks[r].callID, expires)])
  {
    var ls := locks[r := RouteLock(locks[r].callID, expires)];
    forall i | i in calls
      ensures OwnsRoute(calls, ls, i)
    {
      assert OwnsRoute(calls, locks, i);
    }
    forall k | k in ls
      ensures NamesCall(calls, ls, k)
    {
      assert NamesCall(calls, locks, k);
    }
  }

  /** The route can be taken. */
  predicate Free(locks: map<string, RouteLock>, c: BridgeCall, now: int) {
    c.routeKey !in locks || locks[c.routeKey].callID == c.netstackID || now >= locks[c.routeKey].expiresAt
  }

  /** The tracked calls that a new one displaces. */
  ghost function Replaced(calls: map<string, BridgeCall>, c: BridgeCall): set<string> {
    set id | id in calls && (id == c.netstackID || calls[id].routeKey == c.routeKey)
  }

  /** The listed calls are those with the given ids. */
  ghost predicate AreCalls(list: seq<BridgeCall>, calls: map<string, BridgeCall>, ids: set<string>) {
    && (forall c :: c in list ==> exists id :: id in ids && id in calls && calls[id] == c)
    && (forall id :: id in ids ==> id in calls && calls[id] in list)
  }

  ghost function Expired(locks: map<string, RouteLock>, now: int): set<string> {
    set r | r in locks && now >= locks[r].expiresAt
  }

  ghost function Holders(locks: map<string, RouteLock>, routes: set<string>): set<string> {
    set r | r in routes && r in locks :: locks[r].callID
  }

  /** The first list holds active calls only, the second none. */
  ghost predicate Split(toRelease: seq<BridgeCall>, toDrop: seq<BridgeCall>, active: set<BridgeCall>) {
    (forall c :: c in toRelease ==> c in active) && (forall c :: c in toDrop ==> c !in active)
  }

  lemma NoneSplit(active: set<BridgeCall>)
    ensures Split([], [], active)
  {
  }

  lemma SplitOneMore(toRelease: seq<BridgeCall>, toDrop: seq<BridgeCall>, active: set<BridgeCall>, call: BridgeCall)
    requires Split(toRelease, toDrop, active)
    ensures call in active ==> Split(toRelease + [call], toDrop, active)
    ensures call !in active ==> Split(toRelease, toDrop + [call], active)
  {
  }

  lemma PlusOne<V>(m: map<string, V>, k: string, v: V)
    ensures m + map[k := v] == m[k := v] && m + map[] == m
  {
  }

  lemma MinusOne<V>(m: map<string, V>, gone: set<string>, k: string)
    ensures m - gone - {k} == m - (gone + {k})
  {
  }

  /** Expired routes are either done or still to do. */
  ghost predicate Progress(locks: map<string, RouteLock>, now: int, gone: set<string>, todo: set<string>) {
    gone <= Expired(locks, now) <= gone + todo <= locks.Keys && gone !! todo
  }

  lemma ProgressStart(locks: map<string, RouteLock>, now: int)
    ensures Progress(locks, now, {}, locks.Keys)
  {
  }

  lemma ProgressStep(locks: map<string, RouteLock>, now: int, gone: set<string>, todo: set<string>, route: string)
    requires Progress(locks, now, gone, todo) && route in todo
    ensures route in locks && route !in gone
    ensures if now >= locks[route].expiresAt then Progress(locks, now, gone + {route}, todo - {route})
            else Progress(locks, now, gone, todo - {route})
  {
  }

  lemma ProgressDone(locks: map<string, RouteLock>, now: int, gone: set<string>)
    requires Progress(locks, now, gone, {})
    ensures gone == Expired(locks, now)
  {
  }

  lemma NoHolders(calls: map<string, BridgeCall>, locks: map<string, RouteLock>)
    ensures Holders(locks, {}) == {} && AreCalls([] + [], calls, Holders(locks, {}))
  {
  }

  lemma OneMoreHolder(calls: map<string, BridgeCall>, locks: map<string, RouteLock>, gone: set<string>, route: string,
                      toRelease: seq<BridgeCall>, toDrop: seq<BridgeCall>, call: BridgeCall)
    requires route in locks && locks[route].callID in calls && calls[locks[route].callID] == call
    requires AreCalls(toRelease + toDrop, calls, Holders(locks, gone))
    ensures Holders(locks, gone + {route}) == Holders(locks, gone) + {locks[route].callID}
    ensures AreCalls(toRelease + [call] + toDrop, calls, Holders(locks, gone + {route}))
    ensures AreCalls(toRelease + (toDrop + [call]), calls, Holders(locks, gone + {route}))
  {
    var list, ids := toRelease + toDrop, Holders(locks, gone);
    var after, id := Holders(locks, gone + {route}), locks[route].callID;
    assert after == ids + {id};
    forall c | c in toRelease + [call] + toDrop || c in toRelease + (toDrop + [call])
      ensures exists i :: i in after && i in calls && calls[i] == c
    {
      if c == call {
        assert id in after && calls[id] == c;
      } else {
        assert c in list;
        var i :| i in ids && i in calls && calls[i] == c;
        assert i in after;
      }
    }
    forall i | i in after
      ensures i in calls && (calls[i] in toRelease || calls[i] in toDrop || calls[i] == call)
    {
      if i != id {
        assert calls[i] in list;
      }
    }
  }

  /** Eviction removes exactly the calls whose own lock has run out. */
  lemma EvictedIffExpired(calls: map<string, BridgeCall>, locks: map<string, RouteLock>, id: string, now: int)
    requires Locked(calls, locks) && id in calls
    ensures calls[id].routeKey in locks
    ensures id in Holders(locks, Expired(locks, now)) <==> now >= locks[calls[id].routeKey].expiresAt
  {
    assert OwnsRoute(calls, locks, id);
    if id in Holders(locks, Expired(locks, now)) {
      var r :| r in Expired(locks, now) && locks[r].callID == id;
      HolderOfRoute(calls, locks, r);
    }
  }

  /** After an eviction, entry by entry: a call is there as long as its own lock has not run out, and a traffic entry as
      long as that of no call with the traffic id has. */
  ghost predicate StillThere(calls: map<string, BridgeCall>, traffic: map<string, BridgeCall>,
                             locks: map<string, RouteLock>, now: int, after: map<string, BridgeCall>,
                             left: map<string, BridgeCall>)
  {
    && (forall id :: id in after <==> id in calls && Unexpired(locks, calls[id].routeKey, now))
    && (forall id :: id in after ==> after[id] == calls[id])
    && (forall t :: t in left <==> t in traffic && forall id :: id in calls && calls[id].trafficID == t ==>
                                     Unexpired(locks, calls[id].routeKey, now))
    && (forall t :: t in left ==> left[t] == traffic[t])
  }

  predicate Unexpired(locks: map<string, RouteLock>, route: string, now: int) {
    route in locks && now < locks[route].expiresAt
  }

  lemma StillThereIs(calls: map<string, BridgeCall>, traffic: map<string, BridgeCall>, locks: map<string, RouteLock>,
                     now: int)
    requires Locked(calls, locks)
    ensures var gone := Holders(locks, Expired(locks, now));
            StillThere(calls, traffic, locks, now, calls - gone, traffic - TrafficOf(calls, gone))
  {
    hide Locked, Holders, Expired;
    var gone := Holders(locks, Expired(locks, now));
    forall id | id in calls
      ensures id in calls - gone <==> Unexpired(locks, calls[id].routeKey, now)
    {
      EvictedIffExpired(calls, locks, id, now);
    }
    forall t | t in traffic
      ensures t in traffic - TrafficOf(calls, gone)
              <==> forall id :: id in calls && calls[id].trafficID == t ==> Unexpired(locks, calls[id].routeKey, now)
    {
      SurvivesIff(traffic, calls, gone, t);
    }
  }

  /** What a call passes on while `frames` arrive: all of them if it was active already, those it had kept and all
      of them if it becomes active, and nothing if it does not. */
  function Passed(was: bool, started: bool, kept: seq<Frame>, frames: seq<Frame>): seq<Frame> {
    if was then frames else if started then kept + frames else []
  }

  lemma NothingPassed(started: bool, kept: seq<Frame>)
    requires started ==> kept == []
    ensures Passed(started, started, kept, []) == []
    ensures forall frames :: Passed(false, false, kept, frames) == []
  {
  }

  lemma PassedStep(was: bool, before: bool, after: bool, kept: seq<Frame>, frames: seq<Frame>, i: nat)
    requires (was ==> before) && (before ==> after) && i < |frames|
    ensures Passed(was, after, kept, frames[..i + 1])
            == Passed(was, before, kept, frames[..i])
               + Passed(before, after, if before then [] else kept + frames[..i], [frames[i]])
  {
    OneMoreFrame(kept, frames, i);
    OneMoreFrame([], frames, i);
    assert [] + frames[..i] == frames[..i] && [] + frames[..i + 1] == frames[..i + 1];
  }

  lemma OneMoreFrame(head: seq<Frame>, frames: seq<Frame>, i: nat)
    requires i < |frames|
    ensures head + frames[..i] + [frames[i]] == head + frames[..i + 1]
  {
  }

  class NetstackBridge {
    var callsByID: map<string, BridgeCall>
    var callsByTraffic: map<string, BridgeCall>
    var routeLocks: map<string, RouteLock>
    const minFrames: nat
    const pendingMaxAge: int
    const routeTimeout: int

    /** A threshold below one counts as one; ages fall back to two and thirty seconds. */
    constructor (minTrafficFrames: int, maxAge: int, timeout: int)
      ensures Valid() && callsByID == map[] && callsByTraffic == map[] && routeLocks == map[]
      ensures minFrames == (if minTrafficFrames < 1 then 1 else minTrafficFrames)
      ensures pendingMaxAge == (if maxAge <= 0 then 2000 else maxAge)
      ensures routeTimeout == (if timeout <= 0 then 30000 else timeout)
    {
      callsByID, callsByTraffic, routeLocks := map[], map[], map[];
      minFrames := if minTrafficFrames < 1 then 1 else minTrafficFrames;
      pendingMaxAge := if maxAge <= 0 then 2000 else maxAge;
      routeTimeout := if timeout <= 0 then 30000 else timeout;
    }

    // ---- invariants ----

    ghost predicate Configured() {
      minFrames >= 1 && pendingMaxAge > 0 && routeTimeout > 0
    }

    ghost predicate InOrder()
      reads this, callsByID.Values
    {
      forall c :: c in callsByID.Values ==> c.InOrder(minFrames)
    }

    ghost predicate Tables()
      reads this
    {
      Configured() && Locked(callsByID, routeLocks) && Dispatched(callsByTraffic, callsByID)
    }

    ghost predicate Valid()
      reads this, callsByID.Values
    {
      Tables() && InOrder()
    }

    /** No two tracked calls share a traffic id, so none is cut off from its frames. Not an invariant. */
    ghost predicate Whole()
      reads this
    {
      Complete(callsByTraffic, callsByID)
    }

    /** What an eviction at this moment would leave. */
    ghost function LeftCalls(now: int): map<string, BridgeCall>
      reads this
    {
      callsByID - Holders(routeLocks, Expired(routeLocks, now))
    }

    ghost function LeftTraffic(now: int): map<string, BridgeCall>
      reads this
    {
      callsByTraffic - TrafficOf(callsByID, Holders(routeLocks, Expired(routeLocks, now)))
    }

    ghost function LeftLocks(now: int): map<string, RouteLock>
      reads this
    {
      routeLocks - Expired(routeLocks, now)
    }

    // ---- table helpers ----

    method DropCallNoLock(call: BridgeCall)
      modifies this
      ensures callsByID == old(callsByID) - {call.netstackID}
      ensures callsByTraffic
              == if call.trafficID != "" then old(callsByTraffic) - {call.trafficID} else old(callsByTraffic)
      ensures routeLocks == old(routeLocks)
    {
      callsByID := callsByID - {call.netstackID};
      if call.trafficID != "" {
        callsByTraffic := callsByTraffic - {call.trafficID};
      }
    }

    method ReleaseRouteLockNoLock(routeKey: string, callID: string)
      modifies this`routeLocks
      ensures routeLocks == if routeKey in old(routeLocks) && (callID == "" || old(routeLocks)[routeKey].callID == callID)
                            then old(routeLocks) - {routeKey} else old(routeLocks)
    {
      if routeKey !in routeLocks {
        return;
      }
      if callID != "" && routeLocks[routeKey].callID != callID {
        return;
      }
      routeLocks := routeLocks - {routeKey};
    }

    method ArmRouteLockNoLock(routeKey: string, callID: string, ttl: int, now: int)
      modifies this`routeLocks
      ensures routeLocks == if ttl <= 0 then old(routeLocks) else old(routeLocks)[routeKey := RouteLock(callID, now + ttl)]
    {
      if ttl <= 0 {
        return;
      }
      routeLocks := routeLocks[routeKey := RouteLock(callID, now + ttl)];
    }

    method TouchRouteLockNoLock(routeKey: string, callID: string, now: int)
      modifies this`routeLocks
      ensures routeLocks == if routeKey in old(routeLocks) && old(routeLocks)[routeKey].callID == callID
                            then old(routeLocks)[routeKey := RouteLock(callID, now + routeTimeout)] else old(routeLocks)
    {
      if routeKey !in routeLocks || routeLocks[routeKey].callID != callID {
        return;
      }
      routeLocks := routeLocks[routeKey := RouteLock(callID, now + routeTimeout)];
    }

    // ---- calls come and go ----

    /** `dropCall` of a tracked call: it, its lock and its traffic entry go; the rest stays. */
    method DropCall(call: BridgeCall)
      requires Tables() && call.netstackID in callsByID && callsByID[call.netstackID] == call
      modifies this
      ensures Tables()
      ensures callsByID == old(callsByID) - {call.netstackID}
      ensures routeLocks == old(routeLocks) - {call.routeKey}
      ensures callsByTraffic == old(callsByTraffic) - {call.trafficID}
      ensures old(InOrder()) ==> InOrder()
      ensures old(Whole()) ==> Whole()
    {
      hide Locked, Complete, TrafficOf;
      if Whole() {
        DropKeepsComplete(callsByTraffic, callsByID, routeLocks, call.netstackID);
      }
      LockedWithout(callsByID, routeLocks, call.netstackID);
      DropCallNoLock(call);
      ReleaseRouteLockNoLock(call.routeKey, call.netstackID);
    }

    /** A live lock of another call blocks the route. Otherwise the new call replaces whoever had its route and
        whoever had its id. */
    method RegisterPendingCall(session: BridgeCall, now: int)
      returns (added: bool, stale: seq<BridgeCall>, blockedBy: string)
      requires Valid() && session !in callsByID.Values && session.Untouched()
      modifies this
      ensures Valid()
      ensures added <==> || session.routeKey !in old(routeLocks)
                         || old(routeLocks)[session.routeKey].callID == session.netstackID
                         || now >= old(routeLocks)[session.routeKey].expiresAt
      ensures !added ==>
                && callsByID == old(callsByID) && callsByTraffic == old(callsByTraffic)
                && routeLocks == old(routeLocks) && stale == []
                && blockedBy == old(routeLocks)[session.routeKey].callID && blockedBy != session.netstackID
      ensures added ==>
                && callsByID == WithCall(old(callsByID), session)
                && callsByTraffic == WithTraffic(old(callsByTraffic), old(callsByID), session)
                && session.routeKey in routeLocks
                && routeLocks[session.routeKey] == RouteLock(session.netstackID, now + pendingMaxAge)
                && (forall r :: r in routeLocks && r != session.routeKey ==>
                      r in old(routeLocks) && routeLocks[r] == old(routeLocks)[r])
      ensures added ==> AreCalls(stale, old(callsByID), Replaced(old(callsByID), session))
      ensures added ==> Admitted(old(callsByID), old(callsByTraffic), session, callsByID, callsByTraffic)
      ensures added && old(Whole()) ==>
                (Whole() <==> Unshared(old(callsByID) - Replaced(old(callsByID), session), session))
    {
      hide Locked, Replaced, AreCalls, Dispatched, Complete, TrafficOf, Unshared, Admitted;
      stale, blockedBy := [], "";
      if !Free(routeLocks, session, now) {
        HolderOfRoute(callsByID, routeLocks, session.routeKey);
        return false, [], routeLocks[session.routeKey].callID;
      }
      if Whole() {
        RegistrationIff(callsByTraffic, callsByID, routeLocks, session);
      }
      AdmittedIs(callsByID, callsByTraffic, session);
      stale := Displace(session);
      Admit(session, now);
      added := true;
    }

    /** The tables of a registration once nobody is in its way. */
    method Admit(session: BridgeCall, now: int)
      requires Tables() && session.netstackID !in callsByID && session.routeKey !in routeLocks
      modifies this
      ensures Tables()
      ensures callsByID == old(callsByID) + map[session.netstackID := session]
      ensures callsByTraffic
              == old(callsByTraffic) + (if session.trafficID == "" then map[] else map[session.trafficID := session])
      ensures routeLocks == old(routeLocks)[session.routeKey := RouteLock(session.netstackID, now + pendingMaxAge)]
    {
      hide Locked, Dispatched;
      LockedWith(callsByID, routeLocks, session, now + pendingMaxAge);
      DispatchedWith(callsByTraffic, callsByID, session);
      PlusOne(callsByID, session.netstackID, session);
      PlusOne(callsByTraffic, session.trafficID, session);
      callsByID := callsByID[session.netstackID := session];
      if session.trafficID != "" {
        callsByTraffic := callsByTraffic[session.trafficID := session];
      }
      ArmRouteLockNoLock(session.routeKey, session.netstackID, pendingMaxAge, now);
    }

    /** Drops the holder of the route, then the bearer of the id. */
    method Displace(session: BridgeCall) returns (stale: seq<BridgeCall>)
      requires Tables()
      modifies this
      ensures Tables()
      ensures callsByID == old(callsByID) - Replaced(old(callsByID), session)
      ensures callsByTraffic == old(callsByTraffic) - TrafficOf(old(callsByID), Replaced(old(callsByID), session))
      ensures session.netstackID !in callsByID && session.routeKey !in routeLocks
      ensures forall r :: r in routeLocks ==> r in old(routeLocks) && routeLocks[r] == old(routeLocks)[r]
      ensures AreCalls(stale, old(callsByID), Replaced(old(callsByID), session))
    {
      hide Locked, Dispatched, TrafficOf;
      stale := [];
      var r, id := session.routeKey, session.netstackID;
      ghost var calls, locks := callsByID, routeLocks;
      DisplacedAre(calls, locks, session);
      TrafficOfReplaced(calls, locks, session);
      if r in routeLocks {
        HolderOfRoute(callsByID, routeLocks, r);
      }
      if r in routeLocks && routeLocks[r].callID != id {
        var holder := callsByID[routeLocks[r].callID];
        stale := [holder];
        DropCall(holder);
      }
      if id in callsByID {
        OwnerOfRoute(calls, locks, id);
        stale := stale + [callsByID[id]];
        DropCall(callsByID[id]);
      }
    }

    /** The calls that voice is going out for. */
    ghost function Active(): set<BridgeCall>
      reads this, callsByID.Values
    {
      set c | c in callsByID.Values && c.started
    }

    /** Drops the call that holds a route, and the lock. */
    method EvictRoute(route: string) returns (call: BridgeCall)
      requires Tables() && route in routeLocks
      modifies this
      ensures Tables()
      ensures old(routeLocks)[route].callID in old(callsByID) && call == old(callsByID)[old(routeLocks)[route].callID]
      ensures routeLocks == old(routeLocks) - {route}
      ensures callsByID == old(callsByID) - {old(routeLocks)[route].callID}
      ensures callsByTraffic == old(callsByTraffic) - {call.trafficID}
    {
      HolderOfRoute(callsByID, routeLocks, route);
      call := callsByID[routeLocks[route].callID];
      LockedWithout(callsByID, routeLocks, call.netstackID);
      DropCallNoLock(call);
      routeLocks := routeLocks - {route};
    }

    /** Drops every call whose lock has run out: those already active are released downstream. */
    method EvictExpiredCalls(now: int) returns (toRelease: seq<BridgeCall>, toDrop: seq<BridgeCall>)
      requires Tables()
      modifies this
      ensures Tables()
      ensures old(InOrder()) ==> InOrder()
      ensures routeLocks == old(LeftLocks(now)) && callsByID == old(LeftCalls(now))
      ensures callsByTraffic == old(LeftTraffic(now))
      ensures StillThere(old(callsByID), old(callsByTraffic), old(routeLocks), now, callsByID, callsByTraffic)
      ensures old(Whole()) ==> Whole()
      ensures AreCalls(toRelease + toDrop, old(callsByID), Holders(old(routeLocks), Expired(old(routeLocks), now)))
      ensures Split(toRelease, toDrop, old(Active()))
    {
      hide Locked, Dispatched, Complete, Named, AreCalls, Holders, Split, Expired, Progress, TrafficOf, StillThere;
      toRelease, toDrop := [], [];
      var todo := routeLocks.Keys;
      ghost var locks, calls, traffic := routeLocks, callsByID, callsByTraffic;
      ghost var gone: set<string> := {};
      NothingOfNobody(calls);
      LockedIsNamed(calls, locks);
      NoHolders(calls, locks);
      NoneSplit(Active());
      ProgressStart(locks, now);
      ghost var active := Active();
      while todo != {}
        invariant Tables() && Progress(locks, now, gone, todo)
        invariant routeLocks == locks - gone
        invariant callsByID == calls - Holders(locks, gone)
        invariant callsByTraffic == traffic - TrafficOf(calls, Holders(locks, gone))
        invariant AreCalls(toRelease + toDrop, calls, Holders(locks, gone))
        invariant Split(toRelease, toDrop, active)
        decreases |todo|
      {
        var route :| route in todo;
        ProgressStep(locks, now, gone, todo, route);
        todo := todo - {route};
        if now >= routeLocks[route].expiresAt {
          var call := EvictRoute(route);
          OneMoreHolder(calls, locks, gone, route, toRelease, toDrop, call);
          SplitOneMore(toRelease, toDrop, active, call);
          MinusOne(locks, gone, route);
          MinusOne(calls, Holders(locks, gone), locks[route].callID);
          TrafficOfOneMore(calls, Holders(locks, gone), locks[route].callID);
          MinusOne(traffic, TrafficOf(calls, Holders(locks, gone)), call.trafficID);
          if call.started {
            toRelease := toRelease + [call];
          } else {
            toDrop := toDrop + [call];
          }
          gone := gone + {route};
        }
      }
      ProgressDone(locks, now, gone);
      StillThereIs(calls, traffic, locks, now);
      if Complete(traffic, calls) {
        CompleteWithout(traffic, calls, Holders(locks, gone));
      }
    }

    /** A state change reported from outside keeps the lock alive. */
    method TransitionCallState(callID: string, nextState: string, now: int) returns (call: BridgeCall?, prev: string)
      requires Valid()
      modifies this`routeLocks, callsByID.Values`state, callsByID.Values`lastEventAt
      ensures Valid()
      ensures callID in callsByID ==>
                var c := callsByID[callID];
                && c.lastEventAt == now
                && routeLocks == old(routeLocks)[c.routeKey := RouteLock(callID, now + routeTimeout)]
      ensures callID !in callsByID ==> call == null && routeLocks == old(routeLocks)
      ensures callID in callsByID ==> call == callsByID[callID] && prev == old(call.state) && call.state == nextState
      ensures forall c :: c in callsByID.Values && c != call ==> unchanged(c)
    {
      if callID !in callsByID {
        return null, "";
      }
      call := callsByID[callID];
      prev := call.state;
      call.state := nextState;
      call.lastEventAt := now;
      TouchRouteLockNoLock(call.routeKey, call.netstackID, now);
    }

    // ---- traffic ----

    /** Accounts for one frame: a call too old for its threshold is dropped, a pending call keeps the frame, and
        the frame that reaches the threshold hands out everything kept so far. */
    method OnTrafficFrame(callID: string, frame: Frame, now: int)
      returns (call: BridgeCall?, flush: seq<Frame>, activate: bool)
      requires Valid()
      modifies this, if callID in callsByID then {callsByID[callID]} else {}
      ensures Tables()
      ensures callID !in old(callsByID) ==> call == null && !activate && Valid()
      ensures old(Whole()) ==> Whole()
      ensures callID in old(callsByID) ==>
              var c := old(callsByID)[callID];
              && c.started == old(c.started) && c.forwarded == old(c.forwarded)
              && (if !c.started && now - c.createdAt > pendingMaxAge then
                    && call == null && !activate
                    && callsByID == old(callsByID) - {callID} && routeLocks == old(routeLocks) - {c.routeKey}
                    && callsByTraffic == old(callsByTraffic) - {c.trafficID}
                  else
                    && call == c && callsByID == old(callsByID) && callsByTraffic == old(callsByTraffic)
                    && c.lastEventAt == now && c.frameCount == old(c.frameCount) + 1
                    && c.state == (if activate then "activating" else old(c.state))
                    && routeLocks == (if c.started then old(routeLocks)[c.routeKey := RouteLock(callID, now + routeTimeout)]
                                      else old(routeLocks))
                    && c.received == old(c.received) + [frame] && c.frameCount == |c.received|
                    && (activate <==> !c.started && c.frameCount >= minFrames)
                    && (activate ==> flush == c.received && c.pendingFrames == [])
                    && (!activate ==> c.pendingFrames == if c.started then [] else c.received))
    {
      hide Locked, Dispatched, Complete;
      if callID !in callsByID {
        return null, [], false;
      }
      OwnerOfRoute(callsByID, routeLocks, callID);
      var c := callsByID[callID];
      assert c.InOrder(minFrames);
      c.frameCount := c.frameCount + 1;
      c.lastEventAt := now;
      flush, activate := [], false;
      if !c.started && now - c.createdAt > pendingMaxAge {
        DropCall(c);
        return null, [], false;
      }
      call := c;
      c.received := c.received + [frame];
      if c.started {
        LockedLonger(callsByID, routeLocks, c.routeKey, now + routeTimeout);
        TouchRouteLockNoLock(c.routeKey, c.netstackID, now);
        return;
      }
      c.pendingFrames := c.pendingFrames + [frame];
      if c.frameCount < minFrames {
        return;
      }
      flush := c.pendingFrames;
      c.pendingFrames := [];
      c.state := "activating";
      activate := true;
    }

    method MarkCallActivated(callID: string, now: int)
      requires Tables()
      modifies this`routeLocks, if callID in callsByID then {callsByID[callID]} else {}
      ensures Tables()
      ensures callID in callsByID ==>
              var c := callsByID[callID];
              && c.state == "active" && c.lastEventAt == now
              && routeLocks == old(routeLocks)[c.routeKey := RouteLock(callID, now + routeTimeout)]
              && c.started && c.frameCount == old(c.frameCount) && c.pendingFrames == old(c.pendingFrames)
              && c.received == old(c.received) && c.forwarded == old(c.forwarded)
    {
      hide Locked, Dispatched;
      if callID !in callsByID {
        return;
      }
      OwnerOfRoute(callsByID, routeLocks, callID);
      var call := callsByID[callID];
      call.started := true;
      call.state := "active";
      call.lastEventAt := now;
      LockedLonger(callsByID, routeLocks, call.routeKey, now + routeTimeout);
      ArmRouteLockNoLock(call.routeKey, call.netstackID, routeTimeout, now);
    }

    predicate Tracks(c: BridgeCall)
      reads this
    {
      c.netstackID in callsByID && callsByID[c.netstackID] == c
    }

    /** Does a call live through n more frames? A pending one must be young enough, and find a subscriber when it
        reaches the threshold. */
    predicate Lives(started: bool, count: nat, age: int, n: nat, subscribers: bool) {
      started || n == 0 || (age <= pendingMaxAge && (count + n < minFrames || subscribers))
    }

    /** What a call's lock becomes: gone with it, extended by every frame of an active call, untouched otherwise. */
    ghost function LocksAfter(locks: map<string, RouteLock>, c: BridgeCall, lives: bool, voicing: bool, now: int)
      : map<string, RouteLock>
    {
      if !lives then locks - {c.routeKey}
      else if voicing then locks[c.routeKey := RouteLock(c.netstackID, now + routeTimeout)]
      else locks
    }

    lemma LivesAtFirst(was: bool, count: nat, age: int, subscribers: bool)
      ensures Lives(was, count, age, 0, subscribers)
    {
    }

    lemma LivesOn(was: bool, count: nat, age: int, i: nat, n: nat, subscribers: bool)
      requires i < n && Lives(was, count, age, i, subscribers) && (was || count < minFrames)
      ensures Lives(was, count, age, i + 1, subscribers)
              <==> Lives(was || count + i >= minFrames, count + i, age, 1, subscribers)
      ensures was || count + i >= minFrames ==> Lives(was, count, age, i + 1, subscribers)
      ensures Lives(was, count, age, n, subscribers) ==> Lives(was, count, age, i + 1, subscribers)
    {
    }

    lemma LocksOverTime(locks: map<string, RouteLock>, c: BridgeCall, before: bool, lives: bool, voicing: bool, now: int)
      requires before && lives ==> voicing
      ensures LocksAfter(locks, c, true, false, now) == locks
      ensures LocksAfter(LocksAfter(locks, c, true, before, now), c, lives, voicing, now)
              == LocksAfter(locks, c, lives, voicing, now)
    {
    }

    /** One frame of a message. `subscribers` says whether anybody listens, should the call activate now;
        `voiced` are the frames passed on. */
    method HandleFrame(session: BridgeCall, frame: Frame, now: int, subscribers: bool)
      returns (more: bool, voiced: seq<Frame>)
      requires Valid() && Tracks(session)
      modifies this, session
      ensures Valid()
      ensures more <==> Tracks(session)
      ensures more <==> Lives(old(session.started), old(session.frameCount), now - session.createdAt, 1, subscribers)
      ensures callsByID == if more then old(callsByID) else old(callsByID) - {session.netstackID}
      ensures callsByTraffic == if more then old(callsByTraffic) else old(callsByTraffic) - {session.trafficID}
      ensures routeLocks == LocksAfter(old(routeLocks), session, more, session.started, now)
      ensures old(Whole()) ==> Whole()
      ensures more ==> session.frameCount == old(session.frameCount) + 1
      ensures more ==> (session.started <==> old(session.started) || session.frameCount >= minFrames)
      ensures session.forwarded == old(session.forwarded) + voiced
      ensures !more ==> voiced == []
      ensures more ==>
                && session.received == old(session.received) + [frame]
                && session.pendingFrames == (if session.started then [] else old(session.pendingFrames) + [frame])
                && voiced == Passed(old(session.started), session.started, old(session.pendingFrames), [frame])
    {
      hide Locked, Dispatched, Complete;
      voiced := [];
      ghost var id := session.netstackID;
      assert session.InOrder(minFrames);
      OnlyUnderItsId(callsByID, routeLocks, id);
      var snapshot, flush, activate := OnTrafficFrame(session.netstackID, frame, now);
      if snapshot == null {
        return false, [];
      }
      if activate {
        if !subscribers {
          OwnerOfRoute(callsByID, routeLocks, id);
          DropCall(session);
          return false, [];
        }
        MarkCallActivated(session.netstackID, now);
        voiced := flush;
      } else if session.started {
        voiced := [frame];
      }
      session.forwarded := session.forwarded + voiced;
      more := true;
    }

    /** The frame loop of a message. */
    method HandleFrames(session: BridgeCall, frames: seq<Frame>, now: int, subscribers: bool)
      returns (voiced: seq<Frame>)
      requires Valid() && Tracks(session)
      modifies this, session
      ensures Valid()
      ensures session.forwarded == old(session.forwarded) + voiced
      ensures Tracks(session) ==>
                && session.received == old(session.received) + frames
                && voiced == Passed(old(session.started), session.started, old(session.pendingFrames), frames)
      ensures !Tracks(session) ==> voiced == [] && !old(session.started)
      ensures Tracks(session)
              <==> Lives(old(session.started), old(session.frameCount), now - session.createdAt, |frames|, subscribers)
      ensures Tracks(session) ==>
                (session.started <==> old(session.started) || old(session.frameCount) + |frames| >= minFrames)
      ensures callsByID == if Tracks(session) then old(callsByID) else old(callsByID) - {session.netstackID}
      ensures callsByTraffic == if Tracks(session) then old(callsByTraffic) else old(callsByTraffic) - {session.trafficID}
      ensures routeLocks == LocksAfter(old(routeLocks), session, Tracks(session), session.started && frames != [], now)
      ensures old(Whole()) ==> Whole()
    {
      hide *;
      voiced := [];
      ghost var was, kept, before, sent := session.started, session.pendingFrames, session.received, session.forwarded;
      ghost var count, calls, traffic, locks := session.frameCount, callsByID, callsByTraffic, routeLocks;
      HoldsWhatItHas(session);
      NothingPassed(was, kept);
      LocksOverTime(locks, session, false, true, false, now);
      LivesAtFirst(was, count, now - session.createdAt, subscribers);
      for i := 0 to |frames|
        invariant Valid() && Tracks(session) && (old(Whole()) ==> Whole())
        invariant session.frameCount == count + i && (session.started <==> was || count + i >= minFrames)
        invariant Lives(was, count, now - session.createdAt, i, subscribers)
        invariant callsByID == calls && callsByTraffic == traffic
        invariant routeLocks == LocksAfter(locks, session, true, session.started && i > 0, now)
        invariant session.received == before + frames[..i] && session.forwarded == sent + voiced
        invariant session.pendingFrames == (if session.started then [] else kept + frames[..i])
        invariant voiced == Passed(was, session.started, kept, frames[..i])
      {
        ghost var active := session.started;
        LivesOn(was, count, now - session.createdAt, i, |frames|, subscribers);
        var more, v := HandleFrame(session, frames[i], now, subscribers);
        LocksOverTime(locks, session, active && i > 0, more, session.started, now);
        OneMoreFrame(before, frames, i);
        OneMoreFrame(kept, frames, i);
        PassedStep(was, active, active || session.started, kept, frames, i);
        voiced := voiced + v;
        if !more {
          return;
        }
      }
      assert frames[..|frames|] == frames;
    }

    lemma HoldsWhatItHas(c: BridgeCall)
      requires Valid() && Tracks(c)
      ensures c.started ==> c.pendingFrames == [] && c.forwarded == c.received
      ensures !c.started ==> c.frameCount < minFrames && c.forwarded == []
    {
      assert c in callsByID.Values;
      assert c.InOrder(minFrames);
    }

    lemma CountIsReceived(c: BridgeCall)
      requires Valid() && Tracks(c)
      ensures c.frameCount == |c.received|
    {
      assert c in callsByID.Values;
      assert c.InOrder(minFrames);
    }

    /** A message of frames. For a call that is active in the end, the frames passed on so far are the frames
        received so far, in order; a call that never activates passes nothing on. */
    method OnTrafficMessage(trafficID: string, frames: seq<Frame>, now: int, subscribers: bool)
      returns (session: BridgeCall?, voiced: seq<Frame>)
      requires Valid()
      modifies this, callsByID.Values
      ensures Valid()
      ensures session == if trafficID in old(LeftTraffic(now)) then old(callsByTraffic)[trafficID] else null
      ensures session != null <==>
                trafficID in old(callsByTraffic) && forall id :: id in old(callsByID) ==>
                  old(callsByID)[id].trafficID == trafficID ==>
                    Unexpired(old(routeLocks), old(callsByID)[id].routeKey, now)
      ensures session == null ==>
                && voiced == [] && callsByID == old(LeftCalls(now)) && callsByTraffic == old(LeftTraffic(now))
                && routeLocks == old(LeftLocks(now))
      ensures session != null ==>
                var lives := || old(session.started) || frames == []
                             || (now - session.createdAt <= pendingMaxAge
                                 && (old(session.frameCount) + |frames| < minFrames || subscribers));
                && session in old(callsByID.Values) && session.trafficID == trafficID
                && (Tracks(session) <==> lives)
                && callsByID == (if lives then old(LeftCalls(now)) else old(LeftCalls(now)) - {session.netstackID})
                && callsByTraffic == (if lives then old(LeftTraffic(now)) else old(LeftTraffic(now)) - {trafficID})
                && routeLocks == (if !lives then old(LeftLocks(now)) - {session.routeKey}
                                  else if session.started && frames != []
                                  then old(LeftLocks(now))[session.routeKey := RouteLock(session.netstackID, now + routeTimeout)]
                                  else old(LeftLocks(now)))
                && session.forwarded == old(session.forwarded) + voiced
                && (if lives then
                      && session.received == old(session.received) + frames
                      && (session.started <==> old(session.started) || |session.received| >= minFrames)
                      && (session.started ==> session.forwarded == session.received)
                      && voiced == Passed(old(session.started), session.started, old(session.pendingFrames), frames)
                    else voiced == [] && !old(session.started))
      ensures forall c :: c in old(callsByID.Values) && c != session ==> unchanged(c)
      ensures old(Whole()) ==> Whole()
    {
      hide Locked, InOrder, BridgeCall.InOrder, Holders, Expired, AreCalls, Split, TrafficOf, Complete;
      var toRelease, toDrop := EvictExpiredCalls(now);
      if trafficID !in callsByTraffic {
        return null, [];
      }
      session := callsByTraffic[trafficID];
      CountIsReceived(session);
      voiced := HandleFrames(session, frames, now, subscribers);
      if Tracks(session) {
        HoldsWhatItHas(session);
      }
    }

    // ---- the far end reports ----

    /** `tx-ceased`: an active call goes idle, a pending one is dropped. */
    method OnCeased(callID: string, now: int) returns (idled: bool)
      requires Valid()
      modifies this, callsByID.Values`state, callsByID.Values`lastEventAt
      ensures Valid() && (old(Whole()) ==> Whole())
      ensures forall c :: c in old(callsByID.Values) && c.netstackID != callID ==> unchanged(c)
      ensures callID in old(callsByID) ==>
                var c := old(callsByID)[callID];
                && c.state == "tx-ceased" && c.lastEventAt == now
                && callsByTraffic == (if idled then old(callsByTraffic) else old(callsByTraffic) - {c.trafficID})
                && routeLocks == (if idled then old(routeLocks)[c.routeKey := RouteLock(callID, now + routeTimeout)]
                                  else old(routeLocks) - {c.routeKey})
      ensures callID !in old(callsByID) ==> callsByTraffic == old(callsByTraffic) && routeLocks == old(routeLocks)
      ensures idled <==> callID in old(callsByID) && old(callsByID[callID].started)
      ensures callsByID == if callID in old(callsByID) && !idled then old(callsByID) - {callID} else old(callsByID)
    {
      hide Locked, Dispatched, Complete;
      var session, _ := TransitionCallState(callID, "tx-ceased", now);
      if session == null {
        return false;
      }
      OwnerOfRoute(callsByID, routeLocks, callID);
      if !session.started {
        DropCall(session);
        return false;
      }
      idled := true;
    }

    /** `released`: the call goes either way, and its route is free again. */
    method OnReleased(callID: string, now: int) returns (released: bool)
      requires Valid()
      modifies this, callsByID.Values`state, callsByID.Values`lastEventAt
      ensures Valid() && (old(Whole()) ==> Whole())
      ensures forall c :: c in old(callsByID.Values) && c.netstackID != callID ==> unchanged(c)
      ensures callID in old(callsByID) ==>
                var c := old(callsByID)[callID];
                && callsByTraffic == old(callsByTraffic) - {c.trafficID}
                && routeLocks == old(routeLocks) - {c.routeKey}
      ensures callID !in old(callsByID) ==> callsByTraffic == old(callsByTraffic) && routeLocks == old(routeLocks)
      ensures released <==> callID in old(callsByID) && old(callsByID[callID].started)
      ensures callsByID == old(callsByID) - {callID}
    {
      hide Locked, Dispatched, Complete;
      var session, _ := TransitionCallState(callID, "released", now);
      if session == null {
        return false;
      }
      OwnerOfRoute(callsByID, routeLocks, callID);
      released := session.started;
      DropCall(session);
      Retouched(old(routeLocks), session.routeKey, RouteLock(callID, now + routeTimeout));
    }
  }

  lemma Retouched<V>(m: map<string, V>, k: string, v: V)
    ensures m[k := v] - {k} == m - {k}
  {
  }

  /** What sharing a traffic id costs, in any state: once either call is released, the messages of the other are
      ignored, although it is still tracked, may be active, and keeps its lock. */
  method SharedTrafficIsLost(bridge: NetstackBridge, x: BridgeCall, y: BridgeCall, frames: seq<Frame>, now: int,
                             subscribers: bool)
    returns (session: BridgeCall?, voiced: seq<Frame>)
    requires bridge.Valid() && bridge.Tracks(x) && bridge.Tracks(y) && x != y
    requires x.trafficID == y.trafficID && y.trafficID != ""
    requires y.routeKey in bridge.routeLocks && now < bridge.routeLocks[y.routeKey].expiresAt
    modifies bridge, bridge.callsByID.Values
    ensures bridge.Valid() && bridge.Tracks(y) && unchanged(y)
    ensures session == null && voiced == []
  {
    hide Locked, Dispatched, Complete, Expired, Holders, TrafficOf, NetstackBridge.Whole;
    SeparateRoutes(bridge.callsByID, bridge.routeLocks, x, y);
    var _ := bridge.OnReleased(x.netstackID, now);
    StillHeld(bridge.callsByID, bridge.routeLocks, y, now);
    NotLeft(bridge.callsByTraffic, bridge.callsByID, bridge.routeLocks, y.trafficID, now);
    session, voiced := bridge.OnTrafficMessage(y.trafficID, frames, now, subscribers);
  }

  lemma SeparateRoutes(calls: map<string, BridgeCall>, locks: map<string, RouteLock>, x: BridgeCall, y: BridgeCall)
    requires Locked(calls, locks) && x != y
    requires x.netstackID in calls && calls[x.netstackID] == x && y.netstackID in calls && calls[y.netstackID] == y
    ensures x.netstackID != y.netstackID && x.routeKey != y.routeKey
  {
    hide Locked;
    if x.routeKey == y.routeKey {
      OneCallPerRoute(calls, locks, x.netstackID, y.netstackID);
    }
  }

  lemma StillHeld(calls: map<string, BridgeCall>, locks: map<string, RouteLock>, y: BridgeCall, now: int)
    requires Locked(calls, locks) && y.netstackID in calls && calls[y.netstackID] == y
    requires y.routeKey in locks && now < locks[y.routeKey].expiresAt
    ensures y.netstackID in calls - Holders(locks, Expired(locks, now))
  {
    EvictedIffExpired(calls, locks, y.netstackID, now);
  }

  lemma NotLeft(traffic: map<string, BridgeCall>, calls: map<string, BridgeCall>, locks: map<string, RouteLock>,
                t: string, now: int)
    requires t !in traffic
    ensures t !in traffic - TrafficOf(calls, Holders(locks, Expired(locks, now)))
  {
  }

  /** Two registrations on different routes lead to such a state. */
  method SharedTrafficHappens() returns (bridge: NetstackBridge, x: BridgeCall, y: BridgeCall)
    ensures bridge.Valid() && bridge.Tracks(x) && bridge.Tracks(y) && x != y
    ensures x.trafficID == y.trafficID && y.trafficID != "" && !bridge.Whole()
    ensures y.routeKey in bridge.routeLocks && 1 < bridge.routeLocks[y.routeKey].expiresAt
  {
    hide Locked, Dispatched, AreCalls;
    bridge := new NetstackBridge(1, 0, 0);
    x := new BridgeCall("x", "t", "r1", 0);
    y := new BridgeCall("y", "t", "r2", 0);
    var _, _, _ := bridge.RegisterPendingCall(x, 0);
    assert bridge.callsByID["x"] == x;
    var _, _, _ := bridge.RegisterPendingCall(y, 0);
    assert bridge.callsByTraffic["t"] == y;
  }
}
