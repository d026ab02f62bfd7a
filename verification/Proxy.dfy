/** A bridge between two private calls: one session, two legs, and a release for every leg that needs one. */
module Proxy {
  import Brew
  import BrewStability

  /** Call ids are opaque here. */
  type CallId = string

  const CAUSE_NORMAL: Brew.Byte := 0
  const CAUSE_BUSY: Brew.Byte := 17

  datatype State = Dialing | Connected | Releasing

  /** What the bridge asks of the signalling plane. */
  datatype Action =
    | SetupRequest(id: CallId, call: Brew.CircularCallPayload)
    | SetupAccept(id: CallId)
    | SetupReject(id: CallId, cause: Brew.Byte)
    | ConnectRequest(id: CallId, call: Brew.CircularCallPayload)
    | ConnectConfirm(id: CallId, grant: Brew.Byte, permission: Brew.Byte)
    | CallRelease(id: CallId, cause: Brew.Byte)
    | VoiceFrame(id: CallId, data: Brew.Bytes)

  /** The legs that a list of actions releases. */
  function Releases(actions: seq<Action>): multiset<CallId> {
    if actions == [] then multiset{}
    else
      var last := actions[|actions| - 1];
      Releases(actions[..|actions| - 1]) + (if last.CallRelease? then multiset{last.id} else multiset{})
  }

  lemma {:induction false} ReleasesOfSum(a: seq<Action>, b: seq<Action>)
    ensures Releases(a + b) == Releases(a) + Releases(b)
  {
    if b == [] {
      assert a + b == a;
    } else {
      ReleasesOfSum(a, b[..|b| - 1]);
      assert (a + b)[..|a + b| - 1] == a + b[..|b| - 1];
    }
  }

  /** The actions are releases with the normal cause, one for each of the legs. */
  ghost predicate ReleaseEach(actions: seq<Action>, legs: set<CallId>) {
    && Releases(actions) == multiset(legs)
    && forall i :: 0 <= i < |actions| ==> actions[i].CallRelease? && actions[i].cause == CAUSE_NORMAL
  }

  lemma NoneToRelease()
    ensures ReleaseEach([], {})
  {
  }

  lemma ReleaseMore(a: seq<Action>, la: set<CallId>, b: seq<Action>, lb: set<CallId>)
    requires ReleaseEach(a, la) && ReleaseEach(b, lb) && la !! lb
    ensures ReleaseEach(a + b, la + lb) && Releases(a + b) == Releases(a) + Releases(b)
  {
    ReleasesOfSum(a, b);
    assert multiset(la + lb) == multiset(la) + multiset(lb);
  }

  /** How far a sweep has come: the due legs among those seen are gone and released, the others are as they were. */
  ghost predicate Swept(all: map<CallId, Session>, due: set<CallId>, todo: set<CallId>, gone: set<CallId>,
                        left: map<CallId, Session>, dueLeft: set<CallId>, actions: seq<Action>,
                        before: multiset<CallId>, released: multiset<CallId>) {
    && gone <= due <= gone + todo
    && left == all - gone && dueLeft == due - gone
    && ReleaseEach(actions, gone) && released == before + Releases(actions)
  }

  lemma SweepStarts(all: map<CallId, Session>, due: set<CallId>, before: multiset<CallId>)
    requires due <= all.Keys
    ensures Swept(all, due, all.Keys, {}, all, due, [], before, before)
  {
  }

  lemma SweepGoesOn(all: map<CallId, Session>, due: set<CallId>, todo: set<CallId>, gone: set<CallId>,
                    left: map<CallId, Session>, dueLeft: set<CallId>, actions: seq<Action>,
                    before: multiset<CallId>, released: multiset<CallId>, id: CallId, legs: set<CallId>, more: seq<Action>)
    requires Swept(all, due, todo, gone, left, dueLeft, actions, before, released)
    requires if id in dueLeft then id in legs && legs <= dueLeft else legs == {}
    requires ReleaseEach(more, legs)
    ensures Swept(all, due, todo - {id}, gone + legs, left - legs, dueLeft - legs, actions + more,
                  before, released + Releases(more))
  {
    hide ReleaseEach, Releases;
    ReleaseMore(actions, gone, more, legs);
    assert left - legs == all - (gone + legs);
  }

  lemma SweepEnds(all: map<CallId, Session>, due: set<CallId>, gone: set<CallId>, left: map<CallId, Session>,
                  dueLeft: set<CallId>, actions: seq<Action>, before: multiset<CallId>, released: multiset<CallId>)
    requires Swept(all, due, {}, gone, left, dueLeft, actions, before, released)
    ensures left == all - due && ReleaseEach(actions, due) && released == before + Releases(actions)
  {
    assert gone == due;
  }

  lemma PairReleases(pair: seq<Action>, s: Session)
    requires pair == [CallRelease(s.inboundCallID, CAUSE_NORMAL), CallRelease(s.outboundCallID, CAUSE_NORMAL)]
    requires s.inboundCallID != s.outboundCallID
    ensures ReleaseEach(pair, s.Legs())
  {
    BothReleased(s.inboundCallID, s.outboundCallID, CAUSE_NORMAL);
    assert multiset(s.Legs()) == multiset{s.inboundCallID, s.outboundCallID};
  }

  /** A session is listed under its legs and nowhere else. */
  lemma OnlyItsLegs(sessions: map<CallId, Session>, s: Session)
    requires Paired(sessions) && s in sessions.Values
    ensures forall id :: id in sessions ==> (sessions[id] == s <==> id in s.Legs())
    ensures s.Legs() <= sessions.Keys
  {
    var id :| id in sessions && sessions[id] == s;
  }

  lemma NothingReleased()
    ensures Releases([]) == multiset{}
  {
  }

  lemma OneReleased(a: CallId, cause: Brew.Byte)
    ensures Releases([CallRelease(a, cause)]) == multiset{a}
  {
    assert [CallRelease(a, cause)][..0] == [];
  }

  lemma BothReleased(a: CallId, b: CallId, cause: Brew.Byte)
    ensures Releases([CallRelease(a, cause), CallRelease(b, cause)]) == multiset{a, b}
  {
    var list := [CallRelease(a, cause), CallRelease(b, cause)];
    assert list[..1] == [CallRelease(a, cause)] && list[..1][..0] == [];
    assert Releases(list[..1]) == multiset{a};
  }

  // ---- call modes ----

  /** The flags that decide what kind of call it is. */
  predicate SameMode(a: Brew.CircularCallPayload, b: Brew.CircularCallPayload) {
    && a.priority == b.priority && a.service == b.service && a.mode == b.mode
    && a.duplex == b.duplex && a.method_ == b.method_ && a.communication == b.communication
  }

  /** A call in the mode of m between other parties. Numbers, timers and queueing are not carried over. */
  function Mirrored(m: Brew.CircularCallPayload, source: Brew.UInt32, destination: Brew.UInt32, granted: Brew.Byte)
    : Brew.CircularCallPayload
  {
    Brew.CircularCallPayload(source, destination, [], m.priority, m.service, m.mode, m.duplex, m.method_,
                             m.communication, granted, granted, 0, 0, 0)
  }

  /** On the wire: whatever set-up request a base station sent, the request or answer that the bridge builds from
      it is read at the far end as a call between the bridge's parties in the caller's mode. */
  lemma ModeCrossesBridge(d: Brew.Bytes, state: Brew.Byte, id: Brew.Uuid, source: Brew.UInt32,
                          destination: Brew.UInt32, granted: Brew.Byte)
    requires Brew.ParseMessage(d).Ok? && Brew.ParseMessage(d).value.CallControlMsg?
    requires Brew.ParseMessage(d).value.control.payload.CircularCall?
    requires state in {Brew.SETUP_REQUEST, Brew.CONNECT_REQUEST}
    ensures var heard := Brew.ParseMessage(d).value.control.payload.call;
            var built := Brew.BuildCallControlFromMessage(
                           Brew.CallControl(state, id, Brew.CircularCall(Mirrored(heard, source, destination, granted))));
            && built.Ok?
            && var read := Brew.ParseMessage(built.value);
               && read.Ok? && read.value.CallControlMsg?
               && read.value.control.state == state && read.value.control.id == id
               && read.value.control.payload.CircularCall?
               && var call := read.value.control.payload.call;
                  && SameMode(call, heard) && call.source == source && call.destination == destination
                  && call.grant == call.permission == granted && call.number == []
  {
    var heard := Brew.ParseMessage(d).value.control.payload.call;
    var m := Brew.CallControl(state, id, Brew.CircularCall(Mirrored(heard, source, destination, granted)));
    hide Brew.ParsePayload, Brew.BuildPayload;
    BrewStability.MessageRoundTrip(m);
  }

  class Session {
    const inboundCallID: CallId
    const outboundCallID: CallId
    const callerISSI: Brew.UInt32
    const callMode: Brew.CircularCallPayload
    const startedAt: int
    var state: State
    var lastFrameAt: int

    constructor (inbound: CallId, outbound: CallId, mode: Brew.CircularCallPayload, now: int)
      ensures inboundCallID == inbound && outboundCallID == outbound && callerISSI == mode.source && callMode == mode
      ensures startedAt == lastFrameAt == now && state == Dialing
    {
      inboundCallID, outboundCallID, callerISSI, callMode := inbound, outbound, mode.source, mode;
      startedAt, lastFrameAt, state := now, now, Dialing;
    }

    function Legs(): set<CallId> {
      {inboundCallID, outboundCallID}
    }

    function Other(leg: CallId): CallId {
      if leg == inboundCallID then outboundCallID else inboundCallID
    }
  }

  /** The session table: each session under both of its ids and under no other. */
  ghost predicate Paired(sessions: map<CallId, Session>) {
    forall id :: id in sessions ==>
      && id in sessions[id].Legs()
      && sessions[id].inboundCallID != sessions[id].outboundCallID
      && sessions[id].callerISSI == sessions[id].callMode.source
      && sessions[id].inboundCallID in sessions && sessions[sessions[id].inboundCallID] == sessions[id]
      && sessions[id].outboundCallID in sessions && sessions[sessions[id].outboundCallID] == sessions[id]
  }

  /** The outbound id finds its session and no other. */
  lemma OnlyUnderOutbound(sessions: map<CallId, Session>, id: CallId)
    requires Paired(sessions) && id in sessions && sessions[id].outboundCallID == id
    ensures sessions[id] in sessions.Values
    ensures forall s :: s in sessions.Values && s.outboundCallID == id ==> s == sessions[id]
  {
  }

  lemma NotOutbound(sessions: map<CallId, Session>, id: CallId)
    requires Paired(sessions) && (id !in sessions || id != sessions[id].outboundCallID)
    ensures forall s :: s in sessions.Values ==> s.outboundCallID != id
  {
  }

  lemma NothingPaired()
    ensures Paired(map[])
  {
  }

  lemma PairedAt(sessions: map<CallId, Session>, id: CallId)
    requires Paired(sessions) && id in sessions
    ensures var s := sessions[id];
            s in sessions.Values && s.Legs() == {id, s.Other(id)} && id != s.Other(id)
            && s.Other(id) in sessions && sessions[s.Other(id)] == s
  {
  }

  lemma PairedWith(sessions: map<CallId, Session>, s: Session)
    requires Paired(sessions) && s !in sessions.Values && s.inboundCallID != s.outboundCallID
    requires s.callerISSI == s.callMode.source
    requires s.inboundCallID !in sessions && s.outboundCallID !in sessions
    ensures Paired(sessions[s.inboundCallID := s][s.outboundCallID := s])
    ensures sessions[s.inboundCallID := s][s.outboundCallID := s].Values == sessions.Values + {s}
  {
    var after := sessions[s.inboundCallID := s][s.outboundCallID := s];
    forall x | x in sessions.Values + {s}
      ensures x in after.Values
    {
      if x == s {
        assert after[s.outboundCallID] == s;
      } else {
        var id :| id in sessions && sessions[id] == x;
        assert after[id] == x;
      }
    }
  }

  lemma PairedWithout(sessions: map<CallId, Session>, id: CallId)
    requires Paired(sessions) && id in sessions
    ensures Paired(sessions - sessions[id].Legs())
    ensures (sessions - sessions[id].Legs()).Values == sessions.Values - {sessions[id]}
    ensures sessions[id].Legs() <= sessions.Keys
  {
    var s := sessions[id];
    var after := sessions - s.Legs();
    forall x | x in sessions.Values - {s}
      ensures x in after.Values
    {
      var i :| i in sessions && sessions[i] == x;
      assert i in after && after[i] == x;
    }
  }

  lemma OneMore(all: set<Session>, s: Session)
    ensures |all + {s}| <= |all| + 1
  {
    assert all + {s} == all + ({s} - all);
  }

  lemma Fewer(all: set<Session>, s: Session)
    ensures |all - {s}| <= |all|
  {
    if s in all {
      assert all == (all - {s}) + {s};
    } else {
      assert all - {s} == all;
    }
  }

  /** Every leg ever set up is in exactly one place: still tracked, ended by its own report, or released once. */
  ghost predicate Balanced(setUp: multiset<CallId>, tracked: set<CallId>, reported: multiset<CallId>,
                           released: multiset<CallId>) {
    setUp == multiset(tracked) + reported + released
  }

  lemma TwoSetUp(setUp: multiset<CallId>, tracked: set<CallId>, reported: multiset<CallId>, released: multiset<CallId>,
                 a: CallId, b: CallId)
    requires Balanced(setUp, tracked, reported, released) && a !in tracked && b !in tracked && a != b
    ensures Balanced(setUp + multiset{a, b}, tracked + {a, b}, reported, released)
  {
    assert multiset(tracked + {a, b}) == multiset(tracked) + multiset{a, b};
  }

  lemma OneReportedOneReleased(setUp: multiset<CallId>, tracked: set<CallId>, reported: multiset<CallId>,
                               released: multiset<CallId>, a: CallId, b: CallId)
    requires Balanced(setUp, tracked, reported, released) && a in tracked && b in tracked && a != b
    ensures Balanced(setUp, tracked - {a, b}, reported + multiset{a}, released + multiset{b})
  {
    assert multiset(tracked) == multiset(tracked - {a, b}) + multiset{a, b};
    assert multiset{a, b} == multiset{a} + multiset{b};
  }

  lemma BothAreReleased(setUp: multiset<CallId>, tracked: set<CallId>, reported: multiset<CallId>,
                        released: multiset<CallId>, a: CallId, b: CallId)
    requires Balanced(setUp, tracked, reported, released) && a in tracked && b in tracked && a != b
    ensures Balanced(setUp, tracked - {a, b}, reported, released + multiset{a, b})
  {
    assert multiset(tracked) == multiset(tracked - {a, b}) + multiset{a, b};
  }

  lemma AllReleased(setUp: multiset<CallId>, tracked: set<CallId>, reported: multiset<CallId>,
                    released: multiset<CallId>, actions: seq<Action>)
    requires Balanced(setUp, tracked, reported, released) && ReleaseEach(actions, tracked)
    ensures Balanced(setUp, {}, reported, released + Releases(actions))
  {
  }

  class ProxyBridge {
    const bridgeISSI: Brew.UInt32
    const targetISSI: Brew.UInt32
    const dialTimeout: int
    const idleTimeout: int
    const maxConcurrent: int
    var sessions: map<CallId, Session>
    /** Every leg ever set up, every leg that reported its own end, and every release sent. */
    ghost var setUp: multiset<CallId>
    ghost var reported: multiset<CallId>
    ghost var released: multiset<CallId>

    /** Unset timeouts and limits fall back to ten seconds, a minute and four sessions. */
    constructor (bridge: Brew.UInt32, target: Brew.UInt32, dial: int, idle: int, maxc: int)
      ensures Valid() && sessions == map[] && bridgeISSI == bridge && targetISSI == target
      ensures maxConcurrent == (if maxc <= 0 then 4 else maxc)
      ensures dialTimeout == (if dial <= 0 then 10000 else dial) && idleTimeout == (if idle <= 0 then 60000 else idle)
    {
      bridgeISSI, targetISSI := bridge, target;
      dialTimeout := if dial <= 0 then 10000 else dial;
      idleTimeout := if idle <= 0 then 60000 else idle;
      maxConcurrent := if maxc <= 0 then 4 else maxc;
      sessions := map[];
      setUp, reported, released := multiset{}, multiset{}, multiset{};
    }

    ghost predicate Conserved()
      reads this
    {
      Balanced(setUp, sessions.Keys, reported, released)
    }

    /** Nothing in the table is on its way out, and the limit is kept. */
    ghost predicate Live()
      reads this`sessions, sessions.Values
    {
      && |sessions.Values| <= maxConcurrent
      && (forall id :: id in sessions ==> sessions[id].state != Releasing)
    }

    ghost predicate Valid()
      reads this, sessions.Values
    {
      Paired(sessions) && Conserved() && Live()
    }

    ghost method RecordSetUp(before: set<CallId>, a: CallId, b: CallId)
      requires Balanced(setUp, before, reported, released) && a !in before && b !in before && a != b
      requires sessions.Keys == before + {a, b}
      modifies this`setUp
      ensures Conserved() && setUp == old(setUp) + multiset{a, b}
    {
      TwoSetUp(setUp, before, reported, released, a, b);
      setUp := setUp + multiset{a, b};
    }

    ghost method RecordFailure(before: set<CallId>, a: CallId, b: CallId)
      requires Balanced(setUp, before, reported, released) && a in before && b in before && a != b
      requires sessions.Keys == before - {a, b}
      modifies this`reported, this`released
      ensures Conserved() && reported == old(reported) + multiset{a} && released == old(released) + multiset{b}
    {
      OneReportedOneReleased(setUp, before, reported, released, a, b);
      reported := reported + multiset{a};
      released := released + multiset{b};
    }

    ghost method RecordRelease(before: set<CallId>, a: CallId, b: CallId)
      requires Balanced(setUp, before, reported, released) && a in before && b in before && a != b
      requires sessions.Keys == before - {a, b}
      modifies this`released
      ensures Conserved() && released == old(released) + multiset{a, b}
    {
      BothAreReleased(setUp, before, reported, released, a, b);
      released := released + multiset{a, b};
    }

    /** A session gets both of its entries. */
    method Track(s: Session)
      requires Paired(sessions) && s !in sessions.Values && s.callerISSI == s.callMode.source
      requires s.inboundCallID !in sessions && s.outboundCallID !in sessions && s.inboundCallID != s.outboundCallID
      modifies this`sessions
      ensures Paired(sessions)
      ensures sessions == old(sessions)[s.inboundCallID := s][s.outboundCallID := s]
      ensures sessions.Values == old(sessions.Values) + {s}
      ensures sessions.Keys == old(sessions.Keys) + {s.inboundCallID, s.outboundCallID}
    {
      hide Paired;
      PairedWith(sessions, s);
      sessions := sessions[s.inboundCallID := s];
      sessions := sessions[s.outboundCallID := s];
    }

    /** A new session starts out dialing. */
    method BeginSession(s: Session)
      requires Valid() && s !in sessions.Values && s.state == Dialing && s.callerISSI == s.callMode.source
      requires s.inboundCallID !in sessions && s.outboundCallID !in sessions && s.inboundCallID != s.outboundCallID
      requires |sessions.Values| < maxConcurrent
      modifies this`sessions, this`setUp
      ensures Valid()
      ensures sessions == old(sessions)[s.inboundCallID := s][s.outboundCallID := s]
      ensures setUp == old(setUp) + multiset{s.inboundCallID, s.outboundCallID}
    {
      hide Paired, Balanced;
      ghost var before, keys, all := sessions, sessions.Keys, sessions.Values;
      assert Paired(before) && Balanced(setUp, keys, reported, released);
      assert forall id :: id in before ==> before[id].state != Releasing;
      hide *;
      OneMore(all, s);
      Track(s);
      RecordSetUp(keys, s.inboundCallID, s.outboundCallID);
      ValidWith(before, s);
    }

    lemma ValidWith(before: map<CallId, Session>, s: Session)
      requires sessions == before[s.inboundCallID := s][s.outboundCallID := s] && s.state == Dialing
      requires |sessions.Values| <= maxConcurrent && forall id :: id in before ==> before[id].state != Releasing
      requires Paired(sessions) && Conserved()
      ensures Valid()
    {
      hide Paired, Conserved;
    }

    /** Both entries of a session go. */
    method Untrack(s: Session)
      requires Paired(sessions) && s in sessions.Values
      modifies this`sessions
      ensures Paired(sessions)
      ensures sessions == old(sessions) - s.Legs()
      ensures sessions.Values == old(sessions.Values) - {s}
      ensures sessions.Keys == old(sessions.Keys) - s.Legs()
    {
      ghost var id :| id in sessions && sessions[id] == s;
      PairedWithout(sessions, id);
      hide Paired;
      sessions := sessions - {s.inboundCallID};
      sessions := sessions - {s.outboundCallID};
      assert sessions == old(sessions) - s.Legs();
      assert sessions.Keys == old(sessions.Keys) - s.Legs();
    }

    /** Marks a session and takes it out of the table. */
    method EndSession(s: Session)
      requires Paired(sessions) && Live() && s in sessions.Values
      modifies this`sessions, s`state
      ensures Paired(sessions) && Live()
      ensures sessions == old(sessions) - s.Legs() && s !in sessions.Values
      ensures sessions.Keys == old(sessions.Keys) - s.Legs()
    {
      hide Paired;
      Fewer(sessions.Values, s);
      s.state := Releasing;
      Untrack(s);
    }

    /** Counts each session once although the table lists it twice. */
    method UniqueSessionCount() returns (n: nat)
      ensures n == |sessions.Values|
    {
      var seen: set<Session> := {};
      var todo := sessions.Keys;
      while todo != {}
        invariant todo <= sessions.Keys
        invariant forall id :: id in sessions && id !in todo ==> sessions[id] in seen
        invariant seen <= sessions.Values
        decreases |todo|
      {
        var id :| id in todo;
        seen := seen + {sessions[id]};
        todo := todo - {id};
      }
      assert seen == sessions.Values;
      n := |seen|;
    }

    /** The inbound call's mode, between the bridge and the target. */
    function OutboundPayload(s: Session): (p: Brew.CircularCallPayload)
      ensures SameMode(p, s.callMode)
    {
      Mirrored(s.callMode, bridgeISSI, targetISSI, 0)
    }

    /** The answer towards the caller, in the same mode. */
    function InboundPayload(s: Session): (p: Brew.CircularCallPayload)
      ensures SameMode(p, s.callMode)
    {
      Mirrored(s.callMode, bridgeISSI, s.callerISSI, 1)
    }

    /** A call to the bridge. The outbound id is fresh: nobody has used it before. */
    method HandleInboundSetup(inbound: CallId, p: Brew.CircularCallPayload, outbound: CallId, now: int)
      returns (actions: seq<Action>)
      requires Valid() && outbound !in sessions && outbound != inbound
      modifies this`sessions, this`setUp
      ensures Valid()
      ensures setUp == old(setUp) + (if inbound !in old(sessions) && |old(sessions.Values)| < maxConcurrent
                                     then multiset{inbound, outbound} else multiset{})
      ensures inbound in old(sessions) ==> actions == [] && sessions == old(sessions)
      ensures inbound !in old(sessions) && |old(sessions.Values)| >= maxConcurrent ==>
                actions == [SetupReject(inbound, CAUSE_BUSY)] && sessions == old(sessions)
      ensures inbound !in old(sessions) && |old(sessions.Values)| < maxConcurrent ==>
                && inbound in sessions
                && var s := sessions[inbound];
                   && fresh(s) && sessions == old(sessions)[inbound := s][outbound := s]
                   && s.inboundCallID == inbound && s.outboundCallID == outbound && s.callMode == p
                   && s.state == Dialing && s.startedAt == s.lastFrameAt == now
                   && actions == [SetupAccept(inbound),
                                  SetupRequest(outbound, Brew.CircularCallPayload(
                                                 bridgeISSI, targetISSI, [], p.priority, p.service, p.mode, p.duplex,
                                                 p.method_, p.communication, 0, 0, 0, 0, 0))]
    {
      hide Paired, Balanced, Live;
      actions := [];
      if inbound in sessions {
        return;
      }
      var count := UniqueSessionCount();
      if count >= maxConcurrent {
        return [SetupReject(inbound, CAUSE_BUSY)];
      }
      var s := new Session(inbound, outbound, p, now);
      BeginSession(s);
      return [SetupAccept(inbound), SetupRequest(outbound, OutboundPayload(s))];
    }

    /** The far base station is ringing: noted for the outbound leg of a dialing session, and nothing is sent or
        changed before the target answers. */
    method HandleOutboundAccept(callID: CallId) returns (ringing: bool)
      requires Valid()
      ensures ringing <==> exists s :: s in sessions.Values && s.outboundCallID == callID && s.state == Dialing
    {
      if callID !in sessions || callID != sessions[callID].outboundCallID {
        NotOutbound(sessions, callID);
        return false;
      }
      var s := sessions[callID];
      OnlyUnderOutbound(sessions, callID);
      ringing := s.state == Dialing;
    }

    /** The target answers: the caller is told, the target's base station is confirmed. */
    method HandleOutboundConnect(callID: CallId, now: int) returns (actions: seq<Action>)
      requires Valid()
      modifies sessions.Values
      ensures Valid()
      ensures if callID in sessions && callID == sessions[callID].outboundCallID then
                var s := sessions[callID];
                && s.state == Connected && s.lastFrameAt == now
                && (var m := s.callMode;
                    actions == [ConnectRequest(s.inboundCallID, Brew.CircularCallPayload(
                                                 bridgeISSI, m.source, [], m.priority, m.service, m.mode, m.duplex,
                                                 m.method_, m.communication, 1, 1, 0, 0, 0)),
                                ConnectConfirm(s.outboundCallID, 1, 1)])
                && forall x :: x in sessions.Values && x != s ==> unchanged(x)
              else actions == [] && unchanged(sessions.Values)
    {
      if callID !in sessions || callID != sessions[callID].outboundCallID {
        return [];
      }
      var s := sessions[callID];
      assert s in sessions.Values;
      if s.state == Dialing {
        s.state := Connected;
      }
      s.lastFrameAt := now;
      return [ConnectRequest(s.inboundCallID, InboundPayload(s)), ConnectConfirm(s.outboundCallID, 1, 1)];
    }

    /** One leg ends: the session goes and the other leg, alone, is released. */
    method HandleLegFailure(callID: CallId, cause: Brew.Byte) returns (actions: seq<Action>)
      requires Valid()
      modifies this`sessions, this`reported, this`released, sessions.Values`state
      ensures Valid()
      ensures callID !in old(sessions) ==> actions == [] && sessions == old(sessions)
      ensures callID in old(sessions) ==>
                var s := old(sessions)[callID];
                && actions == [CallRelease(s.Other(callID), cause)]
                && sessions == old(sessions) - s.Legs()
      ensures released == old(released) + Releases(actions)
      ensures reported == old(reported) + (if callID in old(sessions) then multiset{callID} else multiset{})
      ensures forall s :: s in sessions.Values ==> unchanged(s)
    {
      hide Paired, Live, Releases, Balanced;
      NothingReleased();
      if callID !in sessions {
        return [];
      }
      var s := sessions[callID];
      PairedAt(sessions, callID);
      var other := s.inboundCallID;
      if callID == s.inboundCallID {
        other := s.outboundCallID;
      }
      EndSession(s);
      actions := [CallRelease(other, cause)];
      OneReleased(other, cause);
      RecordFailure(old(sessions.Keys), callID, other);
    }

    /** Voice goes to the other leg of the same session and nowhere else. */
    method OnBrewFrame(callID: CallId, frameType: Brew.Byte, data: Brew.Bytes, now: int) returns (actions: seq<Action>)
      requires Valid()
      modifies sessions.Values
      ensures Valid()
      ensures actions == if frameType == Brew.TRAFFIC_CHANNEL && callID in sessions
                         then [VoiceFrame(sessions[callID].Other(callID), data)] else []
      ensures forall s :: s in sessions.Values ==>
                && s.state == old(s.state)
                && s.lastFrameAt == if actions != [] && s == sessions[callID] then now else old(s.lastFrameAt)
    {
      if frameType != Brew.TRAFFIC_CHANNEL || callID !in sessions {
        return [];
      }
      var s := sessions[callID];
      assert s in sessions.Values;
      var target := if callID == s.inboundCallID then s.outboundCallID else s.inboundCallID;
      s.lastFrameAt := now;
      return [VoiceFrame(target, data)];
    }

    /** Takes a session down from this end: both legs are told. */
    method ReleaseSession(s: Session) returns (actions: seq<Action>)
      requires Paired(sessions) && Live() && Conserved() && s in sessions.Values
      modifies this`sessions, this`released, s`state
      ensures Paired(sessions) && Live() && Conserved()
      ensures sessions == old(sessions) - s.Legs() && s !in sessions.Values
      ensures ReleaseEach(actions, s.Legs())
      ensures released == old(released) + Releases(actions)
    {
      hide Paired, Live, Balanced, Releases;
      ghost var id :| id in sessions && sessions[id] == s;
      PairedAt(sessions, id);
      EndSession(s);
      BothReleased(s.inboundCallID, s.outboundCallID, CAUSE_NORMAL);
      RecordRelease(old(sessions.Keys), s.inboundCallID, s.outboundCallID);
      actions := [CallRelease(s.inboundCallID, CAUSE_NORMAL), CallRelease(s.outboundCallID, CAUSE_NORMAL)];
    }

    /** Has a session waited too long for an answer, or been silent too long? */
    predicate Overdue(s: Session, now: int)
      reads s
    {
      match s.state
      case Dialing => now - s.startedAt > dialTimeout
      case Connected => now - s.lastFrameAt > idleTimeout
      case Releasing => false
    }

    ghost function DueLegs(now: int): set<CallId>
      reads this, sessions.Values
    {
      set id | id in sessions && Overdue(sessions[id], now)
    }

    /** Who is in which state. */
    ghost predicate InStates(states: map<Session, State>)
      reads this`sessions, sessions.Values
    {
      forall s :: s in sessions.Values ==> s in states && s.state == states[s]
    }

    /** The watchdog's look at one entry of the table. */
    method SweepOne(id: CallId, now: int, ghost states: map<Session, State>)
      returns (actions: seq<Action>, ghost legs: set<CallId>)
      requires Valid() && InStates(states)
      modifies this`sessions, this`released, sessions.Values`state
      ensures Valid() && InStates(states)
      ensures if id in old(DueLegs(now)) then id in legs && legs <= old(DueLegs(now)) else legs == {}
      ensures sessions == old(sessions) - legs && DueLegs(now) == old(DueLegs(now)) - legs
      ensures sessions.Values <= old(sessions.Values)
      ensures ReleaseEach(actions, legs) && released == old(released) + Releases(actions)
    {
      hide Paired, Live, Balanced, ReleaseEach, Releases, Overdue;
      NothingReleased();
      NoneToRelease();
      if id !in sessions || !Overdue(sessions[id], now) {
        assert sessions == sessions - {};
        return [], {};
      }
      PairedAt(sessions, id);
      legs := sessions[id].Legs();
      actions := ReleaseSession(sessions[id]);
    }

    /** The watchdog: every overdue session goes, and both of its legs are released. */
    method Sweep(now: int) returns (actions: seq<Action>)
      requires Valid()
      modifies this`sessions, this`released, sessions.Values`state
      ensures Valid()
      ensures sessions == old(sessions) - old(DueLegs(now))
      ensures ReleaseEach(actions, old(DueLegs(now)))
      ensures released == old(released) + Releases(actions)
      ensures forall s :: s in sessions.Values ==> s.state == old(s.state)
      ensures forall id :: id in old(sessions) ==>
                var s := old(sessions)[id];
                (id !in sessions <==> || (old(s.state) == Dialing && now - s.startedAt > dialTimeout)
                                      || (old(s.state) == Connected && now - s.lastFrameAt > idleTimeout))
    {
      hide Paired, Conserved, ReleaseEach, Releases;
      ghost var states := map s | s in sessions.Values :: s.state;
      actions := SweepAll(now, states);
    }

    /** The pass over the table, with the states as they were noted. */
    method SweepAll(now: int, ghost states: map<Session, State>) returns (actions: seq<Action>)
      requires Valid() && InStates(states)
      modifies this`sessions, this`released, sessions.Values`state
      ensures Valid() && InStates(states) && sessions.Values <= old(sessions.Values)
      ensures sessions == old(sessions) - old(DueLegs(now))
      ensures ReleaseEach(actions, old(DueLegs(now)))
      ensures released == old(released) + Releases(actions)
    {
      ghost var due := DueLegs(now);
      assert due <= sessions.Keys;
      hide *;
      actions := [];
      var todo := sessions.Keys;
      ghost var gone: set<CallId> := {};
      SweepStarts(sessions, due, released);
      while todo != {}
        invariant Valid() && InStates(states)
        invariant sessions.Values <= old(sessions.Values)
        invariant Swept(old(sessions), due, todo, gone, sessions, DueLegs(now), actions,
                        old(released), released)
        decreases |todo|
      {
        var id :| id in todo;
        ghost var left, dueLeft, sent := sessions, DueLegs(now), released;
        var more;
        ghost var legs;
        more, legs := SweepOne(id, now, states);
        SweepGoesOn(old(sessions), due, todo, gone, left, dueLeft, actions, old(released), sent, id,
                    legs, more);
        actions := actions + more;
        gone := gone + legs;
        todo := todo - {id};
      }
      SweepEnds(old(sessions), due, gone, sessions, DueLegs(now), actions, old(released), released);
    }

    /** Shutting down releases both legs of every session, each once. */
    method Stop() returns (actions: seq<Action>)
      requires Valid()
      modifies this`sessions, this`released
      ensures Valid()
      ensures sessions == map[] && ReleaseEach(actions, old(sessions.Keys))
      ensures released == old(released) + Releases(actions)
    {
      hide Paired, ReleaseEach, Releases, Balanced;
      actions := [];
      NoneToRelease();
      var seen: set<Session> := {};
      var todo := sessions.Keys;
      ghost var done: set<CallId> := {};
      while todo != {}
        invariant sessions == old(sessions) && released == old(released)
        invariant todo <= sessions.Keys && sessions.Keys - todo <= done <= sessions.Keys
        invariant forall id :: id in sessions ==> (id in done <==> sessions[id] in seen)
        invariant ReleaseEach(actions, done)
        decreases |todo|
      {
        var id :| id in todo;
        var s := sessions[id];
        if s !in seen {
          PairedAt(sessions, id);
          OnlyItsLegs(sessions, s);
          var pair := [CallRelease(s.inboundCallID, CAUSE_NORMAL), CallRelease(s.outboundCallID, CAUSE_NORMAL)];
          PairReleases(pair, s);
          ReleaseMore(actions, done, pair, s.Legs());
          actions := actions + pair;
          done := done + s.Legs();
          seen := seen + {s};
        }
        todo := todo - {id};
      }
      assert done == sessions.Keys;
      AllReleased(setUp, sessions.Keys, reported, released, actions);
      released := released + Releases(actions);
      sessions := map[];
      NothingPaired();
      assert sessions.Keys == {} && |sessions.Values| == 0;
    }
  }
}
