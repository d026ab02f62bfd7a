/** Re-encoding what was parsed: call control always survives, frames survive exactly when their bit length does. */
module BrewStability {
  import opened Brew

  // ---- call control ----

  /** What the parser guarantees of a payload in a given state. */
  predicate Parsed(state: Byte, payload: Payload) {
    match payload
    case GroupTransmission(_, _, _, _, _) => state == GROUP_TX
    case CircularCall(c) => state in {SETUP_REQUEST, CONNECT_REQUEST} && NoZero(c.number) && |c.number| <= 32
    case CircularGrant(_, _) => state in {CONNECT_CONFIRM, SIMPLEX_GRANTED, SIMPLEX_IDLE}
    case ShortData(_, _, number) => state == SHORT_TRANSFER && NoZero(number) && |number| <= 32
    case ShortTransferStatus(_) => state == SHORT_TRANSFER
    case PacketRequest(_, _, _, _) => state == PDP_REQUEST
    case PacketContext(_, _, _, _) => state == PDP_ACCEPT
    case Cause(_) => state in {GROUP_IDLE, SETUP_REJECT, CALL_RELEASE, PDP_REJECT, PDP_RELEASE}
    case Empty => state in {SETUP_ACCEPT, CALL_ALERT}
    case Raw(_) => state < GROUP_TX || state > PDP_RELEASE
  }

  lemma PayloadIsParsed(state: Byte, p: Bytes)
    requires ParsePayload(state, p).Ok?
    ensures Parsed(state, ParsePayload(state, p).value)
  {
  }

  /** Each builder keeps the state and writes bytes that parse to the same payload. */
  lemma PayloadRoundTrip(state: Byte, payload: Payload)
    requires Parsed(state, payload)
    ensures BuildPayload(state, payload).Ok? && BuildPayload(state, payload).value.0 == state
    ensures ParsePayload(state, BuildPayload(state, payload).value.1) == Ok(payload)
  {
    match payload {
      case GroupTransmission(src, dst, priority, access, service) => GroupRoundTrip(payload);
      case CircularCall(c) => CircularRoundTrip(c);
      case ShortData(src, dst, number) => ShortDataRoundTrip(payload);
      case PacketRequest(number, flags, profile, authenticator) => PacketRequestRoundTrip(payload);
      case PacketContext(flags, ipv4, ipv6, profile) => PacketContextRoundTrip(payload);
      case _ =>
    }
  }

  lemma GroupRoundTrip(g: Payload)
    requires g.GroupTransmission?
    ensures BuildPayload(GROUP_TX, g).Ok?
    ensures ParsePayload(GROUP_TX, BuildPayload(GROUP_TX, g).value.1) == Ok(g)
  {
    var b := BuildPayload(GROUP_TX, g).value.1;
    assert b[0..4] == AppendLe32(g.source) && b[4..8] == AppendLe32(g.destination);
    assert b[10..12] == AppendLe16(g.service);
  }

  lemma CircularRoundTrip(c: CircularCallPayload)
    requires NoZero(c.number) && |c.number| <= 32
    ensures ParseCircularCall(CircularCallBytes(c)) == c
  {
    var b := CircularCallBytes(c);
    assert b[0..4] == AppendLe32(c.source) && b[4..8] == AppendLe32(c.destination);
    assert b[8..40] == FixedString(c.number, 32);
    FixedStringRoundTrip(c.number, 32);
  }

  lemma ShortDataRoundTrip(s: Payload)
    requires s.ShortData? && NoZero(s.number) && |s.number| <= 32
    ensures ParsePayload(SHORT_TRANSFER, BuildPayload(SHORT_TRANSFER, s).value.1) == Ok(s)
  {
    var b := BuildPayload(SHORT_TRANSFER, s).value.1;
    assert b[0..4] == AppendLe32(s.source) && b[4..8] == AppendLe32(s.destination);
    assert b[8..40] == FixedString(s.number, 32);
    FixedStringRoundTrip(s.number, 32);
  }

  lemma PacketRequestRoundTrip(r: Payload)
    requires r.PacketRequest?
    ensures ParsePayload(PDP_REQUEST, BuildPayload(PDP_REQUEST, r).value.1) == Ok(r)
  {
    var b := BuildPayload(PDP_REQUEST, r).value.1;
    assert b[0..4] == AppendLe32(r.pdpNumber) && b[5..9] == AppendLe32(r.profile) && b[9..] == r.authenticator;
  }

  lemma PacketContextRoundTrip(c: Payload)
    requires c.PacketContext?
    ensures ParsePayload(PDP_ACCEPT, BuildPayload(PDP_ACCEPT, c).value.1) == Ok(c)
  {
    var b := BuildPayload(PDP_ACCEPT, c).value.1;
    var ipv4, profile := AppendLe32(c.ipv4), AppendLe32(c.profile);
    assert b == [c.flags] + ipv4 + c.ipv6 + profile;
    assert b[1..5] == ipv4;
    assert b[5..21] == c.ipv6;
    assert b[21..25] == profile;
  }

  /** Whatever call control the parser accepts, the builder accepts, and the parser reads the same message back. */
  lemma CallControlStable(d: Bytes)
    requires ParseMessage(d).Ok? && ParseMessage(d).value.CallControlMsg?
    ensures BuildCallControlFromMessage(ParseMessage(d).value.control).Ok?
    ensures ParseMessage(BuildCallControlFromMessage(ParseMessage(d).value.control).value) == ParseMessage(d)
  {
    hide ParsePayload, BuildPayload, Parsed;
    var m := ParseMessage(d).value.control;
    PayloadIsParsed(m.state, d[18..]);
    PayloadRoundTrip(m.state, m.payload);
    var body := BuildPayload(m.state, m.payload).value.1;
    var b := BuildCallControl(m.state, m.id, body);
    assert b[2..18] == m.id && b[18..] == body;
  }

  /** For any message at all: re-reading what the builder makes of it gives the message back exactly when its
      payload belongs to its state. Otherwise the builder refuses it, or writes another state over its own, or
      writes bytes that mean something else in that state. */
  lemma MessageRoundTrip(m: CallControl)
    ensures Parsed(m.state, m.payload)
            <==> BuildCallControlFromMessage(m).Ok?
                 && ParseMessage(BuildCallControlFromMessage(m).value) == Ok(CallControlMsg(m))
  {
    hide ParsePayload, BuildPayload, Parsed;
    var built := BuildPayload(m.state, m.payload);
    if built.Ok? {
      var b := BuildCallControl(built.value.0, m.id, built.value.1);
      assert b[2..18] == m.id && b[18..] == built.value.1;
      if ParsePayload(m.state, built.value.1) == Ok(m.payload) {
        PayloadIsParsed(m.state, built.value.1);
      }
    }
    if Parsed(m.state, m.payload) {
      PayloadRoundTrip(m.state, m.payload);
    }
  }

  // ---- frames ----

  /** A frame survives re-encoding exactly when it does not have data under a bit length of zero. When it does,
      only the bit length changes. */
  lemma FrameStable(d: Bytes)
    requires ParseMessage(d).Ok? && ParseMessage(d).value.FrameMsg?
    ensures var f := ParseMessage(d).value.frame;
            var again := ParseMessage(BuildFrame(f.frameType, f.id, f.lengthBits, f.data));
            && (again == ParseMessage(d) <==> !(f.lengthBits == 0 && f.data != []))
            && (f.lengthBits == 0 && f.data != [] ==> again == Ok(FrameMsg(f.(lengthBits := 64))))
  {
    hide ValidFramePayload;
    var f := ParseMessage(d).value.frame;
    var bits := EffectiveBits(f.lengthBits, f.data);
    FrameShape(f.frameType, d);
    var body := NormalizeFramePayload(f.frameType, bits, f.data);
    assert body == f.data;
    var b := BuildFrame(f.frameType, f.id, f.lengthBits, f.data);
    assert b[2..18] == f.id && b[18..20] == AppendLe16(bits) && b[20..] == body;
    assert KeptPayload(f.frameType, PayloadBytesForBits(bits), body) == body;
  }

  /** Parsed data fills its bit length, or, for short data only, exceeds it by exactly eight bytes. */
  lemma FrameShape(frameType: Byte, d: Bytes)
    requires ParseFrame(frameType, d).Ok?
    ensures var f := ParseFrame(frameType, d).value;
            var expected := PayloadBytesForBits(f.lengthBits);
            && f.frameType == frameType
            && (|f.data| == expected || (frameType in {SDS_TRANSFER, SDS_REPORT} && |f.data| == expected + 8))
            && ValidFramePayload(frameType, f.data)
  {
    hide ValidFramePayload;
  }

  /** The failing frames, told from the bytes: short data transfers with a zero bit length and a full header. */
  lemma UnstableFrames(d: Bytes)
    requires ParseMessage(d).Ok? && ParseMessage(d).value.FrameMsg?
    ensures var f := ParseMessage(d).value.frame;
            f.lengthBits == 0 && f.data != [] <==> d[1] == SDS_TRANSFER && d[18] == d[19] == 0 && |d| >= 28
  {
  }

  /** One of them: eight bytes of short data under a zero bit length come back with a bit length of 64. */
  lemma UnstableExample()
    ensures var d: Bytes := [CLASS_FRAME, SDS_TRANSFER] + ZeroBytes(16) + [0, 0] + ZeroBytes(8);
            && ParseMessage(d).Ok? && ParseMessage(d).value.FrameMsg?
            && var f := ParseMessage(d).value.frame;
               ParseMessage(BuildFrame(f.frameType, f.id, f.lengthBits, f.data)) != ParseMessage(d)
  {
    var d: Bytes := [CLASS_FRAME, SDS_TRANSFER] + ZeroBytes(16) + [0, 0] + ZeroBytes(8);
    assert d[18..20] == [0, 0] && d[20..] == ZeroBytes(8);
    FrameStable(d);
  }

  // ---- the other classes ----

  lemma {:induction false} GroupsRoundTrip(groups: seq<UInt32>)
    ensures Groups(GroupBytes(groups)) == groups
  {
    if groups != [] {
      GroupsRoundTrip(groups[1..]);
      var b := GroupBytes(groups);
      assert b[..4] == AppendLe32(groups[0]) && b[4..] == GroupBytes(groups[1..]);
    }
  }

  lemma SubscriberRoundTrip(action: Byte, issi: UInt32, groups: seq<UInt32>, seconds: Bytes, fraction: UInt32)
    requires |seconds| == 8
    ensures ParseMessage(BuildSubscriber(action, issi, groups, seconds, fraction))
            == Ok(SubscriberMsg(Subscriber(action, issi, seconds, fraction, groups)))
  {
    var b := BuildSubscriber(action, issi, groups, seconds, fraction);
    assert b[2..6] == AppendLe32(issi) && b[6..14] == seconds && b[14..18] == AppendLe32(fraction);
    assert b[18..] == GroupBytes(groups);
    GroupsRoundTrip(groups);
  }

  lemma ErrorAndServiceStable(d: Bytes)
    requires ParseMessage(d).Ok?
    ensures ParseMessage(d).value.ErrorMsg? ==>
              BuildError(ParseMessage(d).value.errorType, ParseMessage(d).value.errorData) == d
    ensures ParseMessage(d).value.ServiceMsg? ==>
              ParseMessage(BuildService(ParseMessage(d).value.serviceType, ParseMessage(d).value.json)) == ParseMessage(d)
  {
    if ParseMessage(d).value.ErrorMsg? {
      assert d == [d[0], d[1]] + d[2..];
    } else if ParseMessage(d).value.ServiceMsg? {
      var s := UpToZero(d[2..]);
      var b := BuildService(d[1], s);
      assert b[2..] == s + [0];
      UpToZeroStops(s, [0]);
    }
  }
}
