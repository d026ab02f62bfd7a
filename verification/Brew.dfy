/** The Brew wire format: what the parser accepts, what the builders produce, and how far they agree. */
module Brew {
  type Byte = x: int | 0 <= x < 0x100
  type UInt16 = x: int | 0 <= x < 0x1_0000
  type UInt32 = x: int | 0 <= x < 0x1_0000_0000
  type Bytes = seq<Byte>
  type Uuid = b: seq<Byte> | |b| == 16 witness seq(16, i => 0)

  const CLASS_SUBSCRIBER := 0xF0
  const CLASS_CALL_CONTROL := 0xF1
  const CLASS_FRAME := 0xF2
  const CLASS_ERROR := 0xF3
  const CLASS_SERVICE := 0xF4

  const GROUP_TX := 2
  const GROUP_IDLE := 3
  const SETUP_REQUEST := 4
  const SETUP_ACCEPT := 5
  const SETUP_REJECT := 6
  const CALL_ALERT := 7
  const CONNECT_REQUEST := 8
  const CONNECT_CONFIRM := 9
  const CALL_RELEASE := 10
  const SHORT_TRANSFER := 11
  const SIMPLEX_GRANTED := 12
  const SIMPLEX_IDLE := 13
  const PDP_REQUEST := 14
  const PDP_ACCEPT := 15
  const PDP_REJECT := 16
  const PDP_RELEASE := 17

  const TRAFFIC_CHANNEL := 0
  const SDS_TRANSFER := 1
  const SDS_REPORT := 2
  const DTMF_DATA := 3
  const PACKET_DATA := 4

  // ---- messages ----

  datatype CircularCallPayload = CircularCallPayload(
    source: UInt32, destination: UInt32, number: Bytes, priority: Byte, service: Byte, mode: Byte, duplex: Byte,
    method_: Byte, communication: Byte, grant: Byte, permission: Byte, timeout: Byte, ownership: Byte, queued: Byte)

  datatype Payload =
    | GroupTransmission(source: UInt32, destination: UInt32, priority: Byte, access: Byte, service: UInt16)
    | CircularCall(call: CircularCallPayload)
    | CircularGrant(grant: Byte, permission: Byte)
    | ShortData(source: UInt32, destination: UInt32, number: Bytes)
    | ShortTransferStatus(preCodedStatus: UInt16)
    | PacketRequest(pdpNumber: UInt32, flags: Byte, profile: UInt32, authenticator: Bytes)
    | PacketContext(flags: Byte, ipv4: UInt32, ipv6: Uuid, profile: UInt32)
    | Cause(cause: Byte)
    | Empty
    | Raw(data: Bytes)

  datatype CallControl = CallControl(state: Byte, id: Uuid, payload: Payload)

  datatype Frame = Frame(frameType: Byte, id: Uuid, lengthBits: UInt16, data: Bytes)

  datatype Subscriber = Subscriber(msgType: Byte, number: UInt32, seconds: Bytes, fraction: UInt32, groups: seq<UInt32>)

  datatype Message =
    | SubscriberMsg(subscriber: Subscriber)
    | CallControlMsg(control: CallControl)
    | FrameMsg(frame: Frame)
    | ErrorMsg(errorType: Byte, errorData: Bytes)
    | ServiceMsg(serviceType: Byte, json: Bytes)

  datatype Error = TooShort | UnknownClass | FrameTooShort | BadFramePayload | WrongState

  datatype Result<T> = Ok(value: T) | Err(error: Error)

  // ---- little-endian integers ----

  function Le16(b: Bytes): UInt16
    requires |b| == 2
  {
    var lo: int, hi: int := b[0], b[1];
    lo + 0x100 * hi
  }

  function Le32(b: Bytes): UInt32
    requires |b| == 4
  {
    var lo: int, hi: int := Le16(b[..2]), Le16(b[2..]);
    lo + 0x1_0000 * hi
  }

  function AppendLe16(v: UInt16): (b: Bytes)
    ensures |b| == 2 && Le16(b) == v
  {
    [v % 0x100, v / 0x100]
  }

  function AppendLe32(v: UInt32): (b: Bytes)
    ensures |b| == 4 && Le32(b) == v
  {
    var lo, hi := AppendLe16(v % 0x1_0000), AppendLe16(v / 0x1_0000);
    assert (lo + hi)[..2] == lo && (lo + hi)[2..] == hi;
    lo + hi
  }

  // ---- strings ----

  predicate NoZero(s: Bytes) {
    forall i :: 0 <= i < |s| ==> s[i] != 0
  }

  /** Everything in front of the first zero byte. */
  function UpToZero(raw: Bytes): (s: Bytes)
    ensures |s| <= |raw| && NoZero(s) && s <= raw
    ensures |s| < |raw| ==> raw[|s|] == 0
  {
    if raw == [] || raw[0] == 0 then [] else [raw[0]] + UpToZero(raw[1..])
  }

  function ZeroBytes(n: nat): (z: Bytes)
    ensures |z| == n
  {
    seq(n, i => 0)
  }

  /** A string cut or padded to `size` bytes. */
  function FixedString(value: Bytes, size: nat): (s: Bytes)
    ensures |s| == size
  {
    if |value| >= size then value[..size] else value + ZeroBytes(size - |value|)
  }

  lemma {:induction false} UpToZeroStops(s: Bytes, rest: Bytes)
    requires NoZero(s) && (rest == [] || rest[0] == 0)
    ensures UpToZero(s + rest) == s
  {
    if s == [] {
      assert s + rest == rest;
    } else {
      assert (s + rest)[1..] == s[1..] + rest;
      UpToZeroStops(s[1..], rest);
    }
  }

  lemma FixedStringRoundTrip(value: Bytes, size: nat)
    requires NoZero(value) && |value| <= size
    ensures UpToZero(FixedString(value, size)) == value
  {
    if |value| == size {
      UpToZeroStops(value, []);
      assert value[..size] == value == value + [];
    } else {
      UpToZeroStops(value, ZeroBytes(size - |value|));
    }
  }

  /** The scanning loop in front of a service string. */
  method ServiceEnd(data: Bytes) returns (end: nat)
    requires |data| >= 2
    ensures 2 <= end <= |data| && data[2..end] == UpToZero(data[2..])
  {
    end := |data|;
    for i := 2 to |data|
      invariant end == |data| && NoZero(data[2..i])
    {
      if data[i] == 0 {
        end := i;
        assert data[2..] == data[2..i] + data[i..];
        UpToZeroStops(data[2..i], data[i..]);
        return;
      }
      assert data[2..i + 1] == data[2..i] + [data[i]];
    }
    assert data[2..] == data[2..|data|] + [];
    UpToZeroStops(data[2..|data|], []);
  }

  // ---- parsing call control ----

  function ParseCircularCall(p: Bytes): CircularCallPayload
    requires |p| >= 51
  {
    CircularCallPayload(Le32(p[0..4]), Le32(p[4..8]), UpToZero(p[8..40]), p[40], p[41], p[42], p[43], p[44], p[45],
                        p[46], p[47], p[48], p[49], p[50])
  }

  function ParsePayload(state: Byte, p: Bytes): Result<Payload> {
    if state == GROUP_TX then
      if |p| < 12 then Err(TooShort)
      else Ok(GroupTransmission(Le32(p[0..4]), Le32(p[4..8]), p[8], p[9], Le16(p[10..12])))
    else if state in {GROUP_IDLE, SETUP_REJECT, CALL_RELEASE, PDP_REJECT, PDP_RELEASE} then
      if |p| < 1 then Err(TooShort) else Ok(Cause(p[0]))
    else if state in {SETUP_ACCEPT, CALL_ALERT} then Ok(Empty)
    else if state in {SETUP_REQUEST, CONNECT_REQUEST} then
      if |p| < 51 then Err(TooShort) else Ok(CircularCall(ParseCircularCall(p)))
    else if state in {CONNECT_CONFIRM, SIMPLEX_GRANTED, SIMPLEX_IDLE} then
      if |p| < 2 then Err(TooShort) else Ok(CircularGrant(p[0], p[1]))
    else if state == SHORT_TRANSFER then
      if |p| >= 40 then Ok(ShortData(Le32(p[0..4]), Le32(p[4..8]), UpToZero(p[8..40])))
      else if |p| >= 2 then Ok(ShortTransferStatus(Le16(p[0..2])))
      else Err(TooShort)
    else if state == PDP_REQUEST then
      if |p| < 9 then Err(TooShort) else Ok(PacketRequest(Le32(p[0..4]), p[4], Le32(p[5..9]), p[9..]))
    else if state == PDP_ACCEPT then
      if |p| < 25 then Err(TooShort) else Ok(PacketContext(p[0], Le32(p[1..5]), p[5..21], Le32(p[21..25])))
    else Ok(Raw(p))
  }

  function ParseCallControl(state: Byte, data: Bytes): Result<CallControl> {
    if |data| < 18 then Err(TooShort)
    else
      match ParsePayload(state, data[18..])
      case Ok(payload) => Ok(CallControl(state, data[2..18], payload))
      case Err(e) => Err(e)
  }

  // ---- building call control ----

  function CircularCallBytes(c: CircularCallPayload): (b: Bytes)
    ensures |b| == 51
  {
    AppendLe32(c.source) + AppendLe32(c.destination) + FixedString(c.number, 32)
    + [c.priority, c.service, c.mode, c.duplex, c.method_, c.communication, c.grant, c.permission, c.timeout,
       c.ownership, c.queued]
  }

  function BuildCallControl(state: Byte, id: Uuid, payload: Bytes): Bytes {
    [CLASS_CALL_CONTROL, state] + id + payload
  }

  /** The state each builder writes, and the payload bytes. Two kinds of payload insist on their own state, and
      three silently replace whatever state the message has. */
  function BuildPayload(state: Byte, payload: Payload): Result<(Byte, Bytes)> {
    match payload
    case GroupTransmission(src, dst, priority, access, service) =>
      if state != GROUP_TX then Err(WrongState)
      else Ok((GROUP_TX, AppendLe32(src) + AppendLe32(dst) + [priority, access] + AppendLe16(service)))
    case CircularCall(c) => Ok((state, CircularCallBytes(c)))
    case CircularGrant(grant, permission) => Ok((state, [grant, permission]))
    case ShortData(src, dst, number) =>
      Ok((SHORT_TRANSFER, AppendLe32(src) + AppendLe32(dst) + FixedString(number, 32)))
    case ShortTransferStatus(status) =>
      if state != SHORT_TRANSFER then Err(WrongState) else Ok((SHORT_TRANSFER, AppendLe16(status)))
    case PacketRequest(number, flags, profile, authenticator) =>
      Ok((PDP_REQUEST, AppendLe32(number) + [flags] + AppendLe32(profile) + authenticator))
    case PacketContext(flags, ipv4, ipv6, profile) =>
      Ok((PDP_ACCEPT, [flags] + AppendLe32(ipv4) + ipv6 + AppendLe32(profile)))
    case Cause(cause) => Ok((state, [cause]))
    case Empty => Ok((state, []))
    case Raw(data) => Ok((state, data))
  }

  function BuildCallControlFromMessage(m: CallControl): Result<Bytes> {
    match BuildPayload(m.state, m.payload)
    case Ok((state, bytes)) => Ok(BuildCallControl(state, m.id, bytes))
    case Err(e) => Err(e)
  }

  // ---- parsing and building the rest ----

  function Groups(raw: Bytes): seq<UInt32> {
    if |raw| < 4 then [] else [Le32(raw[..4])] + Groups(raw[4..])
  }

  /** The loop over the groups of a subscriber message; up to three trailing bytes are ignored. */
  method ReadGroups(data: Bytes) returns (groups: seq<UInt32>)
    requires |data| >= 18
    ensures groups == Groups(data[18..])
  {
    groups := [];
    var i := 18;
    while i + 4 <= |data|
      invariant 18 <= i <= |data|
      invariant groups + Groups(data[i..]) == Groups(data[18..])
    {
      assert data[i..][..4] == data[i..i + 4] && data[i..][4..] == data[i + 4..];
      groups := groups + [Le32(data[i..i + 4])];
      i := i + 4;
    }
  }

  function ParseSubscriber(msgType: Byte, data: Bytes): Result<Subscriber> {
    if |data| < 18 then Err(TooShort)
    else Ok(Subscriber(msgType, Le32(data[2..6]), data[6..14], Le32(data[14..18]), Groups(data[18..])))
  }

  function GroupBytes(groups: seq<UInt32>): Bytes {
    if groups == [] then [] else AppendLe32(groups[0]) + GroupBytes(groups[1..])
  }

  /** The clock, as eight bytes of seconds and a fraction, comes from outside. */
  function BuildSubscriber(action: Byte, issi: UInt32, groups: seq<UInt32>, seconds: Bytes, fraction: UInt32): Bytes
    requires |seconds| == 8
  {
    [CLASS_SUBSCRIBER, action] + AppendLe32(issi) + seconds + AppendLe32(fraction) + GroupBytes(groups)
  }

  function PayloadBytesForBits(lengthBits: UInt16): (n: nat)
    ensures lengthBits == 0 <==> n == 0
  {
    (lengthBits + 7) / 8
  }

  function KeptPayload(frameType: Byte, expected: nat, payload: Bytes): Bytes
    requires expected <= |payload|
  {
    if frameType in {SDS_TRANSFER, SDS_REPORT} && |payload| >= expected + 8 then payload[..expected + 8]
    else payload[..expected]
  }

  predicate IsDtmf(v: Byte) {
    '0' as int <= v <= '9' as int || v == '*' as int || v == '#' as int || 'A' as int <= v <= 'D' as int
  }

  predicate ValidFramePayload(frameType: Byte, payload: Bytes) {
    if frameType == TRAFFIC_CHANNEL || frameType == SDS_TRANSFER then |payload| > 0
    else if frameType == SDS_REPORT then |payload| == 1 || |payload| >= 9
    else if frameType == DTMF_DATA then |payload| == 1 && IsDtmf(payload[0])
    else if frameType == PACKET_DATA then |payload| > 0 && payload[0] / 16 in {4, 6}
    else true
  }

  function ParseFrame(frameType: Byte, data: Bytes): Result<Frame> {
    if |data| < 20 then Err(TooShort)
    else
      var lengthBits := Le16(data[18..20]);
      var expected := PayloadBytesForBits(lengthBits);
      if |data| - 20 < expected then Err(FrameTooShort)
      else
        var payload := KeptPayload(frameType, expected, data[20..]);
        if ValidFramePayload(frameType, payload) then Ok(Frame(frameType, data[2..18], lengthBits, payload))
        else Err(BadFramePayload)
  }

  function NormalizeFramePayload(frameType: Byte, lengthBits: UInt16, payload: Bytes): Bytes {
    var expected := PayloadBytesForBits(lengthBits);
    if expected == 0 then []
    else if frameType in {SDS_TRANSFER, SDS_REPORT} && |payload| >= expected + 8 then payload[..expected + 8]
    else FixedString(payload, expected)
  }

  /** A bit length of zero is taken to mean "all of the payload". */
  function EffectiveBits(lengthBits: UInt16, payload: Bytes): UInt16 {
    if lengthBits == 0 && |payload| > 0 then
      if |payload| * 8 > 0xFFFF then 0xFFFF else |payload| * 8
    else lengthBits
  }

  function BuildFrame(frameType: Byte, id: Uuid, lengthBits: UInt16, payload: Bytes): Bytes {
    var bits := EffectiveBits(lengthBits, payload);
    [CLASS_FRAME, frameType] + id + AppendLe16(bits) + NormalizeFramePayload(frameType, bits, payload)
  }

  function BuildError(errorType: Byte, payload: Bytes): Bytes {
    [CLASS_ERROR, errorType] + payload
  }

  function BuildService(serviceType: Byte, json: Bytes): Bytes {
    [CLASS_SERVICE, serviceType] + json + [0]
  }

  function ParseMessage(data: Bytes): Result<Message> {
    if |data| < 2 then Err(TooShort)
    else if data[0] == CLASS_SUBSCRIBER then
      match ParseSubscriber(data[1], data) case Ok(s) => Ok(SubscriberMsg(s)) case Err(e) => Err(e)
    else if data[0] == CLASS_CALL_CONTROL then
      match ParseCallControl(data[1], data) case Ok(c) => Ok(CallControlMsg(c)) case Err(e) => Err(e)
    else if data[0] == CLASS_FRAME then
      match ParseFrame(data[1], data) case Ok(f) => Ok(FrameMsg(f)) case Err(e) => Err(e)
    else if data[0] == CLASS_ERROR then Ok(ErrorMsg(data[1], data[2..]))
    else if data[0] == CLASS_SERVICE then Ok(ServiceMsg(data[1], UpToZero(data[2..])))
    else Err(UnknownClass)
  }
}
