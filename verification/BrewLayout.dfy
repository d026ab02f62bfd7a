/** The wire format byte by byte: which byte strings the parser accepts, and where in them it finds each field. */
module BrewLayout {
  import opened Brew

  /** Two bytes from position `at`, the lower first. */
  function HalfAt(d: Bytes, at: nat): int
    requires at + 2 <= |d|
  {
    var lo: int, hi: int := d[at], d[at + 1];
    lo + 0x100 * hi
  }

  /** v in four bytes from position `at`, the lowest first. */
  predicate WordAt(d: Bytes, at: nat, v: int)
    requires at + 4 <= |d|
  {
    v == HalfAt(d, at) + 0x1_0000 * HalfAt(d, at + 2)
  }

  lemma Le32Is(d: Bytes, at: nat)
    requires at + 4 <= |d|
    ensures WordAt(d, at, Le32(d[at..at + 4]))
  {
    var b := d[at..at + 4];
    assert b[..2][0] == d[at] && b[..2][1] == d[at + 1] && b[2..][0] == d[at + 2] && b[2..][1] == d[at + 3];
  }

  lemma Le16Is(d: Bytes, at: nat)
    requires at + 2 <= |d|
    ensures Le16(d[at..at + 2]) == HalfAt(d, at)
  {
  }

  /** The bytes of a field of 32 in front of its first zero. */
  ghost predicate StringAt(d: Bytes, at: nat, s: Bytes)
    requires at + 32 <= |d|
  {
    && |s| <= 32 && s == d[at..at + |s|]
    && (forall i :: 0 <= i < |s| ==> s[i] != 0)
    && (|s| < 32 ==> d[at + |s|] == 0)
  }

  lemma FieldIs(d: Bytes, at: nat)
    requires at + 32 <= |d|
    ensures StringAt(d, at, UpToZero(d[at..at + 32]))
  {
    var raw := d[at..at + 32];
    var s := UpToZero(raw);
    assert s == raw[..|s|] == d[at..at + |s|];
  }

  // ---- call control ----

  /** How many bytes a call state needs behind its id. */
  function Needed(state: int): nat {
    if state == 2 then 12
    else if state in {3, 6, 10, 16, 17} then 1
    else if state in {4, 8} then 51
    else if state in {9, 11, 12, 13} then 2
    else if state == 14 then 9
    else if state == 15 then 25
    else 0
  }

  lemma ControlAcceptedIff(d: Bytes)
    requires |d| >= 2 && d[0] == 0xF1
    ensures ParseMessage(d).Ok? <==> |d| >= 18 + Needed(d[1])
  {
  }

  /** Each payload, in the bytes from 18 on. */
  ghost predicate PayloadAt(d: Bytes, p: Payload)
    requires |d| >= 18
  {
    match p
    case GroupTransmission(source, destination, priority, access, service) =>
      && |d| >= 30 && WordAt(d, 18, source) && WordAt(d, 22, destination) && priority == d[26] && access == d[27]
      && service == HalfAt(d, 28)
    case CircularCall(c) =>
      && |d| >= 69 && WordAt(d, 18, c.source) && WordAt(d, 22, c.destination) && StringAt(d, 26, c.number)
      && c.priority == d[58] && c.service == d[59] && c.mode == d[60] && c.duplex == d[61] && c.method_ == d[62]
      && c.communication == d[63] && c.grant == d[64] && c.permission == d[65] && c.timeout == d[66]
      && c.ownership == d[67] && c.queued == d[68]
    case CircularGrant(grant, permission) => |d| >= 20 && grant == d[18] && permission == d[19]
    case ShortData(source, destination, number) =>
      |d| >= 58 && WordAt(d, 18, source) && WordAt(d, 22, destination) && StringAt(d, 26, number)
    case ShortTransferStatus(status) => 20 <= |d| < 58 && status == HalfAt(d, 18)
    case PacketRequest(number, flags, profile, authenticator) =>
      |d| >= 27 && WordAt(d, 18, number) && flags == d[22] && WordAt(d, 23, profile) && authenticator == d[27..]
    case PacketContext(flags, ipv4, ipv6, profile) =>
      |d| >= 43 && flags == d[18] && WordAt(d, 19, ipv4) && ipv6 == d[23..39] && WordAt(d, 39, profile)
    case Cause(cause) => |d| >= 19 && cause == d[18]
    case Empty => true
    case Raw(data) => data == d[18..]
  }

  /** Which kind of payload a state has. */
  ghost predicate KindOf(state: int, p: Payload) {
    && (p.GroupTransmission? <==> state == 2)
    && (p.Cause? <==> state in {3, 6, 10, 16, 17})
    && (p.CircularCall? <==> state in {4, 8})
    && (p.Empty? <==> state in {5, 7})
    && (p.CircularGrant? <==> state in {9, 12, 13})
    && (p.ShortData? || p.ShortTransferStatus? <==> state == 11)
    && (p.PacketRequest? <==> state == 14)
    && (p.PacketContext? <==> state == 15)
    && (p.Raw? <==> state < 2 || state > 17)
  }

  /** The fields of an accepted call-control message are the bytes at their places. */
  lemma ControlLayout(d: Bytes)
    requires ParseMessage(d).Ok? && ParseMessage(d).value.CallControlMsg?
    ensures var c := ParseMessage(d).value.control;
            && |d| >= 18 && d[0] == 0xF1 && c.state == d[1] && c.id == d[2..18]
            && KindOf(c.state, c.payload) && PayloadAt(d, c.payload)
  {
    hide ParsePayload, UpToZero;
    PayloadLayout(d);
  }

  lemma PayloadLayout(d: Bytes)
    requires |d| >= 18 && ParsePayload(d[1], d[18..]).Ok?
    ensures KindOf(d[1], ParsePayload(d[1], d[18..]).value) && PayloadAt(d, ParsePayload(d[1], d[18..]).value)
  {
    hide UpToZero, Le32, Le16, StringAt, WordAt;
    var p := d[18..];
    if |p| >= 8 {
      assert p[0..4] == d[18..22] && p[4..8] == d[22..26];
      Le32Is(d, 18);
      Le32Is(d, 22);
    }
    if |p| >= 40 {
      assert p[8..40] == d[26..26 + 32];
      FieldIs(d, 26);
    }
    if |p| >= 2 {
      assert p[0..2] == d[18..18 + 2];
      Le16Is(d, 18);
    }
    PacketLayout(d);
  }

  lemma PacketLayout(d: Bytes)
    requires |d| >= 18
    ensures |d| >= 30 ==> Le16(d[18..][10..12]) == HalfAt(d, 28)
    ensures |d| >= 27 ==> WordAt(d, 18, Le32(d[18..][0..4])) && WordAt(d, 23, Le32(d[18..][5..9])) && d[18..][9..] == d[27..]
    ensures |d| >= 43 ==> WordAt(d, 19, Le32(d[18..][1..5])) && d[18..][5..21] == d[23..39]
    ensures |d| >= 43 ==> WordAt(d, 39, Le32(d[18..][21..25]))
  {
    hide Le32, Le16, WordAt;
    var p := d[18..];
    if |d| >= 30 {
      assert p[10..12] == d[28..28 + 2];
      Le16Is(d, 28);
    }
    if |d| >= 27 {
      assert p[0..4] == d[18..18 + 4] && p[5..9] == d[23..23 + 4];
      Le32Is(d, 18);
      Le32Is(d, 23);
    }
    if |d| >= 43 {
      assert p[1..5] == d[19..19 + 4] && p[21..25] == d[39..39 + 4];
      Le32Is(d, 19);
      Le32Is(d, 39);
    }
  }

  // ---- frames ----

  /** How many bytes of data a frame keeps: those its bit length asks for, and eight more of short data that has them. */
  function Kept(d: Bytes): nat
    requires |d| >= 20
  {
    var n := (HalfAt(d, 18) + 7) / 8;
    if d[1] in {1, 2} && |d| - 20 >= n + 8 then n + 8 else n
  }

  ghost predicate FrameAccepted(d: Bytes)
    requires |d| >= 2
  {
    && |d| >= 20 && |d| - 20 >= (HalfAt(d, 18) + 7) / 8
    && (d[1] in {0, 1, 4} ==> Kept(d) > 0)
    && (d[1] == 2 ==> Kept(d) == 1 || Kept(d) >= 9)
    && (d[1] == 3 ==> Kept(d) == 1 && (0x30 <= d[20] <= 0x39 || d[20] in {0x2A, 0x23} || 0x41 <= d[20] <= 0x44))
    && (d[1] == 4 ==> 0x40 <= d[20] < 0x50 || 0x60 <= d[20] < 0x70)
  }

  /** Exactly these frames are accepted, and these are their fields. */
  lemma FrameAcceptedIff(d: Bytes)
    requires |d| >= 2 && d[0] == 0xF2
    ensures ParseMessage(d).Ok? <==> FrameAccepted(d)
    ensures ParseMessage(d).Ok? ==>
              ParseMessage(d).value
              == FrameMsg(Frame(d[1], d[2..18], HalfAt(d, 18), d[20..20 + Kept(d)]))
  {
    if |d| >= 20 {
      Le16Is(d, 18);
      var rest := d[20..];
      if |rest| >= Kept(d) {
        assert rest[..Kept(d)] == d[20..20 + Kept(d)];
        assert Kept(d) > 0 ==> d[20..20 + Kept(d)][0] == d[20];
      }
    }
  }

  /** What the builder writes for any payload: the id, the bit length (all of the payload when none is given, as far as 16
      bits hold it), and as many bytes as that asks for, cut or filled up with zeros. */
  lemma BuiltFrame(frameType: Byte, id: Uuid, lengthBits: UInt16, payload: Bytes)
    ensures var b := BuildFrame(frameType, id, lengthBits, payload);
            var all := 8 * |payload|;
            var bits: int := if lengthBits == 0 then (if all > 0xFFFF then 0xFFFF else all) else lengthBits;
            var n := (bits + 7) / 8;
            && |b| >= 20 && b[0] == 0xF2 && b[1] == frameType && b[2..18] == id && HalfAt(b, 18) == bits
            && (if n > 0 && frameType in {1, 2} && |payload| >= n + 8 then b[20..] == payload[..n + 8]
                else |b| == 20 + n && forall i :: 0 <= i < n ==> b[20 + i] == if i < |payload| then payload[i] else 0)
  {
  }

  // ---- subscribers ----

  /** The fields of a subscriber message, and each complete group of four bytes from 18 on. */
  lemma SubscriberLayout(d: Bytes)
    requires |d| >= 2 && d[0] == 0xF0
    ensures ParseMessage(d).Ok? <==> |d| >= 18
    ensures ParseMessage(d).Ok? ==>
              && ParseMessage(d).value.SubscriberMsg?
              && var s := ParseMessage(d).value.subscriber;
                 && s.msgType == d[1] && WordAt(d, 2, s.number) && s.seconds == d[6..14] && WordAt(d, 14, s.fraction)
                 && |s.groups| == (|d| - 18) / 4
                 && forall k :: 0 <= k < |s.groups| ==> WordAt(d, 18 + 4 * k, s.groups[k])
  {
    if |d| >= 18 {
      Le32Is(d, 2);
      Le32Is(d, 14);
      GroupCount(d[18..]);
      forall k | 0 <= k < (|d| - 18) / 4
        ensures WordAt(d, 18 + 4 * k, Groups(d[18..])[k])
      {
        GroupAt(d[18..], k);
        assert d[18..][4 * k..4 * k + 4] == d[18 + 4 * k..18 + 4 * k + 4];
        Le32Is(d, 18 + 4 * k);
      }
    }
  }

  lemma {:induction false} GroupCount(raw: Bytes)
    ensures |Groups(raw)| == |raw| / 4
  {
    if |raw| >= 4 {
      GroupCount(raw[4..]);
    }
  }

  lemma {:induction false} GroupAt(raw: Bytes, k: nat)
    requires 4 * k + 4 <= |raw|
    ensures k < |Groups(raw)| && Groups(raw)[k] == Le32(raw[4 * k..4 * k + 4])
  {
    hide Le32;
    if k > 0 {
      GroupAt(raw[4..], k - 1);
      assert raw[4..][4 * (k - 1)..4 * (k - 1) + 4] == raw[4 * k..4 * k + 4];
    }
  }
}
