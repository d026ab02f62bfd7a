/** The coded frame: 23 parameters, 137 serial bits, 18 packed bytes. */
module FrameBits {
  import opened FixedPoint

  type Byte = x: int | 0 <= x < 256

  const PRM_NO := 23
  const BIT_COUNT := 137
  const BYTE_COUNT := 18

  /** Widths of the 23 parameters: split LSP indices, then pitch, code index, sign, shift and gains for
      each of the four subframes. */
  const BITNO: seq<nat> := [8, 9, 9,
                            8, 14, 1, 1, 6,
                            5, 14, 1, 1, 6,
                            5, 14, 1, 1, 6,
                            5, 14, 1, 1, 6]

  /** A table of field widths, each at least one bit and at most fifteen. */
  predicate WidthTable(widths: seq<nat>) {
    forall i :: 0 <= i < |widths| ==> 1 <= widths[i] <= 15
  }

  /** Where field i starts. */
  function Offset(widths: seq<nat>, i: nat): (o: nat)
    requires i <= |widths|
  {
    if i == 0 then 0 else Offset(widths, i - 1) + widths[i - 1]
  }

  lemma OffsetNext(widths: seq<nat>, i: nat)
    requires i < |widths|
    ensures Offset(widths, i + 1) == Offset(widths, i) + widths[i]
  {
  }

  lemma {:induction false} OffsetMonotone(widths: seq<nat>, i: nat, j: nat)
    requires i <= j <= |widths|
    ensures Offset(widths, i) <= Offset(widths, j)
  {
    if i < j {
      OffsetMonotone(widths, i, j - 1);
    }
  }

  lemma FrameWidths()
    ensures |BITNO| == PRM_NO && WidthTable(BITNO) && Offset(BITNO, PRM_NO) == BIT_COUNT
  {
    hide Offset;
    OffsetOfThree(BITNO);
    OffsetOfFiveMore(BITNO, 3);
    OffsetOfFiveMore(BITNO, 8);
    OffsetOfFiveMore(BITNO, 13);
    OffsetOfFiveMore(BITNO, 18);
  }

  lemma OffsetOfThree(widths: seq<nat>)
    requires 3 <= |widths|
    ensures Offset(widths, 3) == widths[0] + widths[1] + widths[2]
  {
    assert Offset(widths, 1) == widths[0];
  }

  lemma OffsetOfFiveMore(widths: seq<nat>, i: nat)
    requires i + 5 <= |widths|
    ensures Offset(widths, i + 5)
            == Offset(widths, i) + widths[i] + widths[i + 1] + widths[i + 2] + widths[i + 3] + widths[i + 4]
  {
    hide Offset;
    OffsetNext(widths, i);
    OffsetNext(widths, i + 1);
    OffsetNext(widths, i + 2);
    OffsetNext(widths, i + 3);
    OffsetNext(widths, i + 4);
  }

  // ---- binary notation ----

  predicate AreBits(bits: seq<Word16>) {
    forall k :: 0 <= k < |bits| ==> 0 <= bits[k] <= 1
  }

  /** The low n bits of v, most significant first. */
  function BitsOf(v: int, n: nat): (bits: seq<Word16>)
    ensures |bits| == n && AreBits(bits)
    decreases n
  {
    if n == 0 then [] else BitsOf(v / 2, n - 1) + [v % 2]
  }

  function ValueOf(bits: seq<Word16>): (v: int)
    ensures 0 <= v < Power(|bits|)
  {
    if bits == [] then 0 else 2 * ValueOf(bits[..|bits| - 1]) + (if bits[|bits| - 1] == 1 then 1 else 0)
  }

  lemma {:induction false} ValueOfBitsOf(v: int, n: nat)
    requires 0 <= v < Power(n)
    ensures ValueOf(BitsOf(v, n)) == v
  {
    if n > 0 {
      ValueOfBitsOf(v / 2, n - 1);
      assert BitsOf(v, n)[..n - 1] == BitsOf(v / 2, n - 1);
    }
  }

  lemma {:induction false} BitsOfValueOf(bits: seq<Word16>)
    requires AreBits(bits)
    ensures BitsOf(ValueOf(bits), |bits|) == bits
  {
    if bits != [] {
      var init, last := bits[..|bits| - 1], bits[|bits| - 1];
      BitsOfValueOf(init);
      assert ValueOf(bits) / 2 == ValueOf(init) && ValueOf(bits) % 2 == last;
      assert bits == init + [last];
    }
  }

  /** `int2bin`: writes the bits backwards from the end of the field. */
  method Int2bin(value: Word16, n: nat, bits: array<Word16>, at: nat)
    requires at + n <= bits.Length
    modifies bits
    ensures bits[at..at + n] == BitsOf(value, n)
    ensures bits[..at] == old(bits[..at]) && bits[at + n..] == old(bits[at + n..])
  {
    var v, p := value, at + n;
    assert Power(1) == 2;
    for i := 0 to n
      invariant p == at + n - i
      invariant BitsOf(value, n) == BitsOf(v, n - i) + bits[p..at + n]
      invariant bits[..at] == old(bits[..at]) && bits[at + n..] == old(bits[at + n..])
    {
      var bit := v % 2;
      p := p - 1;
      ghost var tail := bits[p + 1..at + n];
      bits[p] := if bit == 0 then 0 else 1;
      assert bits[p..at + n] == [v % 2] + tail;
      v := Shr(v, 1);
    }
  }

  /** `bin2int`. */
  method Bin2int(n: nat, bits: array<Word16>, at: nat) returns (value: Word16)
    requires n <= 15 && at + n <= bits.Length
    ensures value == ValueOf(bits[at..at + n])
  {
    value := 0;
    assert Power(1) == 2;
    assert Power(15) == 0x8000;
    for i := 0 to n
      invariant value == ValueOf(bits[at..at + i])
    {
      PowerMonotone(i + 1, 15);
      ghost var upTo := bits[at..at + i + 1];
      assert upTo[..i] == bits[at..at + i];
      assert 2 * ValueOf(upTo[..i]) <= ValueOf(upTo) < Power(i + 1);
      value := Shl(value, 1);
      if bits[at + i] == 1 {
        value := value + 1;
      }
    }
  }

  // ---- parameters to serial bits and back ----

  predicate InRange(widths: seq<nat>, prm: seq<Word16>) {
    |prm| == |widths| && forall i :: 0 <= i < |prm| ==> 0 <= prm[i] < Power(widths[i])
  }

  /** The first k parameters, each in its own width. */
  function Serialise(widths: seq<nat>, prm: seq<Word16>, k: nat): (bits: seq<Word16>)
    requires |prm| == |widths| && k <= |prm|
    ensures |bits| == Offset(widths, k) && AreBits(bits)
  {
    if k == 0 then [] else Serialise(widths, prm, k - 1) + BitsOf(prm[k - 1], widths[k - 1])
  }

  function Field(widths: seq<nat>, bits: seq<Word16>, i: nat): (f: seq<Word16>)
    requires i < |widths| && |bits| == Offset(widths, |widths|)
    ensures |f| == widths[i]
  {
    OffsetMonotone(widths, i + 1, |widths|);
    bits[Offset(widths, i)..Offset(widths, i) + widths[i]]
  }

  function FieldValue(widths: seq<nat>, bits: seq<Word16>, i: nat): (v: Word16)
    requires WidthTable(widths) && i < |widths| && |bits| == Offset(widths, |widths|)
    ensures 0 <= v < Power(widths[i])
  {
    FieldFits(Field(widths, bits, i));
    ValueOf(Field(widths, bits, i))
  }

  lemma FieldFits(bits: seq<Word16>)
    requires |bits| <= 15
    ensures ValueOf(bits) < 0x8000
  {
    PowerMonotone(|bits|, 15);
    assert Power(15) == 0x8000;
  }

  function Parse(widths: seq<nat>, bits: seq<Word16>): (prm: seq<Word16>)
    requires WidthTable(widths) && |bits| == Offset(widths, |widths|)
    ensures InRange(widths, prm)
  {
    seq(|widths|, i requires 0 <= i < |widths| => FieldValue(widths, bits, i))
  }

  lemma {:induction false} SerialiseKeepsFields(widths: seq<nat>, prm: seq<Word16>, i: nat, k: nat)
    requires |prm| == |widths| && i < k <= |prm|
    ensures Offset(widths, i) + widths[i] <= Offset(widths, k)
    ensures Serialise(widths, prm, k)[Offset(widths, i)..Offset(widths, i) + widths[i]]
            == BitsOf(prm[i], widths[i])
  {
    var init, last := Serialise(widths, prm, k - 1), BitsOf(prm[k - 1], widths[k - 1]);
    if i < k - 1 {
      SerialiseKeepsFields(widths, prm, i, k - 1);
      SliceOfPrefix(init, last, Offset(widths, i), Offset(widths, i) + widths[i]);
    } else {
      SliceOfSuffix(init, last);
    }
  }

  lemma SliceOfPrefix(a: seq<Word16>, b: seq<Word16>, from: nat, to: nat)
    requires from <= to <= |a|
    ensures (a + b)[from..to] == a[from..to]
  {
  }

  lemma SliceOfSuffix(a: seq<Word16>, b: seq<Word16>)
    ensures (a + b)[|a|..|a| + |b|] == b
  {
  }

  /** Reading the serial bits of in-range parameters gives the parameters back. */
  lemma ParseSerialise(widths: seq<nat>, prm: seq<Word16>)
    requires WidthTable(widths) && InRange(widths, prm)
    ensures Parse(widths, Serialise(widths, prm, |prm|)) == prm
  {
    hide Power, BitsOf, ValueOf, Serialise, Offset;
    var bits := Serialise(widths, prm, |prm|);
    forall i | 0 <= i < |prm|
      ensures FieldValue(widths, bits, i) == prm[i]
    {
      SerialiseKeepsFields(widths, prm, i, |prm|);
      ValueOfBitsOf(prm[i], widths[i]);
    }
  }

  lemma NothingSerialised(widths: seq<nat>, prm: seq<Word16>)
    requires |prm| == |widths|
    ensures Serialise(widths, prm, 0) == [] && Offset(widths, 0) == 0
  {
  }

  lemma SerialiseNext(widths: seq<nat>, prm: seq<Word16>, i: nat)
    requires |prm| == |widths| && i < |prm|
    ensures Serialise(widths, prm, i + 1) == Serialise(widths, prm, i) + BitsOf(prm[i], widths[i])
    ensures Offset(widths, i + 1) == Offset(widths, i) + widths[i]
  {
  }

  /** The field loop of `Prm2bits_Tetra`, over any table of widths. */
  method WriteFields(widths: seq<nat>, prm: seq<Word16>, bits: array<Word16>)
    requires |prm| == |widths| && bits.Length == 1 + Offset(widths, |widths|)
    modifies bits
    ensures bits[0] == old(bits[0])
    ensures bits[1..] == Serialise(widths, prm, |prm|)
  {
    hide Serialise, BitsOf, Offset;
    var p := 1;
    NothingSerialised(widths, prm);
    for i := 0 to |widths|
      invariant p == 1 + Offset(widths, i)
      invariant p <= bits.Length && bits[..p] == [old(bits[0])] + Serialise(widths, prm, i)
    {
      OffsetMonotone(widths, i + 1, |widths|);
      SerialiseNext(widths, prm, i);
      Int2bin(prm[i], widths[i], bits, p);
      assert bits[..p + widths[i]] == bits[..p] + bits[p..p + widths[i]];
      p := p + widths[i];
    }
    assert bits[..p] == bits[..];
    assert bits[1..] == bits[..p][1..];
  }

  /** `Prm2bits_Tetra`: a zero bad-frame flag, then the fields. */
  method Prm2bits(prm: seq<Word16>, bits: array<Word16>)
    requires |prm| == PRM_NO && bits.Length == 1 + BIT_COUNT
    modifies bits
    ensures |BITNO| == PRM_NO
    ensures bits[0] == 0 && bits[1..] == Serialise(BITNO, prm, PRM_NO)
  {
    FrameWidths();
    bits[0] := 0;
    WriteFields(BITNO, prm, bits);
  }

  /** Field i of the serial bits, behind the flag. */
  lemma FieldAt(widths: seq<nat>, bits: seq<Word16>, i: nat)
    requires i < |widths| && |bits| == 1 + Offset(widths, |widths|)
    ensures 1 + Offset(widths, i) + widths[i] <= |bits|
    ensures bits[1 + Offset(widths, i)..1 + Offset(widths, i) + widths[i]] == Field(widths, bits[1..], i)
  {
    hide Offset;
    OffsetNext(widths, i);
    OffsetMonotone(widths, i + 1, |widths|);
  }

  /** The field loop of `Bits2prm_Tetra`. */
  method ReadFields(widths: seq<nat>, bits: array<Word16>) returns (prm: seq<Word16>)
    requires WidthTable(widths) && bits.Length == 1 + Offset(widths, |widths|)
    ensures prm == Parse(widths, bits[1..])
  {
    hide Power, ValueOf, Field;
    prm := [];
    var p := 1;
    ghost var serial := bits[1..];
    for i := 0 to |widths|
      invariant p == 1 + Offset(widths, i)
      invariant |prm| == i
      invariant forall k :: 0 <= k < i ==> prm[k] == FieldValue(widths, serial, k)
    {
      OffsetMonotone(widths, i + 1, |widths|);
      var v := Bin2int(widths[i], bits, p);
      FieldAt(widths, bits[..], i);
      prm := prm + [v];
      OffsetNext(widths, i);
      p := p + widths[i];
    }
  }

  /** `Bits2prm_Tetra`: parm[0] is the bad-frame flag. */
  method Bits2prm(bits: array<Word16>) returns (prm: seq<Word16>)
    requires bits.Length == 1 + BIT_COUNT
    ensures WidthTable(BITNO) && Offset(BITNO, |BITNO|) == BIT_COUNT
    ensures prm == [bits[0]] + Parse(BITNO, bits[1..])
  {
    FrameWidths();
    prm := ReadFields(BITNO, bits);
    prm := [bits[0]] + prm;
  }

  // ---- serial bits to packed bytes and back ----

  predicate IsFrame(bits: seq<Word16>) {
    |bits| == BIT_COUNT && AreBits(bits)
  }

  /** Byte j of the packed frame: eight bits, except the last byte, which holds one bit and seven zeros. */
  function PackedByte(bits: seq<Word16>, j: nat): Byte
    requires IsFrame(bits) && j < BYTE_COUNT
  {
    assert Power(8) == 256;
    if j < BYTE_COUNT - 1 then ValueOf(bits[8 * j..8 * j + 8]) else Times(bits[BIT_COUNT - 1], 128)
  }

  function Packed(bits: seq<Word16>): (bytes: seq<Byte>)
    requires IsFrame(bits)
    ensures |bytes| == BYTE_COUNT
  {
    seq(BYTE_COUNT, j requires 0 <= j < BYTE_COUNT => PackedByte(bits, j))
  }

  /** Bit k of a byte, counted from the most significant. */
  function ByteBit(b: Byte, k: int): (bit: Word16)
    requires 0 <= k < 8
    ensures 0 <= bit <= 1
  {
    b / Power(7 - k) % 2
  }

  function Unpacked(bytes: seq<Byte>): (bits: seq<Word16>)
    requires |bytes| == BYTE_COUNT
    ensures IsFrame(bits)
  {
    seq(BIT_COUNT, i requires 0 <= i < BIT_COUNT => ByteBit(bytes[i / 8], i % 8))
  }

  lemma ByteBitsAre(b: Byte, k: int)
    requires 0 <= k < 8
    ensures BitsOf(b, 8)[k] == ByteBit(b, k)
  {
    BitOfBits(b, 8, k);
  }

  lemma {:induction false} BitOfBits(v: int, n: nat, k: int)
    requires 0 <= v && 0 <= k < n
    ensures BitsOf(v, n)[k] == v / Power(n - 1 - k) % 2
  {
    if k < n - 1 {
      BitOfBits(v / 2, n - 1, k);
      var p := Power(n - 2 - k);
      assert Power(n - 1 - k) == 2 * p;
      HalvingFirst(v, p);
    }
  }

  lemma HalvingFirst(v: int, p: int)
    requires 0 <= v && 0 < p
    ensures v / 2 / p == v / (2 * p)
  {
    var q := v / (2 * p);
    DivisionBounds(v, 2 * p);
    DivisionBounds(v, 2);
    DivisionBounds(v / 2, p);
    var k := v / 2 / p;
    TwiceProduct(p, q);
    NextMultiple(p, k);
    NextMultiple(p, q);
    if k < q {
      MulOrder(k + 1, q, p);
    } else if k > q {
      MulOrder(q + 1, k, p);
    }
  }

  /** Unpacking what was packed returns every bit. */
  lemma UnpackedPacked(bits: seq<Word16>)
    requires IsFrame(bits)
    ensures Unpacked(Packed(bits)) == bits
  {
    forall i | 0 <= i < BIT_COUNT
      ensures Unpacked(Packed(bits))[i] == bits[i]
    {
      PackedBit(bits, i / 8, i % 8);
    }
  }

  lemma PackedBit(bits: seq<Word16>, j: int, k: int)
    requires IsFrame(bits) && 0 <= j && 0 <= k < 8 && 8 * j + k < BIT_COUNT
    ensures ByteBit(PackedByte(bits, j), k) == bits[8 * j + k]
  {
    hide Power, BitsOf, ValueOf, ByteBit;
    if j < BYTE_COUNT - 1 {
      var eight := bits[8 * j..8 * j + 8];
      BitsOfValueOf(eight);
      ByteBitsAre(PackedByte(bits, j), k);
      assert eight[k] == bits[8 * j + k];
    } else {
      TopBit(bits[BIT_COUNT - 1]);
    }
  }

  lemma TopBit(b: Word16)
    requires 0 <= b <= 1
    ensures ByteBit(Times(b, 128), 0) == b
  {
    assert Power(7) == 128;
  }

  /** Packing what was unpacked returns every byte, except that the seven padding bits become zero. */
  lemma PackedUnpacked(bytes: seq<Byte>)
    requires |bytes| == BYTE_COUNT
    ensures Packed(Unpacked(bytes)) == bytes[..BYTE_COUNT - 1] + [bytes[BYTE_COUNT - 1] / 128 * 128]
  {
    hide ByteBit, BitsOf, ValueOf, Power;
    var bits := Unpacked(bytes);
    forall j | 0 <= j < BYTE_COUNT - 1
      ensures Packed(bits)[j] == bytes[j]
    {
      UnpackedByte(bytes, j);
    }
    TopBitOf(bytes[BYTE_COUNT - 1]);
  }

  lemma UnpackedByte(bytes: seq<Byte>, j: int)
    requires |bytes| == BYTE_COUNT && 0 <= j < BYTE_COUNT - 1
    ensures ValueOf(Unpacked(bytes)[8 * j..8 * j + 8]) == bytes[j]
  {
    assert Power(8) == 256;
    hide ByteBit, BitsOf, ValueOf, Power, Unpacked;
    var eight := Unpacked(bytes)[8 * j..8 * j + 8];
    forall k | 0 <= k < 8
      ensures eight[k] == BitsOf(bytes[j], 8)[k]
    {
      ByteBitsAre(bytes[j], k);
      UnpackedAt(bytes, j, k);
      assert eight[k] == Unpacked(bytes)[8 * j + k];
    }
    assert eight == BitsOf(bytes[j], 8);
    ValueOfBitsOf(bytes[j], 8);
  }

  lemma UnpackedAt(bytes: seq<Byte>, j: int, k: int)
    requires |bytes| == BYTE_COUNT && 0 <= j < BYTE_COUNT - 1 && 0 <= k < 8
    ensures Unpacked(bytes)[8 * j + k] == ByteBit(bytes[j], k)
  {
    hide ByteBit;
    assert (8 * j + k) / 8 == j && (8 * j + k) % 8 == k;
  }

  lemma TopBitOf(b: Byte)
    ensures Times(ByteBit(b, 0), 128) == b / 128 * 128
  {
    assert Power(7) == 128;
  }

  /** Shifting bits into a byte from the right, dropping what leaves on the left. */
  function ShiftedIn(b: Byte, bits: seq<Word16>): Byte
    requires AreBits(bits)
  {
    if bits == [] then b else (Times(ShiftedIn(b, bits[..|bits| - 1]), 2) + bits[|bits| - 1]) % 256
  }

  lemma {:induction false} ShiftedInValue(b: Byte, bits: seq<Word16>)
    requires AreBits(bits)
    ensures ShiftedIn(b, bits) == (Times(b, Power(|bits|)) + ValueOf(bits)) % 256
  {
    if bits != [] {
      var init, last := bits[..|bits| - 1], bits[|bits| - 1];
      ShiftedInValue(b, init);
      TwiceProduct(b, Power(|init|));
      ModStep(b * Power(|init|) + ValueOf(init), last);
    }
  }

  lemma ModStep(x: int, last: int)
    ensures (2 * (x % 256) + last) % 256 == (2 * x + last) % 256
  {
    assert 2 * x + last == 2 * (x % 256) + last + 256 * (2 * (x / 256));
  }

  /** After eight shifts nothing of the byte's earlier contents is left. */
  lemma EightShifts(b: Byte, bits: seq<Word16>)
    requires AreBits(bits) && |bits| == 8
    ensures ShiftedIn(b, bits) == ValueOf(bits)
  {
    ShiftedInValue(b, bits);
    assert Power(8) == 256;
    DropHigh(b, ValueOf(bits));
  }

  lemma DropHigh(b: int, v: int)
    requires 0 <= v < 256
    ensures (Times(b, 256) + v) % 256 == v
  {
  }

  /** `pack_coded_bits`: the buffer may hold anything beforehand. */
  method PackCodedBits(serial: seq<Word16>, coded: array<Byte>)
    requires IsFrame(serial) && coded.Length == BYTE_COUNT
    modifies coded
    ensures coded[..] == Packed(serial)
  {
    hide ShiftedIn, PackedByte;
    var bit, p := 8, 0;
    ghost var was := coded[..];
    NothingShifted(was[0]);
    for i := 0 to BIT_COUNT
      invariant 1 <= bit <= 8 && 8 * p + (8 - bit) == i
      invariant p < BYTE_COUNT
      invariant forall j :: 0 <= j < p ==> coded[j] == PackedByte(serial, j)
      invariant coded[p] == ShiftedIn(was[p], serial[8 * p..i])
      invariant forall j :: p < j < BYTE_COUNT ==> coded[j] == was[j]
    {
      ShiftOneMore(was[p], serial, 8 * p, i);
      coded[p] := (Times(coded[p], 2) + serial[i]) % 256;
      bit := bit - 1;
      if bit == 0 {
        FullByte(was[p], serial, p);
        p := p + 1;
        bit := 8;
        NothingShifted(was[p]);
      }
    }
    LastByte(was[p], serial);
    coded[p] := Times(coded[p], 128) % 256;
  }

  lemma NothingShifted(b: Byte)
    ensures ShiftedIn(b, []) == b
  {
  }

  lemma FullByte(b: Byte, serial: seq<Word16>, j: nat)
    requires IsFrame(serial) && j < BYTE_COUNT - 1
    ensures ShiftedIn(b, serial[8 * j..8 * j + 8]) == PackedByte(serial, j)
  {
    hide ShiftedIn, Power, ValueOf;
    EightShifts(b, serial[8 * j..8 * j + 8]);
  }

  lemma ShiftOneMore(b: Byte, serial: seq<Word16>, from: nat, i: nat)
    requires AreBits(serial) && from <= i < |serial|
    ensures ShiftedIn(b, serial[from..i + 1]) == (Times(ShiftedIn(b, serial[from..i]), 2) + serial[i]) % 256
    ensures serial[i + 1..i + 1] == []
  {
    var upTo := serial[from..i + 1];
    assert upTo[..|upTo| - 1] == serial[from..i];
  }

  lemma LastByte(b: Byte, serial: seq<Word16>)
    requires IsFrame(serial)
    ensures Times(ShiftedIn(b, serial[BIT_COUNT - 1..BIT_COUNT]), 128) % 256 == PackedByte(serial, BYTE_COUNT - 1)
  {
    ShiftOneMore(b, serial, BIT_COUNT - 1, BIT_COUNT - 1);
    assert serial[BIT_COUNT - 1..BIT_COUNT - 1] == [];
    assert ShiftedIn(b, []) == b;
    hide ShiftedIn, ValueOf, Power;
    SevenMore(b, serial[BIT_COUNT - 1]);
  }

  lemma SevenMore(b: int, last: int)
    requires 0 <= last <= 1
    ensures Times((Times(b, 2) + last) % 256, 128) % 256 == Times(last, 128)
  {
    LowBit(2 * b + last, b, last);
  }

  lemma LowBit(x: int, b: int, last: int)
    requires x == 2 * b + last && 0 <= last <= 1
    ensures (x % 256 * 128) % 256 == last * 128
  {
    var q, r := x / 256, x % 256;
    assert r == 2 * (b - 128 * q) + last;
    assert r * 128 == 256 * (b - 128 * q) + last * 128;
  }

  /** `unpack_coded_bits`. */
  method UnpackCodedBits(coded: array<Byte>) returns (serial: seq<Word16>)
    requires coded.Length == BYTE_COUNT
    ensures serial == Unpacked(coded[..])
  {
    var bit, p := 7, 0;
    serial := [];
    for i := 0 to BIT_COUNT
      invariant 0 <= bit <= 7 && 8 * p + (7 - bit) == i
      invariant |serial| == i
      invariant forall k :: 0 <= k < i ==> serial[k] == ByteBit(coded[k / 8], k % 8)
    {
      assert i / 8 == p && 7 - i % 8 == bit;
      serial := serial + [coded[p] / Power(bit) % 2];
      bit := bit - 1;
      if bit < 0 {
        p := p + 1;
        bit := 7;
      }
    }
  }

  // ---- the whole frame ----

  predicate FrameParameters(prm: seq<Word16>) {
    InRange(BITNO, prm)
  }

  /** The 18 bytes of a frame. */
  function CodedFrame(prm: seq<Word16>): (bytes: seq<Byte>)
    requires FrameParameters(prm)
    ensures |bytes| == BYTE_COUNT
  {
    FrameWidths();
    Packed(Serialise(BITNO, prm, |prm|))
  }

  function FrameContents(bytes: seq<Byte>): (prm: seq<Word16>)
    requires |bytes| == BYTE_COUNT
    ensures FrameParameters(prm)
  {
    FrameWidths();
    Parse(BITNO, Unpacked(bytes))
  }

  /** Parameters, bits, bytes, bits, parameters: the identity on all 23 in-range parameters. */
  lemma FrameRoundTrip(prm: seq<Word16>)
    requires FrameParameters(prm)
    ensures FrameContents(CodedFrame(prm)) == prm
  {
    FrameWidths();
    ParseSerialise(BITNO, prm);
    UnpackedPacked(Serialise(BITNO, prm, |prm|));
  }

  /** The end of `tetra_encode`. */
  method WriteFrame(prm: seq<Word16>, coded: array<Byte>)
    requires FrameParameters(prm) && coded.Length == BYTE_COUNT
    modifies coded
    ensures coded[..] == CodedFrame(prm)
  {
    hide InRange, Serialise, Packed;
    FrameWidths();
    FrameLength(prm);
    var serial := new Word16[1 + BIT_COUNT];
    Prm2bits(prm, serial);
    PackCodedBits(serial[1..], coded);
  }

  lemma FrameLength(prm: seq<Word16>)
    requires FrameParameters(prm)
    ensures |prm| == PRM_NO
  {
    FrameWidths();
  }

  /** The start of `tetra_decode` with no bad-frame indication. */
  method ReadFrame(coded: array<Byte>) returns (parm: seq<Word16>)
    requires coded.Length == BYTE_COUNT
    ensures parm == [0] + FrameContents(coded[..])
  {
    hide Parse, Unpacked;
    var bits := UnpackCodedBits(coded);
    var serial := new Word16[1 + BIT_COUNT];
    serial[0] := 0;
    for i := 0 to BIT_COUNT
      invariant serial[..i + 1] == [0] + bits[..i]
    {
      serial[i + 1] := bits[i];
    }
    assert serial[..BIT_COUNT + 1] == serial[..];
    assert serial[1..] == bits;
    parm := Bits2prm(serial);
  }
}
