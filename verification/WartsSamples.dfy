/** What the readers make of given bytes: a record of each kind with a flag for every field, byte by byte. */
module WartsSamples {
  import opened WartsFlags
  import opened WartsBytes
  import opened WartsAddress
  import opened WartsRecords
  import opened WartsParse
  import PingStats

  /** The bytes of one field, and what they are to be read as. */
  datatype Cell = Cell(bytes: seq<Byte>, value: Value<Address>)

  // Numbers in one, two and four bytes.
  function B1(a: Byte): Cell { Cell([a], Num(a as nat)) }
  function B2(a: Byte, b: Byte): Cell { Cell([a, b], Num(0x100 * a as nat + b as nat)) }
  function B4(a: Byte, b: Byte, c: Byte, d: Byte): Cell {
    Cell([a, b, c, d], Num(0x1000000 * a as nat + 0x10000 * b as nat + 0x100 * c as nat + d as nat))
  }

  const A0 := Address(1, 0x0A000001)
  const A1 := Address(1, 0x0A000002)
  const A2 := Address(1, 0x0A000003)

  /** A ping: fields 1 to 28. */
  const PING: seq<Cell> := [
    B4(1, 1, 3, 4),                                                       // 1: list
    B4(1, 2, 3, 4),                                                       // 2: cycle
    B4(1, 3, 3, 4),                                                       // 3: source id
    B4(1, 4, 3, 4),                                                       // 4: destination id
    Cell([0, 0, 1, 5, 0, 0, 2, 5], Time(0x0105, 0x0205)),                 // 5: start time
    B1(106),                                                              // 6: stop reason
    B1(107),                                                              // 7: stop data
    B2(0, 3),                                                             // 8: data length
    Cell([71, 72, 73], Bytes([71, 72, 73])),                              // 9: data
    B2(10, 200),                                                          // 10: probe count
    B2(11, 200),                                                          // 11: probe size
    B1(112),                                                              // 12: probe wait
    B1(113),                                                              // 13: probe TTL
    B2(14, 200),                                                          // 14: reply count
    B2(15, 200),                                                          // 15: pings sent
    B1(116),                                                              // 16: method
    B2(17, 200),                                                          // 17: source port
    B2(18, 200),                                                          // 18: destination port
    B4(1, 19, 3, 4),                                                      // 19: user
    Cell([4, 1, 10, 0, 0, 1], One(A0)),                                   // 20: source
    Cell([0, 0, 0, 0, 0], One(A0)),                                       // 21: destination
    B1(122),                                                              // 22: flags
    B1(123),                                                              // 23: type of service
    Cell([1, 4, 1, 10, 0, 0, 2], Many([NO_ADDRESS, A1])),                 // 24: timestamp addresses
    B2(25, 200),                                                          // 25: checksum
    B2(26, 200),                                                          // 26: MTU
    B1(127),                                                              // 27: timeout
    B4(1, 28, 3, 4)                                                       // 28: wait in microseconds
  ]

  /** Its reply: fields 1 to 17. */
  const REPLY: seq<Cell> := [
    B4(1, 1, 3, 4),                                                       // 1: destination id
    B1(102),                                                              // 2: flags
    B1(103),                                                              // 3: TTL
    B2(4, 200),                                                           // 4: size
    B2(5, 200),                                                           // 5: ICMP type and code
    Cell([0, 22, 227, 97], Time(1, 500001)),                              // 6: round trip
    B2(7, 200),                                                           // 7: probe id
    B2(8, 200),                                                           // 8: reply IP id
    B2(9, 200),                                                           // 9: probe IP id
    B1(110),                                                              // 10: protocol
    B1(111),                                                              // 11: TCP flags
    Cell([0, 0, 0, 0, 1], One(A1)),                                       // 12: address
    Cell([2, 0, 0, 0, 0, 0, 4, 1, 10, 0, 0, 3], Many([A0, A2])),          // 13: record route
    Cell([1, 1, 9, 8, 7, 6, 0, 0, 0, 0, 2], Stamped([0x09080706], [A2])), // 14: timestamps
    B4(1, 15, 3, 4),                                                      // 15: 32-bit IP id
    Cell([0, 0, 1, 16, 0, 0, 2, 16], Time(0x0110, 0x0210)),               // 16: time sent
    Cell([0, 0, 1, 1, 0, 0, 2, 2, 0, 0, 3, 3], Three(0x0101, 0x0202, 0x0303))// 17: ICMP timestamps
  ]

  /** A traceroute: fields 1 to 28. */
  const TRACE: seq<Cell> := [
    B4(1, 1, 3, 4),                                                       // 1: list
    B4(1, 2, 3, 4),                                                       // 2: cycle
    Cell([0, 0, 0, 0], One(NO_ADDRESS)),                                  // 3: source id
    Cell([0, 0, 0, 1], One(NO_ADDRESS)),                                  // 4: destination id
    Cell([0, 0, 1, 5, 0, 0, 2, 5], Time(0x0105, 0x0205)),                 // 5: start time
    B1(106),                                                              // 6: stop reason
    B1(107),                                                              // 7: stop data
    B1(108),                                                              // 8: flags
    B1(109),                                                              // 9: attempts
    B1(110),                                                              // 10: hop limit
    B1(111),                                                              // 11: type
    B2(12, 200),                                                          // 12: probe size
    B2(13, 200),                                                          // 13: source port
    B2(14, 200),                                                          // 14: destination port
    B1(115),                                                              // 15: first TTL
    B1(116),                                                              // 16: type of service
    B1(117),                                                              // 17: timeout
    B1(118),                                                              // 18: loops
    B2(19, 200),                                                          // 19: hops probed
    B1(120),                                                              // 20: gap limit
    B1(121),                                                              // 21: gap action
    B1(122),                                                              // 22: loop action
    B2(23, 200),                                                          // 23: probes sent
    B1(124),                                                              // 24: least wait
    B1(125),                                                              // 25: confidence
    Cell([4, 1, 10, 0, 0, 1], One(A0)),                                   // 26: source
    Cell([4, 1, 10, 0, 0, 2], One(A1)),                                   // 27: destination
    B4(1, 28, 3, 4)                                                       // 28: user
  ]

  /** Its hop: fields 1 to 18. */
  const HOP: seq<Cell> := [
    Cell([0, 0, 0, 1], One(A1)),                                          // 1: address id
    B1(102),                                                              // 2: probe TTL
    B1(103),                                                              // 3: reply TTL
    B1(104),                                                              // 4: flags
    B1(105),                                                              // 5: probe id
    Cell([0, 22, 227, 97], Time(1, 500001)),                              // 6: round trip
    B2(7, 200),                                                           // 7: ICMP type and code
    B2(8, 200),                                                           // 8: probe size
    B2(9, 200),                                                           // 9: reply size
    B2(10, 200),                                                          // 10: IP id
    B1(111),                                                              // 11: type of service
    B2(12, 200),                                                          // 12: next hop MTU
    B2(13, 200),                                                          // 13: quoted length
    B1(114),                                                              // 14: quoted TTL
    B1(115),                                                              // 15: TCP flags
    B1(116),                                                              // 16: quoted type of service
    Cell([0, 6, 0, 2, 1, 2, 7, 8], Exts(6, [Extension(2, 1, 2, [7, 8])])),// 17: ICMP extensions
    Cell([0, 0, 0, 0, 0], One(A0))                                        // 18: address
  ]
  function Joined(cells: seq<Cell>): seq<Byte> {
    if cells == [] then [] else cells[0].bytes + Joined(cells[1..])
  }

  /** Field 1 is the first cell, and so on. */
  function FieldsOf(cells: seq<Cell>): Fields {
    if cells == [] then map[] else FieldsOf(cells[..|cells| - 1])[|cells| := cells[|cells| - 1].value]
  }

  function UpTo(n: nat): seq<nat> {
    seq(n, i => i + 1)
  }

  /** A part with all its flags set: `chain` holds the flags, then two bytes of length, then the fields. */
  function Whole(chain: seq<Byte>, cells: seq<Cell>): seq<Byte> {
    chain + [0, 77] + Joined(cells)
  }

  function AllOf(cells: seq<Cell>): Record {
    Record(UpTo(|cells|), FieldsOf(cells))
  }

  /** A ping with one reply. */
  const PING_FILE: seq<Byte> :=
    [0x12, 0x05, 0, 7, 0, 0, 0, 9] + Whole([255, 255, 255, 127], PING) + [0, 1] + Whole([255, 255, 7], REPLY)

  /** A traceroute with one hop. */
  const TRACE_FILE: seq<Byte> :=
    [0x12, 0x05, 0, 6, 0, 0, 0, 9] + Whole([255, 255, 255, 127], TRACE) + [0, 1] + Whole([255, 255, 15], HOP) + [0, 0]

  // ----- numbers and addresses -----

  function Spelled(b: seq<Byte>): nat
    requires |b| == 1 || |b| == 2 || |b| == 4
  {
    if |b| == 1 then b[0] as nat
    else if |b| == 2 then 0x100 * b[0] as nat + b[1] as nat
    else 0x1000000 * b[0] as nat + 0x10000 * b[1] as nat + 0x100 * b[2] as nat + b[3] as nat
  }

  lemma BigEndianSpelled(b: seq<Byte>)
    requires |b| == 1 || |b| == 2 || |b| == 4
    ensures BigEndian(b) == Spelled(b)
  {
    assert BigEndian([]) == 0;
    if |b| == 1 {
      assert b[..0] == [];
    } else if |b| == 2 {
      assert b[..1][..0] == [];
      assert BigEndian(b[..1]) == Val(b[0]);
    } else {
      assert b[..3][..2] == b[..2] && b[..2][..1] == b[..1] && b[..1][..0] == [];
      assert BigEndian(b[..1]) == Val(b[0]);
      assert BigEndian(b[..2]) == 256 * Val(b[0]) + Val(b[1]);
      assert BigEndian(b[..3]) == 256 * (256 * Val(b[0]) + Val(b[1])) + Val(b[2]);
    }
  }

  lemma NumberRead(b: seq<Byte>, rest: seq<Byte>)
    requires |b| == 1 || |b| == 2 || |b| == 4
    ensures ReadUint(b + rest, |b|) == Got(Spelled(b), rest)
  {
    TakeRoundTrip(b, rest);
    BigEndianSpelled(b);
  }

  lemma LiteralRead(b: seq<Byte>, refs: Refs, rest: seq<Byte>)
    requires |b| == 6 && b[0] == 4
    ensures var a := Address(b[1] as nat, Spelled(b[2..]));
            ReadAddress(b + rest, refs) == Got(Known(a, Add(refs, a)), rest)
  {
    hide ReadUint, Take, Spelled, Add;
    var size, kind, value := b[..1], b[1..2], b[2..];
    assert b + rest == size + (kind + (value + rest));
    NumberRead(size, kind + (value + rest));
    NumberRead(kind, value + rest);
    TakeRoundTrip(value, rest);
    BigEndianSpelled(value);
    assert Spelled(size) == 4 && Spelled(kind) == b[1] as nat by {
      OneSpelled(size);
      OneSpelled(kind);
    }
  }

  lemma OneSpelled(b: seq<Byte>)
    requires |b| == 1
    ensures Spelled(b) == b[0] as nat
  {
  }

  lemma ReferenceNumberRead(b: seq<Byte>, refs: Refs, rest: seq<Byte>)
    requires |b| == 4
    ensures ReadReference(b + rest, refs) == Got(Known(Get(refs, Spelled(b)), refs), rest)
  {
    hide ReadUint, Spelled;
    NumberRead(b, rest);
  }

  lemma NumberedRead(b: seq<Byte>, refs: Refs, rest: seq<Byte>)
    requires |b| == 5 && b[0] == 0
    ensures ReadAddress(b + rest, refs) == Got(Known(Get(refs, Spelled(b[1..])), refs), rest)
  {
    hide ReadUint, ReadReference, Spelled;
    var zero, id := b[..1], b[1..];
    assert b + rest == zero + (id + rest);
    NumberRead(zero, id + rest);
    OneSpelled(zero);
    ReferenceNumberRead(id, refs, rest);
  }

  // ----- fields without addresses -----

  ghost predicate ReadsAs(f: Format, c: Cell, rest: seq<Byte>, dataLength: nat, refs: Refs) {
    ReadField(f, c.bytes + rest, dataLength, refs) == Got(Known(c.value, refs), rest)
  }

  /** The bytes are read as the value, whatever follows and whatever is known. */
  ghost predicate Plainly(f: Format, c: Cell) {
    forall rest, dataLength, refs :: ReadsAs(f, c, rest, dataLength, refs)
  }

  lemma NumCell(f: Format, c: Cell)
    requires (f == U8 && |c.bytes| == 1) || (f == U16 && |c.bytes| == 2) || (f == U32 && |c.bytes| == 4)
    requires c.value == Num(Spelled(c.bytes))
    ensures Plainly(f, c)
  {
    hide ReadUint, Spelled;
    forall rest, dataLength, refs
      ensures ReadsAs(f, c, rest, dataLength, refs)
    {
      NumberRead(c.bytes, rest);
    }
  }

  lemma Numbers()
    ensures forall a :: Plainly(U8, B1(a))
    ensures forall a, b :: Plainly(U16, B2(a, b))
    ensures forall a, b, c, d :: Plainly(U32, B4(a, b, c, d))
  {
    hide Plainly;
    forall a ensures Plainly(U8, B1(a)) { NumCell(U8, B1(a)); }
    forall a, b ensures Plainly(U16, B2(a, b)) { NumCell(U16, B2(a, b)); }
    forall a, b, c, d ensures Plainly(U32, B4(a, b, c, d)) { NumCell(U32, B4(a, b, c, d)); }
  }

  lemma TimeCell(c: Cell)
    requires |c.bytes| == 8 && c.value == Time(Spelled(c.bytes[..4]), Spelled(c.bytes[4..]))
    ensures Plainly(TimeVal, c)
  {
    hide ReadUint, Spelled;
    forall rest, dataLength, refs
      ensures ReadsAs(TimeVal, c, rest, dataLength, refs)
    {
      var sec, usec := c.bytes[..4], c.bytes[4..];
      assert c.bytes + rest == sec + (usec + rest);
      NumberRead(sec, usec + rest);
      NumberRead(usec, rest);
    }
  }

  lemma RttCell(c: Cell)
    requires |c.bytes| == 4 && var n := Spelled(c.bytes); c.value == Time(n / 1000000, n % 1000000)
    ensures Plainly(Rtt, c)
  {
    hide ReadUint, Spelled;
    forall rest, dataLength, refs
      ensures ReadsAs(Rtt, c, rest, dataLength, refs)
    {
      NumberRead(c.bytes, rest);
    }
  }

  lemma ThreeCell(c: Cell)
    requires |c.bytes| == 12
    requires c.value == Three(Spelled(c.bytes[..4]), Spelled(c.bytes[4..8]), Spelled(c.bytes[8..]))
    ensures Plainly(Triple, c)
  {
    hide ReadUint, Spelled;
    forall rest, dataLength, refs
      ensures ReadsAs(Triple, c, rest, dataLength, refs)
    {
      var o, r, t := c.bytes[..4], c.bytes[4..8], c.bytes[8..];
      assert c.bytes + rest == o + (r + (t + rest));
      NumberRead(o, r + (t + rest));
      NumberRead(r, t + rest);
      NumberRead(t, rest);
    }
  }

  // ----- one field after the other -----

  /** Reading on when the first `k` cells have been read. */
  function ReadOn(part: Part, cells: seq<Cell>, k: nat, refs: Refs, rest: seq<Byte>): Outcome<Known<Fields>>
    requires k <= |cells|
  {
    ReadFields(part, UpTo(|cells|)[k..], Joined(cells[k..]) + rest, refs, FieldsOf(cells[..k]))
  }

  lemma ReadNext(part: Part, cells: seq<Cell>, k: nat, refs: Refs, refs': Refs, rest: seq<Byte>)
    requires k < |cells|
    requires var more := Joined(cells[k + 1..]) + rest;
             ReadField(FormatOf(part, k + 1), cells[k].bytes + more, DataLength(FieldsOf(cells[..k])), refs)
             == Got(Known(cells[k].value, refs'), more)
    ensures ReadOn(part, cells, k, refs, rest) == ReadOn(part, cells, k + 1, refs', rest)
  {
    hide FormatOf, ReadField, DataLength;
    var flags := UpTo(|cells|)[k..];
    assert flags[0] == k + 1 && flags[1..] == UpTo(|cells|)[k + 1..];
    assert cells[k..][0] == cells[k] && cells[k..][1..] == cells[k + 1..];
    var more := Joined(cells[k + 1..]) + rest;
    assert Joined(cells[k..]) + rest == cells[k].bytes + more;
    assert cells[..k + 1][..k] == cells[..k];
  }

  lemma {:induction false} ReadPlainly(part: Part, cells: seq<Cell>, a: nat, b: nat, refs: Refs, rest: seq<Byte>)
    requires a <= b <= |cells| && forall i :: a <= i < b ==> PlainAt(part, cells, i)
    ensures ReadOn(part, cells, a, refs, rest) == ReadOn(part, cells, b, refs, rest)
    decreases b - a
  {
    hide ReadOn, FormatOf, Plainly;
    if a < b {
      assert PlainAt(part, cells, a);
      var dataLength := DataLength(FieldsOf(cells[..a]));
      PlainlyHere(FormatOf(part, a + 1), cells[a], Joined(cells[a + 1..]) + rest, dataLength, refs);
      ReadNext(part, cells, a, refs, refs, rest);
      ReadPlainly(part, cells, a + 1, b, refs, rest);
    }
  }

  /** Cell `i` is a field without addresses. */
  ghost predicate PlainAt(part: Part, cells: seq<Cell>, i: nat)
    requires i < |cells|
  {
    Plainly(FormatOf(part, i + 1), cells[i])
  }

  lemma PlainlyHere(f: Format, c: Cell, rest: seq<Byte>, dataLength: nat, refs: Refs)
    requires Plainly(f, c)
    ensures ReadField(f, c.bytes + rest, dataLength, refs) == Got(Known(c.value, refs), rest)
  {
    assert ReadsAs(f, c, rest, dataLength, refs);
  }

  lemma ReadAllOn(part: Part, cells: seq<Cell>, refs: Refs, rest: seq<Byte>)
    ensures ReadOn(part, cells, |cells|, refs, rest) == Got(Known(FieldsOf(cells), refs), rest)
    ensures ReadOn(part, cells, 0, refs, rest) == ReadFields(part, UpTo(|cells|), Joined(cells) + rest, refs, map[])
  {
    assert UpTo(|cells|)[|cells|..] == [] && UpTo(|cells|)[0..] == UpTo(|cells|);
    assert cells[|cells|..] == [] && cells[0..] == cells && cells[..|cells|] == cells && cells[..0] == [];
    assert Joined([]) + rest == rest && FieldsOf([]) == map[];
  }

  // ----- the flags -----

  lemma {:induction false} LowBits(b: Byte, m: nat, k: nat, n: nat)
    requires m <= 7 && 1 <= k <= 4 && n <= 7
    requires forall i :: 1 <= i <= 7 ==> (IsSet(b, i) <==> i <= m)
    ensures ByteFlags(b, k, n) == seq(if n <= m then n else m, i => 7 * k - 6 + i)
  {
    hide IsSet, FlagAt;
    if n > 0 {
      LowBits(b, m, k, n - 1);
      FlagExact(k, n);
      assert IsSet(b, n) <==> n <= m;
    }
  }

  lemma AllSeven(k: nat)
    requires 1 <= k <= 4
    ensures ByteFlags(255, k, 7) == seq(7, i => 7 * k - 6 + i) && IsSet(255, 8)
  {
    assert BitSet(255, 1) && BitSet(127, 1) && BitSet(63, 1) && BitSet(31, 1) && BitSet(15, 1) && BitSet(7, 1);
    assert BitSet(3, 1) && BitSet(1, 1);
    assert forall i :: 1 <= i <= 7 ==> IsSet(255, i) by {
      assert IsSet(255, 1) && IsSet(255, 2) && IsSet(255, 3) && IsSet(255, 4) && IsSet(255, 5) && IsSet(255, 6);
      assert IsSet(255, 7);
    }
    LowBits(255, 7, k, 7);
  }

  lemma LastBits(b: Byte, m: nat, k: nat)
    requires (b == 127 && m == 7) || (b == 7 && m == 3) || (b == 15 && m == 4)
    requires 1 <= k <= 4
    ensures ByteFlags(b, k, 7) == seq(m, i => 7 * k - 6 + i) && !IsSet(b, 8)
  {
    assert forall i :: 1 <= i <= 7 ==> (IsSet(b, i) <==> i <= m) by {
      assert IsSet(127, 1) && IsSet(127, 2) && IsSet(127, 3) && IsSet(127, 4) && IsSet(127, 5) && IsSet(127, 6);
      assert IsSet(127, 7);
      assert IsSet(7, 1) && IsSet(7, 2) && IsSet(7, 3) && !IsSet(7, 4) && !IsSet(7, 5) && !IsSet(7, 6) && !IsSet(7, 7);
      assert IsSet(15, 1) && IsSet(15, 2) && IsSet(15, 3) && IsSet(15, 4) && !IsSet(15, 5) && !IsSet(15, 6);
      assert !IsSet(15, 7);
    }
    assert !IsSet(127, 8) && !IsSet(7, 8) && !IsSet(15, 8);
    LowBits(b, m, k, 7);
  }

  lemma OneByteMore(input: seq<Byte>, k: nat, list: seq<nat>, rest: seq<Byte>)
    requires 1 <= k <= 3 && input != [] && ReadFlags(input[0], input[1..], k + 1) == Flags(list, rest)
    ensures ReadFlags(255, input, k) == Flags(seq(7, i => 7 * k - 6 + i) + list, rest)
  {
    hide IsSet, ByteFlags;
    AllSeven(k);
  }

  lemma LastByte(b: Byte, m: nat, k: nat, rest: seq<Byte>)
    requires (b == 127 && m == 7) || (b == 7 && m == 3) || (b == 15 && m == 4)
    requires 1 <= k <= 4
    ensures ReadFlags(b, rest, k) == Flags(seq(m, i => 7 * k - 6 + i), rest)
  {
    hide IsSet, ByteFlags;
    LastBits(b, m, k);
  }

  /** Three bytes of flags. */
  lemma Chain3(b: Byte, m: nat, rest: seq<Byte>)
    requires (b == 7 && m == 3) || (b == 15 && m == 4)
    ensures ReadFlags(255, [255, b] + rest, 1) == Flags(UpTo(14 + m), rest)
  {
    hide ReadFlags;
    LastByte(b, m, 3, rest);
    assert ([b] + rest)[1..] == rest && ([255, b] + rest)[1..] == [b] + rest;
    OneByteMore([b] + rest, 2, seq(m, i => 15 + i), rest);
    OneByteMore([255, b] + rest, 1, seq(7, i => 8 + i) + seq(m, i => 15 + i), rest);
    assert seq(7, i => 1 + i) + (seq(7, i => 8 + i) + seq(m, i => 15 + i)) == UpTo(14 + m);
  }

  /** Four, with all flags. */
  lemma Chain4(rest: seq<Byte>)
    ensures ReadFlags(255, [255, 255, 127] + rest, 1) == Flags(UpTo(28), rest)
  {
    hide ReadFlags;
    var i1, i2, i3 := [255, 255, 127] + rest, [255, 127] + rest, [127] + rest;
    LastByte(127, 7, 4, rest);
    assert i3[1..] == rest && i2[1..] == i3 && i1[1..] == i2;
    OneByteMore(i3, 3, seq(7, i => 22 + i), rest);
    OneByteMore(i2, 2, seq(7, i => 15 + i) + seq(7, i => 22 + i), rest);
    OneByteMore(i1, 1, seq(7, i => 8 + i) + (seq(7, i => 15 + i) + seq(7, i => 22 + i)), rest);
    assert seq(7, i => 1 + i) + (seq(7, i => 8 + i) + (seq(7, i => 15 + i) + seq(7, i => 22 + i))) == UpTo(28);
  }

  // ----- whole parts -----

  lemma RecordIs(part: Part, input: seq<Byte>, list: seq<nat>, more: seq<Byte>, body: seq<Byte>, length: nat,
                 fields: Fields, refs: Refs, refs': Refs, rest: seq<Byte>)
    requires input != [] && list != [] && ReadFlags(input[0], input[1..], 1) == Flags(list, more)
    requires ReadUint(more, 2) == Got(length, body)
    requires ReadFields(part, list, body, refs, map[]) == Got(Known(fields, refs'), rest)
    ensures ReadRecord(part, input, refs) == Got(Known(Record(list, fields), refs'), rest)
  {
    hide ReadFlags, ReadFields, ReadUint;
  }

  lemma WholeRead(part: Part, chain: seq<Byte>, cells: seq<Cell>, refs: Refs, refs': Refs, rest: seq<Byte>)
    requires chain != [] && cells != []
    requires var more := [0, 77] + (Joined(cells) + rest);
             ReadFlags(chain[0], chain[1..] + more, 1) == Flags(UpTo(|cells|), more)
    requires ReadOn(part, cells, 0, refs, rest) == Got(Known(FieldsOf(cells), refs'), rest)
    ensures ReadRecord(part, Whole(chain, cells) + rest, refs) == Got(Known(AllOf(cells), refs'), rest)
  {
    hide ReadFlags, ReadFields, ReadOn, ReadUint, Joined, FieldsOf, UpTo, ReadRecord, Whole;
    var body := Joined(cells) + rest;
    WholeIs(chain, cells, rest);
    NumberRead([0, 77], body);
    ReadAllOn(part, cells, refs, rest);
    SomeFlags(|cells|);
    RecordIs(part, Whole(chain, cells) + rest, UpTo(|cells|), [0, 77] + body, body, Spelled([0, 77]), FieldsOf(cells),
             refs, refs', rest);
  }

  lemma WholeIs(chain: seq<Byte>, cells: seq<Cell>, rest: seq<Byte>)
    requires chain != []
    ensures var input := Whole(chain, cells) + rest;
            input != [] && input[0] == chain[0] && input[1..] == chain[1..] + ([0, 77] + (Joined(cells) + rest))
  {
    hide Joined;
  }

  lemma SomeFlags(n: nat)
    requires n > 0
    ensures UpTo(n) != []
  {
  }

  const R1 := Refs(1, map[0 := A0])
  const R2 := Refs(2, map[0 := A0, 1 := A1])
  const R3 := Refs(3, map[0 := A0, 1 := A1, 2 := A2])

  lemma Dictionaries()
    ensures Add(NO_REFS, A0) == R1 && Add(R1, A1) == R2 && Add(R2, A2) == R3
    ensures Get(R1, 0) == A0 && Get(R2, 0) == A0 && Get(R2, 1) == A1 && Get(R3, 0) == A0 && Get(R3, 2) == A2
    ensures Get(NO_REFS, 0) == NO_ADDRESS && Get(NO_REFS, 1) == NO_ADDRESS
  {
  }

  lemma Literals()
    ensures Spelled([10, 0, 0, 1]) == 0x0A000001 && Spelled([10, 0, 0, 2]) == 0x0A000002
    ensures Spelled([10, 0, 0, 3]) == 0x0A000003
    ensures Spelled([0, 0, 0, 0]) == 0 && Spelled([0, 0, 0, 1]) == 1 && Spelled([0, 0, 0, 2]) == 2
    ensures Spelled([9, 8, 7, 6]) == 0x09080706
  {
  }

  /** An address written out, and one put as a number. */
  lemma AddressCells(rest: seq<Byte>)
    ensures ReadAddress([4, 1, 10, 0, 0, 1] + rest, NO_REFS) == Got(Known(A0, R1), rest)
    ensures ReadAddress([4, 1, 10, 0, 0, 2] + rest, R1) == Got(Known(A1, R2), rest)
    ensures ReadAddress([4, 1, 10, 0, 0, 3] + rest, R2) == Got(Known(A2, R3), rest)
    ensures ReadAddress([0, 0, 0, 0, 0] + rest, R1) == Got(Known(A0, R1), rest)
    ensures ReadAddress([0, 0, 0, 0, 0] + rest, R2) == Got(Known(A0, R2), rest)
    ensures ReadAddress([0, 0, 0, 0, 1] + rest, R2) == Got(Known(A1, R2), rest)
    ensures ReadAddress([0, 0, 0, 0, 2] + rest, R3) == Got(Known(A2, R3), rest)
  {
    hide ReadAddress, Spelled, Add, Get;
    Literals();
    Dictionaries();
    var l0: seq<Byte>, l1: seq<Byte>, l2: seq<Byte> := [4, 1, 10, 0, 0, 1], [4, 1, 10, 0, 0, 2], [4, 1, 10, 0, 0, 3];
    var r0: seq<Byte>, r1: seq<Byte>, r2: seq<Byte> := [0, 0, 0, 0, 0], [0, 0, 0, 0, 1], [0, 0, 0, 0, 2];
    assert l0[2..] == [10, 0, 0, 1] && l1[2..] == [10, 0, 0, 2] && l2[2..] == [10, 0, 0, 3];
    assert r0[1..] == [0, 0, 0, 0] && r1[1..] == [0, 0, 0, 1] && r2[1..] == [0, 0, 0, 2];
    LiteralRead(l0, NO_REFS, rest);
    LiteralRead(l1, R1, rest);
    LiteralRead(l2, R2, rest);
    NumberedRead(r0, R1, rest);
    NumberedRead(r0, R2, rest);
    NumberedRead(r1, R2, rest);
    NumberedRead(r2, R3, rest);
  }

  /** One address of a counted list. */
  lemma NextAddress(b: seq<Byte>, a: Address, n: nat, refs: Refs, refs': Refs, acc: seq<Address>, rest: seq<Byte>)
    requires ReadAddress(b + rest, refs) == Got(Known(a, refs'), rest)
    ensures ReadAddresses(n + 1, b + rest, refs, acc) == ReadAddresses(n, rest, refs', acc + [a])
  {
    hide ReadAddress;
  }

  lemma NoMoreAddresses(refs: Refs, acc: seq<Address>, rest: seq<Byte>)
    ensures ReadAddresses(0, rest, refs, acc) == Got(Known(acc, refs), rest)
  {
  }

  lemma TimeListRead(dataLength: nat, rest: seq<Byte>)
    ensures ReadField(TimeList, [1, 4, 1, 10, 0, 0, 2] + rest, dataLength, R1)
         == Got(Known(Many([NO_ADDRESS, A1]), R2), rest)
  {
    hide ReadAddress, ReadAddresses, ReadUint;
    var b: seq<Byte> := [4, 1, 10, 0, 0, 2];
    assert [1, 4, 1, 10, 0, 0, 2] + rest == [1] + (b + rest);
    NumberRead([1], b + rest);
    AddressCells(rest);
    NextAddress(b, A1, 0, R1, R2, [NO_ADDRESS], rest);
    NoMoreAddresses(R2, [NO_ADDRESS] + [A1], rest);
    assert Blank(1) == [NO_ADDRESS] && [NO_ADDRESS] + [A1] == [NO_ADDRESS, A1];
  }

  lemma AddrListRead(dataLength: nat, rest: seq<Byte>)
    ensures ReadField(AddrList, [2, 0, 0, 0, 0, 0, 4, 1, 10, 0, 0, 3] + rest, dataLength, R2)
         == Got(Known(Many([A0, A2]), R3), rest)
  {
    hide ReadAddress, ReadAddresses, ReadUint;
    var a: seq<Byte>, b: seq<Byte> := [0, 0, 0, 0, 0], [4, 1, 10, 0, 0, 3];
    assert [2, 0, 0, 0, 0, 0, 4, 1, 10, 0, 0, 3] + rest == [2] + (a + (b + rest));
    NumberRead([2], a + (b + rest));
    AddressCells(b + rest);
    AddressCells(rest);
    NextAddress(a, A0, 1, R2, R2, [], b + rest);
    NextAddress(b, A2, 0, R2, R3, [A0], rest);
    NoMoreAddresses(R3, [A0] + [A2], rest);
    assert [] + [A0] == [A0] && [A0] + [A2] == [A0, A2];
  }

  lemma OneTime(t: seq<Byte>, n: nat, rest: seq<Byte>)
    requires ReadUint(t + rest, 4) == Got(n, rest)
    ensures ReadTimes(1, t + rest, []) == Got([n], rest)
  {
    hide ReadUint;
    assert ReadTimes(0, rest, [n]) == Got([n], rest);
    assert [] + [n] == [n];
  }

  lemma StampsRead(dataLength: nat, rest: seq<Byte>)
    ensures ReadField(Stamps, [1, 1, 9, 8, 7, 6, 0, 0, 0, 0, 2] + rest, dataLength, R3)
         == Got(Known(Stamped([0x09080706], [A2]), R3), rest)
  {
    hide ReadAddress, ReadAddresses, ReadUint, Spelled;
    var t: seq<Byte>, b: seq<Byte> := [9, 8, 7, 6], [0, 0, 0, 0, 2];
    assert [1, 1, 9, 8, 7, 6, 0, 0, 0, 0, 2] + rest == [1] + ([1] + (t + (b + rest)));
    Literals();
    OneSpelled([1]);
    NumberRead([1], [1] + (t + (b + rest)));
    NumberRead([1], t + (b + rest));
    NumberRead(t, b + rest);
    OneTime(t, 0x09080706, b + rest);
    AddressCells(rest);
    NextAddress(b, A2, 0, R3, R3, [], rest);
    NoMoreAddresses(R3, [] + [A2], rest);
    assert [] + [A2] == [A2];
  }

  lemma ExtensionsRead(dataLength: nat, refs: Refs, rest: seq<Byte>)
    ensures ReadField(Extensions, [0, 6, 0, 2, 1, 2, 7, 8] + rest, dataLength, refs)
         == Got(Known(Exts(6, [Extension(2, 1, 2, [7, 8])]), refs), rest)
  {
    hide ReadUint, Take;
    var d: seq<Byte> := [7, 8];
    assert [0, 6, 0, 2, 1, 2, 7, 8] + rest == [0, 6] + ([0, 2] + ([1] + ([2] + (d + rest))));
    NumberRead([0, 6], [0, 2] + ([1] + ([2] + (d + rest))));
    NumberRead([0, 2], [1] + ([2] + (d + rest)));
    NumberRead([1], [2] + (d + rest));
    NumberRead([2], d + rest);
    TakeRoundTrip(d, rest);
    var e := Extension(2, 1, 2, d);
    assert ReadExtension([0, 2] + ([1] + ([2] + (d + rest)))) == Got(e, rest);
    hide ReadExtension;
    assert ReadExtensions(6, 6, rest, [e]) == Got([e], rest);
    assert [] + [e] == [e];
    assert ReadExtensions(6, 0, [0, 2] + ([1] + ([2] + (d + rest))), []) == Got([e], rest);
  }

  // ----- the four parts -----

  lemma PingPlain()
    ensures PlainAt(PingPart, PING, 0) && PlainAt(PingPart, PING, 1) && PlainAt(PingPart, PING, 2)
    ensures PlainAt(PingPart, PING, 3) && PlainAt(PingPart, PING, 4) && PlainAt(PingPart, PING, 5)
    ensures PlainAt(PingPart, PING, 6) && PlainAt(PingPart, PING, 7) && PlainAt(PingPart, PING, 9)
    ensures PlainAt(PingPart, PING, 10) && PlainAt(PingPart, PING, 11) && PlainAt(PingPart, PING, 12)
    ensures PlainAt(PingPart, PING, 13) && PlainAt(PingPart, PING, 14) && PlainAt(PingPart, PING, 15)
    ensures PlainAt(PingPart, PING, 16) && PlainAt(PingPart, PING, 17) && PlainAt(PingPart, PING, 18)
    ensures PlainAt(PingPart, PING, 21) && PlainAt(PingPart, PING, 22) && PlainAt(PingPart, PING, 24)
    ensures PlainAt(PingPart, PING, 25) && PlainAt(PingPart, PING, 26) && PlainAt(PingPart, PING, 27)
  {
    hide Plainly, B1, B2, B4;
    Numbers();
    TimeCell(PING[4]);
  }

  lemma ReplyPlain()
    ensures PlainAt(ReplyPart, REPLY, 0) && PlainAt(ReplyPart, REPLY, 1) && PlainAt(ReplyPart, REPLY, 2)
    ensures PlainAt(ReplyPart, REPLY, 3) && PlainAt(ReplyPart, REPLY, 4) && PlainAt(ReplyPart, REPLY, 5)
    ensures PlainAt(ReplyPart, REPLY, 6) && PlainAt(ReplyPart, REPLY, 7) && PlainAt(ReplyPart, REPLY, 8)
    ensures PlainAt(ReplyPart, REPLY, 9) && PlainAt(ReplyPart, REPLY, 10) && PlainAt(ReplyPart, REPLY, 14)
    ensures PlainAt(ReplyPart, REPLY, 15) && PlainAt(ReplyPart, REPLY, 16)
  {
    hide Plainly, B1, B2, B4;
    Numbers();
    RttCell(REPLY[5]);
    TimeCell(REPLY[15]);
    ThreeCell(REPLY[16]);
  }

  lemma TracePlain()
    ensures PlainAt(TracePart, TRACE, 0) && PlainAt(TracePart, TRACE, 1) && PlainAt(TracePart, TRACE, 4)
    ensures PlainAt(TracePart, TRACE, 5) && PlainAt(TracePart, TRACE, 6) && PlainAt(TracePart, TRACE, 7)
    ensures PlainAt(TracePart, TRACE, 8) && PlainAt(TracePart, TRACE, 9) && PlainAt(TracePart, TRACE, 10)
    ensures PlainAt(TracePart, TRACE, 11) && PlainAt(TracePart, TRACE, 12) && PlainAt(TracePart, TRACE, 13)
    ensures PlainAt(TracePart, TRACE, 14) && PlainAt(TracePart, TRACE, 15) && PlainAt(TracePart, TRACE, 16)
    ensures PlainAt(TracePart, TRACE, 17) && PlainAt(TracePart, TRACE, 18) && PlainAt(TracePart, TRACE, 19)
    ensures PlainAt(TracePart, TRACE, 20) && PlainAt(TracePart, TRACE, 21) && PlainAt(TracePart, TRACE, 22)
    ensures PlainAt(TracePart, TRACE, 23) && PlainAt(TracePart, TRACE, 24) && PlainAt(TracePart, TRACE, 27)
  {
    hide Plainly, B1, B2, B4;
    Numbers();
    TimeCell(TRACE[4]);
  }

  lemma HopPlain()
    ensures PlainAt(HopPart, HOP, 1) && PlainAt(HopPart, HOP, 2) && PlainAt(HopPart, HOP, 3)
    ensures PlainAt(HopPart, HOP, 4) && PlainAt(HopPart, HOP, 5) && PlainAt(HopPart, HOP, 6)
    ensures PlainAt(HopPart, HOP, 7) && PlainAt(HopPart, HOP, 8) && PlainAt(HopPart, HOP, 9)
    ensures PlainAt(HopPart, HOP, 10) && PlainAt(HopPart, HOP, 11) && PlainAt(HopPart, HOP, 12)
    ensures PlainAt(HopPart, HOP, 13) && PlainAt(HopPart, HOP, 14) && PlainAt(HopPart, HOP, 15)
  {
    hide Plainly, B1, B2, B4;
    Numbers();
    RttCell(HOP[5]);
  }

  lemma RunPing(a: nat, b: nat, refs: Refs, rest: seq<Byte>)
    requires a <= b <= |PING|
    requires (0 <= a && b <= 8) || (9 <= a && b <= 19) || (21 <= a && b <= 23) || (24 <= a && b <= 28)
    ensures ReadOn(PingPart, PING, a, refs, rest) == ReadOn(PingPart, PING, b, refs, rest)
  {
    hide ReadOn, PlainAt;
    PingPlain();
    ReadPlainly(PingPart, PING, a, b, refs, rest);
  }

  lemma Ping8(rest: seq<Byte>)
    ensures ReadOn(PingPart, PING, 8, NO_REFS, rest) == ReadOn(PingPart, PING, 9, NO_REFS, rest)
  {
    hide ReadOn, ReadAddress, ReadAddresses, ReadReference, ReadPlain, ReadUint, Joined;
    var more := Joined(PING[9..]) + rest;
    KnownLength();
    DataRead(more);
    ReadNext(PingPart, PING, 8, NO_REFS, NO_REFS, rest);
  }

  lemma KnownLength()
    ensures DataLength(FieldsOf(PING[..8])) == 3
  {
    assert PING[..8][7] == PING[7];
  }

  lemma DataRead(more: seq<Byte>)
    ensures ReadField(Data, [71, 72, 73] + more, 3, NO_REFS) == Got(Known(Bytes([71, 72, 73]), NO_REFS), more)
  {
    hide Take;
    TakeRoundTrip([71, 72, 73], more);
  }

  lemma Ping19(rest: seq<Byte>)
    ensures ReadOn(PingPart, PING, 19, NO_REFS, rest) == ReadOn(PingPart, PING, 20, R1, rest)
  {
    hide ReadOn, ReadAddress, ReadAddresses, ReadReference, ReadPlain, ReadUint, Joined;
    var more := Joined(PING[20..]) + rest;
    AddressCells(more);
    ReadNext(PingPart, PING, 19, NO_REFS, R1, rest);
  }

  lemma Ping20(rest: seq<Byte>)
    ensures ReadOn(PingPart, PING, 20, R1, rest) == ReadOn(PingPart, PING, 21, R1, rest)
  {
    hide ReadOn, ReadAddress, ReadAddresses, ReadReference, ReadPlain, ReadUint, Joined;
    var more := Joined(PING[21..]) + rest;
    AddressCells(more);
    ReadNext(PingPart, PING, 20, R1, R1, rest);
  }

  lemma Ping23(rest: seq<Byte>)
    ensures ReadOn(PingPart, PING, 23, R1, rest) == ReadOn(PingPart, PING, 24, R2, rest)
  {
    hide ReadOn, ReadAddress, ReadAddresses, ReadReference, ReadPlain, ReadUint, Joined;
    var more := Joined(PING[24..]) + rest;
    TimeListRead(DataLength(FieldsOf(PING[..23])), more);
    ReadNext(PingPart, PING, 23, R1, R2, rest);
  }

  lemma PingFields(rest: seq<Byte>)
    ensures ReadOn(PingPart, PING, 0, NO_REFS, rest) == Got(Known(FieldsOf(PING), R2), rest)
  {
    hide ReadOn, PING;
    Sizes();
    RunPing(0, 8, NO_REFS, rest);
    Ping8(rest);
    RunPing(9, 19, NO_REFS, rest);
    Ping19(rest);
    Ping20(rest);
    RunPing(21, 23, R1, rest);
    Ping23(rest);
    RunPing(24, 28, R2, rest);
    ReadAllOn(PingPart, PING, R2, rest);
  }

  lemma RunReply(a: nat, b: nat, refs: Refs, rest: seq<Byte>)
    requires a <= b <= |REPLY|
    requires (0 <= a && b <= 11) || (14 <= a && b <= 17)
    ensures ReadOn(ReplyPart, REPLY, a, refs, rest) == ReadOn(ReplyPart, REPLY, b, refs, rest)
  {
    hide ReadOn, PlainAt;
    ReplyPlain();
    ReadPlainly(ReplyPart, REPLY, a, b, refs, rest);
  }

  lemma Reply11(rest: seq<Byte>)
    ensures ReadOn(ReplyPart, REPLY, 11, R2, rest) == ReadOn(ReplyPart, REPLY, 12, R2, rest)
  {
    hide ReadOn, ReadAddress, ReadAddresses, ReadReference, ReadPlain, ReadUint, Joined;
    var more := Joined(REPLY[12..]) + rest;
    AddressCells(more);
    ReadNext(ReplyPart, REPLY, 11, R2, R2, rest);
  }

  lemma Reply12(rest: seq<Byte>)
    ensures ReadOn(ReplyPart, REPLY, 12, R2, rest) == ReadOn(ReplyPart, REPLY, 13, R3, rest)
  {
    hide ReadOn, ReadAddress, ReadAddresses, ReadReference, ReadPlain, ReadUint, Joined;
    var more := Joined(REPLY[13..]) + rest;
    AddrListRead(DataLength(FieldsOf(REPLY[..12])), more);
    ReadNext(ReplyPart, REPLY, 12, R2, R3, rest);
  }

  lemma Reply13(rest: seq<Byte>)
    ensures ReadOn(ReplyPart, REPLY, 13, R3, rest) == ReadOn(ReplyPart, REPLY, 14, R3, rest)
  {
    hide ReadOn, ReadAddress, ReadAddresses, ReadReference, ReadPlain, ReadUint, Joined;
    var more := Joined(REPLY[14..]) + rest;
    StampsRead(DataLength(FieldsOf(REPLY[..13])), more);
    ReadNext(ReplyPart, REPLY, 13, R3, R3, rest);
  }

  lemma ReplyFields(rest: seq<Byte>)
    ensures ReadOn(ReplyPart, REPLY, 0, R2, rest) == Got(Known(FieldsOf(REPLY), R3), rest)
  {
    hide ReadOn, REPLY;
    Sizes();
    RunReply(0, 11, R2, rest);
    Reply11(rest);
    Reply12(rest);
    Reply13(rest);
    RunReply(14, 17, R3, rest);
    ReadAllOn(ReplyPart, REPLY, R3, rest);
  }

  lemma RunTrace(a: nat, b: nat, refs: Refs, rest: seq<Byte>)
    requires a <= b <= |TRACE|
    requires (0 <= a && b <= 2) || (4 <= a && b <= 25) || (27 <= a && b <= 28)
    ensures ReadOn(TracePart, TRACE, a, refs, rest) == ReadOn(TracePart, TRACE, b, refs, rest)
  {
    hide ReadOn, PlainAt;
    TracePlain();
    ReadPlainly(TracePart, TRACE, a, b, refs, rest);
  }

  lemma Trace2(rest: seq<Byte>)
    ensures ReadOn(TracePart, TRACE, 2, NO_REFS, rest) == ReadOn(TracePart, TRACE, 3, NO_REFS, rest)
  {
    hide ReadOn, ReadAddress, ReadAddresses, ReadReference, ReadPlain, ReadUint, Joined;
    var more := Joined(TRACE[3..]) + rest;
    IdsRead(more);
    ReadNext(TracePart, TRACE, 2, NO_REFS, NO_REFS, rest);
  }

  lemma Trace3(rest: seq<Byte>)
    ensures ReadOn(TracePart, TRACE, 3, NO_REFS, rest) == ReadOn(TracePart, TRACE, 4, NO_REFS, rest)
  {
    hide ReadOn, ReadAddress, ReadAddresses, ReadReference, ReadPlain, ReadUint, Joined;
    var more := Joined(TRACE[4..]) + rest;
    IdsRead(more);
    ReadNext(TracePart, TRACE, 3, NO_REFS, NO_REFS, rest);
  }

  lemma IdsRead(rest: seq<Byte>)
    ensures ReadReference([0, 0, 0, 0] + rest, NO_REFS) == Got(Known(NO_ADDRESS, NO_REFS), rest)
    ensures ReadReference([0, 0, 0, 1] + rest, NO_REFS) == Got(Known(NO_ADDRESS, NO_REFS), rest)
    ensures ReadReference([0, 0, 0, 1] + rest, R2) == Got(Known(A1, R2), rest)
  {
    hide ReadReference, Spelled, Get;
    Literals();
    Dictionaries();
    ReferenceNumberRead([0, 0, 0, 0], NO_REFS, rest);
    ReferenceNumberRead([0, 0, 0, 1], NO_REFS, rest);
    ReferenceNumberRead([0, 0, 0, 1], R2, rest);
  }

  lemma Trace25(rest: seq<Byte>)
    ensures ReadOn(TracePart, TRACE, 25, NO_REFS, rest) == ReadOn(TracePart, TRACE, 26, R1, rest)
  {
    hide ReadOn, ReadAddress, ReadAddresses, ReadReference, ReadPlain, ReadUint, Joined;
    var more := Joined(TRACE[26..]) + rest;
    AddressCells(more);
    ReadNext(TracePart, TRACE, 25, NO_REFS, R1, rest);
  }

  lemma Trace26(rest: seq<Byte>)
    ensures ReadOn(TracePart, TRACE, 26, R1, rest) == ReadOn(TracePart, TRACE, 27, R2, rest)
  {
    hide ReadOn, ReadAddress, ReadAddresses, ReadReference, ReadPlain, ReadUint, Joined;
    var more := Joined(TRACE[27..]) + rest;
    AddressCells(more);
    ReadNext(TracePart, TRACE, 26, R1, R2, rest);
  }

  lemma TraceFields(rest: seq<Byte>)
    ensures ReadOn(TracePart, TRACE, 0, NO_REFS, rest) == Got(Known(FieldsOf(TRACE), R2), rest)
  {
    hide ReadOn, TRACE;
    Sizes();
    RunTrace(0, 2, NO_REFS, rest);
    Trace2(rest);
    Trace3(rest);
    RunTrace(4, 25, NO_REFS, rest);
    Trace25(rest);
    Trace26(rest);
    RunTrace(27, 28, R2, rest);
    ReadAllOn(TracePart, TRACE, R2, rest);
  }

  lemma RunHop(a: nat, b: nat, refs: Refs, rest: seq<Byte>)
    requires a <= b <= |HOP|
    requires (1 <= a && b <= 16)
    ensures ReadOn(HopPart, HOP, a, refs, rest) == ReadOn(HopPart, HOP, b, refs, rest)
  {
    hide ReadOn, PlainAt;
    HopPlain();
    ReadPlainly(HopPart, HOP, a, b, refs, rest);
  }

  lemma Hop0(rest: seq<Byte>)
    ensures ReadOn(HopPart, HOP, 0, R2, rest) == ReadOn(HopPart, HOP, 1, R2, rest)
  {
    hide ReadOn, ReadAddress, ReadAddresses, ReadReference, ReadPlain, ReadUint, Joined;
    var more := Joined(HOP[1..]) + rest;
    IdsRead(more);
    ReadNext(HopPart, HOP, 0, R2, R2, rest);
  }

  lemma Hop16(rest: seq<Byte>)
    ensures ReadOn(HopPart, HOP, 16, R2, rest) == ReadOn(HopPart, HOP, 17, R2, rest)
  {
    hide ReadOn, ReadAddress, ReadAddresses, ReadReference, ReadPlain, ReadUint, Joined;
    var more := Joined(HOP[17..]) + rest;
    ExtensionsRead(DataLength(FieldsOf(HOP[..16])), R2, more);
    ReadNext(HopPart, HOP, 16, R2, R2, rest);
  }

  lemma Hop17(rest: seq<Byte>)
    ensures ReadOn(HopPart, HOP, 17, R2, rest) == ReadOn(HopPart, HOP, 18, R2, rest)
  {
    hide ReadOn, ReadAddress, ReadAddresses, ReadReference, ReadPlain, ReadUint, Joined;
    var more := Joined(HOP[18..]) + rest;
    AddressCells(more);
    ReadNext(HopPart, HOP, 17, R2, R2, rest);
  }

  lemma HopFields(rest: seq<Byte>)
    ensures ReadOn(HopPart, HOP, 0, R2, rest) == Got(Known(FieldsOf(HOP), R2), rest)
  {
    hide ReadOn, HOP;
    Sizes();
    Hop0(rest);
    RunHop(1, 16, R2, rest);
    Hop16(rest);
    Hop17(rest);
    ReadAllOn(HopPart, HOP, R2, rest);
  }

  // ----- whole files -----

  lemma PartRead(part: Part, chain: seq<Byte>, cells: seq<Cell>, refs: Refs, refs': Refs, rest: seq<Byte>)
    requires (chain == [255, 255, 255, 127] && |cells| == 28) || (chain == [255, 255, 7] && |cells| == 17)
             || (chain == [255, 255, 15] && |cells| == 18)
    requires ReadOn(part, cells, 0, refs, rest) == Got(Known(FieldsOf(cells), refs'), rest)
    ensures ReadRecord(part, Whole(chain, cells) + rest, refs) == Got(Known(AllOf(cells), refs'), rest)
  {
    hide ReadFlags, ReadOn, ReadRecord, Joined;
    var more := [0, 77] + (Joined(cells) + rest);
    if |cells| == 28 {
      assert chain[1..] == [255, 255, 127];
      Chain4(more);
    } else if |cells| == 17 {
      assert chain[1..] == [255, 7];
      Chain3(7, 3, more);
    } else {
      assert chain[1..] == [255, 15];
      Chain3(15, 4, more);
    }
    WholeRead(part, chain, cells, refs, refs', rest);
  }

  lemma OneRecord(part: Part, b: seq<Byte>, r: Record, refs: Refs, refs': Refs, rest: seq<Byte>)
    requires ReadRecord(part, b + rest, refs) == Got(Known(r, refs'), rest)
    ensures ReadRecords(part, 1, b + rest, refs, []) == Got(Known([r], refs'), rest)
  {
    hide ReadRecord;
    assert ReadRecords(part, 0, rest, refs', [r]) == Got(Known([r], refs'), rest);
    assert [] + [r] == [r];
  }

  lemma HeadRead(kind: Byte, rest: seq<Byte>)
    ensures ReadHeader([0x12, 0x05, 0, kind, 0, 0, 0, 9] + rest) == Got(Head(kind as nat, 9), rest)
  {
    var h: seq<Byte> := [0x12, 0x05, 0, kind, 0, 0, 0, 9];
    TakeRoundTrip(h, rest);
    assert h[..2] == [0x12, 0x05] && h[2..4] == [0, kind] && h[4..8] == [0, 0, 0, 9];
    BigEndianSpelled([0x12, 0x05]);
    BigEndianSpelled([0, kind]);
    BigEndianSpelled([0, 0, 0, 9]);
  }

  lemma OnlyOne(input: seq<Byte>, o: Object, types: set<nat>)
    requires ParseNext(input) == Got(o, []) && TypeOf(o) in types
    ensures ParseFrom(input, types, []) == Parsed([o])
  {
    hide ParseNext, ParseFrom, TypeOf;
    ParseOne(input, o, [], types, []);
    ParsedNothing(types, [o]);
    assert [] + [o] == [o];
  }

  const PING_OBJECT := Ping(AllOf(PING), 1, [AllOf(REPLY)])
  const TRACE_OBJECT := Traceroute(AllOf(TRACE), 1, [AllOf(HOP)])

  /** The ping and its reply are read byte by byte as said above. */
  lemma PingSample()
    ensures ParseFrom(PING_FILE, {7}, []) == Parsed([PING_OBJECT])
  {
    hide ReadRecord, ReadRecords, ReadHeader, ReadUint, PING, REPLY, Whole, AllOf, ReadOn, FieldsOf;
    var reply := Whole([255, 255, 7], REPLY);
    var body := Whole([255, 255, 255, 127], PING) + ([0, 1] + reply);
    assert PING_FILE == [0x12, 0x05, 0, 7, 0, 0, 0, 9] + body;
    assert reply + [] == reply;
    HeadRead(7, body);
    Sizes();
    PingFields([0, 1] + reply);
    PartRead(PingPart, [255, 255, 255, 127], PING, NO_REFS, R2, [0, 1] + reply);
    NumberRead([0, 1], reply);
    ReplyFields([]);
    PartRead(ReplyPart, [255, 255, 7], REPLY, R2, R3, []);
    OneRecord(ReplyPart, reply, AllOf(REPLY), R2, R3, []);
    assert ReadPing(body) == Got(PING_OBJECT, []);
    OnlyOne(PING_FILE, PING_OBJECT, {7});
  }

  lemma Sizes()
    ensures |PING| == 28 && |REPLY| == 17 && |TRACE| == 28 && |HOP| == 18
  {
  }

  /** And so are the traceroute and its hop. */
  lemma TraceSample()
    ensures ParseFrom(TRACE_FILE, {6}, []) == Parsed([TRACE_OBJECT])
  {
    hide ReadRecord, ReadRecords, ReadHeader, ReadUint, TRACE, HOP, Whole, AllOf, ReadOn, FieldsOf;
    var hop := Whole([255, 255, 15], HOP);
    var body := Whole([255, 255, 255, 127], TRACE) + ([0, 1] + (hop + [0, 0]));
    assert TRACE_FILE == [0x12, 0x05, 0, 6, 0, 0, 0, 9] + body;
    HeadRead(6, body);
    Sizes();
    TraceFields([0, 1] + (hop + [0, 0]));
    PartRead(TracePart, [255, 255, 255, 127], TRACE, NO_REFS, R2, [0, 1] + (hop + [0, 0]));
    NumberRead([0, 1], hop + [0, 0]);
    HopFields([0, 0]);
    PartRead(HopPart, [255, 255, 15], HOP, R2, R2, [0, 0]);
    OneRecord(HopPart, hop, AllOf(HOP), R2, R2, [0, 0]);
    NumberRead([0, 0], []);
    assert [0, 0] + [] == [0, 0];
    assert ReadTraceroute(body) == Got(TRACE_OBJECT, []);
    OnlyOne(TRACE_FILE, TRACE_OBJECT, {6});
  }

  /** What the statistics of a ping go by. */
  lemma StatsSample()
    ensures PingStats.Sent(PING_OBJECT) == 0x0FC8 && PingStats.Rtt(AllOf(REPLY)) == PingStats.Timeval(1, 500001)
  {
    hide FieldsOf;
    Sizes();
    FieldAt(PING, 15);
    FieldAt(REPLY, 6);
  }

  lemma {:induction false} FieldAt(cells: seq<Cell>, f: nat)
    requires 1 <= f <= |cells|
    ensures f in FieldsOf(cells) && FieldsOf(cells)[f] == cells[f - 1].value
    decreases |cells|
  {
    if f < |cells| {
      FieldAt(cells[..|cells| - 1], f);
    }
  }

  // ----- lists and cycles -----

  /** A list with a description and a monitor, a cycle definition with a stop time and a host, the end of a cycle. */
  const LIST: seq<Byte> :=
    [0x12, 0x05, 0, 1, 0, 0, 0, 9]
    + ([0, 0, 1, 1, 0, 0, 2, 2] + ([97, 98] + [0] + ([3, 0, 5] + ([100] + [0] + ([109] + [0])))))
  const CYCLE: seq<Byte> :=
    [0x12, 0x05, 0, 3, 0, 0, 0, 9]
    + ([0, 0, 1, 1, 0, 0, 2, 2, 0, 0, 3, 3, 0, 0, 4, 4] + ([3, 0, 5] + ([0, 0, 6, 6] + ([104] + [0]))))
  const STOP: seq<Byte> := [0x12, 0x05, 0, 4, 0, 0, 0, 9] + ([0, 0, 1, 1, 0, 0, 7, 7] + [0])

  const LIST_OBJECT := List(0x0101, 0x0202, [97, 98], ListFlags(5, [100], [109]))
  const CYCLE_OBJECT := CycleStart(0x0101, 0x0202, 0x0303, 0x0404, CycleFlags(5, 0x0606, [104]))
  const STOP_OBJECT := CycleStop(0x0101, 0x0707)

  lemma BothFlags()
    ensures IsSet(3, 1) && IsSet(3, 2)
  {
  }

  lemma EndedString(c: seq<Byte>, rest: seq<Byte>)
    requires 0 !in c
    ensures ReadString(c + [0] + rest, []) == Got(c, rest)
  {
    StringRoundTrip(c, [], rest);
    assert [] + c == c;
  }

  lemma ListRead(rest: seq<Byte>)
    ensures ParseNext(LIST + rest) == Got(LIST_OBJECT, rest)
  {
    hide ReadHeader, ReadString, ReadUint, IsSet, Take;
    BothFlags();
    var mon := [109] + [0] + rest;
    var desc := [100] + [0] + mon;
    var info := [3] + ([0, 5] + desc);
    var name := [97, 98] + [0] + info;
    var ids: seq<Byte> := [0, 0, 1, 1, 0, 0, 2, 2];
    assert LIST + rest == [0x12, 0x05, 0, 1, 0, 0, 0, 9] + (ids + name);
    HeadRead(1, ids + name);
    TakeRoundTrip(ids, name);
    assert ids[..4] == [0, 0, 1, 1] && ids[4..] == [0, 0, 2, 2];
    BigEndianSpelled([0, 0, 1, 1]);
    BigEndianSpelled([0, 0, 2, 2]);
    EndedString([97, 98], info);
    assert info[0] == 3 && info[1..] == [0, 5] + desc;
    NumberRead([0, 5], desc);
    EndedString([100], mon);
    EndedString([109], rest);
  }

  lemma CycleFlagsRead(rest: seq<Byte>)
    ensures ReadCycleStartFlags([3, 0, 5] + ([0, 0, 6, 6] + ([104] + [0] + rest)))
         == Got(CycleFlags(5, 0x0606, [104]), rest)
  {
    hide ReadString, ReadUint, IsSet;
    BothFlags();
    var host := [104] + [0] + rest;
    var stop := [0, 0, 6, 6] + host;
    var more := [3, 0, 5] + stop;
    assert more[0] == 3 && more[1..] == [0, 5] + stop;
    NumberRead([0, 5], stop);
    NumberRead([0, 0, 6, 6], host);
    EndedString([104], rest);
  }

  lemma CycleRead(rest: seq<Byte>)
    ensures ParseNext(CYCLE + rest) == Got(CYCLE_OBJECT, rest)
  {
    hide ReadHeader, ReadCycleStartFlags, Take;
    var more := [3, 0, 5] + ([0, 0, 6, 6] + ([104] + [0] + rest));
    var b: seq<Byte> := [0, 0, 1, 1, 0, 0, 2, 2, 0, 0, 3, 3, 0, 0, 4, 4];
    assert CYCLE + rest == [0x12, 0x05, 0, 3, 0, 0, 0, 9] + (b + more);
    HeadRead(3, b + more);
    TakeRoundTrip(b, more);
    CycleFlagsRead(rest);
    assert b[..4] == [0, 0, 1, 1] && b[4..8] == [0, 0, 2, 2] && b[8..12] == [0, 0, 3, 3] && b[12..] == [0, 0, 4, 4];
    BigEndianSpelled([0, 0, 1, 1]);
    BigEndianSpelled([0, 0, 2, 2]);
    BigEndianSpelled([0, 0, 3, 3]);
    BigEndianSpelled([0, 0, 4, 4]);
  }

  lemma StopRead(rest: seq<Byte>)
    ensures ParseNext(STOP + rest) == Got(STOP_OBJECT, rest)
  {
    hide ReadHeader, Take;
    var b: seq<Byte> := [0, 0, 1, 1, 0, 0, 7, 7];
    assert STOP + rest == [0x12, 0x05, 0, 4, 0, 0, 0, 9] + (b + ([0] + rest));
    HeadRead(4, b + ([0] + rest));
    TakeRoundTrip(b, [0] + rest);
    TakeRoundTrip([0], rest);
    assert b[..4] == [0, 0, 1, 1] && b[4..] == [0, 0, 7, 7];
    BigEndianSpelled([0, 0, 1, 1]);
    BigEndianSpelled([0, 0, 7, 7]);
  }

  lemma ParseOne(input: seq<Byte>, o: Object, rest: seq<Byte>, types: set<nat>, ret: seq<Object>)
    requires ParseNext(input) == Got(o, rest)
    ensures ParseFrom(input, types, ret) == ParseFrom(rest, types, if TypeOf(o) in types then ret + [o] else ret)
  {
    hide ParseNext, TypeOf;
  }

  /** Only what is asked for is kept; a cycle definition is asked for as a cycle start. */
  lemma ListSample()
    ensures ParseFrom(LIST + (CYCLE + STOP), {1, 2, 4}, []) == Parsed([LIST_OBJECT, CYCLE_OBJECT, STOP_OBJECT])
    ensures ParseFrom(LIST + (CYCLE + STOP), {2}, []) == Parsed([CYCLE_OBJECT])
  {
    hide ParseNext, ParseFrom, LIST, CYCLE, STOP;
    ListRead(CYCLE + STOP);
    CycleRead(STOP);
    StopRead([]);
    assert STOP + [] == STOP;
    ParseOne(LIST + (CYCLE + STOP), LIST_OBJECT, CYCLE + STOP, {1, 2, 4}, []);
    ParseOne(CYCLE + STOP, CYCLE_OBJECT, STOP, {1, 2, 4}, [LIST_OBJECT]);
    ParseOne(STOP, STOP_OBJECT, [], {1, 2, 4}, [LIST_OBJECT, CYCLE_OBJECT]);
    ParseOne(LIST + (CYCLE + STOP), LIST_OBJECT, CYCLE + STOP, {2}, []);
    ParseOne(CYCLE + STOP, CYCLE_OBJECT, STOP, {2}, []);
    ParseOne(STOP, STOP_OBJECT, [], {2}, [CYCLE_OBJECT]);
    ParsedNothing({1, 2, 4}, [LIST_OBJECT, CYCLE_OBJECT, STOP_OBJECT]);
    ParsedNothing({2}, [CYCLE_OBJECT]);
    assert [] + [LIST_OBJECT] == [LIST_OBJECT] && [LIST_OBJECT] + [CYCLE_OBJECT] == [LIST_OBJECT, CYCLE_OBJECT];
    assert [LIST_OBJECT, CYCLE_OBJECT] + [STOP_OBJECT] == [LIST_OBJECT, CYCLE_OBJECT, STOP_OBJECT];
    assert [] + [CYCLE_OBJECT] == [CYCLE_OBJECT];
  }

  lemma ParsedNothing(types: set<nat>, ret: seq<Object>)
    ensures ParseFrom([], types, ret) == Parsed(ret)
  {
    hide ParseNext;
    NothingLeft();
  }
}
