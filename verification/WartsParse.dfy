/** A warts file: records one after the other, each behind a header, parsed into objects of which only the
    requested types are kept. */
module WartsParse {
  import opened WartsFlags
  import opened WartsBytes
  import opened WartsAddress
  import opened WartsRecords

  const LIST := 0x01
  const CYCLE_START := 0x02
  const CYCLE_DEF := 0x03
  const CYCLE_STOP := 0x04
  const TRACEROUTE := 0x06
  const PING := 0x07
  const DUMMY := 0x00

  datatype Head = Head(kind: nat, length: nat)

  datatype Object =
    | Ping(flags: Record, replyCount: nat, replies: seq<Record>)
    | Traceroute(flags: Record, hopCount: nat, hops: seq<Record>)
    | List(listId: nat, cListId: nat, name: seq<Byte>, info: ListFlags)
    | CycleStart(cycleId: nat, listId: nat, cCycleId: nat, startTime: nat, more: CycleFlags)
    | CycleStop(cycleId: nat, stopTime: nat)
    | Header(head: Head)

  datatype ListFlags = ListFlags(length: nat, description: seq<Byte>, monitor: seq<Byte>)
  datatype CycleFlags = CycleFlags(length: nat, stopTime: nat, hostname: seq<Byte>)

  function TypeOf(o: Object): nat {
    match o
    case Ping(_, _, _) => PING
    case Traceroute(_, _, _) => TRACEROUTE
    case List(_, _, _, _) => LIST
    case CycleStart(_, _, _, _, _) => CYCLE_START
    case CycleStop(_, _) => CYCLE_STOP
    case Header(_) => DUMMY
  }

  // ----- reading -----

  function ReadHeader(input: seq<Byte>): (r: Outcome<Head>)
    ensures r.Got? ==> |r.rest| + 8 == |input|
  {
    var head :- Take(input, 8);
    if BigEndian(head.value[..2]) != 0x1205 then Fail
    else Got(Head(BigEndian(head.value[2..4]), BigEndian(head.value[4..8])), head.rest)
  }

  function ReadPing(input: seq<Byte>): (r: Outcome<Object>)
    ensures r.Got? ==> |r.rest| <= |input|
  {
    var flags :- ReadRecord(PingPart, input, NO_REFS);
    var count :- ReadUint(flags.rest, 2);
    var replies :- ReadRecords(ReplyPart, count.value, count.rest, flags.value.refs, []);
    Got(Ping(flags.value.v, count.value, replies.value.v), replies.rest)
  }

  function ReadTraceroute(input: seq<Byte>): (r: Outcome<Object>)
    ensures r.Got? ==> |r.rest| <= |input|
  {
    var flags :- ReadRecord(TracePart, input, NO_REFS);
    var count :- ReadUint(flags.rest, 2);
    var hops :- ReadRecords(HopPart, count.value, count.rest, flags.value.refs, []);
    var end :- ReadUint(hops.rest, 2);
    Got(Traceroute(flags.value.v, count.value, hops.value.v), end.rest)
  }

  /** A string that is not ended is given up, and so are the flags after it, without an error. */
  function ReadListFlags(input: seq<Byte>): (r: Outcome<ListFlags>)
    ensures r.Got? ==> |r.rest| <= |input|
  {
    if input == [] then Fail
    else if !IsSet(input[0], 1) && !IsSet(input[0], 2) then Got(ListFlags(0, [], []), input[1..])
    else
      var length :- ReadUint(input[1..], 2);
      var desc := if IsSet(input[0], 1) then ReadString(length.rest, []) else Got([], length.rest);
      if !desc.Got? then Got(ListFlags(length.value, [], []), [])
      else
        var mon := if IsSet(input[0], 2) then ReadString(desc.rest, []) else Got([], desc.rest);
        if !mon.Got? then Got(ListFlags(length.value, desc.value, []), [])
        else Got(ListFlags(length.value, desc.value, mon.value), mon.rest)
  }

  function ReadList(input: seq<Byte>): (r: Outcome<Object>)
    ensures r.Got? ==> |r.rest| <= |input|
  {
    var ids :- Take(input, 8);
    var name :- ReadString(ids.rest, []);
    var info :- ReadListFlags(name.rest);
    Got(List(BigEndian(ids.value[..4]), BigEndian(ids.value[4..]), name.value, info.value), info.rest)
  }

  function ReadCycleStartFlags(input: seq<Byte>): (r: Outcome<CycleFlags>)
    ensures r.Got? ==> |r.rest| <= |input|
  {
    if input == [] then Fail
    else if !IsSet(input[0], 1) && !IsSet(input[0], 2) then Got(CycleFlags(0, 0, []), input[1..])
    else
      var length :- ReadUint(input[1..], 2);
      var stop :- if IsSet(input[0], 1) then ReadUint(length.rest, 4) else Got(0, length.rest);
      var host :- if IsSet(input[0], 2) then ReadString(stop.rest, []) else Got([], stop.rest);
      Got(CycleFlags(length.value, stop.value, host.value), host.rest)
  }

  function ReadCycle(input: seq<Byte>): (r: Outcome<Object>)
    ensures r.Got? ==> |r.rest| <= |input|
  {
    var b :- Take(input, 16);
    var more :- ReadCycleStartFlags(b.rest);
    Got(CycleStart(BigEndian(b.value[..4]), BigEndian(b.value[4..8]),
                   BigEndian(b.value[8..12]), BigEndian(b.value[12..]),
                   more.value), more.rest)
  }

  function ReadCycleStop(input: seq<Byte>): (r: Outcome<Object>)
    ensures r.Got? ==> |r.rest| <= |input|
  {
    var b :- Take(input, 8);
    var flags :- Take(b.rest, 1);
    Got(CycleStop(BigEndian(b.value[..4]), BigEndian(b.value[4..])), flags.rest)
  }

  /** The next record. Of a type with no reader only the header is taken. */
  function ParseNext(input: seq<Byte>): (r: Outcome<Object>)
    ensures r.Got? ==> |r.rest| + 8 <= |input|
  {
    var head :- ReadHeader(input);
    match head.value.kind
    case 0x01 => ReadList(head.rest)
    case 0x02 | 0x03 => ReadCycle(head.rest)
    case 0x04 => ReadCycleStop(head.rest)
    case 0x06 => ReadTraceroute(head.rest)
    case 0x07 => ReadPing(head.rest)
    case _ => Got(Header(head.value), head.rest)
  }

  datatype Parsed = Parsed(objects: seq<Object>) | Failed

  /** All records of the given types, after those in `ret`. The plain end-of-file error ends the parse
      wherever it comes from. */
  function ParseFrom(input: seq<Byte>, types: set<nat>, ret: seq<Object>): Parsed
    decreases |input|
  {
    match ParseNext(input)
    case Eof => Parsed(ret)
    case Fail => Failed
    case Got(o, rest) => ParseFrom(rest, types, if TypeOf(o) in types then ret + [o] else ret)
  }

  // ----- writing -----

  /** Records to write. Lengths in headers and the bits past the known flags are the writer's own affair. */
  datatype Item =
    | PingItem(length: nat, flags: Sheet, replies: seq<Sheet>)
    | TracerouteItem(length: nat, flags: Sheet, hops: seq<Sheet>, end: nat)
    | ListItem(length: nat, list: Object, described: bool, monitored: bool)
    | CycleItem(length: nat, definition: bool, cycle: Object, stopped: bool, hosted: bool)
    | StopItem(length: nat, stop: Object, flags_: Byte)
    | OtherItem(head_: Head)

  function EncodeHeader(kind: nat, length: nat): (r: seq<Byte>)
    ensures |r| == 8
  {
    ToBigEndian(0x1205, 2) + ToBigEndian(kind, 2) + ToBigEndian(length, 4)
  }

  function TwoFlags(a: bool, b: bool): Byte {
    (if a then 1 else 0) + (if b then 2 else 0)
  }

  function EncodeString(s: seq<Byte>): seq<Byte> {
    s + [0]
  }

  function EncodeListFlags(l: ListFlags, described: bool, monitored: bool): seq<Byte> {
    [TwoFlags(described, monitored)]
    + if !described && !monitored then []
      else ToBigEndian(l.length, 2) + ((if described then EncodeString(l.description) else [])
                                       + (if monitored then EncodeString(l.monitor) else []))
  }

  function EncodeCycleFlags(c: CycleFlags, stopped: bool, hosted: bool): seq<Byte> {
    [TwoFlags(stopped, hosted)]
    + if !stopped && !hosted then []
      else ToBigEndian(c.length, 2) + ((if stopped then ToBigEndian(c.stopTime, 4) else [])
                                       + (if hosted then EncodeString(c.hostname) else []))
  }

  function Payload(i: Item): seq<Byte>
    requires ItemFits(i)
  {
    match i
    case PingItem(_, flags, replies) =>
      SheetsChained(ReplyPart, replies, AfterRecord(PingPart, flags, NO_REFS));
      EncodeRecord(PingPart, flags) + (ToBigEndian(|replies|, 2) + EncodeRecords(ReplyPart, replies))
    case TracerouteItem(_, flags, hops, end) =>
      SheetsChained(HopPart, hops, AfterRecord(TracePart, flags, NO_REFS));
      EncodeRecord(TracePart, flags) + (ToBigEndian(|hops|, 2) + (EncodeRecords(HopPart, hops) + ToBigEndian(end, 2)))
    case ListItem(_, l, described, monitored) =>
      (ToBigEndian(l.listId, 4) + ToBigEndian(l.cListId, 4))
        + (EncodeString(l.name) + EncodeListFlags(l.info, described, monitored))
    case CycleItem(_, _, c, stopped, hosted) =>
      (ToBigEndian(c.cycleId, 4) + ToBigEndian(c.listId, 4) + ToBigEndian(c.cCycleId, 4) + ToBigEndian(c.startTime, 4))
      + EncodeCycleFlags(c.more, stopped, hosted)
    case StopItem(_, s, flags) => (ToBigEndian(s.cycleId, 4) + ToBigEndian(s.stopTime, 4)) + [flags]
    case OtherItem(_) => []
  }

  function KindOf(i: Item): nat {
    match i
    case PingItem(_, _, _) => PING
    case TracerouteItem(_, _, _, _) => TRACEROUTE
    case ListItem(_, _, _, _) => LIST
    case CycleItem(_, definition, _, _, _) => if definition then CYCLE_DEF else CYCLE_START
    case StopItem(_, _, _) => CYCLE_STOP
    case OtherItem(head) => head.kind
  }

  function LengthOf(i: Item): nat {
    if i.OtherItem? then i.head_.length else i.length
  }

  function EncodeItem(i: Item): seq<Byte>
    requires ItemFits(i)
  {
    EncodeHeader(KindOf(i), LengthOf(i)) + Payload(i)
  }

  predicate IsU16(n: nat) {
    n < 0x1_0000
  }

  predicate IsU32(n: nat) {
    n < 0x1_0000_0000
  }

  predicate ListFits(l: Object, described: bool, monitored: bool) {
    && l.List? && IsU32(l.listId) && IsU32(l.cListId) && IsU16(l.info.length)
    && 0 !in l.name && 0 !in l.info.description && 0 !in l.info.monitor
    && (described || l.info.description == [])
    && (monitored || l.info.monitor == [])
    && (described || monitored || l.info.length == 0)
  }

  predicate CycleFits(c: Object, stopped: bool, hosted: bool) {
    && c.CycleStart? && IsU32(c.cycleId) && IsU32(c.listId) && IsU32(c.cCycleId) && IsU32(c.startTime)
    && IsU16(c.more.length) && IsU32(c.more.stopTime) && 0 !in c.more.hostname
    && (stopped || c.more.stopTime == 0)
    && (hosted || c.more.hostname == [])
    && (stopped || hosted || c.more.length == 0)
  }

  predicate ItemFits(i: Item) {
    && IsU32(LengthOf(i))
    && match i
       case PingItem(_, flags, replies) =>
         && SheetFits(PingPart, flags, NO_REFS) && IsU16(|replies|)
         && SheetsFit(ReplyPart, replies, AfterRecord(PingPart, flags, NO_REFS))
       case TracerouteItem(_, flags, hops, end) =>
         && SheetFits(TracePart, flags, NO_REFS) && IsU16(|hops|) && IsU16(end)
         && SheetsFit(HopPart, hops, AfterRecord(TracePart, flags, NO_REFS))
       case ListItem(_, l, described, monitored) => ListFits(l, described, monitored)
       case CycleItem(_, _, c, stopped, hosted) => CycleFits(c, stopped, hosted)
       case StopItem(_, s, _) => s.CycleStop? && IsU32(s.cycleId) && IsU32(s.stopTime)
       case OtherItem(head) => IsU16(head.kind) && head.kind !in {0x01, 0x02, 0x03, 0x04, 0x06, 0x07}
  }

  /** The object a record stands for. */
  function MeantItem(i: Item): Object
    requires ItemFits(i)
  {
    match i
    case PingItem(_, flags, replies) => Ping(MeantRecord(PingPart, flags), |replies|, MeantRecords(ReplyPart, replies))
    case TracerouteItem(_, flags, hops, _) =>
      Traceroute(MeantRecord(TracePart, flags), |hops|, MeantRecords(HopPart, hops))
    case ListItem(_, l, _, _) => l
    case CycleItem(_, _, c, _, _) => c
    case StopItem(_, s, _) => s
    case OtherItem(head) => Header(head)
  }

  lemma {:induction false} SheetsChained(part: Part, ws: seq<Sheet>, refs: Refs)
    requires SheetsFit(part, ws, refs)
    ensures forall w <- ws :: w.chain >= 1
    decreases ws
  {
    hide FieldsFit, AfterRecord;
    if ws != [] {
      SheetsChained(part, ws[1..], AfterRecord(part, ws[0], refs));
      assert forall w <- ws :: w == ws[0] || w in ws[1..];
    }
  }

  // ----- each kind of record, there and back -----

  lemma HeaderRoundTrip(kind: nat, length: nat, rest: seq<Byte>)
    requires IsU16(kind) && IsU32(length)
    ensures ReadHeader(EncodeHeader(kind, length) + rest) == Got(Head(kind, length), rest)
  {
    hide BigEndian, ToBigEndian, Pow256;
    Widths();
    var h := EncodeHeader(kind, length);
    TakeRoundTrip(h, rest);
    assert h[..2] == ToBigEndian(0x1205, 2) && h[2..4] == ToBigEndian(kind, 2) && h[4..8] == ToBigEndian(length, 4);
    BigEndianRoundTrip(0x1205, 2);
    BigEndianRoundTrip(kind, 2);
    BigEndianRoundTrip(length, 4);
  }

  lemma PingRoundTrip(i: Item, rest: seq<Byte>)
    requires i.PingItem? && ItemFits(i)
    ensures ReadPing(Payload(i) + rest) == Got(MeantItem(i), rest)
  {
    hide ReadRecord, ReadRecords, EncodeRecord, EncodeRecords, SheetFits, SheetsFit, AfterRecord, MeantRecord,
         MeantRecords, ReadUint, ToBigEndian, Pow256;
    Widths();
    var refs := AfterRecord(PingPart, i.flags, NO_REFS);
    SheetsChained(ReplyPart, i.replies, refs);
    var replies := EncodeRecords(ReplyPart, i.replies) + rest;
    var count := ToBigEndian(|i.replies|, 2) + replies;
    assert Payload(i) + rest == EncodeRecord(PingPart, i.flags) + count;
    RecordRoundTrip(PingPart, i.flags, NO_REFS, count);
    UintRoundTrip(|i.replies|, 2, replies);
    RecordsRoundTrip(ReplyPart, i.replies, refs, [], rest);
    assert [] + MeantRecords(ReplyPart, i.replies) == MeantRecords(ReplyPart, i.replies);
  }

  lemma TracerouteRoundTrip(i: Item, rest: seq<Byte>)
    requires i.TracerouteItem? && ItemFits(i)
    ensures ReadTraceroute(Payload(i) + rest) == Got(MeantItem(i), rest)
  {
    hide ReadRecord, ReadRecords, EncodeRecord, EncodeRecords, SheetFits, SheetsFit, AfterRecord, MeantRecord,
         MeantRecords, ReadUint, ToBigEndian, Pow256;
    Widths();
    var refs := AfterRecord(TracePart, i.flags, NO_REFS);
    SheetsChained(HopPart, i.hops, refs);
    var end := ToBigEndian(i.end, 2) + rest;
    var hops := EncodeRecords(HopPart, i.hops) + end;
    var count := ToBigEndian(|i.hops|, 2) + hops;
    assert Payload(i) + rest == EncodeRecord(TracePart, i.flags) + count;
    RecordRoundTrip(TracePart, i.flags, NO_REFS, count);
    UintRoundTrip(|i.hops|, 2, hops);
    RecordsRoundTrip(HopPart, i.hops, refs, [], end);
    UintRoundTrip(i.end, 2, rest);
    assert [] + MeantRecords(HopPart, i.hops) == MeantRecords(HopPart, i.hops);
  }

  lemma TwoFlagsSet(a: bool, b: bool)
    ensures IsSet(TwoFlags(a, b), 1) == a && IsSet(TwoFlags(a, b), 2) == b
  {
  }

  lemma OptionalString(present: bool, s: seq<Byte>, rest: seq<Byte>)
    requires 0 !in s && (present || s == [])
    ensures var e := if present then EncodeString(s) else [];
            (if present then ReadString(e + rest, []) else Got([], e + rest)) == Got(s, rest)
  {
    if present {
      StringRoundTrip(s, [], rest);
      assert [] + s == s;
    } else {
      assert [] + rest == rest;
    }
  }

  lemma ListFlagsRoundTrip(l: ListFlags, described: bool, monitored: bool, rest: seq<Byte>)
    requires ListFits(List(0, 0, [], l), described, monitored)
    ensures ReadListFlags(EncodeListFlags(l, described, monitored) + rest) == Got(l, rest)
  {
    hide ReadString, ReadUint, ToBigEndian, Pow256, IsSet, EncodeString;
    Widths();
    TwoFlagsSet(described, monitored);
    var input := EncodeListFlags(l, described, monitored) + rest;
    assert input[0] == TwoFlags(described, monitored);
    if !described && !monitored {
      assert input[1..] == rest;
    } else {
      var mon := (if monitored then EncodeString(l.monitor) else []) + rest;
      var desc := (if described then EncodeString(l.description) else []) + mon;
      assert input[1..] == ToBigEndian(l.length, 2) + desc;
      UintRoundTrip(l.length, 2, desc);
      OptionalString(described, l.description, mon);
      OptionalString(monitored, l.monitor, rest);
    }
  }

  lemma ListRoundTrip(i: Item, rest: seq<Byte>)
    requires i.ListItem? && ItemFits(i)
    ensures ReadList(Payload(i) + rest) == Got(MeantItem(i), rest)
  {
    hide ReadString, ToBigEndian, BigEndian, Pow256, ReadListFlags, EncodeListFlags;
    Widths();
    var l := i.list;
    var ids := ToBigEndian(l.listId, 4) + ToBigEndian(l.cListId, 4);
    var info := EncodeListFlags(l.info, i.described, i.monitored) + rest;
    assert Payload(i) + rest == ids + (l.name + [0] + info);
    TakeRoundTrip(ids, l.name + [0] + info);
    assert ids[..4] == ToBigEndian(l.listId, 4) && ids[4..] == ToBigEndian(l.cListId, 4);
    BigEndianRoundTrip(l.listId, 4);
    BigEndianRoundTrip(l.cListId, 4);
    StringRoundTrip(l.name, [], info);
    assert [] + l.name == l.name;
    ListFlagsRoundTrip(l.info, i.described, i.monitored, rest);
  }

  lemma CycleFlagsRoundTrip(c: CycleFlags, stopped: bool, hosted: bool, rest: seq<Byte>)
    requires CycleFits(CycleStart(0, 0, 0, 0, c), stopped, hosted)
    ensures ReadCycleStartFlags(EncodeCycleFlags(c, stopped, hosted) + rest) == Got(c, rest)
  {
    hide ReadString, ReadUint, ToBigEndian, Pow256, IsSet, EncodeString;
    Widths();
    TwoFlagsSet(stopped, hosted);
    var input := EncodeCycleFlags(c, stopped, hosted) + rest;
    assert input[0] == TwoFlags(stopped, hosted);
    if !stopped && !hosted {
      assert input[1..] == rest;
    } else {
      var host := (if hosted then EncodeString(c.hostname) else []) + rest;
      var stop := (if stopped then ToBigEndian(c.stopTime, 4) else []) + host;
      assert input[1..] == ToBigEndian(c.length, 2) + stop;
      UintRoundTrip(c.length, 2, stop);
      if stopped {
        UintRoundTrip(c.stopTime, 4, host);
      } else {
        assert stop == host;
      }
      OptionalString(hosted, c.hostname, rest);
    }
  }

  lemma CycleRoundTrip(i: Item, rest: seq<Byte>)
    requires i.CycleItem? && ItemFits(i)
    ensures ReadCycle(Payload(i) + rest) == Got(MeantItem(i), rest)
  {
    hide ToBigEndian, BigEndian, Pow256, ReadCycleStartFlags, EncodeCycleFlags;
    Widths();
    var c := i.cycle;
    var b := ToBigEndian(c.cycleId, 4) + ToBigEndian(c.listId, 4) + ToBigEndian(c.cCycleId, 4)
      + ToBigEndian(c.startTime, 4);
    var more := EncodeCycleFlags(c.more, i.stopped, i.hosted) + rest;
    assert Payload(i) + rest == b + more;
    TakeRoundTrip(b, more);
    assert b[..4] == ToBigEndian(c.cycleId, 4) && b[4..8] == ToBigEndian(c.listId, 4);
    assert b[8..12] == ToBigEndian(c.cCycleId, 4) && b[12..] == ToBigEndian(c.startTime, 4);
    BigEndianRoundTrip(c.cycleId, 4);
    BigEndianRoundTrip(c.listId, 4);
    BigEndianRoundTrip(c.cCycleId, 4);
    BigEndianRoundTrip(c.startTime, 4);
    CycleFlagsRoundTrip(c.more, i.stopped, i.hosted, rest);
  }

  lemma CycleStopRoundTrip(i: Item, rest: seq<Byte>)
    requires i.StopItem? && ItemFits(i)
    ensures ReadCycleStop(Payload(i) + rest) == Got(MeantItem(i), rest)
  {
    hide ToBigEndian, BigEndian, Pow256;
    Widths();
    var s := i.stop;
    var b := ToBigEndian(s.cycleId, 4) + ToBigEndian(s.stopTime, 4);
    assert Payload(i) + rest == b + ([i.flags_] + rest);
    TakeRoundTrip(b, [i.flags_] + rest);
    TakeRoundTrip([i.flags_], rest);
    assert b[..4] == ToBigEndian(s.cycleId, 4) && b[4..] == ToBigEndian(s.stopTime, 4);
    BigEndianRoundTrip(s.cycleId, 4);
    BigEndianRoundTrip(s.stopTime, 4);
  }

  /** The next record is read back whole, whatever follows it. */
  lemma ItemRoundTrip(i: Item, rest: seq<Byte>)
    requires ItemFits(i)
    ensures ParseNext(EncodeItem(i) + rest) == Got(MeantItem(i), rest)
  {
    hide ReadHeader, EncodeHeader, Payload, MeantItem, ReadPing, ReadTraceroute, ReadList, ReadCycle, ReadCycleStop,
         SheetFits, SheetsFit, ListFits, CycleFits;
    assert EncodeItem(i) + rest == EncodeHeader(KindOf(i), LengthOf(i)) + (Payload(i) + rest);
    HeaderRoundTrip(KindOf(i), LengthOf(i), Payload(i) + rest);
    match i
    case PingItem(_, _, _) => PingRoundTrip(i, rest);
    case TracerouteItem(_, _, _, _) => TracerouteRoundTrip(i, rest);
    case ListItem(_, _, _, _) => ListRoundTrip(i, rest);
    case CycleItem(_, _, _, _, _) => CycleRoundTrip(i, rest);
    case StopItem(_, _, _) => CycleStopRoundTrip(i, rest);
    case OtherItem(_) => OtherRoundTrip(i, rest);
  }

  lemma OtherRoundTrip(i: Item, rest: seq<Byte>)
    requires i.OtherItem? && ItemFits(i)
    ensures Payload(i) + rest == rest && MeantItem(i) == Header(i.head_)
  {
  }

  // ----- whole files -----

  predicate ItemsFit(items: seq<Item>) {
    forall i :: 0 <= i < |items| ==> ItemFits(items[i])
  }

  function EncodeItems(items: seq<Item>): seq<Byte>
    requires ItemsFit(items)
  {
    if items == [] then [] else EncodeItem(items[0]) + EncodeItems(items[1..])
  }

  /** The type a record is asked for by: its type in the file, but a cycle definition is asked for as a
      cycle start, and a record without a reader as type zero. */
  function AskedAs(kind: nat): nat {
    match kind
    case 0x03 => 0x02
    case 0x01 | 0x02 | 0x04 | 0x06 | 0x07 => kind
    case _ => 0
  }

  lemma TypeIsKind(i: Item)
    requires ItemFits(i)
    ensures TypeOf(MeantItem(i)) == AskedAs(KindOf(i))
  {
    hide SheetFits, SheetsFit, MeantRecord, MeantRecords;
  }

  /** The objects of the requested types, in order. */
  function Requested(items: seq<Item>, types: set<nat>): seq<Object>
    requires ItemsFit(items)
  {
    if items == [] then []
    else (if AskedAs(KindOf(items[0])) in types then [MeantItem(items[0])] else []) + Requested(items[1..], types)
  }

  lemma RequestedFirst(items: seq<Item>, types: set<nat>, ret: seq<Object>)
    requires ItemsFit(items) && items != []
    ensures var o := MeantItem(items[0]);
            (if TypeOf(o) in types then ret + [o] else ret) + Requested(items[1..], types)
              == ret + Requested(items, types)
  {
    hide ItemFits, MeantItem, TypeOf, AskedAs, KindOf;
    TypeIsKind(items[0]);
    var o := MeantItem(items[0]);
    assert ret + ([o] + Requested(items[1..], types)) == ret + [o] + Requested(items[1..], types);
    assert [] + Requested(items[1..], types) == Requested(items[1..], types);
  }

  lemma {:induction false} ParseItems(items: seq<Item>, types: set<nat>, ret: seq<Object>, rest: seq<Byte>)
    requires ItemsFit(items)
    ensures ParseFrom(EncodeItems(items) + rest, types, ret) == ParseFrom(rest, types, ret + Requested(items, types))
    decreases items
  {
    hide ParseNext, EncodeItem, ItemFits, MeantItem, TypeOf, Requested;
    if items == [] {
      assert EncodeItems(items) + rest == rest;
      NothingRequested(types, ret);
    } else {
      var more := EncodeItems(items[1..]) + rest;
      assert EncodeItems(items) + rest == EncodeItem(items[0]) + more;
      ItemRoundTrip(items[0], more);
      var o := MeantItem(items[0]);
      ParseItems(items[1..], types, if TypeOf(o) in types then ret + [o] else ret, rest);
      RequestedFirst(items, types, ret);
    }
  }

  lemma NothingRequested(types: set<nat>, ret: seq<Object>)
    ensures ret + Requested([], types) == ret
  {
  }

  /** Parsing a written file gives exactly the objects of the requested types, in order. */
  lemma ParseRoundTrip(items: seq<Item>, types: set<nat>)
    requires ItemsFit(items)
    ensures ParseFrom(EncodeItems(items), types, []) == Parsed(Requested(items, types))
  {
    hide EncodeItem, ItemFits, MeantItem, ParseNext, Requested, EncodeItems;
    ParseItems(items, types, [], []);
    assert EncodeItems(items) + [] == EncodeItems(items);
    assert [] + Requested(items, types) == Requested(items, types);
    NothingLeft();
  }

  lemma NothingLeft()
    ensures ParseNext([]).Eof?
  {
  }

  // ----- references before anything to refer to -----

  /** The source and destination ids read so far stand for no address. */
  ghost predicate NoIds(fields: Fields) {
    forall f :: f in fields && (f == 3 || f == 4) ==> fields[f] == One(NO_ADDRESS)
  }

  lemma KeepsRefs(flag: nat, input: seq<Byte>, dataLength: nat, refs: Refs)
    requires flag < 26
    ensures var r := ReadField(FormatOf(TracePart, flag), input, dataLength, refs);
            r.Got? ==> r.value.refs == refs && (flag == 3 || flag == 4 ==> exists id :: r.value.v == One(Get(refs, id)))
  {
    hide ReadUint, ReadAddress, ReadAddresses, ReadTimes, ReadPlain;
  }

  lemma {:induction false} IdsUnknown(flags: seq<nat>, input: seq<Byte>, refs: Refs, acc: Fields)
    requires StrictlyAscending(flags) && NoIds(acc)
    requires refs == NO_REFS || forall i :: 0 <= i < |flags| ==> flags[i] >= 26
    ensures var r := ReadFields(TracePart, flags, input, refs, acc); r.Got? ==> NoIds(r.value.v)
    decreases flags
  {
    hide ReadField, FormatOf;
    if flags != [] {
      var v := ReadField(FormatOf(TracePart, flags[0]), input, DataLength(acc), refs);
      if v.Got? {
        if flags[0] < 26 {
          KeepsRefs(flags[0], input, DataLength(acc), refs);
        }
        IdsUnknown(flags[1..], v.rest, v.value.refs, acc[flags[0] := v.value.v]);
      }
    }
  }

  /** The source and destination ids of a traceroute come before every address it could refer to, so they
      are always read as no address. */
  lemma TracerouteIdsUnknown(input: seq<Byte>)
    requires input != [] && ChainLength(input[0], input[1..]) <= 36
    ensures var r := ReadRecord(TracePart, input, NO_REFS); r.Got? ==> NoIds(r.value.v.fields)
  {
    hide ReadFields, ReadFlags, ReadUint, ChainLength;
    ReadAscending(input[0], input[1..], 1);
    var chain := ReadFlags(input[0], input[1..], 1);
    if chain.Flags? {
      var start := if chain.list == [] then Got(0, chain.rest) else ReadUint(chain.rest, 2);
      if start.Got? {
        IdsUnknown(chain.list, start.rest, NO_REFS, map[]);
      }
    }
  }
}
