/** The readers as they run: they consume a buffer, fill the address dictionary, and give what the functions
    of the other warts modules say. */
module WartsReader {
  import opened WartsFlags
  import opened WartsBytes
  import opened WartsAddress
  import opened WartsRecords
  import opened WartsParse

  /** The unread bytes. */
  class Buffer {
    var data: seq<Byte>

    constructor (bytes: seq<Byte>)
      ensures data == bytes
    {
      data := bytes;
    }

    /** Up to `n` bytes; the end-of-file error when none are left and some are wanted. */
    method Read(n: nat) returns (b: seq<Byte>, eof: bool)
      modifies this
      ensures eof <==> n > 0 && old(data) == []
      ensures old(data) == b + data && |b| == if n < |old(data)| then n else |old(data)|
    {
      if n > 0 && data == [] {
        return [], true;
      }
      var k := if n < |data| then n else |data|;
      b, eof := data[..k], false;
      data := data[k..];
    }
  }

  /** The address dictionary of one record. */
  class AddressRefs {
    var id: nat
    var addrs: map<nat, Address>

    constructor ()
      ensures View() == NO_REFS
    {
      id, addrs := 0, map[];
    }

    ghost function View(): Refs
      reads this
    {
      Refs(id, addrs)
    }

    method Store(a: Address)
      modifies this
      ensures View() == Add(old(View()), a)
    {
      addrs := addrs[id := a];
      id := (id + 1) % 0x1_0000_0000;
    }

    function Lookup(k: nat): (a: Address)
      reads this
      ensures a == Get(View(), k)
    {
      if k in addrs then addrs[k] else NO_ADDRESS
    }
  }

  /** What a reader returns: a value, the plain end-of-file error, or any other error. */
  datatype Status<V> = Ok(v: V) | End | Err {
    predicate IsFailure() {
      !Ok?
    }

    function PropagateFailure<U>(): Status<U>
      requires IsFailure()
    {
      if End? then Status<U>.End else Status<U>.Err
    }

    function Extract(): V
      requires !IsFailure()
    {
      v
    }
  }

  ghost function With<V>(s: Status<V>, rest: seq<Byte>): Outcome<V> {
    match s
    case Ok(v) => Got(v, rest)
    case End => Eof
    case Err => Fail
  }

  ghost function WithRefs<V>(s: Status<V>, rest: seq<Byte>, refs: Refs): Outcome<Known<V>> {
    match s
    case Ok(v) => Got(Known(v, refs), rest)
    case End => Eof
    case Err => Fail
  }

  // ----- bytes, numbers, strings -----

  method ReadBytes(f: Buffer, n: nat) returns (s: Status<seq<Byte>>)
    modifies f
    ensures With(s, f.data) == Take(old(f.data), n)
  {
    ghost var input := f.data;
    var b, eof := f.Read(n);
    if eof {
      return End;
    }
    if |b| != n {
      return Err;
    }
    assert n > 0 ==> input[..n] == b && input[n..] == f.data;
    assert n == 0 ==> f.data == input;
    return Ok(b);
  }

  method ReadNumber(f: Buffer, width: nat) returns (s: Status<nat>)
    modifies f
    ensures With(s, f.data) == ReadUint(old(f.data), width)
  {
    hide Take, BigEndian;
    var b := ReadBytes(f, width);
    s := if b.Ok? then Ok(BigEndian(b.v)) else Err;
  }

  method GetString(f: Buffer) returns (s: Status<seq<Byte>>)
    modifies f
    ensures With(s, f.data) == ReadString(old(f.data), [])
    ensures s == End ==> f.data == []
  {
    ghost var all := ReadString(f.data, []);
    var buf := [];
    while true
      invariant ReadString(f.data, buf) == all
      decreases |f.data|
    {
      ghost var input := f.data;
      var temp, eof := f.Read(1);
      if eof {
        return End;
      }
      assert temp == [input[0]] && f.data == input[1..];
      if temp[0] == 0 {
        return Ok(buf);
      }
      buf := buf + [temp[0]];
    }
  }

  // ----- addresses -----

  method ReadReferencedAddress(f: Buffer, refs: AddressRefs) returns (s: Status<Address>)
    modifies f
    ensures WithRefs(s, f.data, refs.View()) == ReadReference(old(f.data), old(refs.View()))
  {
    hide ReadUint;
    var id :- ReadNumber(f, 4);
    return Ok(refs.Lookup(id));
  }

  method ReadOneAddress(f: Buffer, refs: AddressRefs) returns (s: Status<Address>)
    modifies f, refs
    ensures WithRefs(s, f.data, refs.View()) == ReadAddress(old(f.data), old(refs.View()))
  {
    hide ReadUint, Take, BigEndian, ReadReference;
    var length :- ReadNumber(f, 1);
    if length == 0 {
      s := ReadReferencedAddress(f, refs);
      return;
    }
    var kind :- ReadNumber(f, 1);
    var res :- ReadBytes(f, length);
    var value := SliceToUint64(res);
    var a := Address(kind, value);
    refs.Store(a);
    return Ok(a);
  }

  /** `n` addresses, appended to `start`. */
  method ReadAddressList(f: Buffer, refs: AddressRefs, n: nat, start: seq<Address>) returns (s: Status<seq<Address>>)
    modifies f, refs
    ensures WithRefs(s, f.data, refs.View()) == ReadAddresses(n, old(f.data), old(refs.View()), start)
  {
    hide ReadAddress;
    ghost var all := ReadAddresses(n, f.data, refs.View(), start);
    var list := start;
    for i := 0 to n
      invariant ReadAddresses(n - i, f.data, refs.View(), list) == all
    {
      var a :- ReadOneAddress(f, refs);
      list := list + [a];
    }
    return Ok(list);
  }

  // ----- fields -----

  method ReadTimestamps(f: Buffer, n: nat) returns (s: Status<seq<nat>>)
    modifies f
    ensures With(s, f.data) == ReadTimes(n, old(f.data), [])
  {
    hide ReadUint;
    ghost var all := ReadTimes(n, f.data, []);
    var times := [];
    for i := 0 to n
      invariant ReadTimes(n - i, f.data, times) == all
    {
      var t :- ReadNumber(f, 4);
      times := times + [t];
    }
    return Ok(times);
  }

  method ReadIcmpExtension(f: Buffer) returns (s: Status<Extension>)
    modifies f
    ensures With(s, f.data) == ReadExtension(old(f.data))
  {
    hide ReadUint, Take;
    var length :- ReadNumber(f, 2);
    var class_ :- ReadNumber(f, 1);
    var kind :- ReadNumber(f, 1);
    var data :- ReadBytes(f, length);
    return Ok(Extension(length, class_, kind, data));
  }

  /** The counter is sixteen bits wide and may wrap; the input still gets shorter with every extension. */
  method ReadIcmpExtensionList(f: Buffer) returns (s: Status<Value<Address>>)
    modifies f
    ensures With(s, f.data) == ReadPlain(Extensions, old(f.data), 0)
  {
    hide ReadUint, ReadExtension;
    var length :- ReadNumber(f, 2);
    ghost var all := ReadExtensions(length, 0, f.data, []);
    var exts, i: nat := [], 0;
    while i < length
      invariant ReadExtensions(length, i, f.data, exts) == all
      decreases |f.data|
    {
      var ext :- ReadIcmpExtension(f);
      exts := exts + [ext];
      i := (i + ext.length + 4) % 0x1_0000;
    }
    return Ok(Exts(length, exts));
  }

  method ReadPlainField(f: Buffer, format: Format, dataLength: nat) returns (s: Status<Value<Address>>)
    modifies f
    ensures With(s, f.data) == ReadPlain(format, old(f.data), dataLength)
  {
    hide ReadUint, Take, ReadExtensions;
    match format {
      case TimeVal =>
        var sec :- ReadNumber(f, 4);
        var usec :- ReadNumber(f, 4);
        return Ok(Time(sec, usec));
      case Rtt =>
        var val :- ReadNumber(f, 4);
        return Ok(Time(val / 1000000, val % 1000000));
      case Data =>
        var b :- ReadBytes(f, dataLength);
        return Ok(Bytes(b));
      case Triple =>
        var o :- ReadNumber(f, 4);
        var r :- ReadNumber(f, 4);
        var t :- ReadNumber(f, 4);
        return Ok(Three(o, r, t));
      case Extensions =>
        s := ReadIcmpExtensionList(f);
      case U8 | U16 | U32 =>
        var n :- ReadNumber(f, Width(format));
        return Ok(Num(n));
      case _ =>
        return Err;
    }
  }

  method ReadOneField(f: Buffer, refs: AddressRefs, format: Format, dataLength: nat) returns (s: Status<Value<Address>>)
    modifies f, refs
    ensures WithRefs(s, f.data, refs.View()) == ReadField(format, old(f.data), dataLength, old(refs.View()))
  {
    hide ReadUint, ReadAddress, ReadReference, ReadAddresses, ReadTimes, ReadPlain, Blank;
    match format {
      case Addr =>
        var a :- ReadOneAddress(f, refs);
        return Ok(One(a));
      case RefAddr =>
        var a :- ReadReferencedAddress(f, refs);
        return Ok(One(a));
      case AddrList =>
        var n :- ReadNumber(f, 1);
        var list :- ReadAddressList(f, refs, n, []);
        return Ok(Many(list));
      case TimeList =>
        var n :- ReadNumber(f, 1);
        var list :- ReadAddressList(f, refs, n, Blank(n));
        return Ok(Many(list));
      case Stamps =>
        var tsc :- ReadNumber(f, 1);
        var ipc :- ReadNumber(f, 1);
        var times :- ReadTimestamps(f, tsc);
        var list :- ReadAddressList(f, refs, ipc, []);
        return Ok(Stamped(times, list));
      case Invalid =>
        return Err;
      case _ =>
        s := ReadPlainField(f, format, dataLength);
    }
  }

  // ----- parts -----

  method ReadFlagged(f: Buffer, refs: AddressRefs, part: Part, flags: seq<nat>) returns (s: Status<Fields>)
    modifies f, refs
    ensures WithRefs(s, f.data, refs.View()) == ReadFields(part, flags, old(f.data), old(refs.View()), map[])
  {
    hide ReadField, FormatOf, DataLength;
    ghost var all := ReadFields(part, flags, f.data, refs.View(), map[]);
    var fields: Fields := map[];
    assert flags[0..] == flags;
    for i := 0 to |flags|
      invariant ReadFields(part, flags[i..], f.data, refs.View(), fields) == all
    {
      assert flags[i..][0] == flags[i] && flags[i..][1..] == flags[i + 1..];
      var v :- ReadOneField(f, refs, FormatOf(part, flags[i]), DataLength(fields));
      fields := fields[flags[i] := v];
    }
    return Ok(fields);
  }

  method ReadPart(f: Buffer, refs: AddressRefs, part: Part) returns (s: Status<Record>)
    modifies f, refs
    ensures WithRefs(s, f.data, refs.View()) == ReadRecord(part, old(f.data), old(refs.View()))
  {
    hide ReadFlags, ReadFields, ReadUint;
    ghost var input := f.data;
    var first, eof := f.Read(1);
    if eof {
      return if part.TracePart? then Err else End;
    }
    assert first == [input[0]] && f.data == input[1..];
    var chain := GetFlags(first[0], f.data);
    if chain.EndOfInput? {
      return End;
    }
    f.data := chain.rest;
    if chain.list != [] {
      var _ :- ReadNumber(f, 2);
    }
    var fields :- ReadFlagged(f, refs, part, chain.list);
    return Ok(Record(chain.list, fields));
  }

  method ReadParts(f: Buffer, refs: AddressRefs, part: Part, n: nat) returns (s: Status<seq<Record>>)
    modifies f, refs
    ensures WithRefs(s, f.data, refs.View()) == ReadRecords(part, n, old(f.data), old(refs.View()), [])
  {
    hide ReadRecord;
    ghost var all := ReadRecords(part, n, f.data, refs.View(), []);
    var ret := [];
    for i := 0 to n
      invariant ReadRecords(part, n - i, f.data, refs.View(), ret) == all
    {
      var p :- ReadPart(f, refs, part);
      ret := ret + [p];
    }
    return Ok(ret);
  }

  // ----- records -----

  method ReadPingRecord(f: Buffer) returns (s: Status<Object>)
    modifies f
    ensures With(s, f.data) == ReadPing(old(f.data))
  {
    hide ReadUint, ReadRecord, ReadRecords;
    var addrs := new AddressRefs();
    var flags :- ReadPart(f, addrs, PingPart);
    var rc :- ReadNumber(f, 2);
    var replies :- ReadParts(f, addrs, ReplyPart, rc);
    return Ok(Ping(flags, rc, replies));
  }

  method ReadTracerouteRecord(f: Buffer) returns (s: Status<Object>)
    modifies f
    ensures With(s, f.data) == ReadTraceroute(old(f.data))
  {
    hide ReadUint, ReadRecord, ReadRecords;
    var addrs := new AddressRefs();
    var flags :- ReadPart(f, addrs, TracePart);
    var hc :- ReadNumber(f, 2);
    var hops :- ReadParts(f, addrs, HopPart, hc);
    var _ :- ReadNumber(f, 2);
    return Ok(Traceroute(flags, hc, hops));
  }

  method ReadListInfo(f: Buffer) returns (s: Status<ListFlags>)
    modifies f
    ensures With(s, f.data) == ReadListFlags(old(f.data))
  {
    hide ReadUint, ReadString, IsSet;
    ghost var input := f.data;
    var first, eof := f.Read(1);
    if eof {
      return Err;
    }
    assert first == [input[0]] && f.data == input[1..];
    var dsc, mon := IsSet(first[0], 1), IsSet(first[0], 2);
    var lf := ListFlags(0, [], []);
    if !dsc && !mon {
      return Ok(lf);
    }
    var length :- ReadNumber(f, 2);
    lf := lf.(length := length);
    if dsc {
      var desc := GetString(f);
      if !desc.Ok? {
        return Ok(lf);
      }
      lf := lf.(description := desc.v);
    }
    if mon {
      var name := GetString(f);
      if !name.Ok? {
        return Ok(lf);
      }
      lf := lf.(monitor := name.v);
    }
    return Ok(lf);
  }

  method ReadListRecord(f: Buffer) returns (s: Status<Object>)
    modifies f
    ensures With(s, f.data) == ReadList(old(f.data))
  {
    hide Take, ReadString, ReadListFlags, BigEndian;
    var ids :- ReadBytes(f, 8);
    var name :- GetString(f);
    var info :- ReadListInfo(f);
    return Ok(List(BigEndian(ids[..4]), BigEndian(ids[4..]), name, info));
  }

  method ReadCycleInfo(f: Buffer) returns (s: Status<CycleFlags>)
    modifies f
    ensures With(s, f.data) == ReadCycleStartFlags(old(f.data))
  {
    hide ReadUint, ReadString, IsSet;
    ghost var input := f.data;
    var first, eof := f.Read(1);
    if eof {
      return Err;
    }
    assert first == [input[0]] && f.data == input[1..];
    var stopTime, hostname := IsSet(first[0], 1), IsSet(first[0], 2);
    var csf := CycleFlags(0, 0, []);
    if !stopTime && !hostname {
      return Ok(csf);
    }
    var length :- ReadNumber(f, 2);
    csf := csf.(length := length);
    if stopTime {
      var n :- ReadNumber(f, 4);
      csf := csf.(stopTime := n);
    }
    if hostname {
      var hn :- GetString(f);
      csf := csf.(hostname := hn);
    }
    return Ok(csf);
  }

  method ReadCycleRecord(f: Buffer) returns (s: Status<Object>)
    modifies f
    ensures With(s, f.data) == ReadCycle(old(f.data))
  {
    hide Take, ReadCycleStartFlags, BigEndian;
    var b :- ReadBytes(f, 16);
    var fl :- ReadCycleInfo(f);
    return Ok(CycleStart(BigEndian(b[..4]), BigEndian(b[4..8]), BigEndian(b[8..12]), BigEndian(b[12..]), fl));
  }

  method ReadCycleStopRecord(f: Buffer) returns (s: Status<Object>)
    modifies f
    ensures With(s, f.data) == ReadCycleStop(old(f.data))
  {
    hide Take, BigEndian;
    var b :- ReadBytes(f, 8);
    var _ :- ReadBytes(f, 1);
    return Ok(CycleStop(BigEndian(b[..4]), BigEndian(b[4..])));
  }

  method ReadHead(f: Buffer) returns (s: Status<Head>)
    modifies f
    ensures With(s, f.data) == ReadHeader(old(f.data))
  {
    hide Take, BigEndian;
    var b :- ReadBytes(f, 8);
    if BigEndian(b[..2]) != 0x1205 {
      return Err;
    }
    return Ok(Head(BigEndian(b[2..4]), BigEndian(b[4..8])));
  }

  method ReadNext(f: Buffer) returns (s: Status<Object>)
    modifies f
    ensures With(s, f.data) == ParseNext(old(f.data))
  {
    hide ReadHeader, ReadList, ReadCycle, ReadCycleStop, ReadTraceroute, ReadPing;
    var head :- ReadHead(f);
    match head.kind {
      case 0x01 => s := ReadListRecord(f);
      case 0x02 | 0x03 => s := ReadCycleRecord(f);
      case 0x04 => s := ReadCycleStopRecord(f);
      case 0x06 => s := ReadTracerouteRecord(f);
      case 0x07 => s := ReadPingRecord(f);
      case _ => s := Ok(Header(head));
    }
  }

  function Wanted(objs: seq<nat>): set<nat> {
    set t | t in objs
  }

  /** All objects of the types in `objs`; ends on every input, since every record takes eight bytes or more. */
  method Parse(data: seq<Byte>, objs: seq<nat>) returns (r: Parsed)
    ensures r == ParseFrom(data, Wanted(objs), [])
  {
    hide ParseNext;
    var types: set<nat> := {};
    for i := 0 to |objs|
      invariant types == Wanted(objs[..i])
    {
      types := types + {objs[i]};
    }
    assert objs[..|objs|] == objs;
    ghost var all := ParseFrom(data, types, []);
    var ret := [];
    var f := new Buffer(data);
    while true
      invariant ParseFrom(f.data, types, ret) == all
      decreases |f.data|
    {
      var obj := ReadNext(f);
      match obj {
        case End => return Parsed(ret);
        case Err => return Failed;
        case Ok(o) =>
          if TypeOf(o) in types {
            ret := ret + [o];
          }
      }
    }
  }

  /** What the readers do with a written file. */
  method ParseWritten(items: seq<Item>, objs: seq<nat>) returns (r: Parsed)
    requires ItemsFit(items)
    ensures r == Parsed(Requested(items, Wanted(objs)))
  {
    hide ItemsFit, EncodeItems, Requested, ParseFrom;
    r := Parse(EncodeItems(items), objs);
    ParseRoundTrip(items, Wanted(objs));
  }
}
