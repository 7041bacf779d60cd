/** The flagged parts of warts ping and traceroute records: which fields are there, and each field in its
    own format. */
module WartsRecords {
  import opened WartsFlags
  import opened WartsBytes
  import opened WartsAddress

  // ----- formats -----

  datatype Part = PingPart | ReplyPart | TracePart | HopPart

  datatype Format =
    | U8 | U16 | U32
    | TimeVal        // seconds, microseconds
    | Rtt            // microseconds in all
    | Data           // as many bytes as field 8 says
    | Addr | RefAddr | AddrList
    | TimeList       // the addresses of a timestamp request
    | Stamps         // timestamps and addresses of a timestamp reply
    | Triple         // an ICMP timestamp reply
    | Extensions     // ICMP extensions
    | Invalid

  function PingFormat(flag: nat): Format {
    match flag
    case 1 | 2 | 3 | 4 | 19 | 28 => U32
    case 5 => TimeVal
    case 6 | 7 | 12 | 13 | 16 | 22 | 23 | 27 => U8
    case 8 | 10 | 11 | 14 | 15 | 17 | 18 | 25 | 26 => U16
    case 9 => Data
    case 20 | 21 => Addr
    case 24 => TimeList
    case _ => Invalid
  }

  function ReplyFormat(flag: nat): Format {
    match flag
    case 1 | 15 => U32
    case 2 | 3 | 10 | 11 => U8
    case 4 | 5 | 7 | 8 | 9 => U16
    case 6 => Rtt
    case 12 => Addr
    case 13 => AddrList
    case 14 => Stamps
    case 16 => TimeVal
    case 17 => Triple
    case _ => Invalid
  }

  function TraceFormat(flag: nat): Format {
    match flag
    case 1 | 2 | 28 => U32
    case 3 | 4 => RefAddr
    case 5 => TimeVal
    case 6 | 7 | 8 | 9 | 10 | 11 | 15 | 16 | 17 | 18 | 20 | 21 | 22 | 24 | 25 => U8
    case 12 | 13 | 14 | 19 | 23 => U16
    case 26 | 27 => Addr
    case _ => Invalid
  }

  function HopFormat(flag: nat): Format {
    match flag
    case 1 => RefAddr
    case 2 | 3 | 4 | 5 | 11 | 14 | 15 | 16 => U8
    case 6 => Rtt
    case 7 | 8 | 9 | 10 | 12 | 13 => U16
    case 17 => Extensions
    case 18 => Addr
    case _ => Invalid
  }

  function FormatOf(part: Part, flag: nat): Format {
    match part
    case PingPart => PingFormat(flag)
    case ReplyPart => ReplyFormat(flag)
    case TracePart => TraceFormat(flag)
    case HopPart => HopFormat(flag)
  }

  /** Which flags each part may have. */
  lemma FlagsKnown(flag: nat)
    ensures FormatOf(PingPart, flag).Invalid? <==> flag < 1 || flag > 28
    ensures FormatOf(ReplyPart, flag).Invalid? <==> flag < 1 || flag > 17
    ensures FormatOf(TracePart, flag).Invalid? <==> flag < 1 || flag > 28
    ensures FormatOf(HopPart, flag).Invalid? <==> flag < 1 || flag > 18
  {
  }

  // ----- values -----

  datatype Extension = Extension(length: nat, class_: nat, kind: nat, data: seq<Byte>)

  datatype Value<A> =
    | Num(n: nat)
    | Time(sec: nat, usec: nat)
    | Bytes(bytes: seq<Byte>)
    | One(a: A)
    | Many(list: seq<A>)
    | Stamped(times: seq<nat>, list: seq<A>)
    | Three(o: nat, r: nat, t: nat)
    | Exts(total: nat, exts: seq<Extension>)

  type Fields = map<nat, Value<Address>>

  /** The data length read so far: zero unless field 8 was there. */
  function DataLength<A>(fields: map<nat, Value<A>>): nat {
    if 8 in fields && fields[8].Num? then fields[8].n else 0
  }

  // ----- reading one field -----

  function ReadExtension(input: seq<Byte>): (r: Outcome<Extension>)
    ensures r.Got? ==> |r.rest| < |input|
  {
    var length :- ReadUint(input, 2);
    var class_ :- ReadUint(length.rest, 1);
    var kind :- ReadUint(class_.rest, 1);
    var data :- Take(kind.rest, length.value);
    Got(Extension(length.value, class_.value, kind.value, data.value), data.rest)
  }

  /** Extensions until the sixteen-bit counter `i` reaches `length`. */
  function ReadExtensions(length: nat, i: nat, input: seq<Byte>, acc: seq<Extension>): (r: Outcome<seq<Extension>>)
    ensures r.Got? ==> |r.rest| <= |input|
    decreases |input|
  {
    if i >= length then Got(acc, input)
    else
      var e :- ReadExtension(input);
      ReadExtensions(length, (i + e.value.length + 4) % 0x1_0000, e.rest, acc + [e.value])
  }

  /** `n` timestamps, added to `acc`. */
  function ReadTimes(n: nat, input: seq<Byte>, acc: seq<nat>): (r: Outcome<seq<nat>>)
    ensures r.Got? ==> |r.value| == |acc| + n && |r.rest| <= |input|
    decreases n
  {
    if n == 0 then Got(acc, input)
    else
      var t :- ReadUint(input, 4);
      ReadTimes(n - 1, t.rest, acc + [t.value])
  }

  /** `n` zero addresses, which a timestamp request's list starts with. */
  function Blank(n: nat): (r: seq<Address>)
    ensures |r| == n
  {
    seq(n, i => NO_ADDRESS)
  }

  function Width(f: Format): nat {
    if f == U8 then 1 else if f == U16 then 2 else 4
  }

  /** A field with no address in it. */
  function ReadPlain(f: Format, input: seq<Byte>, dataLength: nat): (r: Outcome<Value<Address>>)
    ensures r.Got? ==> |r.rest| <= |input|
  {
    match f
    case TimeVal =>
      var sec :- ReadUint(input, 4);
      var usec :- ReadUint(sec.rest, 4);
      Got(Time(sec.value, usec.value), usec.rest)
    case Rtt =>
      var val :- ReadUint(input, 4);
      Got(Time(val.value / 1000000, val.value % 1000000), val.rest)
    case Data =>
      var b :- Take(input, dataLength);
      Got(Bytes(b.value), b.rest)
    case Triple =>
      var o :- ReadUint(input, 4);
      var r :- ReadUint(o.rest, 4);
      var t :- ReadUint(r.rest, 4);
      Got(Three(o.value, r.value, t.value), t.rest)
    case Extensions =>
      var length :- ReadUint(input, 2);
      var exts :- ReadExtensions(length.value, 0, length.rest, []);
      Got(Exts(length.value, exts.value), exts.rest)
    case U8 | U16 | U32 =>
      var n :- ReadUint(input, Width(f));
      Got(Num(n.value), n.rest)
    case _ => Fail
  }

  function ReadField(f: Format, input: seq<Byte>, dataLength: nat, refs: Refs): (r: Outcome<Known<Value<Address>>>)
    ensures r.Got? ==> |r.rest| <= |input|
  {
    match f
    case Addr =>
      var a :- ReadAddress(input, refs);
      Got(Known(One(a.value.v), a.value.refs), a.rest)
    case RefAddr =>
      var a :- ReadReference(input, refs);
      Got(Known(One(a.value.v), a.value.refs), a.rest)
    case AddrList =>
      var n :- ReadUint(input, 1);
      var list :- ReadAddresses(n.value, n.rest, refs, []);
      Got(Known(Many(list.value.v), list.value.refs), list.rest)
    case TimeList =>
      var n :- ReadUint(input, 1);
      var list :- ReadAddresses(n.value, n.rest, refs, Blank(n.value));
      Got(Known(Many(list.value.v), list.value.refs), list.rest)
    case Stamps =>
      var tsc :- ReadUint(input, 1);
      var ipc :- ReadUint(tsc.rest, 1);
      var times :- ReadTimes(tsc.value, ipc.rest, []);
      var list :- ReadAddresses(ipc.value, times.rest, refs, []);
      Got(Known(Stamped(times.value, list.value.v), list.value.refs), list.rest)
    case Invalid => Fail
    case _ =>
      var v :- ReadPlain(f, input, dataLength);
      Got(Known(v.value, refs), v.rest)
  }

  // ----- writing one field -----

  function EncodeExtension(e: Extension): seq<Byte> {
    ToBigEndian(e.length, 2) + (ToBigEndian(e.class_, 1) + (ToBigEndian(e.kind, 1) + e.data))
  }

  function EncodeExtensions(exts: seq<Extension>): seq<Byte> {
    if exts == [] then [] else EncodeExtension(exts[0]) + EncodeExtensions(exts[1..])
  }

  function EncodeTimes(times: seq<nat>): seq<Byte> {
    if times == [] then [] else ToBigEndian(times[0], 4) + EncodeTimes(times[1..])
  }

  function EncodeField(f: Format, v: Value<Sent>): seq<Byte> {
    match v
    case Num(n) => ToBigEndian(n, Width(f))
    case Time(sec, usec) =>
      if f == Rtt then ToBigEndian(1000000 * sec + usec, 4) else ToBigEndian(sec, 4) + ToBigEndian(usec, 4)
    case Bytes(b) => b
    case One(s) =>
      if f == RefAddr then ToBigEndian(if s.form.Reference? then s.form.id else 0, 4) else EncodeAddress(s)
    case Many(list) => ToBigEndian(|list|, 1) + EncodeAddresses(list)
    case Stamped(times, list) =>
      ToBigEndian(|times|, 1) + (ToBigEndian(|list|, 1) + (EncodeTimes(times) + EncodeAddresses(list)))
    case Three(o, r, t) => ToBigEndian(o, 4) + (ToBigEndian(r, 4) + ToBigEndian(t, 4))
    case Exts(total, exts) => ToBigEndian(total, 2) + EncodeExtensions(exts)
  }

  predicate ExtensionFits(e: Extension) {
    e.length == |e.data| && e.class_ < 256 && e.kind < 256
  }

  predicate ExtensionsFit(exts: seq<Extension>) {
    forall i :: 0 <= i < |exts| ==> ExtensionFits(exts[i])
  }

  /** The bytes that extensions take. */
  function Total(exts: seq<Extension>): nat {
    if exts == [] then 0 else exts[0].length + 4 + Total(exts[1..])
  }

  predicate U32s(times: seq<nat>) {
    forall i :: 0 <= i < |times| ==> times[i] < 0x1_0000_0000
  }

  /** Whether a value can be written in format `f` for a reader with this dictionary. */
  predicate FieldFits(f: Format, v: Value<Sent>, dataLength: nat, refs: Refs) {
    match f
    case U8 | U16 | U32 => v.Num? && v.n < Pow256(Width(f))
    case TimeVal => v.Time? && v.sec < 0x1_0000_0000 && v.usec < 0x1_0000_0000
    case Rtt => v.Time? && v.usec < 1000000 && 1000000 * v.sec + v.usec < 0x1_0000_0000
    case Data => v.Bytes? && |v.bytes| == dataLength
    case Triple => v.Three? && U32s([v.o, v.r, v.t])
    case Extensions => v.Exts? && ExtensionsFit(v.exts) && v.total == Total(v.exts) < 0x1_0000
    case Addr => v.One? && Fits(v.a, refs)
    case RefAddr => v.One? && v.a.form.Reference? && Fits(v.a, refs)
    case AddrList | TimeList => v.Many? && |v.list| < 256 && AllFit(v.list, refs)
    case Stamps => v.Stamped? && |v.times| < 256 && |v.list| < 256 && U32s(v.times) && AllFit(v.list, refs)
    case Invalid => false
  }

  /** The value a reader is meant to get. The list of a timestamp request comes with as many zero addresses
      in front of it. */
  function Meant(f: Format, v: Value<Sent>): Value<Address> {
    match v
    case Num(n) => Num(n)
    case Time(sec, usec) => Time(sec, usec)
    case Bytes(b) => Bytes(b)
    case One(s) => One(s.addr)
    case Many(list) => Many((if f == TimeList then Blank(|list|) else []) + Plain(list))
    case Stamped(times, list) => Stamped(times, Plain(list))
    case Three(o, r, t) => Three(o, r, t)
    case Exts(total, exts) => Exts(total, exts)
  }

  /** The dictionary after the value. */
  function AfterField(f: Format, v: Value<Sent>, refs: Refs): Refs {
    match v
    case One(s) => if f == RefAddr then refs else After(s, refs)
    case Many(list) => AfterAll(list, refs)
    case Stamped(_, list) => AfterAll(list, refs)
    case _ => refs
  }

  // ----- one field, there and back -----

  lemma {:induction false} ExtensionsRoundTrip(exts: seq<Extension>, i: nat, length: nat, acc: seq<Extension>,
                                               rest: seq<Byte>)
    requires ExtensionsFit(exts) && i + Total(exts) == length < 0x1_0000
    ensures ReadExtensions(length, i, EncodeExtensions(exts) + rest, acc) == Got(acc + exts, rest)
    decreases exts
  {
    hide ReadExtension, EncodeExtension, ExtensionFits;
    if exts == [] {
      assert EncodeExtensions(exts) + rest == rest && acc + exts == acc;
    } else {
      var e, more := exts[0], EncodeExtensions(exts[1..]) + rest;
      assert EncodeExtensions(exts) + rest == EncodeExtension(e) + more;
      ExtensionRoundTrip(e, more);
      assert i < length && (i + e.length + 4) % 0x1_0000 == i + e.length + 4;
      ExtensionsRoundTrip(exts[1..], i + e.length + 4, length, acc + [e], rest);
      assert acc + [e] + exts[1..] == acc + exts;
    }
  }

  lemma ExtensionRoundTrip(e: Extension, rest: seq<Byte>)
    requires ExtensionFits(e) && e.length < 0x1_0000
    ensures ReadExtension(EncodeExtension(e) + rest) == Got(e, rest)
  {
    hide Take, ReadUint, ToBigEndian, Pow256;
    Widths();
    var kind := ToBigEndian(e.kind, 1) + (e.data + rest);
    var class_ := ToBigEndian(e.class_, 1) + kind;
    assert EncodeExtension(e) + rest == ToBigEndian(e.length, 2) + class_;
    UintRoundTrip(e.length, 2, class_);
    UintRoundTrip(e.class_, 1, kind);
    UintRoundTrip(e.kind, 1, e.data + rest);
    TakeRoundTrip(e.data, rest);
  }

  lemma {:induction false} TimesRoundTrip(times: seq<nat>, acc: seq<nat>, rest: seq<Byte>)
    requires U32s(times)
    ensures ReadTimes(|times|, EncodeTimes(times) + rest, acc) == Got(acc + times, rest)
    decreases times
  {
    hide ReadUint, ToBigEndian, Pow256;
    Widths();
    if times == [] {
      assert EncodeTimes(times) + rest == rest && acc + times == acc;
    } else {
      var more := EncodeTimes(times[1..]) + rest;
      assert EncodeTimes(times) + rest == ToBigEndian(times[0], 4) + more;
      UintRoundTrip(times[0], 4, more);
      TimesRoundTrip(times[1..], acc + [times[0]], rest);
      assert acc + [times[0]] + times[1..] == acc + times;
    }
  }

  lemma TwoU32s(a: nat, b: nat, rest: seq<Byte>)
    requires a < 0x1_0000_0000 && b < 0x1_0000_0000
    ensures var i := ToBigEndian(a, 4) + ToBigEndian(b, 4) + rest;
            var x := ReadUint(i, 4);
            x == Got(a, ToBigEndian(b, 4) + rest) && ReadUint(x.rest, 4) == Got(b, rest)
  {
    hide ReadUint, ToBigEndian, Pow256;
    Widths();
    assert ToBigEndian(a, 4) + ToBigEndian(b, 4) + rest == ToBigEndian(a, 4) + (ToBigEndian(b, 4) + rest);
    UintRoundTrip(a, 4, ToBigEndian(b, 4) + rest);
    UintRoundTrip(b, 4, rest);
  }

  lemma PlainRoundTrip(f: Format, v: Value<Sent>, dataLength: nat, refs: Refs, rest: seq<Byte>)
    requires FieldFits(f, v, dataLength, refs) && !f.Addr? && !f.RefAddr? && !f.AddrList? && !f.TimeList? && !f.Stamps?
    ensures ReadPlain(f, EncodeField(f, v) + rest, dataLength) == Got(Meant(f, v), rest)
  {
    hide ReadUint, ToBigEndian, Pow256, Take, ReadExtensions, EncodeExtensions, ExtensionsFit, Total, AllFit;
    Widths();
    match f
    case TimeVal => TwoU32s(v.sec, v.usec, rest);
    case Rtt => UintRoundTrip(1000000 * v.sec + v.usec, 4, rest);
    case Data => TakeRoundTrip(v.bytes, rest);
    case Triple =>
      TripleFits(v);
      var tail := ToBigEndian(v.r, 4) + ToBigEndian(v.t, 4);
      assert EncodeField(f, v) + rest == ToBigEndian(v.o, 4) + (tail + rest);
      UintRoundTrip(v.o, 4, tail + rest);
      TwoU32s(v.r, v.t, rest);
    case Extensions =>
      assert EncodeField(f, v) + rest == ToBigEndian(v.total, 2) + (EncodeExtensions(v.exts) + rest);
      UintRoundTrip(v.total, 2, EncodeExtensions(v.exts) + rest);
      ExtensionsRoundTrip(v.exts, 0, v.total, [], rest);
      assert [] + v.exts == v.exts;
    case U8 | U16 | U32 => UintRoundTrip(v.n, Width(f), rest);
  }

  lemma TripleFits(v: Value<Sent>)
    requires v.Three? && U32s([v.o, v.r, v.t])
    ensures v.o < 0x1_0000_0000 && v.r < 0x1_0000_0000 && v.t < 0x1_0000_0000
  {
    var times := [v.o, v.r, v.t];
    assert times[0] == v.o && times[1] == v.r && times[2] == v.t;
  }

  lemma CountedRoundTrip(list: seq<Sent>, refs: Refs, acc: seq<Address>, rest: seq<Byte>)
    requires |list| < 256 && AllFit(list, refs)
    ensures var n := ReadUint(ToBigEndian(|list|, 1) + EncodeAddresses(list) + rest, 1);
            && n == Got(|list|, EncodeAddresses(list) + rest)
            && ReadAddresses(n.value, n.rest, refs, acc) == Got(Known(acc + Plain(list), AfterAll(list, refs)), rest)
  {
    hide ReadUint, ToBigEndian, Pow256, ReadAddresses, EncodeAddresses, AllFit, AfterAll;
    Widths();
    assert ToBigEndian(|list|, 1) + EncodeAddresses(list) + rest
      == ToBigEndian(|list|, 1) + (EncodeAddresses(list) + rest);
    UintRoundTrip(|list|, 1, EncodeAddresses(list) + rest);
    AddressesRoundTrip(list, refs, acc, rest);
  }

  lemma StampsRoundTrip(v: Value<Sent>, refs: Refs, rest: seq<Byte>)
    requires v.Stamped? && |v.times| < 256 && |v.list| < 256 && U32s(v.times) && AllFit(v.list, refs)
    ensures ReadField(Stamps, EncodeField(Stamps, v) + rest, 0, refs)
         == Got(Known(Meant(Stamps, v), AfterField(Stamps, v, refs)), rest)
  {
    hide ReadUint, ToBigEndian, Pow256, ReadAddresses, EncodeAddresses, AllFit, AfterAll, ReadTimes, EncodeTimes, Plain;
    Widths();
    var addrs := EncodeAddresses(v.list) + rest;
    var times := EncodeTimes(v.times) + addrs;
    assert EncodeField(Stamps, v) + rest == ToBigEndian(|v.times|, 1) + (ToBigEndian(|v.list|, 1) + times);
    UintRoundTrip(|v.times|, 1, ToBigEndian(|v.list|, 1) + times);
    UintRoundTrip(|v.list|, 1, times);
    TimesRoundTrip(v.times, [], addrs);
    AddressesRoundTrip(v.list, refs, [], rest);
    assert [] + v.times == v.times && [] + Plain(v.list) == Plain(v.list);
  }

  lemma FieldRoundTrip(f: Format, v: Value<Sent>, dataLength: nat, refs: Refs, rest: seq<Byte>)
    requires FieldFits(f, v, dataLength, refs)
    ensures ReadField(f, EncodeField(f, v) + rest, dataLength, refs)
      == Got(Known(Meant(f, v), AfterField(f, v, refs)), rest)
  {
    hide ReadUint, ToBigEndian, ReadAddress, ReadReference, ReadPlain, ReadAddresses, EncodeAddress, EncodeAddresses,
         ReadTimes, EncodeTimes, AllFit, AfterAll, After, Plain, ExtensionsFit, Total, EncodeExtensions, Get, Pow256,
         Blank;
    match f
    case Addr =>
      AddressRoundTrip(v.a, refs, rest);
    case RefAddr =>
      ReferenceRead(v.a.form.id, refs, rest);
    case AddrList =>
      CountedRoundTrip(v.list, refs, [], rest);
    case TimeList =>
      CountedRoundTrip(v.list, refs, Blank(|v.list|), rest);
    case Stamps =>
      StampsRoundTrip(v, refs, rest);
    case _ =>
      PlainRoundTrip(f, v, dataLength, refs, rest);
  }

  // ----- the fields of a part -----

  function ReadFields(part: Part, flags: seq<nat>, input: seq<Byte>, refs: Refs,
                      acc: Fields): (r: Outcome<Known<Fields>>)
    ensures r.Got? ==> |r.rest| <= |input|
    decreases |flags|
  {
    if flags == [] then Got(Known(acc, refs), input)
    else
      var v :- ReadField(FormatOf(part, flags[0]), input, DataLength(acc), refs);
      ReadFields(part, flags[1..], v.rest, v.value.refs, acc[flags[0] := v.value.v])
  }

  /** A part as read: the flags that were set, in order, and their fields. */
  datatype Record = Record(flags: seq<nat>, fields: Fields)

  function ReadRecord(part: Part, input: seq<Byte>, refs: Refs): (r: Outcome<Known<Record>>)
    ensures r.Got? ==> |r.rest| < |input|
  {
    if input == [] then (if part.TracePart? then Fail else Eof)
    else
      ReadConsumes(input[0], input[1..], 1);
      var chain := ReadFlags(input[0], input[1..], 1);
      if chain.EndOfInput? then Eof
      else
        var start :- if chain.list == [] then Got(0, chain.rest) else ReadUint(chain.rest, 2);
        var fields :- ReadFields(part, chain.list, start.rest, refs, map[]);
        Got(Known(Record(chain.list, fields.value.v), fields.value.refs), fields.rest)
  }

  function ReadRecords(part: Part, n: nat, input: seq<Byte>, refs: Refs,
                       acc: seq<Record>): (r: Outcome<Known<seq<Record>>>)
    ensures r.Got? ==> |r.value.v| == |acc| + n && |r.rest| <= |input|
    decreases n
  {
    if n == 0 then Got(Known(acc, refs), input)
    else
      var p :- ReadRecord(part, input, refs);
      ReadRecords(part, n - 1, p.rest, p.value.refs, acc + [p.value.v])
  }

  // ----- writing a part -----

  /** A part to write: its fields, the number of flag bytes, and the length it claims, which no reader
      looks at. */
  datatype Sheet = Sheet(chain: nat, length: nat, fields: map<nat, Value<Sent>>)

  function FlagList(w: Sheet): seq<nat> {
    Ascending(w.fields.Keys, 1, 7 * w.chain)
  }

  function EncodeFields(part: Part, flags: seq<nat>, fields: map<nat, Value<Sent>>): seq<Byte>
    requires forall x <- flags :: x in fields
  {
    if flags == [] then []
    else EncodeField(FormatOf(part, flags[0]), fields[flags[0]]) + EncodeFields(part, flags[1..], fields)
  }

  function EncodeRecord(part: Part, w: Sheet): seq<Byte>
    requires w.chain >= 1
  {
    EncodeFrom(w.fields.Keys, 1, w.chain)
    + ((if FlagList(w) == [] then [] else ToBigEndian(w.length, 2)) + EncodeFields(part, FlagList(w), w.fields))
  }

  predicate FieldsFit(part: Part, flags: seq<nat>, fields: map<nat, Value<Sent>>, refs: Refs)
    requires forall x <- flags :: x in fields
  {
    flags == [] ||
    (var f, v := FormatOf(part, flags[0]), fields[flags[0]];
     && FieldFits(f, v, DataLength(fields), refs)
     && FieldsFit(part, flags[1..], fields, AfterField(f, v, refs)))
  }

  function AfterFields(part: Part, flags: seq<nat>, fields: map<nat, Value<Sent>>, refs: Refs): Refs
    requires forall x <- flags :: x in fields
  {
    if flags == [] then refs
    else AfterFields(part, flags[1..], fields, AfterField(FormatOf(part, flags[0]), fields[flags[0]], refs))
  }

  /** Whether a part can be written for a reader with this dictionary. */
  predicate SheetFits(part: Part, w: Sheet, refs: Refs): (fits: bool)
    ensures fits ==> w.chain >= 1
  {
    && 1 <= w.chain <= 36 && w.length < 0x1_0000
    && (forall x <- w.fields.Keys :: 1 <= x <= 7 * w.chain)
    && FieldsFit(part, FlagList(w), w.fields, refs)
  }

  function MeantFields(part: Part, fields: map<nat, Value<Sent>>): Fields {
    map x | x in fields :: Meant(FormatOf(part, x), fields[x])
  }

  function MeantRecord(part: Part, w: Sheet): Record {
    Record(FlagList(w), MeantFields(part, w.fields))
  }

  function AfterRecord(part: Part, w: Sheet, refs: Refs): Refs {
    AfterFields(part, FlagList(w), w.fields, refs)
  }

  function EncodeRecords(part: Part, ws: seq<Sheet>): seq<Byte>
    requires forall w <- ws :: w.chain >= 1
  {
    if ws == [] then [] else EncodeRecord(part, ws[0]) + EncodeRecords(part, ws[1..])
  }

  predicate SheetsFit(part: Part, ws: seq<Sheet>, refs: Refs) {
    ws == [] || (SheetFits(part, ws[0], refs) && SheetsFit(part, ws[1..], AfterRecord(part, ws[0], refs)))
  }

  function AfterRecords(part: Part, ws: seq<Sheet>, refs: Refs): Refs {
    if ws == [] then refs else AfterRecords(part, ws[1..], AfterRecord(part, ws[0], refs))
  }

  function MeantRecords(part: Part, ws: seq<Sheet>): (r: seq<Record>)
    ensures |r| == |ws|
  {
    seq(|ws|, i requires 0 <= i < |ws| => MeantRecord(part, ws[i]))
  }

  // ----- parts, there and back -----

  /** The fields already read when the flags left to read are `flags`. */
  ghost predicate ReadSoFar(part: Part, flags: seq<nat>, fields: map<nat, Value<Sent>>, acc: Fields) {
    && StrictlyAscending(flags)
    && (forall x :: x in acc <==> x in fields && x !in flags)
    && (forall x :: x in acc ==> acc[x] == Meant(FormatOf(part, x), fields[x]))
    && (forall x, y :: x in acc && y in flags ==> x < y)
  }

  /** Flags come in ascending order, so the data length is known before the data is read. */
  lemma LengthBeforeData(part: Part, flags: seq<nat>, fields: map<nat, Value<Sent>>, acc: Fields)
    requires flags != [] && flags[0] == 9 && ReadSoFar(part, flags, fields, acc)
    ensures DataLength(acc) == DataLength(fields)
  {
    assert forall i :: 0 < i < |flags| ==> flags[0] < flags[i];
    hide FormatOf;
  }

  lemma NeedsNoLength(f: Format, v: Value<Sent>, a: nat, b: nat, refs: Refs)
    requires FieldFits(f, v, a, refs) && !f.Data?
    ensures FieldFits(f, v, b, refs)
  {
    hide AllFit, Fits, Pow256, ExtensionsFit, Total, U32s;
  }

  lemma DataIsNine(part: Part, flag: nat)
    requires FormatOf(part, flag).Data?
    ensures flag == 9
  {
  }

  lemma ReadOneMore(part: Part, flags: seq<nat>, fields: map<nat, Value<Sent>>, acc: Fields)
    requires flags != [] && flags[0] in fields && ReadSoFar(part, flags, fields, acc)
    ensures ReadSoFar(part, flags[1..], fields, acc[flags[0] := Meant(FormatOf(part, flags[0]), fields[flags[0]])])
  {
    hide FormatOf, Meant;
    assert forall x :: x in flags <==> x == flags[0] || x in flags[1..];
    assert forall i :: 0 <= i < |flags[1..]| ==> flags[1..][i] == flags[i + 1];
    assert flags[0] !in flags[1..];
  }

  lemma {:induction false} FieldsRoundTrip(part: Part, flags: seq<nat>, fields: map<nat, Value<Sent>>, refs: Refs,
                                           acc: Fields, rest: seq<Byte>)
    requires (forall x <- flags :: x in fields) && ReadSoFar(part, flags, fields, acc)
    requires FieldsFit(part, flags, fields, refs)
    ensures ReadFields(part, flags, EncodeFields(part, flags, fields) + rest, refs, acc)
         == Got(Known(MeantFields(part, fields), AfterFields(part, flags, fields, refs)), rest)
    decreases flags
  {
    hide FormatOf, ReadSoFar, FieldFits, ReadField, EncodeField, AfterField, DataLength, Meant;
    if flags == [] {
      assert EncodeFields(part, flags, fields) + rest == rest;
      AllRead(part, fields, acc);
    } else {
      var f, v := FormatOf(part, flags[0]), fields[flags[0]];
      var more := EncodeFields(part, flags[1..], fields) + rest;
      assert EncodeFields(part, flags, fields) + rest == EncodeField(f, v) + more;
      if f.Data? {
        DataIsNine(part, flags[0]);
        LengthBeforeData(part, flags, fields, acc);
      } else {
        NeedsNoLength(f, v, DataLength(fields), DataLength(acc), refs);
      }
      FieldRoundTrip(f, v, DataLength(acc), refs, more);
      ReadOneMore(part, flags, fields, acc);
      FieldsRoundTrip(part, flags[1..], fields, AfterField(f, v, refs), acc[flags[0] := Meant(f, v)], rest);
    }
  }

  lemma AllRead(part: Part, fields: map<nat, Value<Sent>>, acc: Fields)
    requires ReadSoFar(part, [], fields, acc)
    ensures acc == MeantFields(part, fields)
  {
    hide FormatOf, Meant;
  }

  /** A part with any set of valid fields, its flags in any sufficient number of bytes, is read back whole,
      and exactly its bytes are consumed. */
  lemma RecordRoundTrip(part: Part, w: Sheet, refs: Refs, rest: seq<Byte>)
    requires SheetFits(part, w, refs)
    ensures ReadRecord(part, EncodeRecord(part, w) + rest, refs)
      == Got(Known(MeantRecord(part, w), AfterRecord(part, w, refs)), rest)
  {
    hide FormatOf, ReadFields, EncodeFields, FieldsFit, AfterFields, MeantFields, ReadFlags, EncodeFrom, Ascending,
         ReadUint, ToBigEndian, ReadSoFar;
    var s, flags := w.fields.Keys, FlagList(w);
    var chain := EncodeFrom(s, 1, w.chain);
    var body := EncodeFields(part, flags, w.fields) + rest;
    var length := if flags == [] then [] else ToBigEndian(w.length, 2);
    var input := EncodeRecord(part, w) + rest;
    assert input == chain + (length + body);
    assert input[0] == chain[0] && input[1..] == chain[1..] + (length + body);
    ReadEncoded(s, 1, w.chain, length + body);
    if flags == [] {
      assert length + body == body;
    } else {
      Widths();
      UintRoundTrip(w.length, 2, body);
    }
    NothingRead(part, w);
    FieldsRoundTrip(part, flags, w.fields, refs, map[], rest);
  }

  lemma NothingRead(part: Part, w: Sheet)
    requires w.chain >= 1 && forall x <- w.fields.Keys :: 1 <= x <= 7 * w.chain
    ensures ReadSoFar(part, FlagList(w), w.fields, map[])
  {
    hide FormatOf, Ascending;
  }

  lemma {:induction false} RecordsRoundTrip(part: Part, ws: seq<Sheet>, refs: Refs, acc: seq<Record>, rest: seq<Byte>)
    requires SheetsFit(part, ws, refs)
    requires forall w <- ws :: w.chain >= 1
    ensures ReadRecords(part, |ws|, EncodeRecords(part, ws) + rest, refs, acc)
         == Got(Known(acc + MeantRecords(part, ws), AfterRecords(part, ws, refs)), rest)
    decreases ws
  {
    hide ReadRecord, EncodeRecord, SheetFits, AfterRecord, MeantRecord, MeantRecords;
    if ws == [] {
      assert EncodeRecords(part, ws) + rest == rest;
      assert acc + MeantRecords(part, ws) == acc;
    } else {
      var more := EncodeRecords(part, ws[1..]) + rest;
      assert EncodeRecords(part, ws) + rest == EncodeRecord(part, ws[0]) + more;
      RecordRoundTrip(part, ws[0], refs, more);
      RecordsRoundTrip(part, ws[1..], AfterRecord(part, ws[0], refs), acc + [MeantRecord(part, ws[0])], rest);
      MeantRecordsFirst(part, ws, acc);
    }
  }

  lemma MeantRecordsFirst(part: Part, ws: seq<Sheet>, acc: seq<Record>)
    requires ws != []
    ensures acc + [MeantRecord(part, ws[0])] + MeantRecords(part, ws[1..]) == acc + MeantRecords(part, ws)
  {
    hide MeantRecord;
    assert MeantRecords(part, ws) == [MeantRecord(part, ws[0])] + MeantRecords(part, ws[1..]);
  }
}
