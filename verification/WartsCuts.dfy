/** Files that are cut off: at which bytes of a record the end of the input is taken for the end of the
    records, where it is an error, and where a list comes back without its last strings. */
module WartsCuts {
  import opened WartsFlags
  import opened WartsBytes
  import opened WartsAddress
  import opened WartsRecords
  import opened WartsParse

  // ----- where a cut is silent, from the layout -----

  /** Right before the bytes of an address that is written out. */
  predicate AddressCut(s: Sent, n: nat) {
    s.form.Literal? && n == 2
  }

  predicate AddressesCut(list: seq<Sent>, n: nat) {
    list != [] &&
    (var e := |EncodeAddress(list[0])|;
     if n < e then AddressCut(list[0], n) else AddressesCut(list[1..], n - e))
  }

  /** Right before the data of an extension that has any. */
  predicate ExtensionsCut(exts: seq<Extension>, n: nat) {
    exts != [] &&
    (var e := |EncodeExtension(exts[0])|;
     if n < e then n == 4 else ExtensionsCut(exts[1..], n - e))
  }

  predicate FieldCut(f: Format, v: Value<Sent>, n: nat) {
    match v
    case Bytes(_) => n == 0
    case One(s) => f != RefAddr && AddressCut(s, n)
    case Many(list) => n >= 1 && AddressesCut(list, n - 1)
    case Stamped(times, list) => n >= 2 + 4 * |times| && AddressesCut(list, n - 2 - 4 * |times|)
    case Exts(_, exts) => n >= 2 && ExtensionsCut(exts, n - 2)
    case _ => false
  }

  predicate FieldsCut(part: Part, flags: seq<nat>, fields: map<nat, Value<Sent>>, n: nat)
    requires forall x <- flags :: x in fields
  {
    flags != [] &&
    (var f, v := FormatOf(part, flags[0]), fields[flags[0]];
     var e := |EncodeField(f, v)|;
     if n < e then FieldCut(f, v, n) else FieldsCut(part, flags[1..], fields, n - e))
  }

  /** Before a part, unless it is the first of a traceroute; within its flags; or silently within a field. */
  predicate PartCut(part: Part, w: Sheet, n: nat) {
    if n == 0 then !part.TracePart?
    else if n < w.chain then true
    else
      var m := n - w.chain;
      FlagList(w) != [] && m >= 2 && FieldsCut(part, FlagList(w), w.fields, m - 2)
  }

  predicate PartsCut(part: Part, ws: seq<Sheet>, n: nat)
    requires forall w <- ws :: w.chain >= 1
  {
    ws != [] &&
    (var e := |EncodeRecord(part, ws[0])|;
     if n < e then PartCut(part, ws[0], n) else PartsCut(part, ws[1..], n - e))
  }

  /** First part, a count of two bytes, and the parts counted. */
  predicate CountedCut(first: Part, flags: Sheet, part: Part, ws: seq<Sheet>, n: nat)
    requires flags.chain >= 1 && forall w <- ws :: w.chain >= 1
  {
    var e := |EncodeRecord(first, flags)|;
    if n < e then PartCut(first, flags, n) else n >= e + 2 && PartsCut(part, ws, n - e - 2)
  }

  /** Where a record cut off after `n` bytes ends the parse without an error. */
  predicate SilentCut(i: Item, n: nat)
    requires ItemFits(i)
  {
    if n < 8 then n == 0
    else
      var m := n - 8;
      match i
      case PingItem(_, flags, replies) =>
        SheetsChained(ReplyPart, replies, AfterRecord(PingPart, flags, NO_REFS));
        CountedCut(PingPart, flags, ReplyPart, replies, m)
      case TracerouteItem(_, flags, hops, _) =>
        SheetsChained(HopPart, hops, AfterRecord(TracePart, flags, NO_REFS));
        CountedCut(TracePart, flags, HopPart, hops, m)
      case ListItem(_, l, _, _) => m == 0 || 8 <= m <= 8 + |l.name|
      case CycleItem(_, _, c, stopped, hosted) => m == 0 || (hosted && m >= 19 + if stopped then 4 else 0)
      case StopItem(_, _, _) => m == 0 || m == 8
      case OtherItem(_) => false
  }

  /** Where a list cut off after `n` bytes still comes back: within its last strings. */
  predicate ListCut(i: Item, n: nat) {
    i.ListItem? && i.list.List? && (i.described || i.monitored) && n >= 8 + 8 + |i.list.name| + 1 + 3
  }

  /** The list that comes back: a string that is not whole is empty, and so is the one after it. */
  function Shortened(i: Item, n: nat): Object
    requires ListCut(i, n)
  {
    var l := i.list;
    var whole := i.described && n >= 8 + 8 + |l.name| + 1 + 3 + |l.info.description| + 1;
    l.(info := ListFlags(l.info.length, if whole then l.info.description else [], []))
  }

  // ----- cuts within what is written in one piece -----

  lemma PrefixOf(a: seq<Byte>, b: seq<Byte>, n: nat)
    requires n <= |a| + |b|
    ensures (a + b)[..n] == if n <= |a| then a[..n] else a + b[..n - |a|]
  {
  }

  lemma TooShort(input: seq<Byte>, width: nat)
    requires |input| < width
    ensures ReadUint(input, width).Fail?
    ensures if input == [] then Take(input, width).Eof? else Take(input, width).Fail?
  {
  }

  lemma AddressCutOff(s: Sent, n: nat, refs: Refs)
    requires Sized(s) && n < |EncodeAddress(s)|
    ensures var r := ReadAddress(EncodeAddress(s)[..n], refs);
            !r.Got? && (r.Eof? <==> AddressCut(s, n))
  {
    hide BigEndian, ToBigEndian, Pow256, ReadUint, Take;
    Widths();
    var e := EncodeAddress(s);
    if n == 0 {
      TooShort(e[..0], 1);
    } else {
      match s.form
      case Reference(id) =>
        var tail := ToBigEndian(id, 4)[..n - 1];
        PrefixOf(ToBigEndian(0, 1), ToBigEndian(id, 4), n);
        assert e[..n] == ToBigEndian(0, 1) + tail;
        UintRoundTrip(0, 1, tail);
        TooShort(tail, 4);
      case Literal(width) =>
        LiteralCutOff(s, n, refs);
    }
  }

  lemma LiteralCutOff(s: Sent, n: nat, refs: Refs)
    requires Sized(s) && s.form.Literal? && 0 < n < |EncodeAddress(s)|
    ensures var r := ReadAddress(EncodeAddress(s)[..n], refs);
            !r.Got? && (r.Eof? <==> n == 2)
  {
    hide BigEndian, ToBigEndian, Pow256, ReadUint, Take;
    Widths();
    var width := s.form.width;
    var l, k, b := ToBigEndian(width, 1), ToBigEndian(s.addr.kind, 1), ToBigEndian(s.addr.value, width);
    PrefixOf(l, k + b, n);
    var tail := (k + b)[..n - 1];
    assert EncodeAddress(s)[..n] == l + tail;
    UintRoundTrip(width, 1, tail);
    if n == 1 {
      TooShort(tail, 1);
    } else {
      PrefixOf(k, b, n - 1);
      assert tail == k + b[..n - 2];
      UintRoundTrip(s.addr.kind, 1, b[..n - 2]);
      TooShort(b[..n - 2], width);
    }
  }

  lemma {:induction false} AddressesCutOff(list: seq<Sent>, n: nat, refs: Refs, acc: seq<Address>)
    requires AllFit(list, refs) && n < |EncodeAddresses(list)|
    ensures var r := ReadAddresses(|list|, EncodeAddresses(list)[..n], refs, acc);
            !r.Got? && (r.Eof? <==> AddressesCut(list, n))
    decreases list
  {
    hide ReadAddress, EncodeAddress, Fits, After, AddressCut;
    var e, more := EncodeAddress(list[0]), EncodeAddresses(list[1..]);
    FitsSized(list[0], refs);
    PrefixOf(e, more, n);
    if n < |e| {
      AddressCutOff(list[0], n, refs);
    } else {
      var tail := more[..n - |e|];
      assert EncodeAddresses(list)[..n] == e + tail;
      AddressRoundTrip(list[0], refs, tail);
      AddressesCutOff(list[1..], n - |e|, After(list[0], refs), acc + [list[0].addr]);
    }
  }

  lemma ExtensionCutOff(e: Extension, n: nat)
    requires ExtensionFits(e) && e.length < 0x1_0000 && n < |EncodeExtension(e)|
    ensures var r := ReadExtension(EncodeExtension(e)[..n]);
            !r.Got? && (r.Eof? <==> n == 4)
  {
    hide Take, ReadUint, ToBigEndian, Pow256;
    Widths();
    var length, class_, kind := ToBigEndian(e.length, 2), ToBigEndian(e.class_, 1), ToBigEndian(e.kind, 1);
    PrefixOf(length, class_ + (kind + e.data), n);
    if n < 2 {
      TooShort(EncodeExtension(e)[..n], 2);
    } else {
      var t2 := (class_ + (kind + e.data))[..n - 2];
      assert EncodeExtension(e)[..n] == length + t2;
      UintRoundTrip(e.length, 2, t2);
      PrefixOf(class_, kind + e.data, n - 2);
      if n < 3 {
        TooShort(t2, 1);
      } else {
        var t3 := (kind + e.data)[..n - 3];
        assert t2 == class_ + t3;
        UintRoundTrip(e.class_, 1, t3);
        PrefixOf(kind, e.data, n - 3);
        if n < 4 {
          TooShort(t3, 1);
        } else {
          assert t3 == kind + e.data[..n - 4];
          UintRoundTrip(e.kind, 1, e.data[..n - 4]);
          TooShort(e.data[..n - 4], e.length);
        }
      }
    }
  }

  lemma {:induction false} ExtensionsCutOff(exts: seq<Extension>, n: nat, i: nat, length: nat, acc: seq<Extension>)
    requires ExtensionsFit(exts) && i + Total(exts) == length < 0x1_0000 && n < |EncodeExtensions(exts)|
    ensures var r := ReadExtensions(length, i, EncodeExtensions(exts)[..n], acc);
            !r.Got? && (r.Eof? <==> ExtensionsCut(exts, n))
    decreases exts
  {
    hide ReadExtension, EncodeExtension, ExtensionFits;
    var e, first, more := exts[0], EncodeExtension(exts[0]), EncodeExtensions(exts[1..]);
    PrefixOf(first, more, n);
    assert i < length;
    if n < |first| {
      ExtensionCutOff(e, n);
    } else {
      var tail := more[..n - |first|];
      assert EncodeExtensions(exts)[..n] == first + tail;
      ExtensionRoundTrip(e, tail);
      ExtensionsCutOff(exts[1..], n - |first|, i + e.length + 4, length, acc + [e]);
    }
  }

  lemma {:induction false} TimesLength(times: seq<nat>)
    ensures |EncodeTimes(times)| == 4 * |times|
  {
    if times != [] {
      TimesLength(times[1..]);
    }
  }

  lemma {:induction false} TimesCutOff(times: seq<nat>, n: nat, acc: seq<nat>)
    requires U32s(times) && n < |EncodeTimes(times)|
    ensures ReadTimes(|times|, EncodeTimes(times)[..n], acc).Fail?
    decreases times
  {
    hide ReadUint, ToBigEndian, Pow256;
    Widths();
    var e, more := ToBigEndian(times[0], 4), EncodeTimes(times[1..]);
    PrefixOf(e, more, n);
    if n < 4 {
      TooShort(EncodeTimes(times)[..n], 4);
    } else {
      var tail := more[..n - 4];
      assert EncodeTimes(times)[..n] == e + tail;
      UintRoundTrip(times[0], 4, tail);
      TimesCutOff(times[1..], n - 4, acc + [times[0]]);
    }
  }

  // ----- cuts within a field -----

  lemma NumbersCutOff(a: nat, b: nat, n: nat)
    requires a < 0x1_0000_0000 && n < 8
    ensures var x := ReadUint((ToBigEndian(a, 4) + ToBigEndian(b, 4))[..n], 4);
            x.Fail? || (x.Got? && ReadUint(x.rest, 4).Fail?)
  {
    hide ReadUint, ToBigEndian, Pow256;
    Widths();
    PrefixOf(ToBigEndian(a, 4), ToBigEndian(b, 4), n);
    if n < 4 {
      TooShort((ToBigEndian(a, 4) + ToBigEndian(b, 4))[..n], 4);
    } else {
      var tail := ToBigEndian(b, 4)[..n - 4];
      assert (ToBigEndian(a, 4) + ToBigEndian(b, 4))[..n] == ToBigEndian(a, 4) + tail;
      UintRoundTrip(a, 4, tail);
      TooShort(tail, 4);
    }
  }

  lemma PlainCutOff(f: Format, v: Value<Sent>, n: nat, dataLength: nat, refs: Refs)
    requires FieldFits(f, v, dataLength, refs) && n < |EncodeField(f, v)|
    requires !f.Addr? && !f.RefAddr? && !f.AddrList? && !f.TimeList? && !f.Stamps?
    ensures var r := ReadPlain(f, EncodeField(f, v)[..n], dataLength);
            !r.Got? && (r.Eof? <==> FieldCut(f, v, n))
  {
    hide ReadUint, ToBigEndian, Pow256, Take, ReadExtensions, EncodeExtensions, ExtensionsFit, Total, AllFit,
         ExtensionsCut;
    Widths();
    var e := EncodeField(f, v);
    match f
    case TimeVal => NumbersCutOff(v.sec, v.usec, n);
    case Rtt => TooShort(e[..n], 4);
    case Data => TooShort(e[..n], dataLength);
    case Triple => TripleCutOff(v, n);
    case Extensions =>
      var total, exts := ToBigEndian(v.total, 2), EncodeExtensions(v.exts);
      PrefixOf(total, exts, n);
      if n < 2 {
        TooShort(e[..n], 2);
      } else {
        var tail := exts[..n - 2];
        assert e[..n] == total + tail;
        UintRoundTrip(v.total, 2, tail);
        ExtensionsCutOff(v.exts, n - 2, 0, v.total, []);
      }
    case U8 | U16 | U32 => TooShort(e[..n], Width(f));
  }

  lemma TripleCutOff(v: Value<Sent>, n: nat)
    requires v.Three? && U32s([v.o, v.r, v.t]) && n < 12
    ensures ReadPlain(Triple, EncodeField(Triple, v)[..n], 0).Fail?
  {
    hide ReadUint, ToBigEndian, Pow256;
    Widths();
    TripleFits(v);
    var o, tail := ToBigEndian(v.o, 4), ToBigEndian(v.r, 4) + ToBigEndian(v.t, 4);
    PrefixOf(o, tail, n);
    if n < 4 {
      TooShort(EncodeField(Triple, v)[..n], 4);
    } else {
      assert EncodeField(Triple, v)[..n] == o + tail[..n - 4];
      UintRoundTrip(v.o, 4, tail[..n - 4]);
      NumbersCutOff(v.r, v.t, n - 4);
    }
  }

  lemma CountedAddressesCutOff(list: seq<Sent>, n: nat, refs: Refs, acc: seq<Address>)
    requires |list| < 256 && AllFit(list, refs) && n < 1 + |EncodeAddresses(list)|
    ensures var c := ReadUint((ToBigEndian(|list|, 1) + EncodeAddresses(list))[..n], 1);
            if n == 0 then c.Fail?
            else c.Got? && c.value == |list|
                 && var r := ReadAddresses(|list|, c.rest, refs, acc);
                    !r.Got? && (r.Eof? <==> AddressesCut(list, n - 1))
  {
    hide ReadUint, ToBigEndian, Pow256, ReadAddresses, EncodeAddresses, AllFit, AddressesCut;
    Widths();
    var c, more := ToBigEndian(|list|, 1), EncodeAddresses(list);
    PrefixOf(c, more, n);
    if n == 0 {
      TooShort((c + more)[..0], 1);
    } else {
      assert (c + more)[..n] == c + more[..n - 1];
      UintRoundTrip(|list|, 1, more[..n - 1]);
      AddressesCutOff(list, n - 1, refs, acc);
    }
  }

  lemma StampsCutOff(v: Value<Sent>, n: nat, refs: Refs)
    requires v.Stamped? && |v.times| < 256 && |v.list| < 256 && U32s(v.times) && AllFit(v.list, refs)
    requires n < |EncodeField(Stamps, v)|
    ensures var r := ReadField(Stamps, EncodeField(Stamps, v)[..n], 0, refs);
            !r.Got? && (r.Eof? <==> FieldCut(Stamps, v, n))
  {
    hide ReadUint, ToBigEndian, Pow256, ReadAddresses, EncodeAddresses, AllFit, ReadTimes, EncodeTimes, AddressesCut;
    Widths();
    TimesLength(v.times);
    var tsc, ipc := ToBigEndian(|v.times|, 1), ToBigEndian(|v.list|, 1);
    var times, addrs := EncodeTimes(v.times), EncodeAddresses(v.list);
    var e := EncodeField(Stamps, v);
    PrefixOf(tsc, ipc + (times + addrs), n);
    if n == 0 {
      TooShort(e[..0], 1);
    } else {
      var t1 := (ipc + (times + addrs))[..n - 1];
      assert e[..n] == tsc + t1;
      UintRoundTrip(|v.times|, 1, t1);
      PrefixOf(ipc, times + addrs, n - 1);
      if n == 1 {
        TooShort(t1, 1);
      } else {
        var t2 := (times + addrs)[..n - 2];
        assert t1 == ipc + t2;
        UintRoundTrip(|v.list|, 1, t2);
        PrefixOf(times, addrs, n - 2);
        if n - 2 < |times| {
          TimesCutOff(v.times, n - 2, []);
        } else {
          var t3 := addrs[..n - 2 - |times|];
          assert t2 == times + t3;
          TimesRoundTrip(v.times, [], t3);
          AddressesCutOff(v.list, n - 2 - |times|, refs, []);
        }
      }
    }
  }

  lemma FieldCutOff(f: Format, v: Value<Sent>, n: nat, dataLength: nat, refs: Refs)
    requires FieldFits(f, v, dataLength, refs) && n < |EncodeField(f, v)|
    ensures var r := ReadField(f, EncodeField(f, v)[..n], dataLength, refs);
            !r.Got? && (r.Eof? <==> FieldCut(f, v, n))
  {
    hide ReadUint, ToBigEndian, ReadAddress, ReadPlain, ReadAddresses, EncodeAddress, EncodeAddresses,
         ReadTimes, EncodeTimes, AllFit, ExtensionsFit, Total, EncodeExtensions, Get, Pow256, Blank, AddressesCut,
         ExtensionsCut;
    match f
    case Addr =>
      FitsSized(v.a, refs);
      AddressCutOff(v.a, n, refs);
    case RefAddr =>
      TooShort(EncodeField(f, v)[..n], 4);
    case AddrList =>
      CountedAddressesCutOff(v.list, n, refs, []);
    case TimeList =>
      CountedAddressesCutOff(v.list, n, refs, Blank(|v.list|));
    case Stamps =>
      StampsCutOff(v, n, refs);
    case _ =>
      PlainCutOff(f, v, n, dataLength, refs);
  }

  // ----- cuts within a part -----

  lemma {:induction false} FieldsCutOff(part: Part, flags: seq<nat>, fields: map<nat, Value<Sent>>, n: nat, refs: Refs,
                                        acc: Fields)
    requires (forall x <- flags :: x in fields) && ReadSoFar(part, flags, fields, acc)
    requires FieldsFit(part, flags, fields, refs) && n < |EncodeFields(part, flags, fields)|
    ensures var r := ReadFields(part, flags, EncodeFields(part, flags, fields)[..n], refs, acc);
            !r.Got? && (r.Eof? <==> FieldsCut(part, flags, fields, n))
    decreases flags
  {
    hide FormatOf, ReadSoFar, FieldFits, ReadField, EncodeField, AfterField, DataLength, Meant, FieldCut;
    var f, v := FormatOf(part, flags[0]), fields[flags[0]];
    var e, more := EncodeField(f, v), EncodeFields(part, flags[1..], fields);
    if f.Data? {
      DataIsNine(part, flags[0]);
      LengthBeforeData(part, flags, fields, acc);
    } else {
      NeedsNoLength(f, v, DataLength(fields), DataLength(acc), refs);
    }
    PrefixOf(e, more, n);
    if n < |e| {
      FieldCutOff(f, v, n, DataLength(acc), refs);
    } else {
      var tail := more[..n - |e|];
      assert EncodeFields(part, flags, fields)[..n] == e + tail;
      FieldRoundTrip(f, v, DataLength(acc), refs, tail);
      ReadOneMore(part, flags, fields, acc);
      FieldsCutOff(part, flags[1..], fields, n - |e|, AfterField(f, v, refs), acc[flags[0] := Meant(f, v)]);
    }
  }

  lemma {:induction false} ChainSize(s: set<nat>, k: nat, n: nat)
    requires 1 <= k <= n
    ensures |EncodeFrom(s, k, n)| == n - k + 1
    decreases n - k
  {
    if k < n {
      ChainSize(s, k + 1, n);
    }
  }

  /** A chain cut off before its last byte runs into the end of the input. */
  lemma {:induction false} ChainCutOff(s: set<nat>, k: nat, n: nat, m: nat)
    requires 1 <= k <= n <= 36 && 0 < m <= n - k
    ensures |EncodeFrom(s, k, n)| == n - k + 1
    ensures var e := EncodeFrom(s, k, n)[..m];
            ReadFlags(e[0], e[1..], k).EndOfInput?
    decreases n - k
  {
    hide IsSet, FlagByte, ByteFlags;
    ChainSize(s, k, n);
    var e := EncodeFrom(s, k, n)[..m];
    FlagBits(s, k, k < n, 1);
    if m > 1 {
      ChainSize(s, k + 1, n);
      assert e[1..] == EncodeFrom(s, k + 1, n)[..m - 1];
      ChainCutOff(s, k + 1, n, m - 1);
    }
  }

  lemma PartSize(part: Part, w: Sheet)
    requires w.chain >= 1
    ensures |EncodeRecord(part, w)|
      == w.chain + (if FlagList(w) == [] then 0 else 2) + |EncodeFields(part, FlagList(w), w.fields)|
  {
    hide EncodeFields, EncodeFrom, Ascending;
    ChainSize(w.fields.Keys, 1, w.chain);
  }

  lemma PartCutOff(part: Part, w: Sheet, n: nat, refs: Refs)
    requires SheetFits(part, w, refs) && n < |EncodeRecord(part, w)|
    ensures var r := ReadRecord(part, EncodeRecord(part, w)[..n], refs);
            !r.Got? && (r.Eof? <==> PartCut(part, w, n))
  {
    hide FormatOf, ReadFields, EncodeFields, FieldsFit, ReadFlags, EncodeFrom, Ascending, ReadUint, ToBigEndian,
         ReadSoFar, FieldsCut;
    var s := w.fields.Keys;
    ChainSize(s, 1, w.chain);
    var chain := EncodeFrom(s, 1, w.chain);
    var flags := FlagList(w);
    var body := (if flags == [] then [] else ToBigEndian(w.length, 2)) + EncodeFields(part, flags, w.fields);
    var e := EncodeRecord(part, w);
    assert e == chain + body;
    PrefixOf(chain, body, n);
    if n == 0 {
    } else if n < w.chain {
      ChainCutOff(s, 1, w.chain, n);
      assert e[..n] == chain[..n];
    } else {
      BodyCutOff(part, w, n, refs);
    }
  }

  lemma BodyCutOff(part: Part, w: Sheet, n: nat, refs: Refs)
    requires SheetFits(part, w, refs) && w.chain <= n < |EncodeRecord(part, w)|
    ensures var r := ReadRecord(part, EncodeRecord(part, w)[..n], refs);
            !r.Got? && (r.Eof? <==> PartCut(part, w, n))
  {
    hide FormatOf, ReadFields, EncodeFields, FieldsFit, ReadFlags, EncodeFrom, Ascending, ReadUint, ToBigEndian,
         ReadSoFar, FieldsCut;
    var s, m, flags := w.fields.Keys, n - w.chain, FlagList(w);
    ChainSize(s, 1, w.chain);
    PartSize(part, w);
    NoFields(part, w);
    var chain, fields := EncodeFrom(s, 1, w.chain), EncodeFields(part, flags, w.fields);
    var length := ToBigEndian(w.length, 2);
    PrefixOf(chain, length + fields, n);
    var tail := (length + fields)[..m];
    var input := EncodeRecord(part, w)[..n];
    assert input == chain + tail;
    assert input[0] == chain[0] && input[1..] == chain[1..] + tail;
    ReadEncoded(s, 1, w.chain, tail);
    PrefixOf(length, fields, m);
    if m < 2 {
      TooShort(tail, 2);
    } else {
      assert tail == length + fields[..m - 2];
      Widths();
      UintRoundTrip(w.length, 2, fields[..m - 2]);
      NothingRead(part, w);
      FieldsCutOff(part, flags, w.fields, m - 2, refs, map[]);
    }
  }

  lemma NoFields(part: Part, w: Sheet)
    requires w.chain >= 1
    ensures FlagList(w) == [] ==> EncodeFields(part, FlagList(w), w.fields) == []
  {
    hide Ascending;
  }

  lemma {:induction false} PartsCutOff(part: Part, ws: seq<Sheet>, n: nat, refs: Refs, acc: seq<Record>)
    requires SheetsFit(part, ws, refs) && (forall w <- ws :: w.chain >= 1) && n < |EncodeRecords(part, ws)|
    ensures var r := ReadRecords(part, |ws|, EncodeRecords(part, ws)[..n], refs, acc);
            !r.Got? && (r.Eof? <==> PartsCut(part, ws, n))
    decreases ws
  {
    hide ReadRecord, EncodeRecord, SheetFits, AfterRecord, MeantRecord, PartCut;
    var e, more := EncodeRecord(part, ws[0]), EncodeRecords(part, ws[1..]);
    PrefixOf(e, more, n);
    if n < |e| {
      PartCutOff(part, ws[0], n, refs);
    } else {
      var tail := more[..n - |e|];
      assert EncodeRecords(part, ws)[..n] == e + tail;
      RecordRoundTrip(part, ws[0], refs, tail);
      PartsCutOff(part, ws[1..], n - |e|, AfterRecord(part, ws[0], refs), acc + [MeantRecord(part, ws[0])]);
    }
  }

  lemma {:induction false} PartsCutWithin(part: Part, ws: seq<Sheet>, n: nat)
    requires forall w <- ws :: w.chain >= 1
    ensures PartsCut(part, ws, n) ==> n < |EncodeRecords(part, ws)|
    decreases ws
  {
    hide EncodeRecord, PartCut;
    if ws != [] && n >= |EncodeRecord(part, ws[0])| {
      PartsCutWithin(part, ws[1..], n - |EncodeRecord(part, ws[0])|);
    }
  }

  // ----- cuts within a record -----

  lemma CountCutOff(count: nat, n: nat, more: seq<Byte>)
    requires count < 0x1_0000 && n <= 2 + |more|
    ensures var input := (ToBigEndian(count, 2) + more)[..n];
            ReadUint(input, 2) == if n < 2 then Outcome<nat>.Fail else Got(count, more[..n - 2])
  {
    hide ReadUint, ToBigEndian, Pow256;
    Widths();
    PrefixOf(ToBigEndian(count, 2), more, n);
    if n < 2 {
      TooShort((ToBigEndian(count, 2) + more)[..n], 2);
    } else {
      assert (ToBigEndian(count, 2) + more)[..n] == ToBigEndian(count, 2) + more[..n - 2];
      UintRoundTrip(count, 2, more[..n - 2]);
    }
  }

  lemma PingCutOff(i: Item, n: nat)
    requires i.PingItem? && ItemFits(i) && n < |Payload(i)|
    ensures var r := ReadPing(Payload(i)[..n]);
            !r.Got? && (r.Eof? <==> SilentCut(i, n + 8))
  {
    hide ReadRecord, ReadRecords, EncodeRecord, EncodeRecords, SheetFits, SheetsFit, AfterRecord, MeantRecord,
         ReadUint, ToBigEndian, PartCut, PartsCut;
    var refs := AfterRecord(PingPart, i.flags, NO_REFS);
    SheetsChained(ReplyPart, i.replies, refs);
    var flags, replies := EncodeRecord(PingPart, i.flags), EncodeRecords(ReplyPart, i.replies);
    var count := ToBigEndian(|i.replies|, 2) + replies;
    PrefixOf(flags, count, n);
    if n < |flags| {
      PartCutOff(PingPart, i.flags, n, NO_REFS);
    } else {
      var m := n - |flags|;
      assert Payload(i)[..n] == flags + count[..m];
      RecordRoundTrip(PingPart, i.flags, NO_REFS, count[..m]);
      CountCutOff(|i.replies|, m, replies);
      if m >= 2 {
        PartsCutOff(ReplyPart, i.replies, m - 2, refs, []);
      }
    }
  }

  lemma TracerouteCutOff(i: Item, n: nat)
    requires i.TracerouteItem? && ItemFits(i) && n < |Payload(i)|
    ensures var r := ReadTraceroute(Payload(i)[..n]);
            !r.Got? && (r.Eof? <==> SilentCut(i, n + 8))
  {
    hide ReadRecord, ReadRecords, EncodeRecord, EncodeRecords, SheetFits, SheetsFit, AfterRecord, MeantRecord,
         MeantRecords, ReadUint, ToBigEndian, PartCut, PartsCut;
    var refs := AfterRecord(TracePart, i.flags, NO_REFS);
    SheetsChained(HopPart, i.hops, refs);
    var flags, hops, end := EncodeRecord(TracePart, i.flags), EncodeRecords(HopPart, i.hops), ToBigEndian(i.end, 2);
    var count := ToBigEndian(|i.hops|, 2) + (hops + end);
    PrefixOf(flags, count, n);
    if n < |flags| {
      PartCutOff(TracePart, i.flags, n, NO_REFS);
    } else {
      var m := n - |flags|;
      assert Payload(i)[..n] == flags + count[..m];
      RecordRoundTrip(TracePart, i.flags, NO_REFS, count[..m]);
      CountCutOff(|i.hops|, m, hops + end);
      if m >= 2 {
        PrefixOf(hops, end, m - 2);
        if m - 2 < |hops| {
          PartsCutOff(HopPart, i.hops, m - 2, refs, []);
        } else {
          var k := m - 2 - |hops|;
          assert (hops + end)[..m - 2] == hops + end[..k];
          EndCutOff(i, k, refs);
          PartsCutWithin(HopPart, i.hops, m - 2);
        }
      }
    }
  }

  lemma EndCutOff(i: Item, k: nat, refs: Refs)
    requires i.TracerouteItem? && k < 2 && SheetsFit(HopPart, i.hops, refs) && forall w <- i.hops :: w.chain >= 1
    ensures var b := EncodeRecords(HopPart, i.hops) + ToBigEndian(i.end, 2)[..k];
            var r := ReadRecords(HopPart, |i.hops|, b, refs, []);
            r.Got? && ReadUint(r.rest, 2).Fail?
  {
    hide ReadRecords, EncodeRecords, SheetsFit, ReadUint, ToBigEndian, MeantRecords;
    var tail := ToBigEndian(i.end, 2)[..k];
    RecordsRoundTrip(HopPart, i.hops, refs, [], tail);
    TooShort(tail, 2);
  }

  lemma {:induction false} StringCutOff(s: seq<Byte>, buf: seq<Byte>, n: nat)
    requires 0 !in s && n <= |s|
    ensures ReadString(EncodeString(s)[..n], buf).Eof?
    decreases s
  {
    if n > 0 {
      assert EncodeString(s)[..n][1..] == EncodeString(s[1..])[..n - 1];
      StringCutOff(s[1..], buf + [s[0]], n - 1);
    }
  }

  lemma ListFlagsCutOff(l: ListFlags, described: bool, monitored: bool, n: nat)
    requires ListFits(List(0, 0, [], l), described, monitored) && n < |EncodeListFlags(l, described, monitored)|
    ensures var r := ReadListFlags(EncodeListFlags(l, described, monitored)[..n]);
            if n < 3 then r.Fail?
            else
              var description := if described && n >= 3 + |l.description| + 1 then l.description else [];
              r == Got(ListFlags(l.length, description, []), [])
  {
    hide ReadString, ReadUint, ToBigEndian, Pow256, IsSet;
    TwoFlagsSet(described, monitored);
    var e := EncodeListFlags(l, described, monitored);
    if n > 0 {
      var length := ToBigEndian(l.length, 2);
      var desc := if described then EncodeString(l.description) else [];
      var mon := if monitored then EncodeString(l.monitor) else [];
      assert e == [TwoFlags(described, monitored)] + (length + (desc + mon));
      PrefixOf([TwoFlags(described, monitored)], length + (desc + mon), n);
      assert e[..n][0] == TwoFlags(described, monitored);
      assert e[..n][1..] == (length + (desc + mon))[..n - 1];
      CountCutOff(l.length, n - 1, desc + mon);
      if n >= 3 {
        PrefixOf(desc, mon, n - 3);
        StringsCutOff(l, described, monitored, n - 3);
      }
    }
  }

  /** The two strings of a list, cut off. */
  lemma StringsCutOff(l: ListFlags, described: bool, monitored: bool, k: nat)
    requires 0 !in l.description && 0 !in l.monitor && (described || l.description == [])
    requires var desc := if described then EncodeString(l.description) else [];
             var mon := if monitored then EncodeString(l.monitor) else [];
             k < |desc + mon|
    ensures var desc := if described then EncodeString(l.description) else [];
            var mon := if monitored then EncodeString(l.monitor) else [];
            var input := (desc + mon)[..k];
            var d := if described then ReadString(input, []) else Got([], input);
            if described && k < |desc| then d.Eof?
            else d == Got(l.description, mon[..k - |desc|]) && monitored && ReadString(d.rest, []).Eof?
  {
    hide ReadString, EncodeString;
    EncodedLength(l.description);
    EncodedLength(l.monitor);
    var desc := if described then EncodeString(l.description) else [];
    var mon := if monitored then EncodeString(l.monitor) else [];
    PrefixOf(desc, mon, k);
    if described && k < |desc| {
      StringCutOff(l.description, [], k);
    } else {
      var tail := mon[..k - |desc|];
      assert (desc + mon)[..k] == desc + tail;
      OptionalString(described, l.description, tail);
      StringCutOff(l.monitor, [], k - |desc|);
    }
  }

  lemma EncodedLength(s: seq<Byte>)
    ensures |EncodeString(s)| == |s| + 1
  {
  }

  lemma ListCutOff(i: Item, n: nat)
    requires i.ListItem? && ItemFits(i) && n < |Payload(i)|
    ensures var r := ReadList(Payload(i)[..n]);
            && (r.Eof? <==> SilentCut(i, n + 8))
            && (r.Got? <==> ListCut(i, n + 8))
            && (r.Got? ==> r == Got(Shortened(i, n + 8), []))
  {
    hide ReadString, ToBigEndian, BigEndian, Pow256, ReadListFlags, EncodeListFlags;
    Widths();
    var l := i.list;
    var ids := ToBigEndian(l.listId, 4) + ToBigEndian(l.cListId, 4);
    var name, info := EncodeString(l.name), EncodeListFlags(l.info, i.described, i.monitored);
    FlagsLength(l.info, i.described, i.monitored);
    PrefixOf(ids, name + info, n);
    if n < 8 {
      TooShort(Payload(i)[..n], 8);
    } else {
      var tail := (name + info)[..n - 8];
      assert Payload(i)[..n] == ids + tail;
      TakeRoundTrip(ids, tail);
      assert ids[..4] == ToBigEndian(l.listId, 4) && ids[4..] == ToBigEndian(l.cListId, 4);
      BigEndianRoundTrip(l.listId, 4);
      BigEndianRoundTrip(l.cListId, 4);
      PrefixOf(name, info, n - 8);
      if n - 8 < |name| {
        StringCutOff(l.name, [], n - 8);
      } else {
        var rest := info[..n - 8 - |name|];
        assert tail == l.name + [0] + rest;
        StringRoundTrip(l.name, [], rest);
        assert [] + l.name == l.name;
        ListFlagsCutOff(l.info, i.described, i.monitored, n - 8 - |name|);
      }
    }
  }

  lemma FlagsLength(l: ListFlags, described: bool, monitored: bool)
    ensures !described && !monitored ==> |EncodeListFlags(l, described, monitored)| == 1
  {
  }

  lemma CycleFlagsCutOff(c: CycleFlags, stopped: bool, hosted: bool, n: nat)
    requires CycleFits(CycleStart(0, 0, 0, 0, c), stopped, hosted) && n < |EncodeCycleFlags(c, stopped, hosted)|
    ensures var r := ReadCycleStartFlags(EncodeCycleFlags(c, stopped, hosted)[..n]);
            !r.Got? && (r.Eof? <==> hosted && n >= 3 + if stopped then 4 else 0)
  {
    hide ReadString, ReadUint, ToBigEndian, Pow256, IsSet;
    Widths();
    TwoFlagsSet(stopped, hosted);
    var e := EncodeCycleFlags(c, stopped, hosted);
    if n > 0 {
      var length := ToBigEndian(c.length, 2);
      var stop := if stopped then ToBigEndian(c.stopTime, 4) else [];
      var host := if hosted then EncodeString(c.hostname) else [];
      assert e == [TwoFlags(stopped, hosted)] + (length + (stop + host));
      PrefixOf([TwoFlags(stopped, hosted)], length + (stop + host), n);
      assert e[..n][0] == TwoFlags(stopped, hosted);
      assert e[..n][1..] == (length + (stop + host))[..n - 1];
      CountCutOff(c.length, n - 1, stop + host);
      if n >= 3 {
        var k := n - 3;
        PrefixOf(stop, host, k);
        if stopped && k < 4 {
          TooShort((stop + host)[..k], 4);
        } else {
          var tail := host[..k - |stop|];
          assert (stop + host)[..k] == stop + tail;
          if stopped {
            UintRoundTrip(c.stopTime, 4, tail);
          } else {
            assert stop + tail == tail;
          }
          StringCutOff(c.hostname, [], k - |stop|);
        }
      }
    }
  }

  lemma CycleCutOff(i: Item, n: nat)
    requires i.CycleItem? && ItemFits(i) && n < |Payload(i)|
    ensures var r := ReadCycle(Payload(i)[..n]);
            !r.Got? && (r.Eof? <==> SilentCut(i, n + 8))
  {
    hide ToBigEndian, BigEndian, ReadCycleStartFlags, EncodeCycleFlags;
    var c := i.cycle;
    var b := ToBigEndian(c.cycleId, 4) + ToBigEndian(c.listId, 4) + ToBigEndian(c.cCycleId, 4)
      + ToBigEndian(c.startTime, 4);
    var more := EncodeCycleFlags(c.more, i.stopped, i.hosted);
    PrefixOf(b, more, n);
    if n < 16 {
      TooShort(Payload(i)[..n], 16);
    } else {
      var tail := more[..n - 16];
      assert Payload(i)[..n] == b + tail;
      TakeRoundTrip(b, tail);
      CycleFlagsCutOff(c.more, i.stopped, i.hosted, n - 16);
    }
  }

  lemma StopCutOff(i: Item, n: nat)
    requires i.StopItem? && ItemFits(i) && n < |Payload(i)|
    ensures var r := ReadCycleStop(Payload(i)[..n]);
            !r.Got? && (r.Eof? <==> SilentCut(i, n + 8))
  {
    hide ToBigEndian, BigEndian;
    var s := i.stop;
    var b := ToBigEndian(s.cycleId, 4) + ToBigEndian(s.stopTime, 4);
    PrefixOf(b, [i.flags_], n);
    if n < 8 {
      TooShort(Payload(i)[..n], 8);
    } else {
      assert Payload(i)[..n] == b + [];
      TakeRoundTrip(b, []);
      TooShort([], 1);
    }
  }

  /** A record of any kind cut off anywhere: the end of the input is taken for the end of the records exactly
      at the silent cuts; a list cut off in its last strings comes back without them; every other cut is an
      error. */
  lemma ItemCutOff(i: Item, n: nat)
    requires ItemFits(i) && n < |EncodeItem(i)|
    ensures var r := ParseNext(EncodeItem(i)[..n]);
            && (r.Eof? <==> SilentCut(i, n))
            && (r.Got? <==> ListCut(i, n))
            && (r.Got? ==> r == Got(Shortened(i, n), []))
  {
    hide ReadHeader, EncodeHeader, Payload, MeantItem, ReadPing, ReadTraceroute, ReadList, ReadCycle, ReadCycleStop,
         SheetFits, SheetsFit, ListFits, CycleFits, CountedCut, Shortened;
    var h, p := EncodeHeader(KindOf(i), LengthOf(i)), Payload(i);
    PrefixOf(h, p, n);
    if n < 8 {
      HeaderCutOff(EncodeItem(i)[..n]);
    } else {
      var tail := p[..n - 8];
      assert EncodeItem(i)[..n] == h + tail;
      HeaderRoundTrip(KindOf(i), LengthOf(i), tail);
      match i
      case PingItem(_, _, _) => PingCutOff(i, n - 8);
      case TracerouteItem(_, _, _, _) => TracerouteCutOff(i, n - 8);
      case ListItem(_, _, _, _) => ListCutOff(i, n - 8);
      case CycleItem(_, _, _, _, _) => CycleCutOff(i, n - 8);
      case StopItem(_, _, _) => StopCutOff(i, n - 8);
      case OtherItem(_) => NoPayload(i);
    }
  }

  lemma HeaderCutOff(input: seq<Byte>)
    requires |input| < 8
    ensures if input == [] then ReadHeader(input).Eof? else ReadHeader(input).Fail?
  {
    hide BigEndian;
    TooShort(input, 8);
  }

  lemma NoPayload(i: Item)
    requires i.OtherItem? && ItemFits(i)
    ensures Payload(i) == []
  {
  }

  // ----- cuts within a file -----

  /** What parsing a written file gives that is cut off within its last record. */
  lemma FileCutOff(items: seq<Item>, i: Item, n: nat, types: set<nat>)
    requires ItemsFit(items) && ItemFits(i) && n < |EncodeItem(i)|
    ensures ParseFrom(EncodeItems(items) + EncodeItem(i)[..n], types, []) ==
            if SilentCut(i, n) then Parsed(Requested(items, types))
            else if ListCut(i, n) then Parsed(Requested(items, types) + if LIST in types then [Shortened(i, n)] else [])
            else Failed
  {
    hide EncodeItem, ItemFits, MeantItem, Requested, EncodeItems, ParseNext, SilentCut, ItemsFit;
    var tail, ret := EncodeItem(i)[..n], Requested(items, types);
    ParseItems(items, types, [], tail);
    assert [] + ret == ret;
    ItemCutOff(i, n);
    if ListCut(i, n) {
      NothingLeft();
      assert ret + [] == ret;
    }
  }
}
