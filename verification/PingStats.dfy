/** Loss and round-trip times of a ping, worked out from its replies. */
module PingStats {
  import opened WartsFlags
  import opened WartsBytes
  import opened WartsAddress
  import opened WartsRecords
  import opened WartsParse

  datatype Timeval = Timeval(sec: nat, usec: nat)

  /** Lexicographic: -1, 0 or 1. */
  function TimevalComp(l: Timeval, r: Timeval): int {
    if l.sec < r.sec then -1
    else if l.sec > r.sec then 1
    else if l.usec < r.usec then -1
    else if l.usec > r.usec then 1
    else 0
  }

  function Micros(t: Timeval): nat {
    t.sec * 1000000 + t.usec
  }

  predicate Normal(t: Timeval) {
    t.usec < 1000000 && Micros(t) < 0x1_0000_0000
  }

  /** On normalised times the order is that of the microseconds. */
  lemma LexicographicIsNumeric(l: Timeval, r: Timeval)
    requires l.usec < 1000000 && r.usec < 1000000
    ensures TimevalComp(l, r) < 0 <==> Micros(l) < Micros(r)
    ensures TimevalComp(l, r) > 0 <==> Micros(l) > Micros(r)
  {
  }

  /** On others it need not be. */
  lemma NotNumericOtherwise()
    ensures exists l, r :: TimevalComp(l, r) < 0 && Micros(l) > Micros(r)
  {
    var l, r := Timeval(0, 1000001), Timeval(1, 0);
    assert TimevalComp(l, r) < 0 && Micros(l) > Micros(r);
  }

  // ----- what a reader makes sure of -----

  function Rtt(reply: Record): Timeval {
    if 6 in reply.fields && reply.fields[6].Time? then Timeval(reply.fields[6].sec, reply.fields[6].usec)
    else Timeval(0, 0)
  }

  function Sent(p: Object): nat
    requires p.Ping?
  {
    if 15 in p.flags.fields && p.flags.fields[15].Num? then p.flags.fields[15].n else 0
  }

  predicate AllNormal(replies: seq<Record>) {
    forall i :: 0 <= i < |replies| ==> Normal(Rtt(replies[i]))
  }

  predicate WellRead(p: Object) {
    p.Ping? && p.replyCount == |p.replies| < 0x1_0000 && AllNormal(p.replies) && Sent(p) < 0x1_0000
  }

  lemma UintBound(input: seq<Byte>, width: nat)
    ensures var r := ReadUint(input, width); r.Got? ==> r.value < Pow256(width)
  {
    hide BigEndian, Pow256;
    var b := Take(input, width);
    if b.Got? {
      BigEndianBound(b.value);
    }
  }

  /** The sizes and the normal form of the fields that the statistics use. */
  predicate Usual(part: Part, fields: Fields) {
    && (part.ReplyPart? && 6 in fields && fields[6].Time? ==> Normal(Timeval(fields[6].sec, fields[6].usec)))
    && (part.PingPart? && 15 in fields && fields[15].Num? ==> fields[15].n < 0x1_0000)
  }

  lemma RttUsual(input: seq<Byte>, refs: Refs)
    ensures var r := ReadField(Format.Rtt, input, 0, refs);
            r.Got? ==> r.value.v.Time? && Normal(Timeval(r.value.v.sec, r.value.v.usec))
  {
    hide ReadUint, Pow256;
    Widths();
    UintBound(input, 4);
  }

  lemma SentUsual(input: seq<Byte>, refs: Refs)
    ensures var r := ReadField(U16, input, 0, refs);
            r.Got? ==> r.value.v.Num? && r.value.v.n < 0x1_0000
  {
    hide ReadUint, Pow256;
    Widths();
    UintBound(input, 2);
  }

  lemma LengthUnused(f: Format, input: seq<Byte>, a: nat, b: nat, refs: Refs)
    requires !f.Data?
    ensures ReadField(f, input, a, refs) == ReadField(f, input, b, refs)
  {
    hide ReadUint, ReadAddress, ReadReference, ReadAddresses, ReadTimes, ReadExtensions;
  }

  lemma {:induction false} FieldsUsual(part: Part, flags: seq<nat>, input: seq<Byte>, refs: Refs, acc: Fields)
    requires Usual(part, acc)
    ensures var r := ReadFields(part, flags, input, refs, acc); r.Got? ==> Usual(part, r.value.v)
    decreases flags
  {
    hide ReadField, Normal;
    if flags != [] {
      var f := FormatOf(part, flags[0]);
      var v := ReadField(f, input, DataLength(acc), refs);
      if v.Got? {
        if part.ReplyPart? && flags[0] == 6 {
          LengthUnused(f, input, DataLength(acc), 0, refs);
          RttUsual(input, refs);
        }
        if part.PingPart? && flags[0] == 15 {
          LengthUnused(f, input, DataLength(acc), 0, refs);
          SentUsual(input, refs);
        }
        FieldsUsual(part, flags[1..], v.rest, v.value.refs, acc[flags[0] := v.value.v]);
      }
    }
  }

  lemma RecordUsual(part: Part, input: seq<Byte>, refs: Refs)
    ensures var r := ReadRecord(part, input, refs); r.Got? ==> Usual(part, r.value.v.fields)
  {
    hide ReadFields, ReadFlags, ReadUint;
    if input != [] {
      var chain := ReadFlags(input[0], input[1..], 1);
      if chain.Flags? {
        var start := if chain.list == [] then Got(0, chain.rest) else ReadUint(chain.rest, 2);
        if start.Got? {
          FieldsUsual(part, chain.list, start.rest, refs, map[]);
        }
      }
    }
  }

  lemma {:induction false} RepliesUsual(n: nat, input: seq<Byte>, refs: Refs, acc: seq<Record>)
    requires AllNormal(acc)
    ensures var r := ReadRecords(ReplyPart, n, input, refs, acc); r.Got? ==> AllNormal(r.value.v)
    decreases n
  {
    hide ReadRecord;
    if n > 0 {
      var p := ReadRecord(ReplyPart, input, refs);
      if p.Got? {
        RecordUsual(ReplyPart, input, refs);
        RepliesUsual(n - 1, p.rest, p.value.refs, acc + [p.value.v]);
      }
    }
  }

  /** Whatever the bytes: a ping that was read has as many replies as its count says, normalised round-trip
      times, and sixteen-bit counts. */
  lemma ReadIsWellRead(input: seq<Byte>)
    ensures var r := ReadPing(input); r.Got? ==> WellRead(r.value)
  {
    hide ReadRecord, ReadRecords, ReadUint, Pow256, AllNormal;
    Widths();
    var flags := ReadRecord(PingPart, input, NO_REFS);
    if flags.Got? {
      RecordUsual(PingPart, input, NO_REFS);
      UintBound(flags.rest, 2);
      var count := ReadUint(flags.rest, 2);
      if count.Got? {
        NoneAbnormal();
        RepliesUsual(count.value, count.rest, flags.value.refs, []);
      }
    }
  }

  lemma NoneAbnormal()
    ensures AllNormal([])
  {
  }

  // ----- the statistics -----

  function Sum(replies: seq<Record>, n: nat): nat
    requires n <= |replies|
  {
    if n == 0 then 0 else Sum(replies, n - 1) + Micros(Rtt(replies[n - 1]))
  }

  function Wrap64(x: int): int {
    (x + 0x8000_0000_0000_0000) % 0x1_0000_0000_0000_0000 - 0x8000_0000_0000_0000
  }

  datatype Stats = Stats(replies: nat, loss: nat, min: Timeval, max: Timeval, sum: int)

  /** `t` is the least round-trip time of the first `n` replies. */
  predicate IsMin(t: Timeval, replies: seq<Record>, n: nat)
    requires n <= |replies|
  {
    && (forall i :: 0 <= i < n ==> Micros(t) <= Micros(Rtt(replies[i])))
    && (n > 0 ==> exists i :: 0 <= i < n && t == Rtt(replies[i]))
  }

  predicate IsMax(t: Timeval, replies: seq<Record>, n: nat)
    requires n <= |replies|
  {
    && (forall i :: 0 <= i < n ==> Micros(Rtt(replies[i])) <= Micros(t))
    && (n > 0 ==> exists i :: 0 <= i < n && t == Rtt(replies[i]))
  }

  lemma {:induction false} SumBounds(replies: seq<Record>, n: nat)
    requires n <= |replies| && AllNormal(replies)
    ensures Sum(replies, n) <= n * 0xFFFF_FFFF
  {
    if n > 0 {
      SumBounds(replies, n - 1);
      assert Normal(Rtt(replies[n - 1]));
    }
  }

  /** The sum lies between as many times the least and as many times the greatest, so the average lies
      between the two. */
  lemma {:induction false} SumBetween(replies: seq<Record>, n: nat, min: nat, max: nat)
    requires n <= |replies|
    requires forall i :: 0 <= i < n ==> min <= Micros(Rtt(replies[i])) <= max
    ensures n * min <= Sum(replies, n) <= n * max
  {
    hide Rtt;
    if n > 0 {
      SumBetween(replies, n - 1, min, max);
      assert n * min == (n - 1) * min + min && n * max == (n - 1) * max + max;
    }
  }

  lemma SumBetweenMinMax(replies: seq<Record>, min: Timeval, max: Timeval)
    requires IsMin(min, replies, |replies|) && IsMax(max, replies, |replies|)
    ensures |replies| * Micros(min) <= Sum(replies, |replies|) <= |replies| * Micros(max)
  {
    SumBetween(replies, |replies|, Micros(min), Micros(max));
  }

  lemma NextMin(t: Timeval, replies: seq<Record>, n: nat)
    requires n < |replies| && AllNormal(replies) && IsMin(t, replies, n)
    ensures IsMin(if n == 0 || TimevalComp(t, Rtt(replies[n])) == 1 then Rtt(replies[n]) else t, replies, n + 1)
  {
    hide Rtt;
    assert Normal(Rtt(replies[n]));
    if n > 0 {
      var i :| 0 <= i < n && t == Rtt(replies[i]);
      LexicographicIsNumeric(t, Rtt(replies[n]));
    }
  }

  lemma NextMax(t: Timeval, replies: seq<Record>, n: nat)
    requires n < |replies| && AllNormal(replies) && IsMax(t, replies, n)
    ensures IsMax(if n == 0 || TimevalComp(t, Rtt(replies[n])) == -1 then Rtt(replies[n]) else t, replies, n + 1)
  {
    hide Rtt;
    assert Normal(Rtt(replies[n]));
    if n > 0 {
      var i :| 0 <= i < n && t == Rtt(replies[i]);
      LexicographicIsNumeric(t, Rtt(replies[n]));
    }
  }

  /** On a ping that was read, the sixteen-bit loss does not wrap, the least and the greatest time are the
      least and the greatest, and the sum fits. */
  method GetStats(p: Object) returns (s: Stats)
    requires p.Ping?
    ensures s.replies == p.replyCount
    ensures WellRead(p) ==>
      && s.loss == (if Sent(p) > |p.replies| then Sent(p) - |p.replies| else 0)
      && s.sum == Sum(p.replies, |p.replies|) < 0x8000_0000_0000_0000
      && IsMin(s.min, p.replies, |p.replies|) && IsMax(s.max, p.replies, |p.replies|)
      && |p.replies| * Micros(s.min) <= s.sum <= |p.replies| * Micros(s.max)
    ensures |p.replies| == 0 ==> s.min == s.max == Timeval(0, 0) && s.sum == 0
  {
    hide Normal, Rtt, Sent, IsMin, IsMax, TimevalComp, AllNormal, Micros, Wrap64;
    var n, sent := |p.replies|, Sent(p);
    var min, max, sum, dups := Timeval(0, 0), Timeval(0, 0), 0, 0;
    NoMinMax(min, p.replies);
    for i := 0 to n
      invariant i == 0 ==> min == max == Timeval(0, 0) && sum == 0
      invariant WellRead(p) ==> IsMin(min, p.replies, i) && IsMax(max, p.replies, i)
      invariant WellRead(p) ==> sum == Sum(p.replies, i)
      invariant WellRead(p) ==> dups == if i > sent then i - sent else 0
    {
      var rtt := Rtt(p.replies[i]);
      if WellRead(p) {
        NextMin(min, p.replies, i);
        NextMax(max, p.replies, i);
        SumFits(p, i + 1);
      }
      if i == 0 {
        min, max := rtt, rtt;
      }
      sum := Wrap64(sum + Micros(rtt));
      SameTime(rtt);
      if TimevalComp(min, rtt) == 1 {
        min := rtt;
      }
      if TimevalComp(max, rtt) == -1 {
        max := rtt;
      }
      if i % 0x1_0000 >= sent {
        dups := dups + 1;
      }
    }
    var loss := if dups == 0 then (sent - p.replyCount) % 0x1_0000 else 0;
    if WellRead(p) {
      SumFits(p, n);
      SumBetweenMinMax(p.replies, min, max);
    }
    return Stats(p.replyCount, loss, min, max, sum);
  }

  lemma SameTime(t: Timeval)
    ensures TimevalComp(t, t) == 0
  {
  }

  lemma NoMinMax(t: Timeval, replies: seq<Record>)
    ensures IsMin(t, replies, 0) && IsMax(t, replies, 0)
  {
  }

  lemma SumFits(p: Object, n: nat)
    requires WellRead(p) && n <= |p.replies|
    ensures Sum(p.replies, n) < 0x8000_0000_0000_0000 && Wrap64(Sum(p.replies, n)) == Sum(p.replies, n)
  {
    hide AllNormal;
    SumBounds(p.replies, n);
    assert n * 0xFFFF_FFFF <= 0xFFFF * 0xFFFF_FFFF;
  }
}
