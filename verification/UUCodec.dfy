/** The uuencode line codec (POSIX uuencode, historical algorithm, zero written as a backquote). */
module UUCodec {

  type Byte = bv8

  const BACKQUOTE: Byte := 96
  const NEWLINE: Byte := 10
  const LINE := 45

  // ----- bytes -----

  function Enc(b: Byte): Byte {
    if b == 0 then BACKQUOTE else b + 32
  }

  // The four groups of six bits in three bytes.
  function S0(a: Byte): Byte { a >> 2 }
  function S1(a: Byte, b: Byte): Byte { ((a & 0x3) << 4) | (b >> 4) }
  function S2(b: Byte, c: Byte): Byte { ((b & 0x0F) << 2) | (c >> 6) }
  function S3(c: Byte): Byte { c & 0x3F }

  // The three bytes of four groups of six bits.
  function B0(w: Byte, x: Byte): Byte { ((w << 2) & 0xFC) | ((x >> 4) & 0x3) }
  function B1(x: Byte, y: Byte): Byte { ((x << 4) & 0xF0) | ((y >> 2) & 0xF) }
  function B2(y: Byte, z: Byte): Byte { ((y << 6) & 0xC0) | z }

  lemma Bits(a: Byte, b: Byte, c: Byte)
    ensures S0(a) < 64 && S1(a, b) < 64 && S2(b, c) < 64 && S3(c) < 64
    ensures B0(S0(a), S1(a, b)) == a && B1(S1(a, b), S2(b, c)) == b && B2(S2(b, c), S3(c)) == c
  {
  }

  /** Three bytes as four printable ones. */
  function EncodeBytes(a: Byte, b: Byte, c: Byte): (r: seq<Byte>)
    ensures |r| == 4
  {
    [Enc(S0(a)), Enc(S1(a, b)), Enc(S2(b, c)), Enc(S3(c))]
  }

  predicate Printable(b: Byte) {
    32 <= b <= 96
  }

  function Value(b: Byte): Byte {
    (b - 32) & 0x3F
  }

  function DecodeBytes(w: Byte, x: Byte, y: Byte, z: Byte): (r: seq<Byte>)
    ensures |r| == 3
  {
    [B0(Value(w), Value(x)), B1(Value(x), Value(y)), B2(Value(y), Value(z))]
  }

  /** Encoded bytes are printable and no blanks. */
  predicate Solid(b: Byte) {
    32 < b <= 96
  }

  lemma EncSolid(v: Byte)
    requires v < 64
    ensures Solid(Enc(v)) && Value(Enc(v)) == v
  {
  }

  lemma SolidPrintable(b: Byte)
    requires Solid(b)
    ensures Printable(b) && b != NEWLINE
  {
  }

  lemma BytesRoundTrip(a: Byte, b: Byte, c: Byte)
    ensures var e := EncodeBytes(a, b, c);
            && Solid(e[0]) && Solid(e[1]) && Solid(e[2]) && Solid(e[3])
            && DecodeBytes(e[0], e[1], e[2], e[3]) == [a, b, c]
  {
    hide Enc, Value, Solid, S0, S1, S2, S3, B0, B1, B2;
    Bits(a, b, c);
    EncSolid(S0(a));
    EncSolid(S1(a, b));
    EncSolid(S2(b, c));
    EncSolid(S3(c));
  }

  lemma LengthRoundTrip(n: nat)
    requires 0 < n <= LINE
    ensures var c := Enc(n as Byte); Printable(c) && c != BACKQUOTE && c != NEWLINE && Announced(c) == n
  {
  }

  // ----- lines -----

  function First(e: seq<Byte>, k: nat): Byte {
    if k < |e| then e[k] else 0
  }

  function Drop(e: seq<Byte>, k: nat): (r: seq<Byte>)
    ensures |r| == if k <= |e| then |e| - k else 0
  {
    if k <= |e| then e[k..] else []
  }

  /** The groups of a line; a last group that is short is filled up with zeros. */
  function EncodeGroups(e: seq<Byte>): seq<Byte>
    decreases |e|
  {
    if e == [] then []
    else EncodeBytes(e[0], First(e, 1), First(e, 2)) + EncodeGroups(Drop(e, 3))
  }

  /** One line: the number of bytes, cut to a byte, then the groups. */
  function EncodeLine(e: seq<Byte>): seq<Byte> {
    [Enc((|e| % 256) as Byte)] + EncodeGroups(e)
  }

  datatype Result = Ok(bytes: seq<Byte>) | InvalidByte | ShortGroup

  function DecodeGroups(e: seq<Byte>): Result {
    if e == [] then Ok([])
    else if |e| < 4 then ShortGroup
    else if !(Printable(e[0]) && Printable(e[1]) && Printable(e[2]) && Printable(e[3])) then InvalidByte
    else
      var rest := DecodeGroups(e[4..]);
      if rest.Ok? then Ok(DecodeBytes(e[0], e[1], e[2], e[3]) + rest.bytes) else rest
  }

  /** The number of bytes a line announces. */
  function Announced(b: Byte): nat
    requires Printable(b)
  {
    (b - 32) as nat
  }

  function Zeros(n: nat): (r: seq<Byte>)
    ensures |r| == n
  {
    seq(n, _ => 0)
  }

  /** A line's bytes: as many as it announces, zeros where its groups hold fewer. */
  function DecodeLine(e: seq<Byte>): Result
    requires e != [] && Printable(e[0])
  {
    if e == [BACKQUOTE] then Ok([])
    else
      var lenB := Announced(e[0]);
      var groups := DecodeGroups(e[1..]);
      if groups.Ok? then Ok((groups.bytes + Zeros(lenB))[..lenB]) else groups
  }

  /** The decoded groups are the bytes and at most two filling zeros. */
  lemma {:induction false} GroupsRoundTrip(e: seq<Byte>)
    ensures forall c <- EncodeGroups(e) :: Solid(c)
    ensures var d := DecodeGroups(EncodeGroups(e)); d.Ok? && |e| <= |d.bytes| && d.bytes[..|e|] == e
    decreases |e|
  {
    hide EncodeBytes, DecodeBytes, Solid, Printable;
    if e != [] {
      var a, b, c := e[0], First(e, 1), First(e, 2);
      var rest := Drop(e, 3);
      GroupsRoundTrip(rest);
      BytesRoundTrip(a, b, c);
      var head := EncodeBytes(a, b, c);
      SolidPrintable(head[0]);
      SolidPrintable(head[1]);
      SolidPrintable(head[2]);
      SolidPrintable(head[3]);
      var all := EncodeGroups(e);
      assert all[4..] == EncodeGroups(rest) && all[..4] == head;
      assert DecodeGroups(all).bytes == [a, b, c] + DecodeGroups(EncodeGroups(rest)).bytes;
      assert |e| > 3 ==> e == [a, b, c] + rest;
    }
  }

  lemma NoNewline(s: seq<Byte>)
    requires forall c <- s :: Solid(c)
    ensures NEWLINE !in s
  {
  }

  lemma {:induction false} GroupsLength(e: seq<Byte>)
    ensures |EncodeGroups(e)| == (|e| + 2) / 3 * 4
    decreases |e|
  {
    hide EncodeBytes;
    if e != [] {
      GroupsLength(Drop(e, 3));
    }
  }

  lemma LineRoundTrip(e: seq<Byte>)
    requires 0 < |e| <= LINE
    ensures var l := EncodeLine(e);
            l != [] && Printable(l[0]) && NEWLINE !in l && DecodeLine(l) == Ok(e)
  {
    hide EncodeGroups, DecodeGroups, Enc, Solid, Printable, Announced;
    GroupsRoundTrip(e);
    LengthRoundTrip(|e|);
    var l := EncodeLine(e);
    assert l[1..] == EncodeGroups(e);
    NoNewline(EncodeGroups(e));
    DecodeCut(DecodeGroups(EncodeGroups(e)).bytes, e);
  }

  lemma DecodeCut(d: seq<Byte>, e: seq<Byte>)
    requires |e| <= |d| && d[..|e|] == e
    ensures (d + Zeros(|e|))[..|e|] == e
  {
  }

  // ----- whole texts -----

  /** Lines of 45 bytes, a shorter last one, and a line of a single backquote. */
  function EncodeAll(p: seq<Byte>): seq<Byte> {
    if p == [] then [BACKQUOTE, NEWLINE]
    else
      var n := if |p| < LINE then |p| else LINE;
      EncodeLine(p[..n]) + [NEWLINE] + EncodeAll(p[n..])
  }

  // ----- what a text looks like -----

  /** The characters of a line: the number of bytes, and four for every three bytes. */
  function LineWidth(n: nat): nat {
    1 + (n + 2) / 3 * 4
  }

  /** From `at` on: a character that gives the number of bytes `n`, those for the bytes, and a newline. */
  ghost predicate LineAt(e: seq<Byte>, at: nat, n: nat) {
    var end := at + LineWidth(n);
    && end < |e| && e[end] == 10
    && e[at] as int == 32 + n
    && forall k :: at <= k < end ==> 32 < e[k] <= 96
  }

  /** Line `i` is a full one: 61 characters, the first an M. */
  ghost predicate FullAt(e: seq<Byte>, i: nat) {
    LineAt(e, 62 * i, 45) && LineWidth(45) == 61 && e[62 * i] == 77
  }

  /** A text of `full` lines, one for `left` bytes unless there are none, and a line of a backquote alone. */
  ghost predicate Shaped(e: seq<Byte>, full: nat, left: nat) {
    && |e| == 62 * full + (if left == 0 then 0 else LineWidth(left) + 1) + 2
    && (forall i :: 0 <= i < full ==> FullAt(e, i))
    && (left > 0 ==> LineAt(e, 62 * full, left))
    && e[|e| - 2..] == [96, 10]
  }

  /** A line's characters. */
  lemma SolidLine(l: seq<Byte>)
    requires 0 < |l| <= 45
    ensures var line := EncodeLine(l);
            |line| == LineWidth(|l|) && line[0] as int == 32 + |l| && forall c <- line :: 32 < c <= 96
  {
    hide EncodeGroups, Enc;
    GroupsLength(l);
    GroupsRoundTrip(l);
    LengthByte(|l|);
    AllSolid(Enc((|l| % 256) as Byte), EncodeGroups(l));
  }

  lemma AllSolid(h: Byte, s: seq<Byte>)
    requires 32 < h <= 96 && forall c <- s :: Solid(c)
    ensures forall c <- [h] + s :: 32 < c <= 96
  {
  }

  lemma LengthByte(n: nat)
    requires 0 < n <= 45
    ensures var c := Enc((n % 256) as Byte); c as int == 32 + n && 32 < c <= 96
  {
    var b := n as Byte;
    assert b as nat == n;
    BlankAdded(b);
  }

  lemma BlankAdded(b: Byte)
    requires 0 < b < 64
    ensures Enc(b) as int == 32 + b as int && 32 < Enc(b) <= 96
  {
  }

  lemma LineShape(l: seq<Byte>, rest: seq<Byte>)
    requires 0 < |l| <= 45
    ensures |EncodeLine(l)| == LineWidth(|l|) && LineAt(EncodeLine(l) + [NEWLINE] + rest, 0, |l|)
  {
    hide EncodeLine, LineWidth;
    SolidLine(l);
    var line := EncodeLine(l);
    var e := line + [NEWLINE] + rest;
    forall k | 0 <= k < |line|
      ensures 32 < e[k] <= 96
    {
      assert line[k] in line;
    }
    LineWidthPositive(|l|);
  }

  lemma LineWidthPositive(n: nat)
    ensures LineWidth(n) > 0
  {
  }

  lemma LineAfter(a: seq<Byte>, e: seq<Byte>, at: nat, n: nat)
    requires LineAt(e, at, n)
    ensures LineAt(a + e, |a| + at, n)
  {
    hide LineWidth;
    LineWidthPositive(n);
    forall k | |a| + at <= k < |a| + at + LineWidth(n)
      ensures 32 < (a + e)[k] <= 96
    {
      assert (a + e)[k] == e[k - |a|];
    }
  }

  lemma LastLine(p: seq<Byte>)
    requires 0 < |p| <= 45
    ensures EncodeAll(p) == EncodeLine(p) + [NEWLINE] + [BACKQUOTE, NEWLINE]
  {
    hide EncodeLine;
    assert p[..|p|] == p && p[|p|..] == [];
    EncodeNone(p[|p|..]);
  }

  /** How an encoding looks: lines of 61 characters for 45 bytes each, a shorter one for what is left. */
  lemma {:induction false} EncodedShape(p: seq<Byte>)
    ensures Shaped(EncodeAll(p), |p| / 45, |p| % 45)
    decreases |p|
  {
    hide EncodeLine, LineAt, LineWidth, Shaped, EncodeAll;
    if |p| >= 45 {
      EncodedShape(p[45..]);
      FullLine(p, EncodeAll(p[45..]), |p| / 45, |p| % 45);
    } else if p != [] {
      ShortText(p);
    } else {
      NoText(p);
    }
  }

  lemma NoText(p: seq<Byte>)
    requires p == []
    ensures Shaped(EncodeAll(p), 0, 0)
  {
  }

  lemma ShortText(p: seq<Byte>)
    requires 0 < |p| < 45
    ensures Shaped(EncodeAll(p), 0, |p|)
  {
    hide EncodeLine, EncodeAll, LineAt, LineWidth;
    LastLine(p);
    LineShape(p, [BACKQUOTE, NEWLINE]);
  }

  lemma FullLine(p: seq<Byte>, rest: seq<Byte>, full: nat, left: nat)
    requires |p| >= 45 && full > 0 && rest == EncodeAll(p[45..]) && Shaped(rest, full - 1, left)
    ensures Shaped(EncodeAll(p), full, left)
  {
    hide EncodeLine, EncodeAll, LineAt, LineWidth, FullAt;
    var a := EncodeLine(p[..45]) + [NEWLINE];
    var e := EncodeAll(p);
    FirstLine(p);
    LineShape(p[..45], rest);
    FullWidth();
    assert e == a + rest && |a| == 62;
    forall i | 0 <= i < full
      ensures FullAt(e, i)
    {
      if i == 0 {
        FullAtZero(e);
      } else {
        assert FullAt(rest, i - 1);
        FullAfter(a, rest, i - 1);
      }
    }
    if left > 0 {
      LineAfter(a, rest, 62 * (full - 1), left);
    }
    assert e[|e| - 2..] == rest[|rest| - 2..];
  }

  lemma FirstLine(p: seq<Byte>)
    requires |p| >= 45
    ensures EncodeAll(p) == EncodeLine(p[..45]) + [NEWLINE] + EncodeAll(p[45..])
  {
    hide EncodeLine;
  }

  lemma FullWidth()
    ensures LineWidth(45) == 61
  {
  }

  lemma FullAtZero(e: seq<Byte>)
    requires LineAt(e, 0, 45)
    ensures FullAt(e, 0)
  {
  }

  lemma FullAfter(a: seq<Byte>, e: seq<Byte>, i: nat)
    requires FullAt(e, i) && |a| == 62
    ensures FullAt(a + e, i + 1)
  {
    hide LineAt;
    LineAfter(a, e, 62 * i, 45);
    assert |a| + 62 * i == 62 * (i + 1);
    assert LineAt(a + e, 62 * (i + 1), 45);
    LineFits(e, 62 * i, 45);
  }

  lemma LineFits(e: seq<Byte>, at: nat, n: nat)
    requires LineAt(e, at, n)
    ensures at < |e|
  {
  }

  /** The text Cat is encoded as #0V%T, a newline, a backquote and a newline. */
  lemma CatEncoded()
    ensures EncodeAll([67, 97, 116]) == [35, 48, 86, 37, 84, 10, 96, 10]
  {
    hide EncodeAll, EncodeBytes;
    CatGroup();
    OneGroup([67, 97, 116]);
  }

  lemma CatGroup()
    ensures EncodeBytes(67, 97, 116) == [48, 86, 37, 84]
  {
    assert S0(67) == 16 && S1(67, 97) == 54 && S2(97, 116) == 5 && S3(116) == 52;
  }

  /** Zeros are written as backquotes, those that fill up a group too. */
  lemma ZerosEncoded()
    ensures EncodeAll([0, 0]) == [34, 96, 96, 96, 96, 10, 96, 10]
  {
    hide EncodeAll, EncodeBytes;
    ZeroGroup();
    OneGroup([0, 0]);
  }

  lemma ZeroGroup()
    ensures EncodeBytes(0, 0, 0) == [96, 96, 96, 96]
  {
  }

  /** The groups of a line decode exactly if they are whole and every character is printable, up to the
      backquote. */
  lemma {:induction false} GroupsDecode(e: seq<Byte>)
    ensures DecodeGroups(e).Ok? <==> |e| % 4 == 0 && forall c <- e :: 32 <= c <= 96
    ensures DecodeGroups(e).Ok? ==> |DecodeGroups(e).bytes| == |e| / 4 * 3
    decreases |e|
  {
    hide DecodeBytes;
    if |e| >= 4 {
      var rest := e[4..];
      GroupsDecode(rest);
      FourMore(e, rest);
      assert |e| == |rest| + 4;
    }
  }

  lemma FourMore(e: seq<Byte>, rest: seq<Byte>)
    requires |e| >= 4 && rest == e[4..]
    ensures (forall c <- e :: 32 <= c <= 96)
            <==> Printable(e[0]) && Printable(e[1]) && Printable(e[2]) && Printable(e[3])
                 && forall c <- rest :: 32 <= c <= 96
  {
    assert forall k :: 4 <= k < |e| ==> e[k] == rest[k - 4];
    assert forall k :: 0 <= k < |rest| ==> rest[k] in e;
    if Printable(e[0]) && Printable(e[1]) && Printable(e[2]) && Printable(e[3]) && forall c <- rest :: 32 <= c <= 96 {
      forall c | c in e
        ensures 32 <= c <= 96
      {
        var k :| 0 <= k < |e| && e[k] == c;
        assert k >= 4 ==> rest[k - 4] in rest;
      }
    }
    assert e[0] in e && e[1] in e && e[2] in e && e[3] in e;
  }

  /** Blanks stand for zero as well as backquotes do. */
  lemma BlanksDecode()
    ensures DecodeAll([35, 32, 32, 32, 32, 10]) == Ok([0, 0, 0])
  {
    var line: seq<Byte> := [35, 32, 32, 32, 32];
    SplitLine(line, []);
    assert line + [NEWLINE] + [] == [35, 32, 32, 32, 32, 10];
    assert line[1..][4..] == [] && DecodeGroups([]) == Ok([]);
    assert DecodeBytes(32, 32, 32, 32) == [0, 0, 0];
    assert DecodeGroups(line[1..]) == Ok([0, 0, 0] + []);
    assert ([0, 0, 0] + [] + Zeros(3))[..3] == [0, 0, 0];
    assert DecodeLine(line) == Ok([0, 0, 0]);
    hide DecodeLine;
    assert [line] + Split([]) == [line, []] && [line, []][1..] == [[]];
    assert DecodeLines([[]]) == Ok([]);
  }

  lemma OneGroup(p: seq<Byte>)
    requires 2 <= |p| <= 3
    ensures EncodeAll(p) == [Enc(|p| as Byte)] + EncodeBytes(p[0], p[1], First(p, 2)) + [10, 96, 10]
  {
    hide EncodeBytes, Enc;
    hide EncodeGroups, EncodeAll;
    OneGroupOnly(p);
    LastLine(p);
  }

  lemma OneGroupOnly(p: seq<Byte>)
    requires 2 <= |p| <= 3
    ensures EncodeGroups(p) == EncodeBytes(p[0], p[1], First(p, 2))
  {
    hide EncodeBytes;
    assert Drop(p, 3) == [];
    assert EncodeGroups(Drop(p, 3)) == [];
  }

  /** bytes.Split at newlines. */
  function Split(e: seq<Byte>): (r: seq<seq<Byte>>)
    ensures r != []
  {
    if e == [] then [[]]
    else
      var rest := Split(e[1..]);
      if e[0] == NEWLINE then [[]] + rest else [[e[0]] + rest[0]] + rest[1..]
  }

  lemma {:induction false} SplitLine(l: seq<Byte>, t: seq<Byte>)
    requires NEWLINE !in l
    ensures Split(l + [NEWLINE] + t) == [l] + Split(t)
  {
    var e := l + [NEWLINE] + t;
    if l == [] {
      assert e[1..] == t;
    } else {
      assert e[1..] == l[1..] + [NEWLINE] + t;
      SplitLine(l[1..], t);
      assert [l[0]] + l[1..] == l;
    }
  }

  /** Decoding stops at the first line that is empty or starts with an unprintable byte. */
  function DecodeLines(lines: seq<seq<Byte>>): Result {
    if lines == [] || lines[0] == [] || !Printable(lines[0][0]) then Ok([])
    else
      var line := DecodeLine(lines[0]);
      if !line.Ok? then line
      else
        var rest := DecodeLines(lines[1..]);
        if rest.Ok? then Ok(line.bytes + rest.bytes) else rest
  }

  function DecodeAll(e: seq<Byte>): Result {
    DecodeLines(Split(e))
  }

  function Prepend(a: seq<Byte>, r: Result): Result {
    if r.Ok? then Ok(a + r.bytes) else r
  }

  /** Decoding an encoding followed by anything: the bytes, then whatever the rest decodes to. */
  lemma {:induction false} DecodeAfterEncode(a: seq<Byte>, t: seq<Byte>)
    ensures DecodeAll(EncodeAll(a) + t) == Prepend(a, DecodeAll(t))
    decreases |a|
  {
    hide EncodeLine, DecodeLine, Split, Printable;
    if a == [] {
      assert EncodeAll(a) + t == [BACKQUOTE] + [NEWLINE] + t;
      SplitLine([BACKQUOTE], t);
      BackquoteLine();
      DecodeOne([BACKQUOTE], Split(t), []);
    } else {
      var n := if |a| < LINE then |a| else LINE;
      var line, rest := EncodeLine(a[..n]), EncodeAll(a[n..]) + t;
      LineRoundTrip(a[..n]);
      assert EncodeAll(a) + t == line + [NEWLINE] + rest;
      SplitLine(line, rest);
      DecodeAfterEncode(a[n..], t);
      DecodeOne(line, Split(rest), a[..n]);
      assert a[..n] + a[n..] == a;
      PrependTwice(a[..n], a[n..], DecodeAll(t));
    }
  }

  lemma BackquoteLine()
    ensures Printable(BACKQUOTE) && DecodeLine([BACKQUOTE]) == Ok([])
  {
  }

  lemma DecodeOne(line: seq<Byte>, rest: seq<seq<Byte>>, bytes: seq<Byte>)
    requires line != [] && Printable(line[0]) && DecodeLine(line) == Ok(bytes)
    ensures DecodeLines([line] + rest) == Prepend(bytes, DecodeLines(rest))
  {
    hide DecodeLine, Printable;
    assert ([line] + rest)[1..] == rest;
  }

  lemma PrependTwice(a: seq<Byte>, b: seq<Byte>, r: Result)
    ensures Prepend(a, Prepend(b, r)) == Prepend(a + b, r)
  {
    if r.Ok? {
      assert a + (b + r.bytes) == (a + b) + r.bytes;
    }
  }

  lemma RoundTrip(a: seq<Byte>)
    ensures DecodeAll(EncodeAll(a)) == Ok(a)
  {
    DecodeAfterEncode(a, []);
    assert EncodeAll(a) + [] == EncodeAll(a) && a + [] == a;
  }

  function Flatten(parts: seq<seq<Byte>>): seq<Byte> {
    if parts == [] then [] else parts[0] + Flatten(parts[1..])
  }

  function EncodeEach(parts: seq<seq<Byte>>): (r: seq<seq<Byte>>)
    ensures |r| == |parts| && forall i :: 0 <= i < |r| ==> r[i] == EncodeAll(parts[i])
  {
    seq(|parts|, i requires 0 <= i < |parts| => EncodeAll(parts[i]))
  }

  /** Any number of encodings decode together to the bytes encoded, end to end. */
  lemma {:induction false} Homomorphism(parts: seq<seq<Byte>>)
    ensures DecodeAll(Flatten(EncodeEach(parts))) == Ok(Flatten(parts))
  {
    hide EncodeAll, DecodeAll;
    if parts == [] {
      NothingDecodes();
    } else {
      Homomorphism(parts[1..]);
      assert EncodeEach(parts)[1..] == EncodeEach(parts[1..]);
      DecodeAfterEncode(parts[0], Flatten(EncodeEach(parts[1..])));
    }
  }

  lemma NothingDecodes()
    ensures DecodeAll([]) == Ok([])
  {
  }

  // ----- the loops -----

  /** The groups of a line, put into a buffer one after another. The padded copy of the input is read as
      zeros past its end. */
  method FillGroups(buf: array<Byte>, e: seq<Byte>, groups: nat)
    requires buf.Length == 4 * groups + 1 && 3 * groups < |e| + 3 && |e| <= 3 * groups
    modifies buf
    ensures buf[..] == old(buf[..1]) + EncodeGroups(e)
  {
    hide EncodeGroups, First, Drop, EncodeBytes;
    ghost var head := buf[..1];
    WholeLine(e);
    for i := 0 to groups
      invariant buf[..4 * i + 1] + EncodeGroups(Drop(e, 3 * i)) == head + EncodeGroups(e)
    {
      GroupAt(e, 3 * i);
      var enc := EncodeBytes(First(e, 3 * i), First(e, 3 * i + 1), First(e, 3 * i + 2));
      ghost var before := buf[..4 * i + 1];
      PutGroup(buf, 4 * i + 1, enc);
      Regroup(before, enc, EncodeGroups(Drop(e, 3 * i + 3)));
    }
    NoGroups(e, 3 * groups);
    assert buf[..] == buf[..4 * groups + 1];
  }

  /** One line, in a buffer of the right size. */
  method UUEncodeLine(e: seq<Byte>) returns (ret: seq<Byte>)
    ensures ret == EncodeLine(e)
  {
    hide EncodeGroups, Enc;
    var length := |e|;
    var total := (length / 3) * 4;
    var remain := length % 3;
    var uselen := length;
    if remain > 0 {
      uselen := uselen + (3 - remain);
      total := total + 4;
    }
    total := total + 1;
    var buf := new Byte[total];
    buf[0] := Enc((length % 256) as Byte);
    assert buf[..1] == [Enc((length % 256) as Byte)];
    FillGroups(buf, e, uselen / 3);
    ret := buf[..];
  }

  lemma WholeLine(e: seq<Byte>)
    ensures Drop(e, 0) == e
  {
  }

  lemma Regroup(a: seq<Byte>, b: seq<Byte>, c: seq<Byte>)
    ensures a + (b + c) == (a + b) + c
  {
  }

  lemma GroupAt(e: seq<Byte>, k: nat)
    requires k < |e|
    ensures EncodeGroups(Drop(e, k))
      == EncodeBytes(First(e, k), First(e, k + 1), First(e, k + 2)) + EncodeGroups(Drop(e, k + 3))
  {
    hide EncodeBytes;
    var rest := Drop(e, k);
    assert rest[0] == First(e, k) && First(rest, 1) == First(e, k + 1) && First(rest, 2) == First(e, k + 2);
    assert Drop(rest, 3) == Drop(e, k + 3);
  }

  lemma NoGroups(e: seq<Byte>, k: nat)
    requires k >= |e|
    ensures EncodeGroups(Drop(e, k)) == []
  {
    assert Drop(e, k) == [];
  }

  method PutGroup(buf: array<Byte>, at: nat, enc: seq<Byte>)
    requires |enc| == 4 && at + 4 <= buf.Length
    modifies buf
    ensures buf[..at + 4] == old(buf[..at]) + enc
  {
    forall k | 0 <= k < 4 {
      buf[at + k] := enc[k];
    }
  }

  lemma EncodeOneMore(results: seq<Byte>, p: seq<Byte>, read: nat, n: nat)
    requires read < |p| && n == if |p| - read < LINE then |p| - read else LINE
    ensures results + EncodeAll(p[read..])
      == results + EncodeLine(p[read..read + n]) + [NEWLINE] + EncodeAll(p[read + n..])
  {
    hide EncodeLine;
    assert p[read..][..n] == p[read..read + n] && p[read..][n..] == p[read + n..];
    var l, more := EncodeLine(p[read..read + n]), EncodeAll(p[read + n..]);
    assert EncodeAll(p[read..]) == l + [NEWLINE] + more;
    assert results + (l + [NEWLINE] + more) == results + l + [NEWLINE] + more;
  }

  lemma EncodeNone(p: seq<Byte>)
    requires p == []
    ensures EncodeAll(p) == [BACKQUOTE, NEWLINE]
  {
  }

  /** Reads 45 bytes at a time until nothing is left. */
  method UUEncode(p: seq<Byte>) returns (results: seq<Byte>)
    ensures results == EncodeAll(p)
  {
    hide EncodeLine, EncodeAll;
    results := [];
    var read := 0;
    assert p[0..] == p && [] + EncodeAll(p) == EncodeAll(p);
    while read < |p|
      invariant 0 <= read <= |p|
      invariant results + EncodeAll(p[read..]) == EncodeAll(p)
    {
      var n := if |p| - read < LINE then |p| - read else LINE;
      var encl := UUEncodeLine(p[read..read + n]);
      EncodeOneMore(results, p, read, n);
      results := results + encl + [NEWLINE];
      read := read + n;
    }
    EncodeNone(p[read..]);
    results := results + [BACKQUOTE, NEWLINE];
  }

  method UUDecodeLine(e: seq<Byte>) returns (r: Result)
    requires e != [] && Printable(e[0])
    ensures r == DecodeLine(e)
  {
    hide DecodeBytes, Announced, Printable;
    if e == [BACKQUOTE] {
      return Ok([]);
    }
    var lenB := Announced(e[0]);
    var body := e[1..];
    var result := [];
    ghost var all := DecodeGroups(body);
    var i := 0;
    while i < |body|
      invariant 0 <= i <= |body|
      invariant all == Prepend(result, DecodeGroups(body[i..]))
    {
      ghost var rest := body[i..];
      if i + 4 > |body| {
        return ShortGroup;
      }
      assert rest[0] == body[i] && rest[1] == body[i+1] && rest[2] == body[i+2] && rest[3] == body[i+3];
      if !(Printable(body[i]) && Printable(body[i+1]) && Printable(body[i+2]) && Printable(body[i+3])) {
        return InvalidByte;
      }
      var s := DecodeBytes(body[i], body[i+1], body[i+2], body[i+3]);
      assert rest[4..] == body[i + 4..];
      assert DecodeGroups(rest) == Prepend(s, DecodeGroups(body[i + 4..]));
      PrependTwice(result, s, DecodeGroups(body[i + 4..]));
      result := result + s;
      i := i + 4;
    }
    assert body[i..] == [] && result + [] == result;
    return Ok((result + Zeros(lenB))[..lenB]);
  }

  method UUDecode(e: seq<Byte>) returns (r: Result)
    ensures r == DecodeAll(e)
  {
    hide DecodeLine, Printable;
    var lines := Split(e);
    var result := [];
    var i := 0;
    while i < |lines|
      invariant 0 <= i <= |lines|
      invariant DecodeLines(lines) == Prepend(result, DecodeLines(lines[i..]))
    {
      var line := lines[i];
      assert lines[i..][0] == line && lines[i..][1..] == lines[i + 1..];
      if line == [] || !Printable(line[0]) {
        assert result + [] == result;
        return Ok(result);
      }
      var ue := UUDecodeLine(line);
      if !ue.Ok? {
        return ue;
      }
      assert DecodeLines(lines[i..]) == Prepend(ue.bytes, DecodeLines(lines[i + 1..]));
      PrependTwice(result, ue.bytes, DecodeLines(lines[i + 1..]));
      result := result + ue.bytes;
      i := i + 1;
    }
    assert lines[i..] == [] && result + [] == result;
    return Ok(result);
  }

  /** Decodes what is written to it; a write that does not decode adds nothing. */
  class UUDecodingWriter {
    var b: seq<Byte>

    constructor ()
      ensures b == []
    {
      b := [];
    }

    method Write(p: seq<Byte>) returns (r: Result)
      modifies this
      ensures r == DecodeAll(p) && b == old(b) + if r.Ok? then r.bytes else []
    {
      r := UUDecode(p);
      if r.Ok? {
        b := b + r.bytes;
      }
    }
  }

  /** Several writes, one encoding each. */
  method WriteEach(w: UUDecodingWriter, parts: seq<seq<Byte>>)
    modifies w
    ensures w.b == old(w.b) + Flatten(parts)
  {
    hide EncodeAll, DecodeAll;
    for i := 0 to |parts|
      invariant w.b + Flatten(parts[i..]) == old(w.b) + Flatten(parts)
    {
      RoundTrip(parts[i]);
      ghost var before := w.b;
      var r := w.Write(EncodeAll(parts[i]));
      assert parts[i..][0] == parts[i] && parts[i..][1..] == parts[i + 1..];
      assert w.b + Flatten(parts[i + 1..]) == before + (parts[i] + Flatten(parts[i + 1..]));
    }
    assert parts[|parts|..] == [] && w.b + [] == w.b;
  }

  /** One write of all encodings together adds the same. */
  method WriteTogether(w: UUDecodingWriter, parts: seq<seq<Byte>>)
    modifies w
    ensures w.b == old(w.b) + Flatten(parts)
  {
    hide EncodeAll, DecodeAll;
    Homomorphism(parts);
    var r := w.Write(Flatten(EncodeEach(parts)));
  }
}
