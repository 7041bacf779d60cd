/** Reading numbers, byte strings and C strings from the buffer a warts file is parsed from. */
module WartsBytes {
  import opened WartsFlags

  function Val(b: Byte): (n: nat)
    ensures n < 256
  {
    b as nat
  }

  function OfVal(n: nat): (b: Byte)
    requires n < 256
    ensures Val(b) == n
  {
    n as Byte
  }

  // ----- big-endian numbers -----

  function Pow256(n: nat): (p: nat)
    ensures p > 0
  {
    if n == 0 then 1 else 256 * Pow256(n - 1)
  }

  /** The number that bytes spell, most significant byte first. */
  function BigEndian(s: seq<Byte>): nat {
    if s == [] then 0 else 256 * BigEndian(s[..|s| - 1]) + Val(s[|s| - 1])
  }

  function ToBigEndian(n: nat, width: nat): (s: seq<Byte>)
    ensures |s| == width
  {
    if width == 0 then [] else ToBigEndian(n / 256, width - 1) + [OfVal(n % 256)]
  }

  lemma {:induction false} BigEndianRoundTrip(n: nat, width: nat)
    requires n < Pow256(width)
    ensures BigEndian(ToBigEndian(n, width)) == n
  {
    if width > 0 {
      hide Val, OfVal;
      BigEndianRoundTrip(n / 256, width - 1);
      var s := ToBigEndian(n, width);
      assert s[..|s| - 1] == ToBigEndian(n / 256, width - 1);
    }
  }

  lemma {:induction false} BigEndianBound(s: seq<Byte>)
    ensures BigEndian(s) < Pow256(|s|)
  {
    if s != [] {
      BigEndianBound(s[..|s| - 1]);
    }
  }

  /** The first byte counts most: the form in which the source adds the bytes up. */
  lemma {:induction false} BigEndianFirst(s: seq<Byte>)
    requires s != []
    ensures BigEndian(s) == Val(s[0]) * Pow256(|s| - 1) + BigEndian(s[1..])
  {
    hide Val;
    var front := s[..|s| - 1];
    if |s| == 1 {
      assert front == [] && s[1..] == [];
    } else {
      BigEndianFirst(front);
      assert front[1..] == s[1..][..|s| - 2];
      Distribute(Val(s[0]), Pow256(|s| - 2), BigEndian(front[1..]), Val(s[|s| - 1]));
    }
  }

  lemma Distribute(a: nat, p: nat, b: nat, c: nat)
    ensures 256 * (a * p + b) + c == a * (256 * p) + (256 * b + c)
  {
  }

  /** An address as a number; more than eight bytes give zero. */
  method SliceToUint64(s: seq<Byte>) returns (ret: nat)
    ensures ret == if |s| > 8 then 0 else BigEndian(s)
  {
    ret := 0;
    if |s| > 8 {
      return;
    }
    for i := 0 to |s|
      invariant ret + BigEndian(s[i..]) == BigEndian(s)
    {
      BigEndianFirst(s[i..]);
      assert s[i..][1..] == s[i + 1..];
      ret := ret + Val(s[i]) * Pow256(|s| - i - 1);
    }
  }

  // ----- results of a read -----

  /** What a read gives: a value and the unread bytes, the plain end-of-file error, or any other error. */
  datatype Outcome<V> = Got(value: V, rest: seq<Byte>) | Eof | Fail {
    predicate IsFailure() {
      !Got?
    }

    function PropagateFailure<U>(): Outcome<U>
      requires IsFailure()
    {
      if Eof? then Outcome<U>.Eof else Outcome<U>.Fail
    }

    function Extract(): Outcome<V>
      requires !IsFailure()
    {
      this
    }
  }

  /** One read of `n` bytes from a buffer: nothing left is the end-of-file error, too little is a short
      read, and asking for nothing always works. */
  function Take(input: seq<Byte>, n: nat): (r: Outcome<seq<Byte>>)
    ensures r.Got? ==> input == r.value + r.rest && |r.value| == n
  {
    if n == 0 then Got([], input)
    else if input == [] then Eof
    else if |input| < n then Fail
    else Got(input[..n], input[n..])
  }

  /** A number of `width` bytes; running out of input is never the plain end-of-file error. */
  function ReadUint(input: seq<Byte>, width: nat): (r: Outcome<nat>)
    ensures !r.Eof?
    ensures r.Got? ==> |input| == width + |r.rest|
  {
    var b := Take(input, width);
    if b.Got? then Got(BigEndian(b.value), b.rest) else Fail
  }

  /** A string up to a zero byte. */
  function ReadString(input: seq<Byte>, buf: seq<Byte>): (r: Outcome<seq<Byte>>)
    ensures r.Got? ==> |r.rest| < |input|
    ensures !r.Fail?
    decreases |input|
  {
    if input == [] then Eof
    else if input[0] == 0 then Got(buf, input[1..])
    else ReadString(input[1..], buf + [input[0]])
  }

  lemma UintRoundTrip(n: nat, width: nat, rest: seq<Byte>)
    requires n < Pow256(width)
    ensures ReadUint(ToBigEndian(n, width) + rest, width) == Got(n, rest)
  {
    hide BigEndian, ToBigEndian, Pow256;
    BigEndianRoundTrip(n, width);
    var s := ToBigEndian(n, width) + rest;
    if width == 0 {
      assert s == rest && ToBigEndian(n, width) == [];
    } else {
      assert s[..width] == ToBigEndian(n, width) && s[width..] == rest;
    }
  }

  lemma TakeRoundTrip(b: seq<Byte>, rest: seq<Byte>)
    ensures Take(b + rest, |b|) == Got(b, rest)
  {
    if b == [] {
      assert b + rest == rest;
    } else {
      assert (b + rest)[..|b|] == b && (b + rest)[|b|..] == rest;
    }
  }

  lemma {:induction false} StringRoundTrip(s: seq<Byte>, buf: seq<Byte>, rest: seq<Byte>)
    requires 0 !in s
    ensures ReadString(s + [0] + rest, buf) == Got(buf + s, rest)
    decreases s
  {
    var input := s + [0] + rest;
    if s == [] {
      assert input[1..] == rest && buf + s == buf;
    } else {
      assert input[1..] == s[1..] + [0] + rest && input[0] == s[0];
      StringRoundTrip(s[1..], buf + [s[0]], rest);
      assert buf + [s[0]] + s[1..] == buf + s;
    }
  }

  lemma Widths()
    ensures Pow256(1) == 0x100 && Pow256(2) == 0x1_0000 && Pow256(4) == 0x1_0000_0000
  {
    assert Pow256(0) == 1;
    assert Pow256(1) == 256;
    assert Pow256(2) == 256 * Pow256(1);
    assert Pow256(3) == 256 * Pow256(2);
    assert Pow256(4) == 256 * Pow256(3);
  }
}
