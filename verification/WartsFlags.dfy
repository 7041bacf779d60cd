/** Which fields a warts record holds: a chain of bytes, seven flags in each, the eighth bit set while
    the chain goes on. */
module WartsFlags {

  newtype Byte = x: int | 0 <= x < 256

  /** Whether bit `pos` of a number is set, counted from 1 at the low end. */
  predicate BitSet(val: nat, pos: nat)
    requires 1 <= pos
    decreases pos
  {
    if pos == 1 then val % 2 == 1 else BitSet(val / 2, pos - 1)
  }

  predicate IsSet(val: Byte, pos: nat)
    requires 1 <= pos <= 8
  {
    BitSet(val as nat, pos)
  }

  // ----- reading -----

  datatype Flags = Flags(list: seq<nat>, rest: seq<Byte>) | EndOfInput

  /** The flag that bit `i` of byte `byteNum` stands for, in eight-bit arithmetic. */
  function FlagAt(byteNum: nat, i: nat): nat
    requires 1 <= i <= 7
  {
    (i + 7 * ((byteNum + 255) % 256)) % 256
  }

  /** The flags set among the first `n` bits of byte `byteNum`. */
  function ByteFlags(b: Byte, byteNum: nat, n: nat): seq<nat>
    requires n <= 7
  {
    if n == 0 then []
    else ByteFlags(b, byteNum, n - 1) + (if IsSet(b, n) then [FlagAt(byteNum, n)] else [])
  }

  function ReadFlags(first: Byte, input: seq<Byte>, byteNum: nat): Flags
    decreases |input|
  {
    var here := ByteFlags(first, byteNum, 7);
    if !IsSet(first, 8) then Flags(here, input)
    else if input == [] then EndOfInput
    else
      var more := ReadFlags(input[0], input[1..], (byteNum + 1) % 256);
      if more.Flags? then Flags(here + more.list, more.rest) else EndOfInput
  }

  method GetFlags(first: Byte, f: seq<Byte>) returns (r: Flags)
    ensures r == ReadFlags(first, f, 1)
  {
    var ret, check, byteNum: nat, input := [], first, 1, f;
    ghost var all := ReadFlags(first, f, 1);
    while true
      invariant all == Before(ret, ReadFlags(check, input, byteNum))
      decreases |input|
    {
      ghost var start := ret;
      hide IsSet, FlagAt, ReadFlags, Before;
      for i := 1 to 8
        invariant ret == start + ByteFlags(check, byteNum, i - 1)
      {
        if IsSet(check, i) {
          ret := ret + [FlagAt(byteNum, i)];
        }
      }
      if !IsSet(check, 8) {
        return Flags(ret, input);
      }
      if input == [] {
        return EndOfInput;
      }
      BeforeTwice(start, ByteFlags(check, byteNum, 7), ReadFlags(input[0], input[1..], (byteNum + 1) % 256));
      check, input, byteNum := input[0], input[1..], (byteNum + 1) % 256;
    }
  }

  ghost function Before(list: seq<nat>, r: Flags): Flags {
    if r.Flags? then Flags(list + r.list, r.rest) else EndOfInput
  }

  lemma BeforeTwice(a: seq<nat>, b: seq<nat>, r: Flags)
    ensures Before(a, Before(b, r)) == Before(a + b, r)
  {
    if r.Flags? {
      assert a + (b + r.list) == (a + b) + r.list;
    }
  }

  // ----- the encoding -----

  function Pow2(n: nat): nat {
    if n == 0 then 1 else 2 * Pow2(n - 1)
  }

  /** Bits `i` to 8 of byte `k` of an encoding of `s`, as a number. */
  function Bits(s: set<nat>, k: nat, more: bool, i: nat): (r: nat)
    requires 1 <= k && 1 <= i <= 9
    ensures r < Pow2(9 - i)
    decreases 9 - i
  {
    if i == 9 then 0
    else (if (if i == 8 then more else 7 * k - 7 + i in s) then 1 else 0) + 2 * Bits(s, k, more, i + 1)
  }

  /** Byte `k` of an encoding of `s`. */
  function FlagByte(s: set<nat>, k: nat, more: bool): Byte
    requires 1 <= k
  {
    assert Pow2(8) == 256 by { assert Pow2(2) == 4; assert Pow2(4) == 16; assert Pow2(6) == 64; }
    Bits(s, k, more, 1) as Byte
  }

  /** Bytes `k` to `n` of the encoding of `s` in `n` bytes. */
  function EncodeFrom(s: set<nat>, k: nat, n: nat): (r: seq<Byte>)
    requires 1 <= k <= n
    ensures r != []
    decreases n - k
  {
    [FlagByte(s, k, k < n)] + if k < n then EncodeFrom(s, k + 1, n) else []
  }

  /** The flags of `s` from `lo` to `hi`, ascending. */
  function Ascending(s: set<nat>, lo: nat, hi: nat): (r: seq<nat>)
    requires lo <= hi + 1
    ensures forall x :: x in r <==> x in s && lo <= x <= hi
    ensures forall i, j :: 0 <= i < j < |r| ==> r[i] < r[j]
    decreases hi
  {
    if lo == hi + 1 then []
    else if lo == hi then (if hi in s then [hi] else [])
    else
      var r := Ascending(s, lo, hi - 1);
      assert forall i :: 0 <= i < |r| ==> r[i] in r;
      r + (if hi in s then [hi] else [])
  }

  lemma {:induction false} AscendingAppend(s: set<nat>, lo: nat, mid: nat, hi: nat)
    requires lo <= mid + 1 <= hi + 1
    ensures Ascending(s, lo, mid) + Ascending(s, mid + 1, hi) == Ascending(s, lo, hi)
    decreases hi
  {
    if mid < hi {
      AscendingAppend(s, lo, mid, hi - 1);
    }
  }

  /** The first `n` bits of byte `k` of an encoding are the flags they stand for, short of wrap-around. */
  lemma {:induction false} ByteFlagsOf(s: set<nat>, k: nat, more: bool, n: nat)
    requires 1 <= k <= 36 && n <= 7
    ensures ByteFlags(FlagByte(s, k, more), k, n) == Ascending(s, 7 * k - 6, 7 * k - 7 + n)
    decreases n
  {
    hide IsSet, FlagByte, FlagAt;
    if n > 0 {
      ByteFlagsOf(s, k, more, n - 1);
      FlagBits(s, k, more, n);
      FlagExact(k, n);
    }
  }

  lemma FlagExact(k: nat, n: nat)
    requires 1 <= k <= 36 && 1 <= n <= 7
    ensures FlagAt(k, n) == 7 * k - 7 + n
  {
  }

  lemma {:induction false} BitsExact(s: set<nat>, k: nat, more: bool, i: nat, n: nat)
    requires 1 <= k && 1 <= i <= n <= 8
    ensures BitSet(Bits(s, k, more, i), n - i + 1) == if n == 8 then more else 7 * k - 7 + n in s
    decreases 9 - i
  {
    hide Pow2;
    var r := Bits(s, k, more, i);
    if i < n {
      assert r / 2 == Bits(s, k, more, i + 1);
      BitsExact(s, k, more, i + 1, n);
    }
  }

  lemma FlagBits(s: set<nat>, k: nat, more: bool, n: nat)
    requires 1 <= k && 1 <= n <= 7
    ensures IsSet(FlagByte(s, k, more), n) == (7 * k - 7 + n in s)
    ensures IsSet(FlagByte(s, k, more), 8) == more
  {
    BitsExact(s, k, more, 1, n);
    BitsExact(s, k, more, 1, 8);
  }

  /** Reading one byte that is not the last. */
  lemma ReadMore(first: Byte, input: seq<Byte>, k: nat)
    requires IsSet(first, 8) && input != [] && k < 255
    ensures ReadFlags(first, input, k) == Before(ByteFlags(first, k, 7), ReadFlags(input[0], input[1..], k + 1))
  {
    hide IsSet, ByteFlags;
  }

  /** Reading from byte `k` on gives back the flags from there, ascending, and stops right after the
      encoding. */
  lemma {:induction false} ReadEncoded(s: set<nat>, k: nat, n: nat, rest: seq<Byte>)
    requires 1 <= k <= n <= 36
    ensures var e := EncodeFrom(s, k, n);
            ReadFlags(e[0], e[1..] + rest, k) == Flags(Ascending(s, 7 * k - 6, 7 * n), rest)
    decreases n - k
  {
    hide IsSet, FlagByte, ByteFlags, Ascending;
    var e := EncodeFrom(s, k, n);
    ByteFlagsOf(s, k, k < n, 7);
    FlagBits(s, k, k < n, 1);
    if k < n {
      ReadEncodedMore(s, k, n, rest);
    } else {
      assert e[1..] + rest == rest;
    }
  }

  lemma {:induction false} ReadEncodedMore(s: set<nat>, k: nat, n: nat, rest: seq<Byte>)
    requires 1 <= k < n <= 36
    ensures var e := EncodeFrom(s, k, n);
            ReadFlags(e[0], e[1..] + rest, k) == Flags(Ascending(s, 7 * k - 6, 7 * n), rest)
    decreases n - k, 0
  {
    hide IsSet, FlagByte, ByteFlags, Ascending, ReadFlags;
    var e := EncodeFrom(s, k, n);
    var e' := EncodeFrom(s, k + 1, n);
    assert e == [FlagByte(s, k, true)] + e';
    var input := e[1..] + rest;
    assert input[0] == e'[0] && input[1..] == e'[1..] + rest;
    hide EncodeFrom;
    ByteFlagsOf(s, k, true, 7);
    FlagBits(s, k, true, 1);
    ReadMore(e[0], input, k);
    ReadEncoded(s, k + 1, n, rest);
    AscendingAppend(s, 7 * k - 6, 7 * k, 7 * n);
  }

  /** Any set of flags from 1 to 7n, encoded in n <= 36 bytes, is read back as the ascending list of
      exactly its flags, and exactly the encoding is consumed. */
  lemma FlagsRoundTrip(s: set<nat>, n: nat, rest: seq<Byte>)
    requires 1 <= n <= 36 && forall x <- s :: 1 <= x <= 7 * n
    ensures var e := EncodeFrom(s, 1, n);
            var r := ReadFlags(e[0], e[1..] + rest, 1);
            && r.Flags? && r.rest == rest
            && (forall x :: x in r.list <==> x in s)
            && (forall i, j :: 0 <= i < j < |r.list| ==> r.list[i] < r.list[j])
  {
    ReadEncoded(s, 1, n, rest);
  }

  /** The number of bytes of the chain that starts with `first`. */
  function ChainLength(first: Byte, input: seq<Byte>): nat
    decreases |input|
  {
    if !IsSet(first, 8) || input == [] then 1 else 1 + ChainLength(input[0], input[1..])
  }

  ghost predicate StrictlyAscending(s: seq<nat>) {
    forall i, j :: 0 <= i < j < |s| ==> s[i] < s[j]
  }

  ghost predicate Within(s: seq<nat>, lo: nat, hi: nat) {
    forall i :: 0 <= i < |s| ==> lo <= s[i] <= hi
  }

  lemma AscendingConcat(a: seq<nat>, b: seq<nat>, lo: nat, mid: nat, hi: nat)
    requires lo <= mid + 1 <= hi + 1
    requires StrictlyAscending(a) && StrictlyAscending(b) && Within(a, lo, mid) && Within(b, mid + 1, hi)
    ensures StrictlyAscending(a + b) && Within(a + b, lo, hi)
  {
  }

  lemma {:induction false} ByteAscending(b: Byte, k: nat, n: nat)
    requires 1 <= k <= 36 && n <= 7
    ensures StrictlyAscending(ByteFlags(b, k, n)) && Within(ByteFlags(b, k, n), 7 * k - 6, 7 * k - 7 + n)
  {
    hide IsSet, FlagAt;
    if n > 0 {
      ByteAscending(b, k, n - 1);
      FlagExact(k, n);
    }
  }

  /** Whatever the bytes are: a chain of at most 36 gives a strictly ascending list, so no field is read
      twice and a field with a smaller number is read before one with a larger. */
  lemma {:induction false} ReadAscending(first: Byte, input: seq<Byte>, k: nat)
    requires 1 <= k && k + ChainLength(first, input) <= 37
    ensures var r := ReadFlags(first, input, k);
            r.Flags? ==> StrictlyAscending(r.list) && Within(r.list, 7 * k - 6, 7 * (k + ChainLength(first, input) - 1))
    decreases |input|
  {
    hide IsSet, ByteFlags, StrictlyAscending, Within;
    ByteAscending(first, k, 7);
    if IsSet(first, 8) && input != [] {
      ReadAscending(input[0], input[1..], k + 1);
      var r := ReadFlags(input[0], input[1..], k + 1);
      if r.Flags? {
        AscendingConcat(ByteFlags(first, k, 7), r.list, 7 * k - 6, 7 * k, 7 * (k + ChainLength(first, input) - 1));
      }
    }
  }

  /** Reading consumes a prefix of the input. */
  lemma {:induction false} ReadConsumes(first: Byte, input: seq<Byte>, k: nat)
    ensures var r := ReadFlags(first, input, k);
            r.Flags? ==> |r.rest| <= |input| && r.rest == input[|input| - |r.rest|..]
    decreases |input|
  {
    hide IsSet, ByteFlags;
    if IsSet(first, 8) && input != [] {
      ReadConsumes(input[0], input[1..], (k + 1) % 256);
    }
  }
}
