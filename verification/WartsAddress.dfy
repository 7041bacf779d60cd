/** The address dictionary of a warts record: an address is written out where it first occurs and by its
    number in the dictionary afterwards. */
module WartsAddress {
  import opened WartsFlags
  import opened WartsBytes

  datatype Address = Address(kind: nat, value: nat)

  const NO_ADDRESS := Address(0, 0)

  /** The dictionary: the next number, a `uint32`, and the addresses by number. */
  datatype Refs = Refs(id: nat, addrs: map<nat, Address>)

  const NO_REFS := Refs(0, map[])

  function Get(refs: Refs, id: nat): Address {
    if id in refs.addrs then refs.addrs[id] else NO_ADDRESS
  }

  function Add(refs: Refs, a: Address): Refs {
    Refs((refs.id + 1) % 0x1_0000_0000, refs.addrs[refs.id := a])
  }

  /** A value read, with the dictionary after it. */
  datatype Known<V> = Known(v: V, refs: Refs)

  // ----- reading -----

  function ReadReference(input: seq<Byte>, refs: Refs): (r: Outcome<Known<Address>>)
    ensures r.Got? ==> |r.rest| < |input|
    ensures !r.Eof?
  {
    var id :- ReadUint(input, 4);
    Got(Known(Get(refs, id.value), refs), id.rest)
  }

  function ReadAddress(input: seq<Byte>, refs: Refs): (r: Outcome<Known<Address>>)
    ensures r.Got? ==> |r.rest| < |input|
  {
    var length :- ReadUint(input, 1);
    if length.value == 0 then ReadReference(length.rest, refs)
    else
      var kind :- ReadUint(length.rest, 1);
      var res :- Take(kind.rest, length.value);
      var a := Address(kind.value, if length.value > 8 then 0 else BigEndian(res.value));
      Got(Known(a, Add(refs, a)), res.rest)
  }

  /** `n` addresses, added to `acc`. */
  function ReadAddresses(n: nat, input: seq<Byte>, refs: Refs, acc: seq<Address>): (r: Outcome<Known<seq<Address>>>)
    ensures r.Got? ==> |r.value.v| == |acc| + n && |r.rest| <= |input|
    decreases n
  {
    if n == 0 then Got(Known(acc, refs), input)
    else
      var a :- ReadAddress(input, refs);
      ReadAddresses(n - 1, a.rest, a.value.refs, acc + [a.value.v])
  }

  // ----- writing -----

  /** How a writer may put an address: in `width` bytes, or as the number of an earlier one. */
  datatype Form = Literal(width: nat) | Reference(id: nat)

  datatype Sent = Sent(addr: Address, form: Form)

  function EncodeAddress(s: Sent): seq<Byte> {
    match s.form
    case Literal(width) => ToBigEndian(width, 1) + (ToBigEndian(s.addr.kind, 1) + ToBigEndian(s.addr.value, width))
    case Reference(id) => ToBigEndian(0, 1) + ToBigEndian(id, 4)
  }

  function EncodeAddresses(list: seq<Sent>): seq<Byte> {
    if list == [] then [] else EncodeAddress(list[0]) + EncodeAddresses(list[1..])
  }

  function Plain(list: seq<Sent>): (r: seq<Address>)
    ensures |r| == |list|
  {
    seq(|list|, i requires 0 <= i < |list| => list[i].addr)
  }

  /** Whether the form has room for the address. */
  predicate Sized(s: Sent) {
    match s.form
    case Literal(width) => 1 <= width < 256 && s.addr.kind < 256 && s.addr.value < Pow256(width)
    case Reference(id) => id < 0x1_0000_0000
  }

  /** Whether a reader with this dictionary gets the address meant: a number must stand for it, and one of
      more than eight bytes must be zero. */
  predicate Fits(s: Sent, refs: Refs) {
    && Sized(s)
    && match s.form
       case Literal(width) => width <= 8 || s.addr.value == 0
       case Reference(id) => Get(refs, id) == s.addr
  }

  function After(s: Sent, refs: Refs): Refs {
    if s.form.Literal? then Add(refs, s.addr) else refs
  }

  predicate AllFit(list: seq<Sent>, refs: Refs) {
    list == [] || (Fits(list[0], refs) && AllFit(list[1..], After(list[0], refs)))
  }

  function AfterAll(list: seq<Sent>, refs: Refs): Refs {
    if list == [] then refs else AfterAll(list[1..], After(list[0], refs))
  }

  // ----- round trips -----

  lemma ReferenceRead(id: nat, refs: Refs, rest: seq<Byte>)
    requires id < 0x1_0000_0000
    ensures ReadReference(ToBigEndian(id, 4) + rest, refs) == Got(Known(Get(refs, id), refs), rest)
  {
    Widths();
    UintRoundTrip(id, 4, rest);
  }

  /** What any writer's address is read as: right for a number, and for a literal of at most eight bytes;
      a longer one keeps its kind but reads as zero. */
  lemma AddressRead(s: Sent, refs: Refs, rest: seq<Byte>)
    requires Sized(s)
    ensures ReadAddress(EncodeAddress(s) + rest, refs) ==
      (match s.form
       case Reference(id) => Got(Known(Get(refs, id), refs), rest)
       case Literal(width) =>
         var a := Address(s.addr.kind, if width > 8 then 0 else s.addr.value);
         Got(Known(a, Add(refs, a)), rest))
  {
    hide BigEndian, ToBigEndian, Pow256, ReadReference, Take, ReadUint;
    Widths();
    match s.form
    case Reference(id) =>
      assert EncodeAddress(s) + rest == ToBigEndian(0, 1) + (ToBigEndian(id, 4) + rest);
      UintRoundTrip(0, 1, ToBigEndian(id, 4) + rest);
      ReferenceRead(id, refs, rest);
    case Literal(width) =>
      var b := ToBigEndian(s.addr.value, width);
      var k := ToBigEndian(s.addr.kind, 1);
      assert EncodeAddress(s) + rest == ToBigEndian(width, 1) + (k + (b + rest));
      UintRoundTrip(width, 1, k + (b + rest));
      UintRoundTrip(s.addr.kind, 1, b + rest);
      TakeRoundTrip(b, rest);
      BigEndianRoundTrip(s.addr.value, width);
  }

  /** An address comes back as it was written exactly when it fits. */
  lemma AddressRoundTrip(s: Sent, refs: Refs, rest: seq<Byte>)
    requires Sized(s)
    ensures Fits(s, refs) <==> (var r := ReadAddress(EncodeAddress(s) + rest, refs); r.Got? && r.value.v == s.addr)
    ensures Fits(s, refs) ==> ReadAddress(EncodeAddress(s) + rest, refs) == Got(Known(s.addr, After(s, refs)), rest)
  {
    hide ReadAddress, EncodeAddress, Add, Get, Pow256;
    AddressRead(s, refs, rest);
  }

  lemma {:induction false} AddressesRoundTrip(list: seq<Sent>, refs: Refs, acc: seq<Address>, rest: seq<Byte>)
    requires AllFit(list, refs)
    ensures ReadAddresses(|list|, EncodeAddresses(list) + rest, refs, acc)
      == Got(Known(acc + Plain(list), AfterAll(list, refs)), rest)
    decreases list
  {
    hide ReadAddress, EncodeAddress, Fits, After;
    if list == [] {
      assert EncodeAddresses(list) + rest == rest;
      assert acc + Plain(list) == acc;
    } else {
      var more := EncodeAddresses(list[1..]) + rest;
      assert EncodeAddresses(list) + rest == EncodeAddress(list[0]) + more;
      FitsSized(list[0], refs);
      AddressRoundTrip(list[0], refs, more);
      AddressesRoundTrip(list[1..], After(list[0], refs), acc + [list[0].addr], rest);
      assert acc + [list[0].addr] + Plain(list[1..]) == acc + Plain(list);
    }
  }

  lemma FitsSized(s: Sent, refs: Refs)
    requires Fits(s, refs)
    ensures Sized(s)
  {
  }

  // ----- the dictionary in terms of what was written before -----

  /** The addresses written out among the first `n`, in order. */
  function Literals(list: seq<Sent>, n: nat): seq<Address>
    requires n <= |list|
  {
    if n == 0 then []
    else Literals(list, n - 1) + if list[n - 1].form.Literal? then [list[n - 1].addr] else []
  }

  /** The numbers in use are exactly those below the next one. */
  ghost predicate Dense(refs: Refs) {
    forall id: nat :: id in refs.addrs <==> id < refs.id
  }

  ghost predicate Holds(refs: Refs, known: seq<Address>) {
    && refs.id == |known|
    && Dense(refs)
    && forall id :: 0 <= id < |known| ==> Get(refs, id) == known[id]
  }

  /** Every number in the list is that of an earlier literal of the same address, and nothing is too long. */
  ghost predicate EarlierOnly(list: seq<Sent>) {
    forall i :: 0 <= i < |list| ==>
      && Sized(list[i])
      && match list[i].form
         case Literal(width) => width <= 8
         case Reference(id) => id < |Literals(list, i)| && Literals(list, i)[id] == list[i].addr
  }

  lemma {:induction false} EarlierFits(list: seq<Sent>, n: nat, refs: Refs)
    requires EarlierOnly(list) && |list| < 0x1_0000_0000
    requires n <= |list| && |Literals(list, n)| <= n && Holds(refs, Literals(list, n))
    ensures AllFit(list[n..], refs)
    ensures Holds(AfterAll(list[n..], refs), Literals(list, |list|))
    decreases |list| - n
  {
    hide Sized, Holds, EarlierOnly, Fits, After, Literals;
    if n < |list| {
      assert list[n..][0] == list[n] && list[n..][1..] == list[n + 1..];
      FitsHere(list, n, refs);
      AddHolds(list, n, refs);
      EarlierFits(list, n + 1, After(list[n], refs));
    }
  }

  lemma EmptyHolds(list: seq<Sent>)
    ensures Literals(list, 0) == [] && Holds(NO_REFS, [])
  {
    assert NO_REFS.addrs == map[];
  }

  lemma FitsHere(list: seq<Sent>, n: nat, refs: Refs)
    requires EarlierOnly(list) && n < |list| && Holds(refs, Literals(list, n))
    ensures Fits(list[n], refs)
  {
    hide Sized, Literals, Dense;
  }

  lemma AddHolds(list: seq<Sent>, n: nat, refs: Refs)
    requires n < |list| < 0x1_0000_0000 && |Literals(list, n)| <= n && Holds(refs, Literals(list, n))
    ensures Holds(After(list[n], refs), Literals(list, n + 1)) && |Literals(list, n + 1)| <= n + 1
  {
  }

  /** Any list of addresses, each written out or put as the number of an earlier one, is read back from an
      empty dictionary; the dictionary then holds exactly the addresses written out, numbered from zero. */
  lemma DictionaryRoundTrip(list: seq<Sent>, rest: seq<Byte>)
    requires EarlierOnly(list) && |list| < 0x1_0000_0000
    ensures var r := ReadAddresses(|list|, EncodeAddresses(list) + rest, NO_REFS, []);
            && r.Got? && r.rest == rest && r.value.v == Plain(list)
            && Holds(r.value.refs, Literals(list, |list|))
  {
    hide ReadAddresses, EncodeAddresses, Sized, AllFit;
    assert list[0..] == list;
    EmptyHolds(list);
    EarlierFits(list, 0, NO_REFS);
    AddressesRoundTrip(list, NO_REFS, [], rest);
    assert [] + Plain(list) == Plain(list);
  }

  /** Whatever the input, reading an address adds at most one number, keeps the numbers dense until the
      counter would pass 2^32 - 1, and never changes an address already numbered. */
  lemma ReadKeepsDense(input: seq<Byte>, refs: Refs)
    requires Dense(refs) && refs.id < 0xFFFF_FFFF
    ensures var r := ReadAddress(input, refs);
            r.Got? ==> && Dense(r.value.refs) && refs.id <= r.value.refs.id <= refs.id + 1
                       && forall id :: id in refs.addrs ==> Get(r.value.refs, id) == Get(refs, id)
  {
    hide BigEndian, Take, ReadUint;
  }
}
