/**
  The wire format of protobuf messages whose fields are all integers: each field is
  a tag and a value, both base-128 varints, least significant group first. The
  messages of the raft examples (example/atomic/atomic.proto,
  example/counter/counter.proto, example/block/block.proto) are of this kind.
*/
module Protobuf {
  import opened Wrappers
  import opened Decimal
  import opened Bytes

  const UINT64_LIMIT: int := 0x1_0000_0000_0000_0000

  /** Field numbers 1, 2 and 3 with the wire type of varints. */
  const TAG_1 := 8
  const TAG_2 := 16
  const TAG_3 := 24

  type int32 = x: int | -0x8000_0000 <= x < 0x8000_0000

  /** A field as sent: its value as an unsigned number. */
  datatype Field = Field(tag: nat, value: nat)

  function Varint(n: nat): (b: seq<Byte>)
    ensures b != []
  {
    if n < 128 then [n] else [n % 128 + 128] + Varint(n / 128)
  }

  /** One varint off the front, or None if the bytes end before it does. */
  function ReadVarint(b: seq<Byte>): (r: Option<(nat, seq<Byte>)>)
    ensures r.Some? ==> |r.value.1| < |b|
  {
    if b == [] then None
    else if b[0] < 128 then Some((b[0], b[1..]))
    else
      match ReadVarint(b[1..])
      case None => None
      case Some((n, rest)) => Some((b[0] - 128 + 128 * n, rest))
  }

  lemma OneMoreByte(x: Byte, v: seq<Byte>, tail: seq<Byte>)
    ensures ([x] + v + tail)[0] == x && ([x] + v + tail)[1..] == v + tail
  {
  }

  lemma {:induction false} VarintRoundTrip(n: nat, tail: seq<Byte>)
    ensures ReadVarint(Varint(n) + tail) == Some((n, tail))
  {
    if n < 128 {
      assert ([n] + tail)[1..] == tail;
    } else {
      var low, high := n % 128, n / 128;
      VarintRoundTrip(high, tail);
      OneMoreByte(low + 128, Varint(high), tail);
      MoreBytes([low + 128] + Varint(high) + tail, low, high, tail);
    }
  }

  lemma MoreBytes(b: seq<Byte>, low: nat, high: nat, tail: seq<Byte>)
    requires b != [] && low < 128 && b[0] == low + 128 && ReadVarint(b[1..]) == Some((high, tail))
    ensures ReadVarint(b) == Some((low + 128 * high, tail))
  {
  }

  /** A varint of k groups of seven bits takes at most k bytes. */
  lemma {:induction false} VarintLength(n: nat, k: nat, limit: nat)
    requires k > 0 && limit == Power128(k) && n < limit
    ensures |Varint(n)| <= k
  {
    if n >= 128 {
      VarintLength(n / 128, k - 1, Power128(k - 1));
    }
  }

  function Power128(k: nat): nat {
    if k == 0 then 1 else 128 * Power128(k - 1)
  }

  /** n shifted right by k groups of seven bits. */
  function Shifted(n: nat, k: nat): nat {
    if k == 0 then n else Shifted(n, k - 1) / 128
  }

  lemma {:induction false} ShiftedFirst(n: nat, k: nat)
    ensures Shifted(n / 128, k) == Shifted(n, k + 1)
  {
    if k > 0 {
      ShiftedFirst(n, k - 1);
    }
  }

  /** Byte k holds group k, and all but the last byte a 128. */
  lemma {:induction false} VarintGroups(n: nat, k: nat)
    requires k < |Varint(n)|
    ensures Varint(n)[k] == Shifted(n, k) % 128 + if k == |Varint(n)| - 1 then 0 else 128
    ensures k == |Varint(n)| - 1 ==> Shifted(n, k) < 128
  {
    if n >= 128 && k > 0 {
      VarintGroups(n / 128, k - 1);
      ShiftedFirst(n, k - 1);
    }
  }

  lemma Int64Length(n: nat)
    requires n < UINT64_LIMIT
    ensures |Varint(n)| <= 10
  {
    assert Power128(5) == 0x8_0000_0000;
    assert Power128(10) >= UINT64_LIMIT;
    VarintLength(n, 10, Power128(10));
  }

  /** Negative numbers are sent as their 64-bit two's complement. */
  function Unsigned(x: int64): (n: nat)
    ensures n < UINT64_LIMIT && (n == x || n == x + 0x1_0000_0000_0000_0000)
  {
    if x < 0 then x + UINT64_LIMIT else x
  }

  /** The low 64 bits as a signed number. */
  function Signed64(n: nat): int64 {
    var m := n % UINT64_LIMIT;
    if m <= INT64_MAX then m else m - UINT64_LIMIT
  }

  /** The low 32 bits as a signed number. */
  function Signed32(n: nat): int32 {
    var m := n % UINT32_LIMIT;
    if m < 0x8000_0000 then m else m - UINT32_LIMIT
  }

  /** Higher bits are dropped. */
  lemma HighBitsDropped(n: nat)
    ensures Signed64(n + 0x1_0000_0000_0000_0000) == Signed64(n)
    ensures Signed32(n + 0x1_0000_0000) == Signed32(n)
  {
  }

  lemma SignedUnsigned(x: int64)
    ensures Signed64(Unsigned(x)) == x
    ensures -0x8000_0000 <= x < 0x8000_0000 ==> Signed32(Unsigned(x)) == x
  {
  }

  function Serialize(fields: seq<Field>): seq<Byte> {
    if fields == [] then []
    else Varint(fields[0].tag) + Varint(fields[0].value) + Serialize(fields[1..])
  }

  lemma SerializeOne(f: Field)
    requires f.tag < 128
    ensures Serialize([f]) == [f.tag] + Varint(f.value)
  {
    assert [f][1..] == [] && Serialize([f][1..]) == [];
  }

  lemma SerializeTwo(f: Field, g: Field)
    requires f.tag < 128 && g.tag < 128
    ensures Serialize([f, g]) == [f.tag] + Varint(f.value) + [g.tag] + Varint(g.value)
  {
    assert [f, g][1..] == [g];
    SerializeOne(g);
  }

  lemma SerializeThree(f: Field, g: Field, h: Field)
    requires f.tag < 128 && g.tag < 128 && h.tag < 128
    ensures Serialize([f, g, h]) ==
            [f.tag] + Varint(f.value) + [g.tag] + Varint(g.value) + [h.tag] + Varint(h.value)
  {
    assert [f, g, h][1..] == [g, h];
    SerializeTwo(g, h);
  }

  function Parse(b: seq<Byte>): Option<seq<Field>>
    decreases |b|
  {
    if b == [] then Some([])
    else
      match ReadVarint(b)
      case None => None
      case Some((tag, afterTag)) =>
        match ReadVarint(afterTag)
        case None => None
        case Some((n, rest)) =>
          match Parse(rest)
          case None => None
          case Some(fields) => Some([Field(tag, n)] + fields)
  }

  /** The fields in front of the first malformed one, which is all of them if none is. */
  function ParsedPrefix(b: seq<Byte>): seq<Field>
    decreases |b|
  {
    match ReadVarint(b)
    case None => []
    case Some((tag, afterTag)) =>
      match ReadVarint(afterTag)
      case None => []
      case Some((n, rest)) => [Field(tag, n)] + ParsedPrefix(rest)
  }

  lemma {:induction false} PrefixIsWhole(b: seq<Byte>)
    requires Parse(b).Some?
    ensures ParsedPrefix(b) == Parse(b).value
    decreases |b|
  {
    if b != [] {
      PrefixIsWhole(ReadVarint(ReadVarint(b).value.1).value.1);
    }
  }

  lemma ParseField(f: Field, b: seq<Byte>, fields: seq<Field>)
    requires Parse(b) == Some(fields)
    ensures Parse(Varint(f.tag) + Varint(f.value) + b) == Some([f] + fields)
  {
    var value := Varint(f.value);
    var c := Varint(f.tag) + (value + b);
    assert Varint(f.tag) + value + b == c;
    VarintRoundTrip(f.tag, value + b);
    VarintRoundTrip(f.value, b);
    assert c != [];
  }

  /** Parsing undoes serialising, for any fields. */
  lemma {:induction false} FieldsRoundTrip(fields: seq<Field>)
    ensures Parse(Serialize(fields)) == Some(fields)
  {
    if fields != [] {
      FieldsRoundTrip(fields[1..]);
      ParseField(fields[0], Serialize(fields[1..]), fields[1..]);
      assert [fields[0]] + fields[1..] == fields;
    }
  }

  lemma {:induction false} SerializedLength(fields: seq<Field>)
    requires forall f :: f in fields ==> f.tag < 128 && f.value < UINT64_LIMIT
    ensures |Serialize(fields)| <= 11 * |fields|
  {
    if fields != [] {
      Int64Length(fields[0].value);
      SerializedLength(fields[1..]);
    }
  }

  /** The value of a field; the last occurrence counts. */
  function Lookup(fields: seq<Field>, tag: nat): Option<nat> {
    if fields == [] then None
    else if fields[|fields| - 1].tag == tag then Some(fields[|fields| - 1].value)
    else Lookup(fields[..|fields| - 1], tag)
  }

  lemma {:induction false} LookupIsLast(fields: seq<Field>, tag: nat, i: nat)
    requires i < |fields| && fields[i].tag == tag && forall j :: i < j < |fields| ==> fields[j].tag != tag
    ensures Lookup(fields, tag) == Some(fields[i].value)
  {
    if i < |fields| - 1 {
      LookupIsLast(fields[..|fields| - 1], tag, i);
    }
  }

  lemma {:induction false} LookupMissing(fields: seq<Field>, tag: nat)
    requires forall j :: 0 <= j < |fields| ==> fields[j].tag != tag
    ensures Lookup(fields, tag) == None
  {
    if fields != [] {
      LookupMissing(fields[..|fields| - 1], tag);
    }
  }

  /** A message has a field if and only if looking it up finds one. */
  ghost predicate Has(fields: seq<Field>, tag: nat) {
    exists i :: 0 <= i < |fields| && fields[i].tag == tag
  }

  lemma {:induction false} LookupIff(fields: seq<Field>, tag: nat)
    ensures Lookup(fields, tag).Some? <==> Has(fields, tag)
  {
    if fields != [] {
      var n := |fields| - 1;
      LookupIff(fields[..n], tag);
      assert forall i :: 0 <= i < n ==> fields[..n][i] == fields[i];
    }
  }

  // ----- Malformed messages

  lemma FieldThenShort(f: Field, b: seq<Byte>)
    requires Parse(b) == None
    ensures var c := Varint(f.tag) + Varint(f.value) + b;
            Parse(c) == None && ParsedPrefix(c) == [f] + ParsedPrefix(b)
  {
    var value := Varint(f.value);
    var c := Varint(f.tag) + (value + b);
    assert Varint(f.tag) + value + b == c;
    VarintRoundTrip(f.tag, value + b);
    VarintRoundTrip(f.value, b);
    assert c != [];
  }

  lemma {:induction false} ShortAfter(fields: seq<Field>, rest: seq<Byte>)
    requires Parse(rest) == None && ParsedPrefix(rest) == []
    ensures Parse(Serialize(fields) + rest) == None && ParsedPrefix(Serialize(fields) + rest) == fields
  {
    if fields == [] {
      assert Serialize(fields) + rest == rest;
    } else {
      var f, b := fields[0], Serialize(fields[1..]);
      ShortAfter(fields[1..], rest);
      FieldThenShort(f, b + rest);
      Regroup(Varint(f.tag) + Varint(f.value), b, rest);
      assert [f] + fields[1..] == fields;
    }
  }

  lemma Regroup(a: seq<Byte>, b: seq<Byte>, c: seq<Byte>)
    ensures a + b + c == a + (b + c)
  {
  }

  /** A message that ends inside a number after some fields does not parse, and its prefix is those fields. */
  lemma CutShort(fields: seq<Field>, rest: seq<Byte>)
    requires rest != [] && EndsInside(rest)
    ensures Parse(Serialize(fields) + rest) == None && ParsedPrefix(Serialize(fields) + rest) == fields
  {
    InsideIsMalformed(rest);
    ShortAfter(fields, rest);
  }

  /** The bytes end in the tag of a field, or in its value. */
  ghost predicate EndsInside(b: seq<Byte>) {
    || (forall k :: 0 <= k < |b| ==> b[k] >= 128)
    || exists tag, tail :: b == Varint(tag) + tail && forall k :: 0 <= k < |tail| ==> tail[k] >= 128
  }

  lemma {:induction false} NoEnd(b: seq<Byte>)
    requires forall k :: 0 <= k < |b| ==> b[k] >= 128
    ensures ReadVarint(b) == None
  {
    if b != [] {
      NoEnd(b[1..]);
    }
  }

  lemma InsideIsMalformed(b: seq<Byte>)
    requires b != [] && EndsInside(b)
    ensures Parse(b) == None && ParsedPrefix(b) == []
  {
    if forall k :: 0 <= k < |b| ==> b[k] >= 128 {
      NoEnd(b);
    } else {
      var tag, tail :| b == Varint(tag) + tail && forall k :: 0 <= k < |tail| ==> tail[k] >= 128;
      VarintRoundTrip(tag, tail);
      NoEnd(tail);
    }
  }
}
