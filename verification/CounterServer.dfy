/** The replicated fetch-and-add counter of example/counter/server.cc. */
module CounterServer {
  import opened Wrappers
  import opened Decimal
  import opened Bytes
  import opened Protobuf

  /** What the server relies on of protobuf for FetchAddRequest. */
  datatype Codec = Codec(serialize: int64 -> seq<Byte>, parse: seq<Byte> -> Option<int64>) {
    ghost predicate Valid() {
      forall d: int64 :: parse(serialize(d)) == Some(d)
    }
  }

  /** The messages FetchAddRequest and Snapshot both consist of one required int64, field 1. */
  function ValueMessage(d: int64): seq<Byte> {
    Serialize([Field(TAG_1, Unsigned(d))])
  }

  function ParsedValue(b: seq<Byte>): Option<int64> {
    match Parse(b)
    case None => None
    case Some(fields) =>
      var value := Lookup(fields, TAG_1);
      if value.None? then None else Some(Signed64(value.value))
  }

  /** A request parses if and only if it has the value. */
  lemma ValueParsesIff(fields: seq<Field>)
    ensures ParsedValue(Serialize(fields)).Some? <==> Has(fields, 8)
  {
    FieldsRoundTrip(fields);
    LookupIff(fields, 8);
  }

  const PROTOBUF := Codec(ValueMessage, ParsedValue)

  /** The wire format of protobuf is such a codec. */
  lemma ProtobufIsValid()
    ensures PROTOBUF.Valid()
  {
    forall d: int64 ensures PROTOBUF.parse(PROTOBUF.serialize(d)) == Some(d) {
      FieldsRoundTrip([Field(TAG_1, Unsigned(d))]);
      SignedUnsigned(d);
    }
  }

  /** A committed entry; the closure holds the amount on the node that proposed it. */
  datatype Entry = Entry(data: seq<Byte>, closure: Option<int64>)

  /** The two's complement int64 that is congruent to x. */
  function Wrap(x: int): (w: int64)
    ensures InRange(x) ==> w == x
  {
    (x - INT64_MIN) % UINT64_LIMIT + INT64_MIN
  }

  function Sum(ds: seq<int64>): int {
    if ds == [] then 0 else Sum(ds[..|ds| - 1]) + ds[|ds| - 1]
  }

  /** These entries are the log of the amounts ds; any subset may carry its closure. */
  ghost predicate Carries(codec: Codec, es: seq<Entry>, ds: seq<int64>) {
    && |es| == |ds|
    && (forall k :: 0 <= k < |es| ==>
          es[k].data == codec.serialize(ds[k]) && (es[k].closure.Some? ==> es[k].closure.value == ds[k]))
  }

  /** The amount of an entry: from its closure if it has one, else parsed; None where a CHECK stops the process. */
  function Amount(codec: Codec, e: Entry): Option<int64> {
    if e.closure.Some? then e.closure else codec.parse(e.data)
  }

  /** The amounts of the entries up to the first one that stops the process. */
  function Executed(codec: Codec, es: seq<Entry>): (ds: seq<int64>)
    ensures |ds| <= |es|
    ensures forall k :: 0 <= k < |ds| ==> Amount(codec, es[k]) == Some(ds[k])
    ensures |ds| < |es| ==> Amount(codec, es[|ds|]).None?
  {
    if es == [] || Amount(codec, es[0]).None? then []
    else [Amount(codec, es[0]).value] + Executed(codec, es[1..])
  }

  /** The closure path and the parsing path add the same amounts. */
  lemma CarriedIsExecuted(codec: Codec, es: seq<Entry>, ds: seq<int64>)
    requires codec.Valid() && Carries(codec, es, ds)
    ensures Executed(codec, es) == ds
  {
  }

  /** fetch_add on an atomic int64. */
  function FetchAdd(v: int64, d: int64): int64 {
    var sum: int := v + d;
    if sum > INT64_MAX then sum - UINT64_LIMIT else if sum < INT64_MIN then sum + UINT64_LIMIT else sum
  }

  lemma FetchAddWraps(a: int, d: int64)
    ensures FetchAdd(Wrap(a), d) == Wrap(a + d)
  {
  }

  /** The counter after adding the amounts one by one, wrapping each time. */
  function ValueAfter(v: int64, ds: seq<int64>): int64 {
    if ds == [] then v else FetchAdd(ValueAfter(v, ds[..|ds| - 1]), ds[|ds| - 1])
  }

  /** Wrapping at every addition is wrapping the sum once. */
  lemma {:induction false} ValueIsWrappedSum(before: int, ds: seq<int64>)
    ensures ValueAfter(Wrap(before), ds) == Wrap(before + Sum(ds))
  {
    if ds != [] {
      var n := |ds| - 1;
      ValueIsWrappedSum(before, ds[..n]);
      FetchAddWraps(before + Sum(ds[..n]), ds[n]);
    }
  }

  /** Each closure is answered with the value before its own amount is added. */
  ghost predicate Replied(es: seq<Entry>, v: int64, ds: seq<int64>, replies: seq<Option<int64>>) {
    && |replies| <= |ds| <= |es|
    && (forall k :: 0 <= k < |replies| ==>
          replies[k] == if es[k].closure.Some? then Some(ValueAfter(v, ds[..k])) else None)
  }

  /** The amounts in front of entry i have been added and answered. */
  ghost predicate Added(es: seq<Entry>, v: int64, ds: seq<int64>, i: nat, value: int64, replies: seq<Option<int64>>) {
    i == |replies| && Replied(es, v, ds, replies) && value == ValueAfter(v, ds[..i])
  }

  lemma AddedNext(es: seq<Entry>, v: int64, ds: seq<int64>, i: nat, value: int64, replies: seq<Option<int64>>)
    requires Added(es, v, ds, i, value, replies) && i < |ds|
    ensures var reply := if es[i].closure.Some? then Some(value) else None;
            Added(es, v, ds, i + 1, FetchAdd(value, ds[i]), replies + [reply])
  {
    assert ds[..i + 1][..i] == ds[..i];
  }

  lemma ValueFromZero(ds: seq<int64>)
    ensures ValueAfter(0, ds) == Wrap(Sum(ds))
  {
    assert Wrap(0) == 0;
    ValueIsWrappedSum(0, ds);
  }

  lemma {:induction false} ValueAfterConcat(v: int64, a: seq<int64>, b: seq<int64>)
    ensures ValueAfter(v, a + b) == ValueAfter(ValueAfter(v, a), b)
    decreases |b|
  {
    if b == [] {
      assert a + b == a;
    } else {
      var n := |b| - 1;
      assert (a + b)[..|a| + n] == a + b[..n];
      ValueAfterConcat(v, a, b[..n]);
    }
  }

  /** A reply within a batch is the wrapped sum of everything before it in the whole log. */
  lemma RepliesArePrefixSums(earlier: seq<int64>, es: seq<Entry>, ds: seq<int64>, replies: seq<Option<int64>>, k: nat)
    requires Replied(es, ValueAfter(0, earlier), ds, replies) && k < |replies| && es[k].closure.Some?
    ensures replies[k] == Some(Wrap(Sum(earlier + ds[..k])))
  {
    ValueAfterConcat(0, earlier, ds[..k]);
    ValueFromZero(earlier + ds[..k]);
  }

  /** The snapshot file: the length of the Snapshot message in network order, then the message. */
  function SnapshotFile(value: int64): seq<Byte>
    requires |ValueMessage(value)| < UINT32_LIMIT
  {
    BigEndian32(|ValueMessage(value)|) + ValueMessage(value)
  }

  /**
    Loading a snapshot file: None for one that is too short. A message that does not
    parse is not noticed; whatever of the value was read then counts, or 0.
  */
  function LoadedValue(file: seq<Byte>): Option<int64> {
    if |file| < 4 then None
    else
      var n := FromBigEndian32(file[..4]);
      if n >= 0x8000_0000 || |file| < 4 + n then None
      else
        var value := Lookup(ParsedPrefix(file[4..4 + n]), TAG_1);
        Some(if value.Some? then Signed64(value.value) else 0)
  }

  lemma MessageLength(value: int64)
    ensures |ValueMessage(value)| <= 11
  {
    SerializedLength([Field(TAG_1, Unsigned(value))]);
  }

  /** The log of a request and the snapshot of a value in bytes; an int64 takes at most ten. */
  lemma LogAndSnapshotBytes(d: int64)
    ensures var v := Varint(Unsigned(d));
            && |v| <= 10 && |ValueMessage(d)| <= 11
            && PROTOBUF.serialize(d) == [8] + v
            && SnapshotFile(d) == [0, 0, 0, 1 + |v|] + ([8] + v)
  {
    SerializeOne(Field(TAG_1, Unsigned(d)));
    Int64Length(Unsigned(d));
    var n := |ValueMessage(d)|;
    assert BigEndian32(n) == [0, 0, 0, n];
  }

  /** Which files are too short: the length counts, and lengths of 2^31 and more are refused. */
  lemma LoadedIff(file: seq<Byte>)
    ensures LoadedValue(file).Some? <==>
            && |file| >= 4 && file[0] < 128
            && |file| >= 4 + (file[0] as int * 0x100_0000 + file[1] as int * 0x1_0000
                              + file[2] as int * 0x100 + file[3] as int)
  {
  }

  /** A message without the value, or cut short in front of it, counts as 0. */
  lemma MissingIsZero(file: seq<Byte>, fields: seq<Field>, rest: seq<Byte>)
    requires LoadedValue(file).Some? && file[4..4 + FromBigEndian32(file[..4])] == Serialize(fields) + rest
    requires rest == [] || EndsInside(rest)
    requires forall j :: 0 <= j < |fields| ==> fields[j].tag != 8
    ensures LoadedValue(file) == Some(0)
  {
    LookupMissing(fields, 8);
    if rest == [] {
      FieldsRoundTrip(fields);
      assert Serialize(fields) + rest == Serialize(fields);
      PrefixIsWhole(Serialize(fields));
    } else {
      CutShort(fields, rest);
    }
  }

  lemma SplitFile(header: seq<Byte>, message: seq<Byte>)
    requires |header| == 4
    ensures (header + message)[..4] == header && (header + message)[4..4 + |message|] == message
  {
  }

  /** Loading undoes saving. */
  lemma SnapshotFileRoundTrip(value: int64)
    ensures |ValueMessage(value)| <= 11 && LoadedValue(SnapshotFile(value)) == Some(value)
  {
    MessageLength(value);
    var message, fields := ValueMessage(value), [Field(TAG_1, Unsigned(value))];
    BigEndianRoundTrip(|message|);
    SplitFile(BigEndian32(|message|), message);
    FieldsRoundTrip(fields);
    PrefixIsWhole(message);
    SignedUnsigned(value);
    assert Lookup(fields, TAG_1) == Some(Unsigned(value));
  }

  /**
    A snapshot of the first i amounts, written to a file, loaded from it and with the
    rest replayed over it, holds the wrapped sum of the whole log.
  */
  lemma SnapshotThenReplay(ds: seq<int64>, i: nat)
    requires i <= |ds|
    ensures var saved := ValueAfter(0, ds[..i]);
            && |ValueMessage(saved)| <= 11
            && var loaded := LoadedValue(SnapshotFile(saved));
               loaded.Some? && ValueAfter(loaded.value, ds[i..]) == Wrap(Sum(ds))
  {
    assert ds[..i] + ds[i..] == ds;
    ValueAfterConcat(0, ds[..i], ds[i..]);
    ValueFromZero(ds);
    SnapshotFileRoundTrip(ValueAfter(0, ds[..i]));
  }

  class Counter {
    var value: int64

    constructor ()
      ensures value == 0
    {
      value := 0;
    }

    /** Apply one batch, up to the first entry that fails the CHECK on parsing. */
    method OnApply(codec: Codec, es: seq<Entry>) returns (replies: seq<Option<int64>>)
      modifies this
      ensures value == ValueAfter(old(value), Executed(codec, es))
      ensures |replies| == |Executed(codec, es)| && Replied(es, old(value), Executed(codec, es), replies)
    {
      replies := [];
      ghost var ds, v := Executed(codec, es), value;
      for i := 0 to |es|
        invariant Added(es, v, ds, i, value, replies)
      {
        var delta := Amount(codec, es[i]);
        if delta.None? {
          assert ds[..i] == ds;
          return;
        }
        var prev := value;
        assert delta == Some(ds[i]) && i < |ds|;
        value := FetchAdd(value, delta.value);
        AddedNext(es, v, ds, i, prev, replies);
        replies := replies + [if es[i].closure.Some? then Some(prev) else None];
      }
      assert ds[..|es|] == ds;
    }

    /** The value is captured when the snapshot starts, so entries applied before it is written do not show. */
    method SnapshotWhileApplying(codec: Codec, es: seq<Entry>) returns (file: seq<Byte>)
      modifies this
      ensures LoadedValue(file) == Some(old(value)) && value == ValueAfter(old(value), Executed(codec, es))
    {
      var arg := value;
      var _ := OnApply(codec, es);
      SnapshotFileRoundTrip(arg);
      var message := ValueMessage(arg);
      file := BigEndian32(|message|) + message;
    }

    /** Load a snapshot; false, and nothing changed, for a file that is too short. */
    method OnSnapshotLoad(file: seq<Byte>) returns (ok: bool)
      modifies this
      ensures ok <==> LoadedValue(file).Some?
      ensures value == if ok then LoadedValue(file).value else old(value)
    {
      var loaded := LoadedValue(file);
      ok := loaded.Some?;
      if ok {
        value := loaded.value;
      }
    }
  }
}
