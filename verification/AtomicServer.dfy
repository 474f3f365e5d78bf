/**
  The replicated register map of example/atomic/server.cc.

  The raft library is modelled by what it gives the state machine: an ordered
  committed log, delivered in batches, where an entry proposed by this node still
  carries its closure. Serialisation is a parameter, an invertible codec; protobuf is one.
*/
module AtomicServer {
  import opened Wrappers
  import opened Decimal
  import opened Bytes
  import opened Protobuf

  const OP_GET: Byte := 1
  const OP_EXCHANGE: Byte := 2
  const OP_CAS: Byte := 3

  datatype Request =
    | Get(id: int64)
    | Exchange(id: int64, value: int64)
    | CompareExchange(id: int64, expected: int64, newValue: int64)

  datatype Response = Response(success: bool, id: int64, oldValue: int64, newValue: int64)

  type ValueMap = map<int64, int64>

  function Opcode(r: Request): Byte {
    match r
    case Get(_) => OP_GET
    case Exchange(_, _) => OP_EXCHANGE
    case CompareExchange(_, _, _) => OP_CAS
  }

  /** Protobuf: serialise a request body; parse a body as the message type of an opcode. */
  datatype Codec = Codec(serialize: Request -> seq<Byte>, parse: (Byte, seq<Byte>) -> Option<Request>) {
    ghost predicate Valid() {
      && (forall r :: parse(Opcode(r), serialize(r)) == Some(r))
      && (forall t, body :: parse(t, body).Some? ==> Opcode(parse(t, body).value) == t)
    }
  }

  function RequestFields(r: Request): seq<Field> {
    match r
    case Get(id) => [Field(TAG_1, Unsigned(id))]
    case Exchange(id, v) => [Field(TAG_1, Unsigned(id)), Field(TAG_2, Unsigned(v))]
    case CompareExchange(id, e, v) =>
      [Field(TAG_1, Unsigned(id)), Field(TAG_2, Unsigned(e)), Field(TAG_3, Unsigned(v))]
  }

  function SerializeRequest(r: Request): seq<Byte> {
    Serialize(RequestFields(r))
  }

  /** Every field of the three messages is required. */
  function ParseRequest(t: Byte, body: seq<Byte>): Option<Request> {
    match Parse(body)
    case None => None
    case Some(fields) =>
      var a, b, c := Lookup(fields, TAG_1), Lookup(fields, TAG_2), Lookup(fields, TAG_3);
      if t == OP_GET && a.Some? then Some(Get(Signed64(a.value)))
      else if t == OP_EXCHANGE && a.Some? && b.Some? then Some(Exchange(Signed64(a.value), Signed64(b.value)))
      else if t == OP_CAS && a.Some? && b.Some? && c.Some?
      then Some(CompareExchange(Signed64(a.value), Signed64(b.value), Signed64(c.value)))
      else None
  }

  /** A body parses if and only if it has the fields of its message. */
  lemma RequestParsesIff(t: Byte, fields: seq<Field>)
    ensures ParseRequest(t, Serialize(fields)).Some? <==>
            || (t == 1 && Has(fields, 8))
            || (t == 2 && Has(fields, 8) && Has(fields, 16))
            || (t == 3 && Has(fields, 8) && Has(fields, 16) && Has(fields, 24))
  {
    FieldsRoundTrip(fields);
    LookupIff(fields, 8);
    LookupIff(fields, 16);
    LookupIff(fields, 24);
  }

  const PROTOBUF := Codec(SerializeRequest, ParseRequest)

  lemma LookupFields(a: Field, b: Field, c: Field)
    ensures Lookup([a], a.tag) == Some(a.value)
    ensures a.tag != b.tag ==> Lookup([a, b], a.tag) == Some(a.value)
    ensures b.tag != c.tag ==> Lookup([a, b, c], b.tag) == Some(b.value)
    ensures a.tag != b.tag && a.tag != c.tag ==> Lookup([a, b, c], a.tag) == Some(a.value)
  {
    assert [a, b][..1] == [a] && [a, b, c][..2] == [a, b];
  }

  lemma RequestRoundTrip(r: Request)
    ensures ParseRequest(Opcode(r), SerializeRequest(r)) == Some(r)
  {
    var fs := RequestFields(r);
    FieldsRoundTrip(fs);
    SignedUnsigned(r.id);
    match r
    case Get(_) => LookupFields(fs[0], fs[0], fs[0]);
    case Exchange(_, v) =>
      SignedUnsigned(v);
      LookupFields(fs[0], fs[1], fs[1]);
    case CompareExchange(_, e, v) =>
      SignedUnsigned(e);
      SignedUnsigned(v);
      LookupFields(fs[0], fs[1], fs[2]);
  }

  /** The wire format of protobuf is such a codec. */
  lemma ProtobufIsValid()
    ensures PROTOBUF.Valid()
  {
    forall r ensures PROTOBUF.parse(Opcode(r), PROTOBUF.serialize(r)) == Some(r) {
      RequestRoundTrip(r);
    }
  }

  /** A committed entry; the closure is present on the node that proposed it. */
  datatype Entry = Entry(data: seq<Byte>, closure: Option<Request>)

  /** The bytes `apply` writes to the log: the opcode, then the serialised request. */
  function Frame(codec: Codec, r: Request): seq<Byte> {
    [Opcode(r)] + codec.serialize(r)
  }

  predicate Consistent(codec: Codec, e: Entry) {
    e.closure.Some? ==> e.data == Frame(codec, e.closure.value)
  }

  /** The log of the three requests in bytes, by the field numbers of example/atomic/atomic.proto. */
  lemma LogBytes(id: int64, a: int64, b: int64)
    ensures var i, x, y := Varint(Unsigned(id)), Varint(Unsigned(a)), Varint(Unsigned(b));
            && Frame(PROTOBUF, Get(id)) == [1] + ([8] + i)
            && Frame(PROTOBUF, Exchange(id, a)) == [2] + ([8] + i + [16] + x)
            && Frame(PROTOBUF, CompareExchange(id, a, b)) == [3] + ([8] + i + [16] + x + [24] + y)
  {
    var i, x, y := Field(TAG_1, Unsigned(id)), Field(TAG_2, Unsigned(a)), Field(TAG_3, Unsigned(b));
    SerializeOne(i);
    SerializeTwo(i, x);
    SerializeThree(i, x, y);
  }

  /** The request on_apply executes for an entry, None where a CHECK stops the process. */
  function Decoded(codec: Codec, e: Entry): Option<Request> {
    var t := if e.data == [] then 0 else e.data[0];
    if t != OP_GET && t != OP_EXCHANGE && t != OP_CAS then None
    else if e.closure.Some? then e.closure
    else codec.parse(t, e.data[1..])
  }

  /** A CHECK stops the process exactly at an unknown first byte, or at a body that does not parse if it is needed. */
  lemma DecodedIff(codec: Codec, e: Entry)
    ensures Decoded(codec, e).Some? <==>
            && e.data != [] && (e.data[0] == 1 || e.data[0] == 2 || e.data[0] == 3)
            && (e.closure.Some? || codec.parse(e.data[0], e.data[1..]).Some?)
  {
  }

  // ----- The state machine on values

  function ValueOf(m: ValueMap, id: int64): int64 {
    if id in m then m[id] else 0
  }

  /**
    get_value, exchange and cas. The two writers read through operator[], which
    inserts a zero for an absent key even when the comparison then fails.
  */
  function Execute(m: ValueMap, r: Request): (ValueMap, Response) {
    var was := ValueOf(m, r.id);
    match r
    case Get(id) => (m, Response(true, id, was, was))
    case Exchange(id, v) => (m[id := v], Response(true, id, was, v))
    case CompareExchange(id, e, v) =>
      if was != e then (m[id := was], Response(false, id, was, was))
      else (m[id := v], Response(true, id, was, v))
  }

  function Run(m: ValueMap, rs: seq<Request>): ValueMap {
    if rs == [] then m else Execute(Run(m, rs[..|rs| - 1]), rs[|rs| - 1]).0
  }

  /** The response to request k of a log. */
  function ReplyAt(m: ValueMap, rs: seq<Request>, k: nat): Response
    requires k < |rs|
  {
    Execute(Run(m, rs[..k]), rs[k]).1
  }

  lemma {:induction false} RunConcat(m: ValueMap, a: seq<Request>, b: seq<Request>)
    ensures Run(m, a + b) == Run(Run(m, a), b)
    decreases |b|
  {
    if b == [] {
      assert a + b == a;
    } else {
      var n := |b| - 1;
      assert (a + b)[..|a| + n] == a + b[..n];
      RunConcat(m, a, b[..n]);
    }
  }

  lemma ReplyPrefix(m: ValueMap, a: seq<Request>, r: Request, k: nat)
    requires k < |a|
    ensures ReplyAt(m, a + [r], k) == ReplyAt(m, a, k)
  {
    assert (a + [r])[..k] == a[..k];
  }

  // ----- The reference: one zero-initialised register per id

  /** The value of register `id` after a log: what the last request that wrote it put there, else 0. */
  function Register(rs: seq<Request>, id: int64): int64 {
    if rs == [] then 0
    else
      var before := Register(rs[..|rs| - 1], id);
      var last := rs[|rs| - 1];
      if last.Exchange? && last.id == id then last.value
      else if last.CompareExchange? && last.id == id && last.expected == before then last.newValue
      else before
  }

  /** What a sequential register holding `v` answers. */
  predicate Answers(v: int64, r: Request, a: Response) {
    && a.id == r.id
    && a.oldValue == v
    && (a.success <==> r.CompareExchange? ==> r.expected == v)
    && a.newValue == (if !a.success || r.Get? then v else if r.Exchange? then r.value else r.newValue)
  }

  lemma {:induction false} RunIsRegister(rs: seq<Request>, id: int64)
    ensures ValueOf(Run(map[], rs), id) == Register(rs, id)
  {
    if rs != [] {
      RunIsRegister(rs[..|rs| - 1], id);
    }
  }

  /** An id is in the map, and so in a snapshot, once a write to it was requested, even one that failed. */
  lemma {:induction false} KeysAreWritten(rs: seq<Request>, id: int64)
    ensures id in Run(map[], rs) <==> exists k :: 0 <= k < |rs| && rs[k].id == id && !rs[k].Get?
  {
    if rs != [] {
      var n := |rs| - 1;
      KeysAreWritten(rs[..n], id);
      assert forall k :: 0 <= k < n ==> rs[..n][k] == rs[k];
    }
  }

  /** Every reply is that of the sequential register of its id, in log order. */
  lemma RepliesAreSequential(rs: seq<Request>, k: nat)
    requires k < |rs|
    ensures Answers(Register(rs[..k], rs[k].id), rs[k], ReplyAt(map[], rs, k))
  {
    RunIsRegister(rs[..k], rs[k].id);
  }

  /** The response to one more request, given the value of its register. */
  lemma ReplyIs(rs: seq<Request>, r: Request)
    ensures var v := Register(rs, r.id);
            ReplyAt(map[], rs + [r], |rs|) ==
            match r
            case Get(id) => Response(true, id, v, v)
            case Exchange(id, x) => Response(true, id, v, x)
            case CompareExchange(id, e, x) => if v == e then Response(true, id, v, x) else Response(false, id, v, v)
  {
    assert (rs + [r])[..|rs|] == rs;
    RunIsRegister(rs, r.id);
  }

  /** The registers after one more request. */
  lemma RegisterNext(rs: seq<Request>, r: Request, id: int64)
    ensures var v := Register(rs, id);
            Register(rs + [r], id) ==
            if r.id != id then v
            else match r
                 case Get(_) => v
                 case Exchange(_, x) => x
                 case CompareExchange(_, e, x) => if v == e then x else v
    ensures Register([], id) == 0
  {
    assert (rs + [r])[..|rs|] == rs;
  }

  /** A reply given within a later batch is that of the register after everything before it in the whole log. */
  lemma ReplyAcrossBatches(earlier: seq<Request>, batch: seq<Request>, k: nat)
    requires k < |batch|
    ensures Answers(Register(earlier + batch[..k], batch[k].id), batch[k], ReplyAt(Run(map[], earlier), batch, k))
  {
    RunConcat(map[], earlier, batch[..k]);
    RunIsRegister(earlier + batch[..k], batch[k].id);
  }

  /** A register ignores requests for other ids: the log restricted to an id determines it. */
  function Restrict(rs: seq<Request>, id: int64): seq<Request> {
    if rs == [] then []
    else Restrict(rs[..|rs| - 1], id) + (if rs[|rs| - 1].id == id then [rs[|rs| - 1]] else [])
  }

  lemma {:induction false} RegisterIsLocal(rs: seq<Request>, id: int64)
    ensures Register(Restrict(rs, id), id) == Register(rs, id)
  {
    if rs != [] {
      var n := |rs| - 1;
      RegisterIsLocal(rs[..n], id);
      var t := Restrict(rs[..n], id);
      if rs[n].id == id {
        assert (t + [rs[n]])[..|t|] == t;
      } else {
        assert t + [] == t;
      }
    }
  }

  // ----- Logs as committed entries

  /** The requests of the entries up to the first one that stops the process. */
  function Executed(codec: Codec, es: seq<Entry>): (rs: seq<Request>)
    ensures |rs| <= |es|
  {
    if es == [] || Decoded(codec, es[0]).None? then []
    else [Decoded(codec, es[0]).value] + Executed(codec, es[1..])
  }

  lemma {:induction false} ExecutedIs(codec: Codec, es: seq<Entry>)
    ensures var rs := Executed(codec, es);
            && (forall k :: 0 <= k < |rs| ==> Decoded(codec, es[k]) == Some(rs[k]))
            && (|rs| < |es| ==> Decoded(codec, es[|rs|]).None?)
  {
    if es != [] && Decoded(codec, es[0]).Some? {
      ExecutedIs(codec, es[1..]);
    }
  }

  lemma ExecutedStep(codec: Codec, es: seq<Entry>, i: nat, executed: seq<Request>)
    requires i < |es| && Executed(codec, es) == executed + Executed(codec, es[i..])
    ensures Decoded(codec, es[i]).None? ==> Executed(codec, es) == executed
    ensures Decoded(codec, es[i]).Some? ==>
              Executed(codec, es) == executed + [Decoded(codec, es[i]).value] + Executed(codec, es[i + 1..])
  {
  }

  /** These entries are the log `rs`; any subset of them may carry its closure. */
  ghost predicate Carries(codec: Codec, es: seq<Entry>, rs: seq<Request>) {
    && |es| == |rs|
    && (forall k :: 0 <= k < |rs| ==>
          es[k].data == Frame(codec, rs[k]) && (es[k].closure.Some? ==> es[k].closure.value == rs[k]))
  }

  lemma FrameDecodes(codec: Codec, e: Entry, r: Request)
    requires codec.Valid() && e.data == Frame(codec, r) && (e.closure.Some? ==> e.closure.value == r)
    ensures Decoded(codec, e) == Some(r)
  {
  }

  lemma {:induction false} CarriedIsExecuted(codec: Codec, es: seq<Entry>, rs: seq<Request>)
    requires codec.Valid() && Carries(codec, es, rs)
    ensures Executed(codec, es) == rs
  {
    if es != [] {
      FrameDecodes(codec, es[0], rs[0]);
      CarriedIsExecuted(codec, es[1..], rs[1..]);
      assert rs == [rs[0]] + rs[1..];
    }
  }

  /** Each executed entry that carries a closure was given the reply to its request. */
  ghost predicate Answered(m: ValueMap, es: seq<Entry>, rs: seq<Request>, responses: seq<Option<Response>>) {
    && |responses| == |rs| <= |es|
    && (forall k :: 0 <= k < |rs| ==>
          responses[k] == if es[k].closure.Some? then Some(ReplyAt(m, rs, k)) else None)
  }

  lemma AnswerNext(m: ValueMap, es: seq<Entry>, rs: seq<Request>, responses: seq<Option<Response>>, r: Request)
    requires Answered(m, es, rs, responses) && |rs| < |es|
    ensures var reply := if es[|rs|].closure.Some? then Some(Execute(Run(m, rs), r).1) else None;
            Answered(m, es, rs + [r], responses + [reply])
    ensures Run(m, rs + [r]) == Execute(Run(m, rs), r).0
  {
    assert (rs + [r])[..|rs|] == rs;
    forall k | 0 <= k < |rs| ensures ReplyAt(m, rs + [r], k) == ReplyAt(m, rs, k) {
      ReplyPrefix(m, rs, r, k);
    }
  }

  function Flatten<T>(batches: seq<seq<T>>): seq<T> {
    if batches == [] then [] else Flatten(batches[..|batches| - 1]) + batches[|batches| - 1]
  }

  function RunBatches(codec: Codec, m: ValueMap, batches: seq<seq<Entry>>): ValueMap {
    if batches == [] then m
    else Run(RunBatches(codec, m, batches[..|batches| - 1]), Executed(codec, batches[|batches| - 1]))
  }

  /**
    Replicas agree: however the committed log is cut into batches and whichever
    entries still carry a closure, the map is that of the log.
  */
  lemma {:induction false} ReplicasAgree(codec: Codec, batches: seq<seq<Entry>>, rs: seq<Request>)
    requires codec.Valid() && Carries(codec, Flatten(batches), rs)
    ensures RunBatches(codec, map[], batches) == Run(map[], rs)
  {
    if batches != [] {
      var n := |batches| - 1;
      var front := Flatten(batches[..n]);
      CarriesSplit(codec, front, batches[n], rs);
      ReplicasAgree(codec, batches[..n], rs[..|front|]);
      LastBatch(codec, |front|, batches[n], rs);
    }
  }

  lemma LastBatch(codec: Codec, n: nat, batch: seq<Entry>, rs: seq<Request>)
    requires codec.Valid() && n <= |rs| && Carries(codec, batch, rs[n..])
    ensures Run(Run(map[], rs[..n]), Executed(codec, batch)) == Run(map[], rs)
  {
    CarriedIsExecuted(codec, batch, rs[n..]);
    RunConcat(map[], rs[..n], rs[n..]);
    assert rs[..n] + rs[n..] == rs;
  }

  lemma CarriesSplit(codec: Codec, a: seq<Entry>, b: seq<Entry>, rs: seq<Request>)
    requires Carries(codec, a + b, rs)
    ensures Carries(codec, a, rs[..|a|]) && Carries(codec, b, rs[|a|..])
  {
    assert forall k :: 0 <= k < |a| ==> (a + b)[k] == a[k];
    assert forall k :: 0 <= k < |b| ==> (a + b)[|a| + k] == b[k];
  }

  // ----- Snapshots

  type Values = seq<(int64, int64)>

  function Line(p: (int64, int64)): string {
    Print(p.0) + " " + Print(p.1) + "\n"
  }

  /** The snapshot file: one "id value" line per pair. */
  function PrintValues(vs: Values): string {
    if vs == [] then "" else PrintValues(vs[..|vs| - 1]) + Line(vs[|vs| - 1])
  }

  function InsertAll(m: ValueMap, vs: Values): ValueMap {
    if vs == [] then m else InsertAll(m, vs[..|vs| - 1])[vs[|vs| - 1].0 := vs[|vs| - 1].1]
  }

  /** The loop `while (is >> id >> value) _value_map[id] = value`. */
  function LoadInto(m: ValueMap, text: string): ValueMap
    decreases |text|
  {
    match Extract(text)
    case None => m
    case Some((id, afterId)) =>
      match Extract(afterId)
      case None => m
      case Some((value, rest)) => LoadInto(m[id := value], rest)
  }

  /** The pairs are the entries of the map, each once, in some order. */
  ghost predicate Lists(vs: Values, m: ValueMap) {
    && (forall i, j :: 0 <= i < j < |vs| ==> vs[i].0 != vs[j].0)
    && (forall i :: 0 <= i < |vs| ==> vs[i].0 in m && m[vs[i].0] == vs[i].1)
    && (forall id :: id in m ==> exists i :: 0 <= i < |vs| && vs[i].0 == id)
  }

  lemma ListsExtend(vs: Values, m: ValueMap, id: int64, value: int64)
    requires Lists(vs, m) && id !in m
    ensures Lists(vs + [(id, value)], m[id := value])
  {
    var ws, n := vs + [(id, value)], m[id := value];
    forall key | key in n ensures exists i :: 0 <= i < |ws| && ws[i].0 == key {
      if key == id {
        assert ws[|vs|].0 == id;
      } else {
        var i :| 0 <= i < |vs| && vs[i].0 == key;
        assert ws[i].0 == key;
      }
    }
  }

  /** The map is split into what is still to be copied and what the pairs already list. */
  ghost predicate Copying(whole: ValueMap, rest: ValueMap, copied: ValueMap, vs: Values) {
    && (forall id :: id in whole <==> id in rest || id in copied)
    && (forall id :: id in rest ==> id !in copied && whole[id] == rest[id])
    && (forall id :: id in copied ==> whole[id] == copied[id])
    && Lists(vs, copied)
  }

  lemma CopyOne(whole: ValueMap, rest: ValueMap, copied: ValueMap, vs: Values, id: int64)
    requires Copying(whole, rest, copied, vs) && id in rest
    ensures Copying(whole, rest - {id}, copied[id := rest[id]], vs + [(id, rest[id])])
    ensures |rest - {id}| < |rest|
  {
    ListsExtend(vs, copied, id, rest[id]);
    assert (rest - {id}).Keys == rest.Keys - {id};
  }

  lemma CopyDone(whole: ValueMap, copied: ValueMap, vs: Values)
    requires Copying(whole, map[], copied, vs)
    ensures Lists(vs, whole)
  {
  }

  lemma LoadLine(m: ValueMap, p: (int64, int64), tail: string)
    ensures LoadInto(m, Line(p) + tail) == LoadInto(m[p.0 := p.1], tail)
  {
    var t1 := Print(p.1) + ("\n" + tail);
    assert Line(p) + tail == Print(p.0) + (" " + t1);
    PrintExtract(p.0, " " + t1);
    ExtractAfterSpace(' ', t1);
    PrintExtract(p.1, "\n" + tail);
    ExtractAfterSpace('\n', tail);
    assert LoadInto(m[p.0 := p.1], "\n" + tail) == LoadInto(m[p.0 := p.1], tail);
  }

  lemma {:induction false} LoadPrinted(m: ValueMap, vs: Values, tail: string)
    ensures LoadInto(m, PrintValues(vs) + tail) == LoadInto(InsertAll(m, vs), tail)
  {
    if vs == [] {
      assert "" + tail == tail;
    } else {
      var n := |vs| - 1;
      var front, line := PrintValues(vs[..n]), Line(vs[n]);
      LoadPrinted(m, vs[..n], line + tail);
      LoadLine(InsertAll(m, vs[..n]), vs[n], tail);
      assert (front + line) + tail == front + (line + tail);
    }
  }

  lemma {:induction false} InsertAllKeys(vs: Values, id: int64)
    ensures id in InsertAll(map[], vs) <==> exists i :: 0 <= i < |vs| && vs[i].0 == id
  {
    if vs != [] {
      InsertAllKeys(vs[..|vs| - 1], id);
    }
  }

  lemma {:induction false} InsertAllValue(vs: Values, i: nat)
    requires i < |vs| && forall y :: i < y < |vs| ==> vs[y].0 != vs[i].0
    ensures vs[i].0 in InsertAll(map[], vs) && InsertAll(map[], vs)[vs[i].0] == vs[i].1
  {
    if i < |vs| - 1 {
      InsertAllValue(vs[..|vs| - 1], i);
    }
  }

  lemma ListingRestores(vs: Values, m: ValueMap)
    requires Lists(vs, m)
    ensures InsertAll(map[], vs) == m
  {
    var r := InsertAll(map[], vs);
    forall id ensures id in r <==> id in m {
      InsertAllKeys(vs, id);
    }
    forall id | id in m ensures r[id] == m[id] {
      var i :| 0 <= i < |vs| && vs[i].0 == id;
      InsertAllValue(vs, i);
    }
  }

  /** Loading the text of any listing of a map gives the map back. */
  lemma SnapshotRoundTrip(vs: Values, m: ValueMap)
    requires Lists(vs, m)
    ensures LoadInto(map[], PrintValues(vs)) == m
  {
    LoadPrinted(map[], vs, "");
    assert PrintValues(vs) + "" == PrintValues(vs);
    ListingRestores(vs, m);
  }

  /** The file in characters. */
  lemma SavedLine(vs: Values, id: int64, value: int64)
    ensures PrintValues([]) == ""
    ensures PrintValues(vs + [(id, value)]) == PrintValues(vs) + (Print(id) + " " + Print(value) + "\n")
  {
    assert (vs + [(id, value)])[..|vs|] == vs;
  }

  /** Of any file the lines in front of the first text that is no pair count, and of several for one id the last. */
  lemma LoadStops(vs: Values, junk: string, i: nat)
    requires i < |vs| && forall y :: i < y < |vs| ==> vs[y].0 != vs[i].0
    requires Extract(junk).None? || Extract(Extract(junk).value.1).None?
    ensures var m := LoadInto(map[], PrintValues(vs) + junk);
            vs[i].0 in m && m[vs[i].0] == vs[i].1
    ensures forall id :: id in LoadInto(map[], PrintValues(vs) + junk) <==> exists k :: 0 <= k < |vs| && vs[k].0 == id
  {
    LoadPrinted(map[], vs, junk);
    InsertAllValue(vs, i);
    forall id ensures id in InsertAll(map[], vs) <==> exists k :: 0 <= k < |vs| && vs[k].0 == id {
      InsertAllKeys(vs, id);
    }
  }

  /** Loading a snapshot taken at index i and replaying the rest of the log gives the state of the whole log. */
  lemma SnapshotThenReplay(rs: seq<Request>, i: nat, vs: Values)
    requires i <= |rs| && Lists(vs, Run(map[], rs[..i]))
    ensures Run(LoadInto(map[], PrintValues(vs)), rs[i..]) == Run(map[], rs)
  {
    SnapshotRoundTrip(vs, Run(map[], rs[..i]));
    RunConcat(map[], rs[..i], rs[i..]);
    assert rs[..i] + rs[i..] == rs;
  }

  // ----- The server object

  class Atomic {
    var valueMap: ValueMap
    var leaderTerm: int64

    constructor ()
      ensures valueMap == map[] && leaderTerm == -1
    {
      valueMap := map[];
      leaderTerm := -1;
    }

    /** Propose a request: an entry for the log with its closure, or None for a redirect. */
    method Apply(codec: Codec, request: Request) returns (task: Option<Entry>)
      requires codec.Valid()
      ensures task.Some? <==> leaderTerm >= 0
      ensures task.Some? ==> Consistent(codec, task.value) && Decoded(codec, task.value) == Some(request)
      ensures task.Some? ==> Decoded(codec, task.value.(closure := None)) == Some(request)
    {
      if leaderTerm < 0 {
        return None;
      }
      var log := [Opcode(request)] + codec.serialize(request);
      task := Some(Entry(log, Some(request)));
      FrameDecodes(codec, task.value, request);
      FrameDecodes(codec, task.value.(closure := None), request);
    }

    /**
      Apply one batch. Entries that carry a closure get their response; the method
      stops at the first entry that fails a CHECK.
    */
    method OnApply(codec: Codec, es: seq<Entry>) returns (responses: seq<Option<Response>>)
      modifies this`valueMap
      ensures valueMap == Run(old(valueMap), Executed(codec, es))
      ensures Answered(old(valueMap), es, Executed(codec, es), responses)
    {
      responses := [];
      ghost var m0, executed: seq<Request> := valueMap, [];
      assert es[0..] == es;
      for i := 0 to |es|
        invariant |executed| == i
        invariant Executed(codec, es) == executed + Executed(codec, es[i..])
        invariant valueMap == Run(m0, executed)
        invariant Answered(m0, es, executed, responses)
      {
        var request := Decoded(codec, es[i]);
        ExecutedStep(codec, es, i, executed);
        if request.None? {
          return;
        }
        AnswerNext(m0, es, executed, responses, request.value);
        var (next, response) := Execute(valueMap, request.value);
        valueMap := next;
        responses := responses + [if es[i].closure.Some? then Some(response) else None];
        executed := executed + [request.value];
      }
      assert executed + [] == executed;
    }

    /** Copy the map, in whatever order it is iterated. */
    method OnSnapshotSave() returns (vs: Values)
      ensures Lists(vs, valueMap)
    {
      vs := [];
      var rest := valueMap;
      ghost var copied: ValueMap := map[];
      while rest != map[]
        invariant Copying(valueMap, rest, copied, vs)
        decreases |rest|
      {
        var id :| id in rest;
        CopyOne(valueMap, rest, copied, vs, id);
        vs, copied, rest := vs + [(id, rest[id])], copied[id := rest[id]], rest - {id};
      }
      CopyDone(valueMap, copied, vs);
    }

    /** Write the copied pairs to the snapshot file. */
    static method SaveSnapshot(vs: Values) returns (text: string)
      ensures text == PrintValues(vs)
    {
      text := "";
      for i := 0 to |vs|
        invariant text == PrintValues(vs[..i])
      {
        assert vs[..i + 1][..i] == vs[..i];
        text := text + Line(vs[i]);
      }
      assert vs[..|vs|] == vs;
    }

    method OnSnapshotLoad(text: string)
      requires leaderTerm == -1
      modifies this`valueMap
      ensures valueMap == LoadInto(map[], text)
    {
      valueMap := map[];
      var rest := text;
      while true
        invariant LoadInto(valueMap, rest) == LoadInto(map[], text)
        decreases |rest|
      {
        var id := Extract(rest);
        if id.None? {
          return;
        }
        var value := Extract(id.value.1);
        if value.None? {
          return;
        }
        valueMap := valueMap[id.value.0 := value.value.0];
        rest := value.value.1;
      }
    }

    /** The file is written in a separate fiber while later batches are applied; it still holds the copied state. */
    method SnapshotWhileApplying(codec: Codec, es: seq<Entry>) returns (text: string)
      modifies this`valueMap
      ensures LoadInto(map[], text) == old(valueMap)
      ensures valueMap == Run(old(valueMap), Executed(codec, es))
    {
      var vs := OnSnapshotSave();
      SnapshotRoundTrip(vs, valueMap);
      var _ := OnApply(codec, es);
      text := SaveSnapshot(vs);
    }
  }
}
