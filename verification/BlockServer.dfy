/**
  The replicated block device of example/block/server.cc.

  A committed entry is a length-prefixed request header followed by the data to
  write. Every replica applies the writes to one local file.
*/
module BlockServer {
  import opened Wrappers
  import opened Decimal
  import opened Bytes
  import opened Protobuf
  import opened BlockFile

  // ----- Log entries

  /** The size is optional in the message and plays no part in a write. */
  datatype BlockRequest = BlockRequest(offset: int64, size: Option<int32>)

  /** What the server relies on of protobuf; ByteSize fits the length prefix. */
  datatype Codec = Codec(serialize: BlockRequest -> seq<Byte>, parse: seq<Byte> -> Option<BlockRequest>) {
    ghost predicate Valid() {
      forall r :: |serialize(r)| < UINT32_LIMIT && parse(serialize(r)) == Some(r)
    }
  }

  function RequestFields(r: BlockRequest): seq<Field> {
    [Field(TAG_1, Unsigned(r.offset))] + if r.size.Some? then [Field(TAG_2, Unsigned(r.size.value))] else []
  }

  function SerializeRequest(r: BlockRequest): seq<Byte> {
    Serialize(RequestFields(r))
  }

  /** Parsing fails on malformed bytes and on a missing offset, which is required. */
  function ParseRequest(b: seq<Byte>): Option<BlockRequest> {
    match Parse(b)
    case None => None
    case Some(fields) =>
      var offset, size := Lookup(fields, TAG_1), Lookup(fields, TAG_2);
      if offset.None? then None
      else Some(BlockRequest(Signed64(offset.value), if size.Some? then Some(Signed32(size.value)) else None))
  }

  /** A header parses if and only if it has an offset, and has a size if and only if it was sent. */
  lemma HeaderParsesIff(fields: seq<Field>)
    ensures var r := ParseRequest(Serialize(fields));
            && (r.Some? <==> Has(fields, 8))
            && (r.Some? ==> (r.value.size.Some? <==> Has(fields, 16)))
  {
    FieldsRoundTrip(fields);
    LookupIff(fields, 8);
    LookupIff(fields, 16);
  }

  const PROTOBUF := Codec(SerializeRequest, ParseRequest)

  lemma RequestRoundTrip(r: BlockRequest)
    ensures ParseRequest(SerializeRequest(r)) == Some(r) && |SerializeRequest(r)| <= 22
  {
    var fields := RequestFields(r);
    FieldsRoundTrip(fields);
    SerializedLength(fields);
    SignedUnsigned(r.offset);
    if r.size.Some? {
      SignedUnsigned(r.size.value);
      assert fields[..1] == [fields[0]];
      assert Lookup(fields, TAG_1) == Lookup(fields[..1], TAG_1) == Some(fields[0].value);
    } else {
      assert fields == [fields[0]];
      assert Lookup(fields[..0], TAG_2) == None;
      assert Lookup(fields, TAG_2) == None;
    }
  }

  /** The wire format of protobuf is such a codec. */
  lemma ProtobufIsValid()
    ensures PROTOBUF.Valid()
  {
    forall r ensures |PROTOBUF.serialize(r)| < UINT32_LIMIT && PROTOBUF.parse(PROTOBUF.serialize(r)) == Some(r) {
      RequestRoundTrip(r);
    }
  }

  /** A committed entry; the closure (request and attachment) is present on the node that proposed it. */
  datatype Entry = Entry(log: seq<Byte>, closure: Option<(BlockRequest, seq<Byte>)>)

  /** What Block::write puts into the log. */
  function Frame(codec: Codec, request: BlockRequest, data: seq<Byte>): seq<Byte>
    requires |codec.serialize(request)| < UINT32_LIMIT
  {
    var meta := codec.serialize(request);
    BigEndian32(|meta|) + meta + data
  }

  /** The log of a write in bytes, by the field numbers of example/block/block.proto. */
  lemma LogBytes(offset: int64, size: int32, data: seq<Byte>)
    ensures var o, s := Varint(Unsigned(offset)), Varint(Unsigned(size));
            && |o| <= 10 && |s| <= 10
            && |SerializeRequest(BlockRequest(offset, None))| <= 22
            && |SerializeRequest(BlockRequest(offset, Some(size)))| <= 22
            && Frame(PROTOBUF, BlockRequest(offset, None), data) == [0, 0, 0, 1 + |o|] + ([8] + o) + data
            && Frame(PROTOBUF, BlockRequest(offset, Some(size)), data) ==
               [0, 0, 0, 2 + |o| + |s|] + ([8] + o + [16] + s) + data
  {
    var o, s := Field(TAG_1, Unsigned(offset)), Field(TAG_2, Unsigned(size));
    Int64Length(o.value);
    Int64Length(s.value);
    SerializeOne(o);
    SerializeTwo(o, s);
    assert RequestFields(BlockRequest(offset, None)) == [o];
    assert RequestFields(BlockRequest(offset, Some(size))) == [o, s];
    SmallLength(1 + |Varint(o.value)|);
    SmallLength(2 + |Varint(o.value)| + |Varint(s.value)|);
  }

  lemma SmallLength(n: nat)
    requires n < 256
    ensures BigEndian32(n) == [0, 0, 0, n]
  {
  }

  /** The parsing path of on_apply: cut the length, cut the header, keep the rest. */
  function SplitFrame(log: seq<Byte>): (seq<Byte>, seq<Byte>) {
    var (size, rest) := CutN(log, 4);
    CutN(rest, FromBigEndian32(size))
  }

  /** The write an entry stands for, None where the CHECK on parsing stops the process. */
  function Decoded(codec: Codec, e: Entry): Option<Write> {
    if e.closure.Some? then Some(Write(e.closure.value.0.offset, e.closure.value.1))
    else
      var (meta, data) := SplitFrame(e.log);
      var request := codec.parse(meta);
      if request.None? then None else Some(Write(request.value.offset, data))
  }

  lemma SplitUndoesFrame(codec: Codec, request: BlockRequest, data: seq<Byte>)
    requires codec.Valid()
    ensures SplitFrame(Frame(codec, request, data)) == (codec.serialize(request), data)
  {
    var meta := codec.serialize(request);
    var b := BigEndian32(|meta|);
    BigEndianRoundTrip(|meta|);
    var log := Frame(codec, request, data);
    assert log[..4] == b && log[4..] == meta + data;
    assert (meta + data)[..|meta|] == meta && (meta + data)[|meta|..] == data;
  }

  /** The closure path and the parsing path execute the same write. */
  lemma PathsAgree(codec: Codec, request: BlockRequest, data: seq<Byte>, closure: Option<(BlockRequest, seq<Byte>)>)
    requires codec.Valid() && (closure.Some? ==> closure.value == (request, data))
    ensures Decoded(codec, Entry(Frame(codec, request, data), closure)) == Some(Write(request.offset, data))
  {
    SplitUndoesFrame(codec, request, data);
  }

  // ----- The server object

  ghost function Writes(codec: Codec, es: seq<Entry>): seq<Write>
    requires AllDecode(codec, es)
  {
    seq(|es|, k requires 0 <= k < |es| => assert es[k] in es; Decoded(codec, es[k]).value)
  }

  /** How a batch ended: applied, stopped by a CHECK, or by a failed write. */
  datatype Stop = Finished | CheckFailed | WriteFailed

  ghost predicate AllDecode(codec: Codec, es: seq<Entry>) {
    forall e :: e in es ==> Decoded(codec, e).Some?
  }

  /** The first n entries of a batch were written, and their responses say so. */
  ghost predicate Applied(codec: Codec, es: seq<Entry>, h: Handle, parts: seq<seq<nat>>, limit: nat,
                          n: nat, success: seq<Option<bool>>) {
    && n <= |es| && n <= |success|
    && AllDecode(codec, es[..n])
    && (forall k :: 0 <= k < n ==>
          && CompletesAt(h, Writes(codec, es[..n]), parts, limit, k)
          && success[k] == if es[k].closure.Some? then Some(true) else None)
  }

  /** That is all that has happened since the file was `h`. */
  ghost predicate AppliedOnly(codec: Codec, es: seq<Entry>, h: Handle, parts: seq<seq<nat>>, limit: nat,
                              n: nat, success: seq<Option<bool>>, now: Handle) {
    && Applied(codec, es, h, parts, limit, n, success) && |success| == n
    && now == HandleAfter(h, Writes(codec, es[..n]), parts, limit)
  }

  /** Then the write of entry n failed, part of its data perhaps being in the file. */
  ghost predicate AppliedThenFailed(codec: Codec, es: seq<Entry>, h: Handle, parts: seq<seq<nat>>, limit: nat,
                                    n: nat, success: seq<Option<bool>>, now: Handle) {
    && Applied(codec, es, h, parts, limit, n, success)
    && n < |es| && |success| == n + 1
    && success[n] == (if es[n].closure.Some? then Some(false) else None)
    && AllDecode(codec, es[..n + 1])
    && var ws := Writes(codec, es[..n + 1]);
    && !CompletesAt(h, ws, parts, limit, n)
    && now == HandleAfter(h, ws, parts, limit)
  }

  /** Endless: a negative size, compared as an unsigned one, asks the buffer to grow to almost 2^64 bytes. */
  datatype ReadResult = Redirect | Failed | Endless | Data(bytes: seq<Byte>)

  class Block {
    /** The contents behind _fd, and the position of that descriptor. */
    var file: seq<Byte>
    var pos: nat
    var leaderTerm: int64
    /** The largest file the file system allows. */
    const limit: nat

    constructor (limit: nat)
      ensures file == [] && pos == 0 && leaderTerm == -1 && this.limit == limit
    {
      this.limit := limit;
      file, pos := [], 0;
      leaderTerm := -1;
    }

    /** Propose a write: an entry for the log with its closure, or None for a redirect. */
    method WriteBlock(codec: Codec, request: BlockRequest, data: seq<Byte>) returns (task: Option<Entry>)
      requires codec.Valid()
      ensures task.Some? <==> leaderTerm >= 0
      ensures task.Some? ==>
                && Decoded(codec, task.value) == Some(Write(request.offset, data))
                && Decoded(codec, task.value.(closure := None)) == Some(Write(request.offset, data))
    {
      if leaderTerm < 0 {
        return None;
      }
      var log := BigEndian32(|codec.serialize(request)|);
      log := log + codec.serialize(request);
      log := log + data;
      task := Some(Entry(log, Some((request, data))));
      PathsAgree(codec, request, data, task.value.closure);
      PathsAgree(codec, request, data, None);
    }

    /** The open file as a value. */
    function View(): Handle
      reads this
    {
      Handle(file, pos)
    }

    /** file_pwrite, driven by the sizes the system writes. */
    method FilePwrite(w: Write, parts: seq<nat>) returns (ok: bool)
      modifies this`file, this`pos
      ensures View() == Attempt(old(View()), w, parts, limit)
      ensures ok <==> Completes(old(View()), w, parts, limit)
    {
      ghost var h := View();
      var offset: int, left, i := w.offset, w.data, 0;
      TracksStart(h, w, parts, limit);
      while |left| > 0
        invariant Tracks(h, w, parts, limit, i, Progress(pos, offset, left), file)
        decreases |left|
      {
        ghost var p := Progress(pos, offset, left);
        var at := if offset >= 0 then offset else pos;
        if i == |parts| || parts[i] == 0 || |left| < parts[i] || limit < at + parts[i] {
          TracksEnd(h, w, parts, limit, i, p, file);
          return false;
        }
        TracksNext(h, w, parts, limit, i, p, file);
        var written := parts[i];
        file := Pwrite(file, Patch(at, left[..written]));
        if offset < 0 {
          pos := pos + written;
        }
        offset, left, i := offset + written, left[written..], i + 1;
        assert Progress(pos, offset, left) == Onward(p, written);
      }
      TracksEnd(h, w, parts, limit, i, Progress(pos, offset, left), file);
      ok := true;
    }

    /**
      Apply one batch, the write of entry k driven by parts[k]. Returns the number of
      entries applied and the success flag set in each closure's response.
    */
    method OnApply(codec: Codec, es: seq<Entry>, parts: seq<seq<nat>>)
      returns (applied: nat, stop: Stop, success: seq<Option<bool>>)
      modifies this`file, this`pos
      ensures applied <= |es| && (stop.Finished? <==> applied == |es|)
      ensures stop.CheckFailed? <==> applied < |es| && Decoded(codec, es[applied]).None?
      ensures |success| == if stop.WriteFailed? then applied + 1 else applied
      ensures forall k :: 0 <= k < applied ==> success[k] == if es[k].closure.Some? then Some(true) else None
      ensures stop.WriteFailed? ==> success[applied] == if es[applied].closure.Some? then Some(false) else None
      ensures !stop.WriteFailed? ==> AppliedOnly(codec, es, old(View()), parts, limit, applied, success, View())
      ensures stop.WriteFailed? ==> AppliedThenFailed(codec, es, old(View()), parts, limit, applied, success, View())
    {
      applied, stop, success := 0, Finished, [];
      ghost var h := View();
      while applied < |es|
        invariant applied <= |es| && stop == Finished
        invariant AppliedOnly(codec, es, h, parts, limit, applied, success, View())
      {
        var e := es[applied];
        var w := Decoded(codec, e);
        if w.None? {
          stop := CheckFailed;
          return;
        }
        AppliedNext(codec, es, h, parts, limit, applied, success, View());
        var ok := FilePwrite(w.value, PartsAt(parts, applied));
        success := success + [if e.closure.Some? then Some(ok) else None];
        if !ok {
          stop := WriteFailed;
          return;
        }
        applied := applied + 1;
      }
    }

    /**
      Read from the leader: the bytes of the file, zero-padded past its end. `fails`
      tells whether the disk fails during the read.
    */
    method Read(offset: int64, size: int32, fails: bool) returns (r: ReadResult)
      ensures r.Redirect? <==> leaderTerm <= 0
      ensures r.Failed? <==> leaderTerm > 0 && (offset < 0 || (size > 0 && fails))
      ensures r.Endless? <==> leaderTerm > 0 && offset >= 0 && size < 0
      ensures r.Data? ==> |r.bytes| == size && forall k :: 0 <= k < size ==> r.bytes[k] == ByteAt(file, offset + k)
    {
      if leaderTerm <= 0 {
        return Redirect;
      }
      if offset < 0 || (size > 0 && fails) {
        return Failed;
      }
      var buf: seq<Byte> := [];
      var left, at := size as int, offset as int;
      while left > 0 && at < |file|
        invariant size <= 0 ==> buf == [] && left == size
        invariant size >= 0 ==> left >= 0 && |buf| + left == size
        invariant at == offset + |buf| && forall k :: 0 <= k < |buf| ==> buf[k] == ByteAt(file, offset + k)
      {
        // One pread returns at least one byte before the end of the file.
        buf, left, at := buf + [file[at]], left - 1, at + 1;
      }
      if size < 0 {
        return Endless;
      }
      if |buf| < size {
        buf := buf + Zeros(size - |buf|);
      }
      r := Data(buf);
    }
  }

  /** The writes of one more entry. */
  lemma WritesNext(codec: Codec, es: seq<Entry>, n: nat)
    requires n < |es| && AllDecode(codec, es[..n]) && Decoded(codec, es[n]).Some?
    ensures AllDecode(codec, es[..n + 1])
    ensures Writes(codec, es[..n + 1]) == Writes(codec, es[..n]) + [Decoded(codec, es[n]).value]
  {
    assert es[..n + 1] == es[..n] + [es[n]];
  }

  /** What the next write decides. */
  lemma AppliedNext(codec: Codec, es: seq<Entry>, h: Handle, parts: seq<seq<nat>>, limit: nat,
                    n: nat, success: seq<Option<bool>>, now: Handle)
    requires AppliedOnly(codec, es, h, parts, limit, n, success, now) && n < |es| && Decoded(codec, es[n]).Some?
    ensures var w := Decoded(codec, es[n]).value;
            var next := Attempt(now, w, PartsAt(parts, n), limit);
            var ok := Completes(now, w, PartsAt(parts, n), limit);
            var replies := success + [if es[n].closure.Some? then Some(ok) else None];
            if ok then AppliedOnly(codec, es, h, parts, limit, n + 1, replies, next)
            else AppliedThenFailed(codec, es, h, parts, limit, n, replies, next)
  {
    var w, ws := Decoded(codec, es[n]).value, Writes(codec, es[..n]);
    WritesNext(codec, es, n);
    SeriesNext(h, ws, w, parts, limit);
    if Completes(now, w, PartsAt(parts, n), limit) {
      forall k | 0 <= k <= n ensures CompletesAt(h, ws + [w], parts, limit, k) {
        assert k < n ==> CompletesAt(h, ws, parts, limit, k);
      }
    }
  }

  /** A read from a file that has applied the writes returns the bytes of the reference disk. */
  lemma ReadIsDisk(ws: seq<Patch>, bytes: seq<Byte>, offset: nat)
    requires forall k :: 0 <= k < |bytes| ==> bytes[k] == ByteAt(FileAfter([], ws), offset + k)
    ensures forall k :: 0 <= k < |bytes| ==> bytes[k] == Disk(ws, offset + k)
  {
    forall k | 0 <= k < |bytes| ensures bytes[k] == Disk(ws, offset + k) {
      FileIsDisk(ws, offset + k);
    }
  }
}
